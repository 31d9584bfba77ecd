/**
 Validators (windermere/validation.go) and the parser given to the backends
 (objectParser and validatingObjectParser in windermere/windermere.go).
 */
module Validation {
  import opened Wrappers
  import opened JsonTrees
  import opened Objects

  /** A validator accepts or refuses an object; the error text is not modelled. */
  type Validator = Object -> bool

  predicate IsDigit(c: char) {
    '0' <= c <= '9'
  }

  predicate IsHex(c: char) {
    IsDigit(c) || 'a' <= c <= 'f' || 'A' <= c <= 'F'
  }

  predicate AllHex(s: string) {
    forall i :: 0 <= i < |s| ==> IsHex(s[i])
  }

  /** The anchored pattern: groups of hex digits of the given lengths, separated by dashes. */
  predicate MatchesGroups(s: string, groups: seq<nat>)
    requires groups != []
    decreases |groups|
  {
    if |groups| == 1 then |s| == groups[0] && AllHex(s)
    else
      && |s| > groups[0]
      && AllHex(s[..groups[0]])
      && s[groups[0]] == '-'
      && MatchesGroups(s[groups[0] + 1..], groups[1..])
  }

  predicate IsUuid(s: string) {
    MatchesGroups(s, [8, 4, 4, 4, 12])
  }

  predicate IsDashPosition(i: int) {
    i == 8 || i == 13 || i == 18 || i == 23
  }

  lemma LastGroup(s: string, g: nat)
    ensures MatchesGroups(s, [g]) <==> |s| == g && AllHex(s)
  {
  }

  lemma FirstGroup(s: string, groups: seq<nat>)
    requires |groups| >= 2
    ensures MatchesGroups(s, groups) <==>
            |s| > groups[0] && AllHex(s[..groups[0]]) && s[groups[0]] == '-'
                && MatchesGroups(s[groups[0] + 1..], groups[1..])
  {
  }

  /** The pattern accepts exactly the 36-character strings with dashes at four places and hex digits elsewhere. */
  lemma UuidShape(s: string)
    ensures IsUuid(s) <==>
            |s| == 36 && forall i :: 0 <= i < 36 ==> if IsDashPosition(i) then s[i] == '-' else IsHex(s[i])
  {
    FirstGroup(s, [8, 4, 4, 4, 12]);
    assert [8, 4, 4, 4, 12][1..] == [4, 4, 4, 12];
    if |s| > 8 {
      var s1 := s[9..];
      FirstGroup(s1, [4, 4, 4, 12]);
      assert [4, 4, 4, 12][1..] == [4, 4, 12];
      if |s1| > 4 {
        var s2 := s1[5..];
        assert s2 == s[14..];
        FirstGroup(s2, [4, 4, 12]);
        assert [4, 4, 12][1..] == [4, 12];
        if |s2| > 4 {
          var s3 := s2[5..];
          assert s3 == s[19..];
          FirstGroup(s3, [4, 12]);
          assert [4, 12][1..] == [12];
          if |s3| > 4 {
            var s4 := s3[5..];
            assert s4 == s[24..];
            LastGroup(s4, 12);
            UuidPieces(s);
          }
        }
      }
    }
  }

  /** Hex groups between the dashes, said of the pieces and of the whole string. */
  lemma UuidPieces(s: string)
    requires |s| >= 24
    ensures && AllHex(s[..8]) && AllHex(s[9..][..4]) && AllHex(s[14..][..4]) && AllHex(s[19..][..4]) && AllHex(s[24..])
            && s[8] == s[13] == s[18] == s[23] == '-'
            <==> forall i :: 0 <= i < |s| ==> if IsDashPosition(i) then s[i] == '-' else IsHex(s[i])
  {
    assert forall i :: 0 <= i < 8 ==> s[..8][i] == s[i];
    assert forall i :: 9 <= i < 13 ==> s[9..][..4][i - 9] == s[i];
    assert forall i :: 14 <= i < 18 ==> s[14..][..4][i - 14] == s[i];
    assert forall i :: 19 <= i < 23 ==> s[19..][..4][i - 19] == s[i];
    assert forall i :: 24 <= i < |s| ==> s[24..][i - 24] == s[i];
  }

  /** The unanchored pattern for eight consecutive digits. */
  predicate HasEightDigits(s: string) {
    exists i | 0 <= i <= |s| - 8 :: EightDigitsAt(s, i)
  }

  predicate EightDigitsAt(s: string, i: nat)
    requires i + 8 <= |s|
  {
    forall j :: i <= j < i + 8 ==> IsDigit(s[j])
  }

  predicate OnlyDigits(s: string) {
    forall c :: c in s ==> c in "0123456789"
  }

  /** Some eight characters in a row are decimal digits. */
  ghost predicate HoldsEightDigits(s: string) {
    exists i :: DigitsFrom(s, i)
  }

  predicate DigitsFrom(s: string, i: int) {
    0 <= i <= |s| - 8 && OnlyDigits(s[i..i + 8])
  }

  /** The pattern says so. */
  lemma EightDigitsMeans(s: string)
    ensures HasEightDigits(s) <==> HoldsEightDigits(s)
  {
    forall i | 0 <= i <= |s| - 8
      ensures EightDigitsAt(s, i) <==> DigitsFrom(s, i)
    {
      forall c: char ensures IsDigit(c) <==> c in "0123456789" { DigitMeans(c); }
      assert forall j :: i <= j < i + 8 ==> s[j] == s[i..i + 8][j - i];
    }
    assert HoldsEightDigits(s) ==> exists i | 0 <= i <= |s| - 8 :: DigitsFrom(s, i);
  }

  lemma DigitMeans(c: char)
    ensures IsDigit(c) <==> c in "0123456789"
  {
    var n := c as int - '0' as int;
    if IsDigit(c) {
      assert "0123456789"[n] == c;
    }
  }

  lemma HexMeans(c: char)
    ensures IsHex(c) <==> c in "0123456789abcdefABCDEF"
  {
    DigitMeans(c);
    var lower, upper := c as int - 'a' as int + 10, c as int - 'A' as int + 16;
    assert "0123456789abcdefABCDEF"[..10] == "0123456789";
    if 'a' <= c <= 'f' {
      assert "0123456789abcdefABCDEF"[lower] == c;
    } else if 'A' <= c <= 'F' {
      assert "0123456789abcdefABCDEF"[upper] == c;
    }
  }

  predicate UuidValid(o: Object) {
    IsUuid(o.id)
  }

  predicate SchoolUnitCodeValid(o: Object) {
    o.SchoolUnit? ==> HasEightDigits(o.schoolUnitCode)
  }

  /** Which optional validators are configured. */
  datatype Config = Config(uuid: bool, schoolUnitCode: bool)

  predicate Valid(config: Config, o: Object) {
    (config.uuid ==> UuidValid(o)) && (config.schoolUnitCode ==> SchoolUnitCodeValid(o))
  }

  /**
   What the configured validators accept: ids of 36 characters with dashes at four places and hex
   digits elsewhere, and for school units codes that hold eight digits in a row.
   */
  lemma ValidMeans(config: Config, o: Object)
    ensures Valid(config, o) <==>
            && (config.uuid ==>
                  && |o.id| == 36
                  && forall i :: 0 <= i < 36 ==>
                       if i in {8, 13, 18, 23} then o.id[i] == '-' else o.id[i] in "0123456789abcdefABCDEF")
            && (config.schoolUnitCode && o.SchoolUnit? ==> HoldsEightDigits(o.schoolUnitCode))
  {
    UuidShape(o.id);
    forall c ensures IsHex(c) <==> c in "0123456789abcdefABCDEF" { HexMeans(c); }
    if o.SchoolUnit? {
      EightDigitsMeans(o.schoolUnitCode);
    }
  }

  ghost predicate AllAccept(validators: seq<Validator>, o: Object) {
    forall i :: 0 <= i < |validators| ==> validators[i](o)
  }

  lemma OneMoreAccepts(validators: seq<Validator>, v: Validator, o: Object)
    ensures AllAccept(validators + [v], o) <==> AllAccept(validators, o) && v(o)
  {
    var more := validators + [v];
    assert more[|validators|] == v;
    assert forall i :: 0 <= i < |validators| ==> more[i] == validators[i];
  }

  method CreateOptionalValidator(config: Config) returns (validators: seq<Validator>)
    ensures forall o :: AllAccept(validators, o) <==> Valid(config, o)
  {
    validators := [];
    if config.uuid {
      forall o { OneMoreAccepts(validators, UuidValid, o); }
      validators := validators + [UuidValid];
    }
    if config.schoolUnitCode {
      forall o { OneMoreAccepts(validators, SchoolUnitCodeValid, o); }
      validators := validators + [SchoolUnitCodeValid];
    }
  }

  /** MultiValidator: in order, stopping at the first refusal. */
  method Validate(validators: seq<Validator>, o: Object) returns (ok: bool)
    ensures ok <==> AllAccept(validators, o)
  {
    for i := 0 to |validators|
      invariant forall j :: 0 <= j < i ==> validators[j](o)
    {
      if !validators[i](o) {
        return false;
      }
    }
    return true;
  }

  // ---------- parsing ----------

  function NameOf(kind: Kind): string {
    match kind
    case Users => "Users"
    case StudentGroups => "StudentGroups"
    case Organisations => "Organisations"
    case SchoolUnitGroups => "SchoolUnitGroups"
    case SchoolUnits => "SchoolUnits"
    case Employments => "Employments"
    case Activities => "Activities"
  }

  /** mainTable: the table for a resource type, or none when the type is not recognised. */
  function KindNamed(resourceType: string): (kind: Option<Kind>)
    ensures kind.Some? ==> NameOf(kind.value) == resourceType
  {
    if resourceType == "Users" then Some(Users)
    else if resourceType == "StudentGroups" then Some(StudentGroups)
    else if resourceType == "Organisations" then Some(Organisations)
    else if resourceType == "SchoolUnitGroups" then Some(SchoolUnitGroups)
    else if resourceType == "SchoolUnits" then Some(SchoolUnits)
    else if resourceType == "Employments" then Some(Employments)
    else if resourceType == "Activities" then Some(Activities)
    else None
  }

  /** The seven type names, and no others. */
  lemma TypeNames(resourceType: string, kind: Kind)
    ensures KindNamed(resourceType) == Some(kind) <==>
            || (resourceType == "Users" && kind == Users)
            || (resourceType == "StudentGroups" && kind == StudentGroups)
            || (resourceType == "Organisations" && kind == Organisations)
            || (resourceType == "SchoolUnitGroups" && kind == SchoolUnitGroups)
            || (resourceType == "SchoolUnits" && kind == SchoolUnits)
            || (resourceType == "Employments" && kind == Employments)
            || (resourceType == "Activities" && kind == Activities)
  {
  }

  lemma KindOfName(kind: Kind)
    ensures KindNamed(NameOf(kind)) == Some(kind)
  {
  }

  /** The validating parser: decode as the kind's type, then validate. */
  function Parse(config: Config, kind: Kind, text: Text): (r: Result<Object>)
    ensures r.Success? ==> KindOf(r.value) == kind && Valid(config, r.value)
    ensures r.Failure? <==>
            text.NotJson? || Decode(kind, text.json).Failure? || !Valid(config, Decode(kind, text.json).value)
  {
    if text.NotJson? then Failure
    else
      var o :- Decode(kind, text.json);
      if Valid(config, o) then Success(o) else Failure
  }

  /**
   Which encoded objects are accepted, and as what: those that the configured validators allow,
   except users with an empty family or given name.
   */
  lemma ParseOfEncode(config: Config, o: Object)
    ensures Parse(config, KindOf(o), Tree(Encode(o))) ==
            if HasNames(o) && Valid(config, o) then Success(OmitEmpty(o)) else Failure
  {
    DecodeOfEncode(o);
    assert OmitEmpty(o).id == o.id && (o.SchoolUnit? ==> OmitEmpty(o) == o);
  }
}
