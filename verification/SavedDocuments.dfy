/**
 The in-memory backend's stored resources and the documents they are saved in
 (the types at scimserverlite/inmemory.go:29-49 and the decoding in Load).

 A document is a JSON tree whose strings are resource texts; an object is its members in order.
 A nil map is an empty one.
 */
module SavedDocuments {
  import opened Wrappers
  import opened JsonTrees

  type ByType<T> = map<string, map<string, T>>
  type ByTenant<T> = map<string, ByType<T>>

  datatype Saved = SavedNull | Number(n: int) | Resource(text: Text) | Members(members: seq<(string, Saved)>)

  const CURRENT_VERSION := 1

  // ---------- decoding ----------

  /** Decodes the members into a map; a repeated name counts once, with its last value. */
  function DecodeMembers<T>(members: seq<(string, Saved)>, decode: Saved -> Result<T>): Result<map<string, T>> {
    if members == [] then Success(map[])
    else
      var n := |members| - 1;
      var rest :- DecodeMembers(members[..n], decode);
      var last :- decode(members[n].1);
      Success(rest[members[n].0 := last])
  }

  function DecodeMap<T>(j: Saved, decode: Saved -> Result<T>): Result<map<string, T>> {
    match j
    case SavedNull => Success(map[])
    case Members(members) => DecodeMembers(members, decode)
    case _ => Failure
  }

  /** A null where a string is expected reads as the empty string, which is no JSON. */
  function DecodeText(j: Saved): Result<Text> {
    match j
    case SavedNull => Success(NotJson)
    case Resource(text) => Success(text)
    case _ => Failure
  }

  function DecodeTexts(j: Saved): Result<map<string, Text>> {
    DecodeMap(j, DecodeText)
  }

  function DecodeByType(j: Saved): Result<ByType<Text>> {
    DecodeMap(j, DecodeTexts)
  }

  function DecodeByTenant(j: Saved): Result<ByTenant<Text>> {
    DecodeMap(j, DecodeByType)
  }

  function DecodeVersion(j: Saved): Result<int> {
    match j
    case SavedNull => Success(0)
    case Number(n) => Success(n)
    case _ => Failure
  }

  /** The value of a struct field: the last member of that name, or null if there is none. */
  function Field(members: seq<(string, Saved)>, name: string): Saved {
    if members == [] then SavedNull
    else if members[|members| - 1].0 == name then members[|members| - 1].1
    else Field(members[..|members| - 1], name)
  }

  /** The resources a document holds: under Resources, or for version 0 the whole document for tenant "". */
  function Loaded(doc: Saved): Result<ByTenant<Text>> {
    if !doc.Members? && !doc.SavedNull? then Failure
    else
      var members := if doc.Members? then doc.members else [];
      var version := DecodeVersion(Field(members, "Version"));
      var resources := DecodeByTenant(Field(members, "Resources"));
      if version.Failure? || resources.Failure? then Failure
      else if version.value != 0 then resources
      else
        var legacy :- DecodeByType(doc);
        Success(map["" := legacy])
  }

  /** Of several members with one name the last counts. */
  lemma LastMemberCounts(members: seq<(string, Saved)>, name: string, value: Saved, other: string)
    ensures Field(members + [(name, value)], other) == if other == name then value else Field(members, other)
  {
    var more := members + [(name, value)];
    assert more[..|more| - 1] == members;
  }

  /**
   Members decode exactly when each does. The map has their names, and under each what the last
   member of that name decodes to.
   */
  lemma {:induction false} MembersDecode<T>(members: seq<(string, Saved)>, decode: Saved -> Result<T>, name: string)
    ensures DecodeMembers(members, decode).Success? <==>
            forall i :: 0 <= i < |members| ==> decode(members[i].1).Success?
    ensures DecodeMembers(members, decode).Success? ==>
              var m := DecodeMembers(members, decode).value;
              && (name in m <==> exists i :: 0 <= i < |members| && members[i].0 == name)
              && (name in m ==> decode(Field(members, name)) == Success(m[name]))
  {
    if members != [] {
      MembersDecode(members[..|members| - 1], decode, name);
    }
  }

  /** What is no object: null is an empty map, an unparsable text, or a document without resources. */
  lemma OtherShapes<T>(j: Saved, decode: Saved -> Result<T>, text: Text)
    ensures DecodeText(j) == Success(text) <==> j == Resource(text) || (j == SavedNull && text == NotJson)
    ensures j == SavedNull ==> DecodeMap(j, decode) == Success(map[]) && Loaded(j) == Success(map["" := map[]])
    ensures j.Number? || j.Resource? ==> DecodeMap(j, decode).Failure? && Loaded(j).Failure?
  {
  }

  /** With any version but 0 a document holds what is under Resources; no version, or null, is version 0. */
  lemma VersionDecides(members: seq<(string, Saved)>, version: Saved)
    requires Field(members, "Version") == version
    requires DecodeByTenant(Field(members, "Resources")).Success?
    ensures version.Number? && version.n != 0 ==>
              Loaded(Members(members)) == DecodeByTenant(Field(members, "Resources"))
    ensures version == Number(0) || version == SavedNull ==>
              Loaded(Members(members)) ==
              if DecodeByType(Members(members)).Failure? then Failure
              else Success(map["" := DecodeByType(Members(members)).value])
    ensures !version.Number? && version != SavedNull ==> Loaded(Members(members)) == Failure
  {
  }

  // ---------- saving ----------

  method SaveTexts(m: map<string, Text>) returns (doc: Saved)
    ensures doc.Members? && DecodeTexts(doc) == Success(m)
  {
    var members: seq<(string, Saved)>, left := [], m.Keys;
    ghost var done: map<string, Text> := map[];
    while left != {}
      invariant left <= m.Keys && done.Keys == m.Keys - left && forall k :: k in done ==> done[k] == m[k]
      invariant DecodeMembers(members, DecodeText) == Success(done)
    {
      var k :| k in left;
      left := left - {k};
      OneMoreMember(members, DecodeText, k, Resource(m[k]));
      members := members + [(k, Resource(m[k]))];
      done := done[k := m[k]];
    }
    SameMaps(done, m);
    doc := Members(members);
  }

  method SaveByType(m: ByType<Text>) returns (doc: Saved)
    ensures doc.Members? && DecodeByType(doc) == Success(m)
  {
    var members: seq<(string, Saved)>, left := [], m.Keys;
    ghost var done: ByType<Text> := map[];
    while left != {}
      invariant left <= m.Keys && done.Keys == m.Keys - left && forall k :: k in done ==> done[k] == m[k]
      invariant DecodeMembers(members, DecodeTexts) == Success(done)
    {
      var k :| k in left;
      left := left - {k};
      var value := SaveTexts(m[k]);
      OneMoreMember(members, DecodeTexts, k, value);
      members := members + [(k, value)];
      done := done[k := m[k]];
    }
    SameMaps(done, m);
    doc := Members(members);
  }

  method SaveByTenant(m: ByTenant<Text>) returns (doc: Saved)
    ensures doc.Members? && DecodeByTenant(doc) == Success(m)
  {
    var members: seq<(string, Saved)>, left := [], m.Keys;
    ghost var done: ByTenant<Text> := map[];
    while left != {}
      invariant left <= m.Keys && done.Keys == m.Keys - left && forall k :: k in done ==> done[k] == m[k]
      invariant DecodeMembers(members, DecodeByType) == Success(done)
    {
      var k :| k in left;
      left := left - {k};
      var value := SaveByType(m[k]);
      OneMoreMember(members, DecodeByType, k, value);
      members := members + [(k, value)];
      done := done[k := m[k]];
    }
    SameMaps(done, m);
    doc := Members(members);
  }

  lemma OneMoreMember<T>(members: seq<(string, Saved)>, decode: Saved -> Result<T>, name: string, value: Saved)
    requires DecodeMembers(members, decode).Success? && decode(value).Success?
    ensures DecodeMembers(members + [(name, value)], decode) ==
            Success(DecodeMembers(members, decode).value[name := decode(value).value])
  {
  }

  /** Saves with the current version. Members come in any order. */
  method Save(resources: ByTenant<Text>) returns (doc: Saved)
    ensures Loaded(doc) == Success(resources)
    ensures doc.Members? && Field(doc.members, "Version") == Number(1)
    ensures DecodeByTenant(Field(doc.members, "Resources")) == Success(resources)
  {
    var saved := SaveByTenant(resources);
    var members := [("Version", Number(CURRENT_VERSION)), ("Resources", saved)];
    assert members[..1] == [("Version", Number(CURRENT_VERSION))];
    assert "Version"[0] != "Resources"[0];
    assert Field(members[..1], "Version") == Number(CURRENT_VERSION);
    assert Field(members, "Version") == Number(CURRENT_VERSION) && Field(members, "Resources") == saved;
    doc := Members(members);
  }

  // ---------- documents from before versions ----------

  /** Every member is an object of resource texts: the shape of a document saved without a version. */
  predicate IsLegacy(members: seq<(string, Saved)>) {
    forall i :: 0 <= i < |members| ==>
      members[i].1.Members? && forall j :: 0 <= j < |members[i].1.members| ==> members[i].1.members[j].1.Resource?
  }

  lemma {:induction false} TextsDecode(members: seq<(string, Saved)>)
    requires forall j :: 0 <= j < |members| ==> members[j].1.Resource?
    ensures DecodeMembers(members, DecodeText).Success?
    ensures DecodeMembers(members, DecodeText) == Success(map[]) <==> members == []
    ensures DecodeMembers(members, DecodeByType).Success? <==> members == []
  {
    if members != [] {
      var n := |members| - 1;
      TextsDecode(members[..n]);
      assert members[n].0 in DecodeMembers(members, DecodeText).value;
    }
  }

  lemma {:induction false} LegacyDecodes(members: seq<(string, Saved)>)
    requires IsLegacy(members)
    ensures DecodeMembers(members, DecodeTexts).Success?
  {
    if members != [] {
      TextsDecode(members[|members| - 1].1.members);
      LegacyDecodes(members[..|members| - 1]);
    }
  }

  /** A legacy document's member of a given name, found by the struct decoding and by the map decoding alike. */
  lemma {:induction false} LegacyField(members: seq<(string, Saved)>, name: string)
    requires IsLegacy(members)
    ensures DecodeMembers(members, DecodeTexts).Success?
    ensures var byType := DecodeMembers(members, DecodeTexts).value;
            && (name in byType <==> Field(members, name).Members?)
            && (name !in byType <==> Field(members, name) == SavedNull)
            && (name in byType ==> (byType[name] == map[] <==> DecodeByTenant(Field(members, name)).Success?))
  {
    LegacyDecodes(members);
    if members != [] {
      var n := |members| - 1;
      TextsDecode(members[n].1.members);
      LegacyField(members[..n], name);
    }
  }

  /**
   A legacy document loads as its resources for tenant "", unless a resource type happens to be
   called Version, or a non-empty one Resources; those documents are refused.
   */
  lemma LegacyLoads(members: seq<(string, Saved)>)
    requires IsLegacy(members)
    ensures DecodeByType(Members(members)).Success?
    ensures var byType := DecodeByType(Members(members)).value;
            Loaded(Members(members)) ==
            if "Version" in byType || ("Resources" in byType && byType["Resources"] != map[]) then Failure
            else Success(map["" := byType])
  {
    LegacyField(members, "Version");
    LegacyField(members, "Resources");
  }
}
