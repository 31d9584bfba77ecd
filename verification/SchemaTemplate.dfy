/**
 The expansion of driver-specific types in schema templates (expandDriverSpecificTypes in
 windermere/sqlbackend.go): replacing every leftmost, non-greedy match of a pattern by its group.
 */
module SchemaTemplate {
  import opened Wrappers

  // ---------- matching ----------

  /** Where the shortest `.*?}}` from `from` on ends its group: the first "}}" before any newline. */
  function FindClose(s: string, from: nat): (at: Option<nat>)
    ensures at.Some? ==> from <= at.value && at.value + 2 <= |s|
    decreases |s| - from
  {
    if from + 2 > |s| then None
    else if s[from] == '}' && s[from + 1] == '}' then Some(from)
    else if s[from] == '\n' then None
    else FindClose(s, from + 1)
  }

  ghost predicate ClosesAt(s: string, from: nat, j: int) {
    from <= j <= |s| - 2 && s[j] == '}' && s[j + 1] == '}' && '\n' !in s[from..j]
  }

  /** The group found is the shortest that matches; none is found only if none matches. */
  lemma {:induction false} CloseIsLeast(s: string, from: nat, j: int)
    requires ClosesAt(s, from, j)
    ensures var at := FindClose(s, from); at.Some? && ClosesAt(s, from, at.value) && at.value <= j
    decreases |s| - from
  {
    if !(s[from] == '}' && s[from + 1] == '}') {
      assert s[from..j] == [s[from]] + s[from + 1..j];
      CloseIsLeast(s, from + 1, j);
      var at := FindClose(s, from + 1).value;
      assert s[from..at] == [s[from]] + s[from + 1..at];
    }
  }

  /** Braces and `lead` come next. */
  predicate Opens(s: string, lead: string) {
    |s| >= |lead| + 2 && s[..|lead| + 2] == "{{" + lead
  }

  /** ReplaceAll of the pattern `{{lead(.*?)}}` by its group. */
  function Rewrite(s: string, lead: string): string
    decreases |s|
  {
    if s == "" then ""
    else
      var at := if Opens(s, lead) then FindClose(s, |lead| + 2) else None;
      if at.Some? then s[|lead| + 2..at.value] + Rewrite(s[at.value + 2..], lead)
      else [s[0]] + Rewrite(s[1..], lead)
  }

  function Expand(driverName: string, schema: string): string {
    if driverName == "mysql" then Rewrite(Rewrite(schema, "N"), "") else Rewrite(schema, "")
  }

  // ---------- templates ----------

  datatype Piece = Plain(text: string) | Marker(name: string)

  predicate NoBraces(s: string) {
    '{' !in s && '}' !in s
  }

  predicate WellFormedPiece(p: Piece) {
    match p
    case Plain(text) => NoBraces(text)
    case Marker(name) => NoBraces(name) && '\n' !in name
  }

  predicate WellFormed(pieces: seq<Piece>) {
    forall i :: 0 <= i < |pieces| ==> WellFormedPiece(pieces[i])
  }

  function RenderPiece(p: Piece): string {
    match p
    case Plain(text) => text
    case Marker(name) => "{{" + name + "}}"
  }

  function Render(pieces: seq<Piece>): string {
    if pieces == [] then "" else RenderPiece(pieces[0]) + Render(pieces[1..])
  }

  /** What a marker stands for: its name, on MySQL without a leading N. */
  function TypeFor(driverName: string, name: string): string {
    if driverName == "mysql" && name != "" && name[0] == 'N' then name[1..] else name
  }

  /** The text meant by a template. */
  function Meaning(driverName: string, pieces: seq<Piece>): string {
    if pieces == [] then ""
    else
      (match pieces[0]
       case Plain(text) => text
       case Marker(name) => TypeFor(driverName, name))
      + Meaning(driverName, pieces[1..])
  }

  // ---------- one pass ----------

  /** A pass leaves everything without an opening brace as it is. */
  lemma {:induction false} RewriteSkips(a: string, s: string, lead: string)
    requires '{' !in a
    ensures Rewrite(a + s, lead) == a + Rewrite(s, lead)
  {
    if a == "" {
      assert a + s == s;
    } else {
      var whole := a + s;
      assert whole[1..] == a[1..] + s;
      assert ("{{" + lead)[0] == '{' && whole[0] != '{';
      RewriteSkips(a[1..], s, lead);
      assert a == [a[0]] + a[1..];
    }
  }

  lemma {:induction false} CloseAfter(s: string, from: nat, j: nat)
    requires from <= j && j + 2 <= |s| && s[j] == '}' && s[j + 1] == '}'
    requires NoBraces(s[from..j]) && '\n' !in s[from..j]
    ensures FindClose(s, from) == Some(j)
    decreases j - from
  {
    if from < j {
      assert s[from..j] == [s[from]] + s[from + 1..j];
      CloseAfter(s, from + 1, j);
    }
  }

  lemma NoBracesIn(a: string, from: nat)
    requires NoBraces(a) && from <= |a|
    ensures NoBraces(a[from..]) && ('\n' !in a ==> '\n' !in a[from..])
  {
  }

  /** The characters of a rendered marker followed by `s`. */
  lemma MarkerParts(name: string, s: string, from: nat)
    requires from <= |name|
    ensures var whole, j := RenderPiece(Marker(name)) + s, |name| + 2;
            && |whole| == j + 2 + |s|
            && whole[..from + 2] == "{{" + name[..from]
            && whole[from + 2..j] == name[from..]
            && whole[j] == '}' && whole[j + 1] == '}'
            && whole[j + 2..] == s
  {
  }

  lemma RewriteMatch(s: string, lead: string, j: nat)
    requires Opens(s, lead) && FindClose(s, |lead| + 2) == Some(j)
    ensures Rewrite(s, lead) == s[|lead| + 2..j] + Rewrite(s[j + 2..], lead)
  {
  }

  lemma MarkerCloses(name: string, s: string, from: nat)
    requires WellFormedPiece(Marker(name)) && from <= |name|
    ensures FindClose(RenderPiece(Marker(name)) + s, from + 2) == Some(|name| + 2)
  {
    MarkerParts(name, s, from);
    NoBracesIn(name, from);
    CloseAfter(RenderPiece(Marker(name)) + s, from + 2, |name| + 2);
  }

  lemma MarkerOpens(name: string, s: string, lead: string)
    requires lead <= name
    ensures Opens(RenderPiece(Marker(name)) + s, lead)
  {
    MarkerParts(name, s, |lead|);
    assert name[..|lead|] == lead;
  }

  /** A marker whose name begins with `lead` is replaced by the rest of its name. */
  lemma RewriteMarker(name: string, s: string, lead: string)
    requires WellFormedPiece(Marker(name)) && lead <= name
    ensures Rewrite(RenderPiece(Marker(name)) + s, lead) == name[|lead|..] + Rewrite(s, lead)
  {
    MarkerOpens(name, s, lead);
    MarkerCloses(name, s, |lead|);
    RewriteMatch(RenderPiece(Marker(name)) + s, lead, |name| + 2);
    MarkerParts(name, s, |lead|);
  }

  /** A character that begins no match is passed over. */
  lemma RewriteStep(s: string, lead: string)
    requires s != "" && !Opens(s, lead)
    ensures Rewrite(s, lead) == [s[0]] + Rewrite(s[1..], lead)
  {
  }

  /** Any other marker is left as it is. */
  lemma RewriteOther(name: string, s: string)
    requires WellFormedPiece(Marker(name)) && !("N" <= name)
    ensures Rewrite(RenderPiece(Marker(name)) + s, "N") == RenderPiece(Marker(name)) + Rewrite(s, "N")
  {
    var tail := name + "}}";
    var whole, second := "{{" + tail + s, "{" + tail + s;
    assert tail[0] != 'N' && tail[0] != '{';
    assert whole[2] == tail[0] && second[1] == tail[0];
    assert ("{{" + "N")[2] == 'N' && ("{{" + "N")[1] == '{';
    RewriteStep(whole, "N");
    assert whole[1..] == second;
    RewriteStep(second, "N");
    assert second[1..] == tail + s;
    RewriteSkips(tail, s, "N");
    MarkerIsBraces(tail, s, Rewrite(s, "N"));
    assert RenderPiece(Marker(name)) == "{{" + tail;
  }

  lemma MarkerIsBraces(tail: string, s: string, t: string)
    ensures "{{" + tail + s == ("{{" + tail) + s
    ensures ['{'] + (['{'] + (tail + t)) == ("{{" + tail) + t
  {
  }

  /** One pass over a rendered template with the lead "N": the markers that have it become text. */
  function WithoutN(pieces: seq<Piece>): seq<Piece> {
    if pieces == [] then []
    else
      var p := pieces[0];
      [if p.Marker? && "N" <= p.name then Plain(p.name[1..]) else p] + WithoutN(pieces[1..])
  }

  lemma {:induction false} FirstPass(pieces: seq<Piece>)
    requires WellFormed(pieces)
    ensures Rewrite(Render(pieces), "N") == Render(WithoutN(pieces))
    ensures WellFormed(WithoutN(pieces))
    ensures Meaning("", WithoutN(pieces)) == Meaning("mysql", pieces)
  {
    if pieces != [] {
      var p, rest := pieces[0], pieces[1..];
      FirstPass(rest);
      assert WithoutN(pieces)[1..] == WithoutN(rest);
      match p
      case Plain(text) => RewriteSkips(text, Render(rest), "N");
      case Marker(name) =>
        if "N" <= name {
          RewriteMarker(name, Render(rest), "N");
          NoBracesIn(name, 1);
        } else {
          RewriteOther(name, Render(rest));
        }
    }
  }

  lemma {:induction false} LastPass(pieces: seq<Piece>)
    requires WellFormed(pieces)
    ensures Rewrite(Render(pieces), "") == Meaning("", pieces)
  {
    if pieces != [] {
      var p, rest := pieces[0], pieces[1..];
      LastPass(rest);
      match p
      case Plain(text) => RewriteSkips(text, Render(rest), "");
      case Marker(name) => RewriteMarker(name, Render(rest), "");
    }
  }

  lemma {:induction false} MeaningOnOthers(driverName: string, pieces: seq<Piece>)
    requires driverName != "mysql"
    ensures Meaning(driverName, pieces) == Meaning("", pieces)
  {
    if pieces != [] {
      MeaningOnOthers(driverName, pieces[1..]);
    }
  }

  lemma {:induction false} MeaningHasNoBraces(driverName: string, pieces: seq<Piece>)
    requires WellFormed(pieces)
    ensures NoBraces(Meaning(driverName, pieces))
  {
    if pieces != [] {
      MeaningHasNoBraces(driverName, pieces[1..]);
    }
  }

  /** The markers of the schema: national character types on every driver but MySQL, plain ones there. */
  lemma SchemaTypes(driverName: string)
    ensures Expand(driverName, "{{NTEXT}}") == if driverName == "mysql" then "TEXT" else "NTEXT"
    ensures Expand(driverName, "{{NVARCHAR}}") == if driverName == "mysql" then "VARCHAR" else "NVARCHAR"
  {
    TextMarker(driverName);
    VarcharMarker(driverName);
  }

  lemma TextMarker(driverName: string)
    ensures Expand(driverName, "{{NTEXT}}") == if driverName == "mysql" then "TEXT" else "NTEXT"
  {
    MarkerMeans(driverName, "NTEXT");
    assert "{{" + "NTEXT" + "}}" == "{{NTEXT}}" && "NTEXT"[1..] == "TEXT";
  }

  lemma VarcharMarker(driverName: string)
    ensures Expand(driverName, "{{NVARCHAR}}") == if driverName == "mysql" then "VARCHAR" else "NVARCHAR"
  {
    MarkerMeans(driverName, "NVARCHAR");
    assert "{{" + "NVARCHAR" + "}}" == "{{NVARCHAR}}" && "NVARCHAR"[1..] == "VARCHAR";
  }

  lemma MarkerMeans(driverName: string, name: string)
    requires NoBraces(name) && '\n' !in name
    ensures Expand(driverName, "{{" + name + "}}") ==
            if driverName == "mysql" && name != "" && name[0] == 'N' then name[1..] else name
  {
    var pieces := [Marker(name)];
    ExpandMeans(driverName, pieces);
    assert pieces[1..] == [] && Meaning(driverName, []) == "" && Render([]) == "";
    assert Render(pieces) == "{{" + name + "}}" + "" == "{{" + name + "}}";
    assert Meaning(driverName, pieces) == TypeFor(driverName, name) + "" == TypeFor(driverName, name);
  }

  /**
   Main result: every template of brace-free text and markers with brace-free one-line names
   expands to its meaning, in which no marker is left, for every driver.
   */
  lemma ExpandMeans(driverName: string, pieces: seq<Piece>)
    requires WellFormed(pieces)
    ensures Expand(driverName, Render(pieces)) == Meaning(driverName, pieces)
    ensures NoBraces(Expand(driverName, Render(pieces)))
  {
    MeaningHasNoBraces(driverName, pieces);
    if driverName == "mysql" {
      FirstPass(pieces);
      LastPass(WithoutN(pieces));
    } else {
      LastPass(pieces);
      MeaningOnOthers(driverName, pieces);
    }
  }
}
