/**
 URL paths: splitting them, joining and cleaning them as Go's strings and path packages do for
 rooted paths, and the rewriting of PUT requests in windermere/puthandler.go.
 */
module Paths {
  import opened Wrappers
  import opened JsonTrees
  import opened Validation

  // ---------- segments ----------

  /** strings.Split(s, "/"). */
  function Split(s: string): (segments: seq<string>)
    ensures segments != []
  {
    if s == "" then [""]
    else
      var rest := Split(s[1..]);
      if s[0] == '/' then [""] + rest else [[s[0]] + rest[0]] + rest[1..]
  }

  /** Segments with a slash between each two. */
  function Joined(segments: seq<string>): string {
    if segments == [] then ""
    else if |segments| == 1 then segments[0]
    else segments[0] + "/" + Joined(segments[1..])
  }

  lemma {:induction false} SplitOfSegment(s: string)
    requires '/' !in s
    ensures Split(s) == [s]
  {
    if s != "" {
      assert '/' !in s[1..];
      SplitOfSegment(s[1..]);
      assert s == [s[0]] + s[1..];
    }
  }

  lemma {:induction false} SplitOfPrefix(a: string, s: string)
    requires '/' !in a
    ensures Split(a + "/" + s) == [a] + Split(s)
  {
    var whole := a + "/" + s;
    if a == "" {
      assert whole[1..] == s;
    } else {
      assert '/' !in a[1..];
      SplitOfPrefix(a[1..], s);
      assert whole[1..] == a[1..] + "/" + s;
      assert a == [a[0]] + a[1..];
    }
  }

  /** Splitting a join gives the segments back. */
  lemma {:induction false} SplitOfJoined(segments: seq<string>)
    requires segments != [] && forall s :: s in segments ==> '/' !in s
    ensures Split(Joined(segments)) == segments
  {
    if |segments| == 1 {
      SplitOfSegment(segments[0]);
    } else {
      SplitOfJoined(segments[1..]);
      SplitOfPrefix(segments[0], Joined(segments[1..]));
      assert segments == [segments[0]] + segments[1..];
    }
  }

  lemma {:induction false} SegmentsHaveNoSlash(s: string)
    ensures forall segment :: segment in Split(s) ==> '/' !in segment
  {
    if s != "" {
      SegmentsHaveNoSlash(s[1..]);
    }
  }

  lemma JoinedWithHead(head: string, rest: seq<string>)
    requires rest != []
    ensures Joined([head] + rest) == head + "/" + Joined(rest)
  {
    assert ([head] + rest)[1..] == rest;
  }

  lemma JoinedWithLongerHead(c: char, segments: seq<string>)
    requires segments != []
    ensures Joined([[c] + segments[0]] + segments[1..]) == [c] + Joined(segments)
  {
    if |segments| > 1 {
      JoinedWithHead([c] + segments[0], segments[1..]);
    }
  }

  lemma {:induction false} JoinedOfSplit(s: string)
    ensures Joined(Split(s)) == s
    ensures forall segment :: segment in Split(s) ==> '/' !in segment
  {
    SegmentsHaveNoSlash(s);
    if s != "" {
      JoinedOfSplit(s[1..]);
      JoinedWithHead("", Split(s[1..]));
      JoinedWithLongerHead(s[0], Split(s[1..]));
      assert s == [s[0]] + s[1..];
    }
  }

  // ---------- cleaning ----------

  /** A path segment that cleaning leaves as it is. */
  predicate Plain(segment: string) {
    segment != "" && segment != "." && segment != ".." && '/' !in segment
  }

  /** path.Clean on the segments of a rooted path: ".." drops the segment before it, if any. */
  function CleanSegments(segments: seq<string>, kept: seq<string>): (clean: seq<string>)
    requires forall s :: s in segments ==> '/' !in s
    requires forall s :: s in kept ==> Plain(s)
    ensures forall s :: s in clean ==> Plain(s)
  {
    if segments == [] then kept
    else if segments[0] == "" || segments[0] == "." then CleanSegments(segments[1..], kept)
    else if segments[0] == ".." then CleanSegments(segments[1..], if kept == [] then [] else kept[..|kept| - 1])
    else CleanSegments(segments[1..], kept + [segments[0]])
  }

  function Clean(path: string): string {
    JoinedOfSplit(path);
    "/" + Joined(CleanSegments(Split(path), []))
  }

  /** path.Join of a rooted path and one more element. */
  function Join(path: string, element: string): string {
    Clean(if element == "" then path else path + "/" + element)
  }

  // ---------- what a request names ----------

  /** getResourceType: the last component. */
  function ResourceType(path: string): Result<string> {
    var components := Split(path);
    if |components| < 2 then Failure else Success(components[|components| - 1])
  }

  /** getResourceTypeAndID: the last two components. */
  function ResourceTypeAndId(path: string): Result<(string, string)> {
    var components := Split(path);
    if |components| < 3 then Failure else Success((components[|components| - 2], components[|components| - 1]))
  }

  lemma SplitOfRooted(segments: seq<string>)
    requires segments != [] && forall s :: s in segments ==> '/' !in s
    ensures Split("/" + Joined(segments)) == [""] + segments
  {
    SplitOfJoined(segments);
    SplitOfPrefix("", Joined(segments));
    assert "" + "/" + Joined(segments) == "/" + Joined(segments);
  }

  /** A rooted path names its last segment, and its last two if there are two. */
  lemma LastSegments(segments: seq<string>)
    requires segments != [] && forall s :: s in segments ==> '/' !in s
    ensures var path, n := "/" + Joined(segments), |segments|;
            && ResourceType(path) == Success(segments[n - 1])
            && (n == 1 ==> ResourceTypeAndId(path) == Failure)
            && (n > 1 ==> ResourceTypeAndId(path) == Success((segments[n - 2], segments[n - 1])))
  {
    SplitOfRooted(segments);
  }

  /** Every rooted path is made of segments. */
  lemma RootedPath(path: string) returns (segments: seq<string>)
    requires path != "" && path[0] == '/'
    ensures segments != [] && (forall s :: s in segments ==> '/' !in s) && path == "/" + Joined(segments)
  {
    segments := Split(path[1..]);
    JoinedOfSplit(path[1..]);
    assert path == [path[0]] + path[1..];
  }

  /** A path of one or two plain segments names them. */
  lemma Names(resourceType: string, id: string)
    requires '/' !in resourceType && '/' !in id
    ensures ResourceType("/" + resourceType) == Success(resourceType)
    ensures ResourceTypeAndId("/" + resourceType + "/" + id) == Success((resourceType, id))
  {
    SplitOfRooted([resourceType]);
    SplitOfRooted([resourceType, id]);
    assert [resourceType, id][1..] == [id];
    assert "/" + Joined([resourceType, id]) == "/" + resourceType + "/" + id;
  }

  /** A cleaned path names two plain segments, or no resource at all. */
  lemma CleanNamesPlain(path: string)
    ensures var named := ResourceTypeAndId(Clean(path));
            named.Success? ==> Plain(named.value.0) && Plain(named.value.1)
  {
    JoinedOfSplit(path);
    var clean := CleanSegments(Split(path), []);
    if clean == [] {
      assert Split("/") == ["", ""] by { assert "/"[1..] == ""; }
    } else {
      SplitOfRooted(clean);
    }
  }

  lemma KeepsPlain(segment: string, rest: seq<string>, kept: seq<string>)
    requires Plain(segment) && (forall s :: s in rest ==> '/' !in s) && forall s :: s in kept ==> Plain(s)
    ensures CleanSegments([segment] + rest, kept) == CleanSegments(rest, kept + [segment])
  {
    assert ([segment] + rest)[1..] == rest;
  }

  lemma CleanOfPlain(resourceType: string, id: string)
    requires Plain(resourceType) && Plain(id)
    ensures Clean("/" + resourceType + "/" + id) == "/" + resourceType + "/" + id
  {
    SplitOfRooted([resourceType, id]);
    assert [resourceType, id][1..] == [id];
    assert "/" + Joined([resourceType, id]) == "/" + resourceType + "/" + id;
    assert [""] + [resourceType, id] == ["", resourceType, id];
    assert ["", resourceType, id][1..] == [resourceType, id];
    KeepsPlain(resourceType, [id], []);
    KeepsPlain(id, [], [resourceType]);
    assert [resourceType] + [id] == [resourceType, id] && [] + [resourceType] == [resourceType];
  }

  /**
   Main result on joining: splitting "/T" joined with an id names T and that id exactly when both
   are plain segments. With anything else cleaning changes what the path names.
   */
  lemma JoinNames(resourceType: string, id: string)
    requires '/' !in resourceType && id != ""
    ensures ResourceTypeAndId(Join("/" + resourceType, id)) == Success((resourceType, id)) <==>
            Plain(resourceType) && Plain(id)
  {
    CleanNamesPlain("/" + resourceType + "/" + id);
    if Plain(resourceType) && Plain(id) {
      CleanOfPlain(resourceType, id);
      Names(resourceType, id);
    }
  }

  /** Every id the UUID validator accepts is a plain segment. */
  lemma UuidIsPlain(id: string)
    requires IsUuid(id)
    ensures Plain(id)
  {
    UuidShape(id);
    forall i | 0 <= i < |id| ensures id[i] != '/' {
      assert IsDashPosition(i) || IsHex(id[i]);
    }
  }

  // ---------- rewriting ----------

  /** A request as the handlers see it: `body` is None when it cannot be read, `mediaType` when it cannot be parsed. */
  datatype Request = Request(verb: string, path: string, mediaType: Option<string>, body: Option<Text>)

  datatype Routing = Forward(request: Request) | Refuse(status: int)

  /** The id that a body offers for the path: `id`, or else `externalId`. */
  function OfferedId(body: Text): Result<string> {
    if body.NotJson? then Failure
    else
      var fields :- StructFields(body.json);
      var id, externalId := DecodeString(Get(fields, Attr.Id)), DecodeString(Get(fields, Attr.ExternalId));
      if id.Failure? || externalId.Failure? then Failure
      else Success(if id.value != "" then id.value else externalId.value)
  }

  predicate IsTypePut(r: Request) {
    r.verb == "PUT" && r.path != "" && r.path[0] == '/' && |Split(r.path)| == 2
  }

  /** What the middleware does with a request. */
  function Routed(r: Request): Routing {
    if !IsTypePut(r) then Forward(r)
    else if r.body.None? then Refuse(500)
    else if OfferedId(r.body.value).Failure? || OfferedId(r.body.value).value == "" then Refuse(400)
    else Forward(r.(path := Join(r.path, OfferedId(r.body.value).value)))
  }

  lemma TypePath(path: string)
    requires path != "" && path[0] == '/' && |Split(path)| == 2
    ensures path == "/" + Split(path)[1] && '/' !in Split(path)[1]
  {
    JoinedOfSplit(path);
    assert path == [path[0]] + path[1..];
    assert Split(path)[1..] == [Split(path)[1]];
  }

  /**
   Main result on rewriting: a PUT on "/T" is forwarded as a PUT that names T and the offered id
   exactly when both are plain segments; the rest of the request is untouched.
   */
  lemma RewrittenNames(r: Request)
    requires IsTypePut(r) && r.body.Some? && OfferedId(r.body.value).Success? && OfferedId(r.body.value).value != ""
    ensures var resourceType, id := Split(r.path)[1], OfferedId(r.body.value).value;
            && Routed(r).Forward?
            && Routed(r).request == r.(path := Routed(r).request.path)
            && (ResourceTypeAndId(Routed(r).request.path) == Success((resourceType, id)) <==>
                Plain(resourceType) && Plain(id))
  {
    TypePath(r.path);
    JoinNames(Split(r.path)[1], OfferedId(r.body.value).value);
  }

  /** No other request is rewritten: none with another verb, and none whose path has an id, or no slash in front. */
  lemma OthersAreNotRewritten(r: Request, segments: seq<string>)
    requires forall s :: s in segments ==> '/' !in s
    requires r.verb != "PUT" || r.path == "" || r.path[0] != '/' || (|segments| > 1 && r.path == "/" + Joined(segments))
    ensures Routed(r) == Forward(r)
  {
    if |segments| > 1 {
      SplitOfRooted(segments);
    }
  }

  /** putCompatibilityHandler, up to the call of the handler it wraps. */
  method PutCompatibility(r: Request) returns (routing: Routing)
    ensures IsTypePut(r) && r.body.None? ==> routing == Refuse(500)
    ensures IsTypePut(r) && r.body.Some? && OfferedId(r.body.value) in {Failure, Success("")} ==> routing == Refuse(400)
    ensures !IsTypePut(r) ==> routing == Forward(r)
    ensures IsTypePut(r) && routing.Forward? ==>
              var resourceType, id := Split(r.path)[1], OfferedId(r.body.value).value;
              && routing.request == r.(path := routing.request.path)
              && (ResourceTypeAndId(routing.request.path) == Success((resourceType, id)) <==>
                  Plain(resourceType) && Plain(id))
    ensures routing == Routed(r)
  {
    if IsTypePut(r) && Routed(r).Forward? {
      RewrittenNames(r);
    }
    var split := Split(r.path);
    if r.verb == "PUT" && r.path != "" && r.path[0] == '/' && |split| == 2 {
      if r.body.None? {
        return Refuse(500);
      }
      var fields := if r.body.value.NotJson? then Failure else StructFields(r.body.value.json);
      if fields.Failure? {
        return Refuse(400);
      }
      var parsedId := DecodeString(Get(fields.value, Attr.Id));
      var parsedExternalId := DecodeString(Get(fields.value, Attr.ExternalId));
      if parsedId.Failure? || parsedExternalId.Failure? {
        return Refuse(400);
      }
      var id := "";
      if parsedId.value != "" {
        id := parsedId.value;
      } else if parsedExternalId.value != "" {
        id := parsedExternalId.value;
      }
      if id == "" {
        return Refuse(400);
      }
      return Forward(r.(path := Join(r.path, id)));
    }
    return Forward(r);
  }
}
