/**
 The SCIM server in front of the SQL backend (scimserverlite/scimserverlite.go): dispatch on the
 HTTP method, statuses, and the response to a query.
 */
module Http {
  import opened Wrappers
  import opened JsonTrees
  import opened Objects
  import opened Validation
  import opened Faults
  import opened Tables
  import opened Operations
  import opened Transactions
  import opened SqlBackends
  import opened Runs
  import opened Paths

  datatype Content = Nothing | Body(resource: Json) | Listing(resources: seq<Json>)

  datatype Response = Response(status: int, content: Content)

  /** handleBackendError: the status of each error, 500 for those without a type. */
  function ErrorStatus(reply: Reply): int {
    match reply
    case Conflict => 409
    case Missing => 404
    case Malformed => 400
    case _ => 500
  }

  function ResponseTo(op: Op, reply: Reply): Response {
    match reply
    case Resource(body) => Response(if op.Create? then 201 else 200, Body(body))
    case Done => Response(204, Nothing)
    case _ => Response(ErrorStatus(reply), Nothing)
  }

  predicate IsScimMedia(mediaType: Option<string>) {
    mediaType == Some("application/scim+json") || mediaType == Some("application/json")
  }

  /** What a request asks for: a change, a listing of a type, or nothing that can be done, with its status. */
  datatype Asked = Change(op: Op) | List(resourceType: string) | Invalid(status: int)

  function CreateOf(tenant: string, path: string, body: Text): Asked {
    var resourceType := ResourceType(path);
    if resourceType.Failure? then Invalid(400) else Change(Op.Create(tenant, resourceType.value, body))
  }

  function UpdateOf(tenant: string, path: string, body: Text): Asked {
    var named := ResourceTypeAndId(path);
    if named.Failure? then Invalid(400) else Change(Op.Update(tenant, named.value.0, named.value.1, body))
  }

  function DeleteOf(tenant: string, path: string): Asked {
    var named := ResourceTypeAndId(path);
    if named.Failure? then Invalid(400) else Change(Op.Delete(tenant, named.value.0, named.value.1))
  }

  function ListOf(path: string): Asked {
    var resourceType := ResourceType(path);
    if resourceType.Failure? then Invalid(400) else List(resourceType.value)
  }

  function AskedBy(tenant: string, r: Request): Asked {
    if r.verb == "POST" || r.verb == "PUT" then
      if !IsScimMedia(r.mediaType) then Invalid(415)
      else if r.body.None? then Invalid(500)
      else if r.verb == "POST" then CreateOf(tenant, r.path, r.body.value)
      else UpdateOf(tenant, r.path, r.body.value)
    else if r.verb == "DELETE" then DeleteOf(tenant, r.path)
    else if r.verb == "GET" then ListOf(r.path)
    else Invalid(501)
  }

  ghost predicate Distinct(ids: seq<string>) {
    forall i, j :: 0 <= i < j < |ids| ==> ids[i] != ids[j]
  }

  /** `listed` is `objects`, each once, in some order, encoded with its id added. */
  ghost predicate Lists(listed: seq<Json>, ids: seq<string>, objects: map<string, Object>) {
    && |listed| == |ids| == |objects|
    && Distinct(ids)
    && (forall i :: 0 <= i < |ids| ==> ids[i] in objects && listed[i] == WithId(objects[ids[i]], Str(ids[i])))
  }

  /** The entry of a response for one resource. */
  function EntryFor(resource: Json, id: string): Json
    requires resource.Obj?
  {
    Obj(resource.fields[Attr.Id := Str(id)])
  }

  ghost predicate Entries(resources: map<string, Json>, listed: seq<Json>, ids: seq<string>) {
    && |listed| == |ids|
    && Distinct(ids)
    && forall i :: 0 <= i < |ids| ==>
         ids[i] in resources && resources[ids[i]].Obj? && listed[i] == EntryFor(resources[ids[i]], ids[i])
  }

  lemma OneMoreEntry(resources: map<string, Json>, listed: seq<Json>, ids: seq<string>, id: string)
    requires Entries(resources, listed, ids) && id !in ids && id in resources && resources[id].Obj?
    ensures Entries(resources, listed + [EntryFor(resources[id], id)], ids + [id])
  {
  }

  /** Distinct ids that are all the members of a set are as many as the set. */
  lemma {:induction false} AsManyIds(ids: seq<string>, all: set<string>)
    requires Distinct(ids) && forall id :: id in ids <==> id in all
    ensures |ids| == |all|
  {
    if ids == [] {
      assert all == {};
    } else {
      var n := |ids| - 1;
      assert ids == ids[..n] + [ids[n]];
      AsManyIds(ids[..n], all - {ids[n]});
    }
  }

  /** writeQueryResponse: each resource decoded and given its id; no response if one is not a JSON object. */
  method WriteQueryResponse(resources: map<string, Json>) returns (listed: Option<seq<Json>>, ghost ids: seq<string>)
    ensures listed.Some? <==> forall id :: id in resources ==> resources[id].Obj?
    ensures listed.Some? ==> |listed.value| == |resources| && Entries(resources, listed.value, ids)
  {
    var response: seq<Json>, left := [], resources.Keys;
    ids := [];
    while left != {}
      invariant left <= resources.Keys && Entries(resources, response, ids)
      invariant forall id :: id in ids <==> id in resources.Keys - left
    {
      var id :| id in left;
      left := left - {id};
      if !resources[id].Obj? {
        return None, ids;
      }
      OneMoreEntry(resources, response, ids, id);
      response := response + [EntryFor(resources[id], id)];
      ids := ids + [id];
    }
    AsManyIds(ids, resources.Keys);
    return Some(response), ids;
  }

  /** A request on the rooted path made of `segments`. */
  predicate On(r: Request, segments: seq<string>) {
    segments != [] && (forall s :: s in segments ==> '/' !in s) && r.path == "/" + Joined(segments)
  }

  /** A body that is read, in one of the two media types a body may have. */
  predicate Readable(r: Request) {
    && (r.mediaType == Some("application/scim+json") || r.mediaType == Some("application/json"))
    && r.body.Some?
  }

  // What a request on any rooted path asks for, by its verb.

  /** GET lists the type named last. */
  lemma GetAsks(tenant: string, r: Request, segments: seq<string>)
    requires On(r, segments) && r.verb == "GET"
    ensures AskedBy(tenant, r) == List(segments[|segments| - 1])
  {
    LastSegments(segments);
  }

  /** POST creates in the type named last. */
  lemma PostAsks(tenant: string, r: Request, segments: seq<string>)
    requires On(r, segments) && r.verb == "POST" && Readable(r)
    ensures AskedBy(tenant, r) == Change(Op.Create(tenant, segments[|segments| - 1], r.body.value))
  {
    LastSegments(segments);
  }

  /** PUT updates the slot that the last two segments name. */
  lemma PutAsks(tenant: string, r: Request, segments: seq<string>)
    requires On(r, segments) && r.verb == "PUT" && Readable(r)
    ensures var n := |segments|;
            AskedBy(tenant, r) ==
            if n == 1 then Invalid(400) else Change(Op.Update(tenant, segments[n - 2], segments[n - 1], r.body.value))
  {
    LastSegments(segments);
  }

  /** DELETE deletes it. */
  lemma DeleteAsks(tenant: string, r: Request, segments: seq<string>)
    requires On(r, segments) && r.verb == "DELETE"
    ensures var n := |segments|;
            AskedBy(tenant, r) ==
            if n == 1 then Invalid(400) else Change(Op.Delete(tenant, segments[n - 2], segments[n - 1]))
  {
    LastSegments(segments);
  }

  /** A body in another media type is refused with 415, one that cannot be read with 500, other verbs with 501. */
  lemma NothingAsked(tenant: string, r: Request)
    ensures (r.verb == "POST" || r.verb == "PUT") && !Readable(r) ==>
              AskedBy(tenant, r) ==
              if r.mediaType in {Some("application/scim+json"), Some("application/json")} then Invalid(500)
              else Invalid(415)
    ensures r.verb != "GET" && r.verb != "POST" && r.verb != "PUT" && r.verb != "DELETE" ==>
              AskedBy(tenant, r) == Invalid(501)
  {
  }

  /** A DELETE on "/T/id" where that object is stored. */
  ghost predicate DeletesStored(t: Tables, tenant: string, r: Request, key: Key) {
    && r.verb == "DELETE"
    && r.path == "/" + NameOf(key.kind) + "/" + key.id && '/' !in key.id
    && key.tenant == tenant && key in t.main
  }

  lemma NamesHaveNoSlash(kind: Kind)
    ensures '/' !in NameOf(kind)
  {
  }

  lemma DeleteIsOf(t: Tables, tenant: string, r: Request, key: Key)
    requires DeletesStored(t, tenant, r, key)
    ensures ResourceTypeAndId(r.path) == Success((NameOf(key.kind), key.id))
    ensures AskedBy(tenant, r) == Change(Op.Delete(tenant, NameOf(key.kind), key.id))
  {
    NamesHaveNoSlash(key.kind);
    Names(NameOf(key.kind), key.id);
  }

  lemma StoredIsDeleted(config: Config, t: Tables, u: Tables, reply: Reply, tenant: string, r: Request, key: Key)
    requires DeletesStored(t, tenant, r, key)
    requires AskedBy(tenant, r).Change? && (u, reply) == Outcome(config, t, AskedBy(tenant, r).op)
    ensures u.main == t.main - {key} && reply == Done
  {
    DeleteIsOf(t, tenant, r, key);
    DeleteRemovesExactly(config, t, key);
  }

  class Server {
    const backend: SqlBackend

    constructor (backend: SqlBackend)
      ensures this.backend == backend
    {
      this.backend := backend;
    }

    /**
     genericSCIMHandler. A change is one step of its operation, in which a fault is exactly a
     failed call to the database. Any other request changes nothing: a listing of one of the
     seven types shows the map's slice exactly when no call fails.
     */
    method Handle(tenant: string, r: Request)
      returns (response: Response, ghost reply: Reply, ghost ids: seq<string>, ghost objects: map<string, Object>)
      requires backend.Valid()
      modifies backend.db`tables, backend.db.calls
      ensures backend.Valid() && old(backend.db.calls.clock) <= backend.db.calls.clock
      ensures var asked := AskedBy(tenant, r);
              var before, after := old(backend.db.tables), backend.db.tables;
              var calls := backend.db.calls;
              var faulted := !Faultless(calls.fails, old(calls.clock), calls.clock);
              match asked {
                case Change(op) =>
                  && (after, reply) == Step(backend.config, before, Event(op, faulted))
                  && response == ResponseTo(op, reply)
                case List(resourceType) =>
                  after == before && Shows(tenant, resourceType, faulted, response, ids, objects)
                case Invalid(status) => after == before && !faulted && response == Response(status, Nothing)
              }
      ensures r.verb == "GET" ==> backend.db.tables == old(backend.db.tables)
      ensures forall key :: DeletesStored(old(backend.db.tables), tenant, r, key) && reply != Fault ==>
                response == Response(204, Nothing) && backend.db.tables.main == old(backend.db.tables.main) - {key}
    {
      reply, ids, objects := Done, [], map[];
      var body := NotJson;
      if r.verb == "POST" || r.verb == "PUT" {
        if !IsScimMedia(r.mediaType) {
          response := Response(415, Nothing);
          return;
        }
        if r.body.None? {
          response := Response(500, Nothing);
          return;
        }
        body := r.body.value;
      }
      if r.verb == "POST" {
        var resourceType := ResourceType(r.path);
        if resourceType.Failure? {
          response := Response(400, Nothing);
          return;
        }
        var created := backend.Create(tenant, resourceType.value, body);
        reply := created;
        response := Respond(created, 201);
      } else if r.verb == "PUT" {
        var named := ResourceTypeAndId(r.path);
        if named.Failure? {
          response := Response(400, Nothing);
          return;
        }
        var updated := backend.Update(tenant, named.value.0, named.value.1, body);
        reply := updated;
        response := Respond(updated, 200);
      } else if r.verb == "DELETE" {
        var named := ResourceTypeAndId(r.path);
        forall key | DeletesStored(backend.db.tables, tenant, r, key) ensures named.Success? {
          DeleteIsOf(backend.db.tables, tenant, r, key);
        }
        if named.Failure? {
          response := Response(400, Nothing);
          return;
        }
        var deleted := backend.Delete(tenant, named.value.0, named.value.1);
        reply := deleted;
        response := Respond(deleted, 204);
        forall key | DeletesStored(old(backend.db.tables), tenant, r, key) && reply != Fault
          ensures backend.db.tables.main == old(backend.db.tables.main) - {key} && reply == Done
        {
          StoredIsDeleted(backend.config, old(backend.db.tables), backend.db.tables, reply, tenant, r, key);
        }
      } else if r.verb == "GET" {
        response, ids, objects := Query(tenant, r.path);
      } else {
        response := Response(501, Nothing);
      }
      SameFailures(backend.db.calls.fails, old(backend.db.calls.clock), backend.db.calls.clock);
    }

    /** The end of each branch: the resource under the given status, or the error's status. */
    function Respond(reply: Reply, status: int): Response {
      if reply.Resource? then Response(status, Body(reply.body))
      else if reply.Done? then Response(204, Nothing)
      else Response(ErrorStatus(reply), Nothing)
    }

    /** The response to a listing: 500 for a fault or an unknown type, and otherwise 200 with the slice. */
    ghost predicate Shows(tenant: string, resourceType: string, faulted: bool, response: Response,
                          ids: seq<string>, objects: map<string, Object>)
      reads backend.db
    {
      var kind := KindNamed(resourceType);
      if faulted || kind.None? then response == Response(500, Nothing)
      else
        && response.status == 200
        && response.content.Listing?
        && IsSlice(objects, Abs(backend.db.tables), tenant, kind.value)
        && Lists(response.content.resources, ids, objects)
    }

    method Query(tenant: string, path: string)
      returns (response: Response, ghost ids: seq<string>, ghost objects: map<string, Object>)
      requires backend.Valid()
      modifies backend.db`tables, backend.db.calls
      ensures backend.Valid() && backend.db.tables == old(backend.db.tables)
      ensures old(backend.db.calls.clock) <= backend.db.calls.clock
      ensures var faulted := backend.db.calls.failures != old(backend.db.calls.failures);
              if ListOf(path).Invalid? then !faulted && response == Response(400, Nothing)
              else Shows(tenant, ListOf(path).resourceType, faulted, response, ids, objects)
    {
      ids, objects := [], map[];
      var resourceType := ResourceType(path);
      if resourceType.Failure? {
        response := Response(400, Nothing);
        return;
      }
      var read;
      read, objects := backend.GetResources(tenant, resourceType.value);
      if read.Refused? {
        response := Response(ErrorStatus(read.error), Nothing);
        return;
      }
      var listed;
      listed, ids := WriteQueryResponse(read.value);
      EntriesList(read.value, objects, listed.value, ids);
      response := Response(200, Listing(listed.value));
    }
  }

  /** Entries made from encoded objects list the objects. */
  lemma EntriesList(texts: map<string, Json>, objects: map<string, Object>, listed: seq<Json>, ids: seq<string>)
    requires EachEncoded(texts, objects) && Entries(texts, listed, ids) && |listed| == |texts|
    ensures Lists(listed, ids, objects)
  {
    assert |texts| == |texts.Keys| && |objects| == |objects.Keys|;
  }
}
