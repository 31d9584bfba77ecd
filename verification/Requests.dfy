/**
 What clients can rely on, from request to tables and back: statuses decided by history, PUT
 requests without an id in their path, and the two backends seen through the same server.
 */
module Requests {
  import opened Wrappers
  import opened JsonTrees
  import opened Objects
  import opened Documents
  import opened Validation
  import Rows
  import opened Tables
  import opened Operations
  import opened Transactions
  import opened SqlBackends
  import opened Runs
  import opened SavedDocuments
  import opened InMemory
  import opened Simulation
  import opened Paths
  import opened Http

  // ---------- statuses ----------

  /** A well-formed request for the object under `key`: a valid body, and a path naming the body's own object. */
  ghost predicate Addresses(config: Config, op: Op, key: Key) {
    key.tenant == op.tenant && !op.Clear? && KindNamed(op.resourceType) == Some(key.kind) &&
    match op
    case Delete(_, _, id) => id == key.id
    case _ =>
      var body := BodyOf(config, op);
      body.Success? && KeyOf(op.tenant, body.value) == key && (op.Update? ==> op.id == key.id)
  }

  function ExpectedStatus(op: Op, live: bool): int {
    if op.Create? then if live then 409 else 201
    else if !live then 404
    else if op.Update? then 200
    else 204
  }

  lemma StatusOnMap(config: Config, s: Store, op: Op, key: Key)
    requires Addresses(config, op, key)
    ensures var response := ResponseTo(op, Apply(config, s, op).1);
            && response.status == ExpectedStatus(op, key in s)
            && (response.status in {200, 201} ==> !op.Delete?)
            && response.content ==
                    if response.status in {200, 201} then Body(Encode(BodyOf(config, op).value)) else Nothing
  {
    assert op.Delete? ==> Key(op.tenant, key.kind, op.id) == key;
  }

  /**
   Main result on statuses: after any run, faults included, a POST is answered 409 exactly when its
   object is live and otherwise 201; a PUT or DELETE is answered 404 exactly when it is not
   (RFC 7644, sections 3.3, 3.5.1 and 3.6).
   */
  lemma HistoryDecidesStatus(config: Config, events: seq<Event>, op: Op, key: Key)
    requires Addresses(config, op, key)
    ensures var (t, replies) := Run(config, events);
            && |replies| == |events|
            && var response := ResponseTo(op, Outcome(config, t, op).1);
               && response.status == ExpectedStatus(op, Live(events, replies, config, key))
               && response.content ==
                    if response.status in {200, 201} then Body(Encode(BodyOf(config, op).value)) else Nothing
  {
    RunRefines(config, events);
    StoredIffLive(config, events, key);
    OutcomeRefines(config, Run(config, events).0, op);
    StatusOnMap(config, Abs(Run(config, events).0), op, key);
  }

  /** A POST or PUT is answered 400 exactly when its body is not a valid object, and then changes nothing. */
  lemma BadBodyIs400(config: Config, t: Tables, op: Op)
    requires (op.Create? || op.Update?) && Named(op)
    ensures var (t', reply) := Outcome(config, t, op);
            && (ResponseTo(op, reply).status == 400 <==> BodyOf(config, op).Failure?)
            && (BodyOf(config, op).Failure? ==> t' == t)
  {
  }

  /** What has no status of its own is answered 500: a type that is not known, and a fault. */
  lemma OthersAre500(config: Config, t: Tables, op: Op)
    requires !op.Clear?
    ensures KindNamed(op.resourceType).None? ==> Outcome(config, t, op).0 == t
    ensures KindNamed(op.resourceType).None? ==> ResponseTo(op, Outcome(config, t, op).1) == Response(500, Nothing)
    ensures ResponseTo(op, Fault) == Response(500, Nothing)
  {
  }

  /** An update of an object that is not stored is answered 500 when the body has child rows, and otherwise 200. */
  lemma UpdateOfUnstoredStatus(config: Config, t: Tables, op: Op, o: Object)
    requires WellFormed(t) && op.Update? && BodyOf(config, op) == Success(o)
    requires Key(op.tenant, KindOf(o), op.id) in t.main && KeyOf(op.tenant, o) !in t.main
    ensures ResponseTo(op, Outcome(config, t, op).1) ==
            if Rows.AllItems(o) == multiset{} then Response(200, Body(Encode(o))) else Response(500, Nothing)
  {
    UpdateOfUnstored(config, t, op, o);
  }

  // ---------- PUT without an id in the path ----------

  lemma NamesArePlain(kind: Kind)
    ensures Plain(NameOf(kind))
  {
  }

  /** The attribute `id` of a body, "" when it is absent. */
  function IdAttribute(body: Text): Result<string> {
    if body.Tree? && body.json.Obj? then DecodeString(Get(body.json.fields, Attr.Id)) else Failure
  }

  lemma OfferedOfParsed(config: Config, kind: Kind, body: Text)
    requires Parse(config, kind, body).Success?
    ensures OfferedId(body) ==
            if IdAttribute(body).Failure? then Failure
            else if IdAttribute(body).value != "" then IdAttribute(body)
            else Success(Parse(config, kind, body).value.id)
  {
  }

  /** A PUT of `body` on the endpoint of a type. */
  predicate PutsOnType(r: Request, kind: Kind, body: Text) {
    r.verb == "PUT" && r.path == "/" + NameOf(kind) && IsScimMedia(r.mediaType) && r.body == Some(body)
  }

  lemma TypePutIsRouted(r: Request, kind: Kind, body: Text)
    requires PutsOnType(r, kind, body)
    ensures IsTypePut(r) && Split(r.path)[1] == NameOf(kind)
  {
    NamesArePlain(kind);
    SplitOfRooted([NameOf(kind)]);
  }

  /**
   Main result on rewriting: a PUT on "/T" whose valid body has no `id`, or one equal to its externalId, updates
   that object exactly when the id is a plain path segment, and then it is the PUT on "/T/externalId".
   With the UUID validator it always is.
   */
  lemma RewrittenPutIsDirectPut(config: Config, tenant: string, r: Request, kind: Kind, body: Text, o: Object)
    requires PutsOnType(r, kind, body) && Parse(config, kind, body) == Success(o)
    requires IdAttribute(body) == Success("") || IdAttribute(body) == Success(o.id)
    ensures Routed(r).Forward? <==> o.id != ""
    ensures var op := Op.Update(tenant, NameOf(kind), o.id, body);
            Routed(r).Forward? && AskedBy(tenant, Routed(r).request) == Change(op) <==> Plain(o.id)
    ensures Plain(o.id) ==>
              AskedBy(tenant, Routed(r).request) == AskedBy(tenant, r.(path := "/" + NameOf(kind) + "/" + o.id))
    ensures config.uuid ==> Plain(o.id)
  {
    TypePutIsRouted(r, kind, body);
    OfferedOfParsed(config, kind, body);
    NamesArePlain(kind);
    if o.id != "" {
      RewrittenNames(r);
    }
    if Plain(o.id) {
      Names(NameOf(kind), o.id);
    }
    if config.uuid {
      UuidIsPlain(o.id);
    }
  }

  /** When the body has another `id`, the update is looked up under that and not under externalId. */
  lemma RewrittenPutOfAnotherId(config: Config, tenant: string, r: Request, kind: Kind, body: Text, id: string)
    requires PutsOnType(r, kind, body) && Parse(config, kind, body).Success?
    requires IdAttribute(body) == Success(id) && Plain(id)
    ensures Routed(r).Forward?
    ensures AskedBy(tenant, Routed(r).request) == Change(Op.Update(tenant, NameOf(kind), id, body))
  {
    TypePutIsRouted(r, kind, body);
    OfferedOfParsed(config, kind, body);
    NamesArePlain(kind);
    RewrittenNames(r);
  }

  /** The id a body offers: its `id`, or when that is missing, null or empty its `externalId`; both must be strings. */
  lemma OfferedIs(body: Text, offered: string)
    ensures OfferedId(body) == Success(offered) <==>
            && body.Tree? && (body.json.Null? || body.json.Obj?)
            && var id, externalId := Get(Inside(body.json), Attr.Id), Get(Inside(body.json), Attr.ExternalId);
               && (id.Null? || id.Str?) && (externalId.Null? || externalId.Str?)
               && offered == if id.Str? && id.s != "" then id.s else if externalId.Str? then externalId.s else ""
  {
  }

  // ---------- listings ----------

  /** An entry of a listing: the object's own document with its id added. */
  lemma ListedEntry(o: Object, id: string)
    ensures var entry := WithId(o, Str(id));
            && Exactly(entry, Encode(o).fields.Keys + {Attr.Id})
            && entry.fields[Attr.Id] == Str(id)
            && forall a :: a in Encode(o).fields && a != Attr.Id ==> entry.fields[a] == Encode(o).fields[a]
  {
  }

  /**
   Main result on listings: any entry of a listing, sent back as it came under its own id, leaves all tables as they
   were; it is accepted unless it is a user with an empty family or given name.
   */
  lemma ListedCanBePutBack(config: Config, events: seq<Event>, tenant: string, kind: Kind,
                           listed: seq<Json>, ids: seq<string>, objects: map<string, Object>, i: nat)
    requires IsSlice(objects, Abs(Run(config, events).0), tenant, kind) && Lists(listed, ids, objects) && i < |ids|
    ensures var t, o := Run(config, events).0, objects[ids[i]];
            Outcome(config, t, Op.Update(tenant, NameOf(kind), ids[i], Tree(listed[i]))) ==
            (t, if HasNames(o) then Reply.Resource(Encode(o)) else Malformed)
  {
    var key, o := Key(tenant, kind, ids[i]), objects[ids[i]];
    assert EncodesWithId(listed[i], o);
    GetThenPutAfterRun(config, events, key, o, listed[i]);
  }

  // ---------- the in-memory backend behind the same server ----------

  function MemStatus(op: Op, reply: MemReply): int {
    match reply
    case Kept(_) => if op.Create? then 201 else 200
    case Removed => 204
    case NotFound => 404
    case Unparsable => 400
    case NoIdentifier => 500
  }

  /**
   Where both backends are in step, a client sees the same status from both, except for a POST whose body has
   no string externalId: the in-memory backend fails without a type and answers 500, the SQL backend 400 or 409.
   */
  lemma StatusesAgree(config: Config, s: Store, mem: ByTenant<Text>, op: Op)
    requires Related(config, s, mem) && Named(op) && !op.Clear? && Regular(config, s, op)
    ensures ResponseTo(op, Apply(config, s, op).1).status == MemStatus(op, MemOutcome(FileSetup(config), mem, op).1)
            <==> !(op.Create? && IdFromExternalId(op.resource).Failure?)
  {
    InStepIffRegular(config, s, mem, op);
    var kind := KindNamed(op.resourceType).value;
    if op.Create? && BodyOf(config, op).Success? {
      IdFactoryAgrees(config, kind, op.resource);
    }
    if op.Update? || op.Delete? {
      var key := Key(op.tenant, kind, op.id);
      assert Agree(config, key, s, Find(mem, SlotOf(key)));
    }
  }
}
