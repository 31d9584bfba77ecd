/**
 Whole runs of the SQL backend: any operations, for any tenants, with a fault possible in each.
 */
module Runs {
  import opened Wrappers
  import opened JsonTrees
  import opened Objects
  import opened Validation
  import Rows
  import opened Tables
  import opened Operations
  import opened Transactions
  import opened SqlBackends

  ghost function StepStore(config: Config, s: Store, e: Event): (Store, Reply) {
    if e.faulted then (s, Fault) else Apply(config, s, e.op)
  }

  /** The tables and the replies after `events`, starting from the empty schema. */
  ghost function Run(config: Config, events: seq<Event>): (Tables, seq<Reply>)
    decreases |events|
  {
    if events == [] then (EMPTY, [])
    else
      var n := |events| - 1;
      var (t, replies) := Run(config, events[..n]);
      var (t', reply) := Step(config, t, events[n]);
      (t', replies + [reply])
  }

  /** The same run on the plain map. */
  ghost function RunStore(config: Config, events: seq<Event>): (Store, seq<Reply>)
    decreases |events|
  {
    if events == [] then (map[], [])
    else
      var n := |events| - 1;
      var (s, replies) := RunStore(config, events[..n]);
      var (s', reply) := StepStore(config, s, events[n]);
      (s', replies + [reply])
  }

  /**
   Main result: every run on the tables is the run on the plain map, reply by reply, and no
   reachable table holds an orphan.
   */
  lemma {:induction false} RunRefines(config: Config, events: seq<Event>)
    ensures WellFormed(Run(config, events).0)
    ensures RunStore(config, events) == (Abs(Run(config, events).0), Run(config, events).1)
    decreases |events|
  {
    if events == [] {
      AbsOfEmpty();
    } else {
      var n := |events| - 1;
      RunRefines(config, events[..n]);
      if !events[n].faulted {
        OutcomeRefines(config, Run(config, events[..n]).0, events[n].op);
      }
    }
  }

  // ---------- history ----------

  /** The object an event wrote, if it was accepted and carried one. */
  ghost function Written(config: Config, e: Event, reply: Reply): Option<Object> {
    if Accepted(reply) && BodyOf(config, e.op).Success? then Some(BodyOf(config, e.op).value) else None
  }

  ghost predicate Removes(e: Event, reply: Reply, key: Key) {
    && Accepted(reply)
    && key.tenant == e.op.tenant
    && (e.op.Clear? || (e.op.Delete? && NameOf(key.kind) == e.op.resourceType && e.op.id == key.id))
  }

  /** What an event leaves as the object last written under `key`, if `before` was that until then. */
  ghost function WrittenAfter(config: Config, e: Event, reply: Reply, key: Key,
                              before: Option<Object>): Option<Object>
  {
    var body := Written(config, e, reply);
    if Removes(e, reply, key) then None
    else if body.Some? && KeyOf(e.op.tenant, body.value) == key && (e.op.Create? || before.Some?) then body
    else before
  }

  /**
   The object last written under `key`, looking back through requests and replies alone: an
   accepted create writes, an accepted update writes if the object is live, and an accepted
   delete or clear removes.
   */
  ghost function LastWrite(config: Config, events: seq<Event>, replies: seq<Reply>, key: Key): Option<Object>
    requires |replies| == |events|
    decreases |events|
  {
    if events == [] then None
    else
      var n := |events| - 1;
      WrittenAfter(config, events[n], replies[n], key, LastWrite(config, events[..n], replies[..n], key))
  }

  /** The object is live: a successful create follows its last successful delete or clear. */
  ghost predicate Live(events: seq<Event>, replies: seq<Reply>, config: Config, key: Key)
    requires |replies| == |events|
    decreases |events|
  {
    events != [] &&
    var n := |events| - 1;
    var body := Written(config, events[n], replies[n]);
    if Removes(events[n], replies[n], key) then false
    else (events[n].op.Create? && body.Some? && KeyOf(events[n].op.tenant, body.value) == key)
         || Live(events[..n], replies[..n], config, key)
  }

  /** `s` holds under `key` exactly the rows of `last`. */
  ghost predicate Holds(config: Config, s: Store, key: Key, last: Option<Object>) {
    if last.Some? then
      key in s && s[key] == Rows.Split(last.value) && KeyOf(key.tenant, last.value) == key && Valid(config, last.value)
    else key !in s
  }

  lemma PutHolds(config: Config, s: Store, at: Key, o: Object, key: Key, before: Option<Object>)
    requires Holds(config, s, key, before) && Valid(config, o) && KeyOf(at.tenant, o) == at
    ensures Holds(config, s[at := Rows.Split(o)], key, if key == at then Some(o) else before)
  {
  }

  lemma WriteWritten(config: Config, op: Op, reply: Reply, key: Key, before: Option<Object>)
    requires op.Create? || op.Update?
    ensures var body := BodyOf(config, op);
            WrittenAfter(config, Event(op, false), reply, key, before) ==
            if Accepted(reply) && body.Success? && KeyOf(op.tenant, body.value) == key && (op.Create? || before.Some?)
            then Some(body.value) else before
  {
  }

  lemma CreateHolds(config: Config, s: Store, op: Op, key: Key, before: Option<Object>)
    requires Holds(config, s, key, before) && op.Create?
    ensures var (s', reply) := Apply(config, s, op);
            Holds(config, s', key, WrittenAfter(config, Event(op, false), reply, key, before))
  {
    WriteWritten(config, op, Apply(config, s, op).1, key, before);
    if KindNamed(op.resourceType).Some? {
      ApplyBody(config, s, op);
      var body := BodyOf(config, op);
      if body.Success? {
        PutHolds(config, s, KeyOf(op.tenant, body.value), body.value, key, before);
      }
    }
  }

  lemma UpdateHolds(config: Config, s: Store, op: Op, key: Key, before: Option<Object>)
    requires Holds(config, s, key, before) && op.Update?
    ensures var (s', reply) := Apply(config, s, op);
            Holds(config, s', key, WrittenAfter(config, Event(op, false), reply, key, before))
  {
    WriteWritten(config, op, Apply(config, s, op).1, key, before);
    if KindNamed(op.resourceType).Some? {
      ApplyBody(config, s, op);
      var body := BodyOf(config, op);
      if body.Success? {
        PutHolds(config, s, KeyOf(op.tenant, body.value), body.value, key, before);
      }
    }
  }

  lemma RemovalHolds(config: Config, s: Store, e: Event, key: Key, before: Option<Object>)
    requires Holds(config, s, key, before) && (e.faulted || e.op.Delete? || e.op.Clear?)
    ensures var (s', reply) := StepStore(config, s, e);
            Holds(config, s', key, WrittenAfter(config, e, reply, key, before))
  {
    KindOfName(key.kind);
  }

  lemma StepHolds(config: Config, s: Store, e: Event, key: Key, before: Option<Object>)
    requires Holds(config, s, key, before)
    ensures var (s', reply) := StepStore(config, s, e);
            Holds(config, s', key, WrittenAfter(config, e, reply, key, before))
  {
    if e.faulted || e.op.Delete? || e.op.Clear? {
      RemovalHolds(config, s, e, key, before);
    } else if e.op.Create? {
      CreateHolds(config, s, e.op, key, before);
    } else {
      UpdateHolds(config, s, e.op, key, before);
    }
  }

  /** Main result: every reachable map holds, under every key, what history says was last written there. */
  lemma {:induction false} HistoryDecides(config: Config, events: seq<Event>, key: Key)
    ensures var (s, replies) := RunStore(config, events);
            |replies| == |events| && Holds(config, s, key, LastWrite(config, events, replies, key))
    decreases |events|
  {
    if events != [] {
      var n := |events| - 1;
      HistoryDecides(config, events[..n], key);
      var (s, replies) := RunStore(config, events[..n]);
      assert RunStore(config, events).1[..n] == replies;
      StepHolds(config, s, events[n], key, LastWrite(config, events[..n], replies, key));
    }
  }

  lemma {:induction false} LiveIsWritten(config: Config, events: seq<Event>, replies: seq<Reply>, key: Key)
    requires |replies| == |events|
    ensures Live(events, replies, config, key) <==> LastWrite(config, events, replies, key).Some?
    decreases |events|
  {
    if events != [] {
      var n := |events| - 1;
      LiveIsWritten(config, events[..n], replies[..n], key);
    }
  }

  /** History decides liveness: an id is stored iff a successful create follows its last successful delete or clear. */
  lemma StoredIffLive(config: Config, events: seq<Event>, key: Key)
    ensures var (t, replies) := Run(config, events);
            |replies| == |events| && (key in t.main <==> Live(events, replies, config, key))
  {
    RunRefines(config, events);
    HistoryDecides(config, events, key);
    LiveIsWritten(config, events, Run(config, events).1, key);
  }

  /**
   Main result on contents: an object read back after any run is the normal form of the object
   last written under its key, up to the order of its child rows, and still passes the
   configured validators.
   */
  lemma ReadIsLastWrite(config: Config, events: seq<Event>, key: Key, read: Object)
    requires var t := Run(config, events).0;
             key in t.main && Rebuilt(read, key, Abs(t)[key])
    ensures |Run(config, events).1| == |events|
    ensures var last := LastWrite(config, events, Run(config, events).1, key);
            last.Some? && Rows.Equivalent(read, Rows.Norm(last.value))
    ensures Valid(config, read)
  {
    RunRefines(config, events);
    HistoryDecides(config, events, key);
    var last := LastWrite(config, events, Run(config, events).1, key);
    Rows.ReadBackIsNorm(read, last.value);
  }

  /** Two readers of the same key, in whatever order their rows arrive, agree up to the order of child rows. */
  lemma ReadersAgree(a: Object, b: Object, key: Key, stored: Rows.Stored)
    requires Rebuilt(a, key, stored) && Rebuilt(b, key, stored)
    ensures Rows.Equivalent(a, b)
  {
    Rows.NormalIsDetermined(a, b);
  }

  // ---------- updates ----------

  /** An update whose path names the body's own object replaces it whatever was stored before. */
  lemma UpdateReplaces(config: Config, t: Tables, op: Op, o: Object)
    requires WellFormed(t) && op.Update? && BodyOf(config, op) == Success(o)
    requires op.id == o.id && KeyOf(op.tenant, o) in t.main
    ensures var (u, reply) := Outcome(config, t, op);
            reply == Resource(Encode(o)) && Abs(u) == Abs(t)[KeyOf(op.tenant, o) := Rows.Split(o)]
  {
    OutcomeRefines(config, t, op);
    ApplyBody(config, Abs(t), op);
  }

  /** An update whose path names another stored object leaves that object alone and replaces the body's own. */
  lemma UpdateUnderAnotherPath(config: Config, t: Tables, op: Op, o: Object)
    requires WellFormed(t) && op.Update? && BodyOf(config, op) == Success(o)
    requires op.id != o.id && Key(op.tenant, KindOf(o), op.id) in t.main && KeyOf(op.tenant, o) in t.main
    ensures var (u, reply) := Outcome(config, t, op);
            var path := Key(op.tenant, KindOf(o), op.id);
            && reply == Resource(Encode(o))
            && Abs(u) == Abs(t)[KeyOf(op.tenant, o) := Rows.Split(o)]
            && path in Abs(u) && Abs(u)[path] == Abs(t)[path]
  {
    OutcomeRefines(config, t, op);
    ApplyBody(config, Abs(t), op);
  }

  /**
   When the body's own object is not stored, no table changes under any path: the update is
   rejected by a foreign key exactly when the body has child rows, and otherwise accepted.
   */
  lemma UpdateOfUnstored(config: Config, t: Tables, op: Op, o: Object)
    requires WellFormed(t) && op.Update? && BodyOf(config, op) == Success(o)
    requires Key(op.tenant, KindOf(o), op.id) in t.main && KeyOf(op.tenant, o) !in t.main
    ensures Outcome(config, t, op) == (t, if Rows.AllItems(o) == multiset{} then Resource(Encode(o)) else Rejected)
  {
    OutcomeOfUpdate(config, t, op);
    UpdateMissing(t, op.tenant, o);
  }

  // ---------- get, then put ----------

  function WithId(o: Object, id: Json): Json {
    Obj(FieldsOf(o)[Attr.Id := id])
  }

  /** A body that differs from an encoded object at most by an added `id`, as query responses add one. */
  ghost predicate EncodesWithId(body: Json, o: Object) {
    body == Encode(o) || exists id :: body == WithId(o, id)
  }

  lemma DecodeOwnEncoding(body: Json, o: Object)
    requires EncodesWithId(body, o)
    ensures Decode(KindOf(o), body) == if HasNames(o) then Success(OmitEmpty(o)) else Failure
  {
    DecodeOfEncode(o);
    if body != Encode(o) {
      var id :| body == WithId(o, id);
      DecodeIgnoresId(KindOf(o), FieldsOf(o), id);
    }
  }

  lemma NormalHasNoEmptyLists(o: Object)
    requires Rows.Normal(o)
    ensures OmitEmpty(o) == o
  {
  }

  lemma BodyOfPut(config: Config, key: Key, read: Object, body: Json)
    requires Rows.Normal(read) && KindOf(read) == key.kind && Valid(config, read) && EncodesWithId(body, read)
    ensures BodyOf(config, Update(key.tenant, NameOf(key.kind), key.id, Tree(body))) ==
            if HasNames(read) then Success(read) else Failure
  {
    KindOfName(key.kind);
    DecodeOwnEncoding(body, read);
    NormalHasNoEmptyLists(read);
  }

  /**
   Main result: putting back what was read leaves all thirteen tables as they were. The update
   succeeds exactly when the object is not a user with an empty family or given name; such a
   user cannot be put back, because its encoding lacks an attribute its decoder requires.
   */
  lemma GetThenPut(config: Config, t: Tables, key: Key, read: Object, body: Json)
    requires WellFormed(t) && key in t.main
    requires Rebuilt(read, key, Abs(t)[key]) && Valid(config, read) && EncodesWithId(body, read)
    ensures Outcome(config, t, Update(key.tenant, NameOf(key.kind), key.id, Tree(body))) ==
            (t, if HasNames(read) then Resource(Encode(read)) else Malformed)
  {
    var op := Update(key.tenant, NameOf(key.kind), key.id, Tree(body));
    KindOfName(key.kind);
    BodyOfPut(config, key, read, body);
    if HasNames(read) {
      PutSameRows(config, t, op, key, read);
    }
  }

  lemma SameEntrySameTables(t: Tables, u: Tables, key: Key)
    requires WellFormed(t) && WellFormed(u) && key in t.main && Abs(u) == Abs(t)[key := Abs(t)[key]]
    ensures u == t
  {
    SameMaps(Abs(u), Abs(t));
    AbsInjective(u, t);
  }

  lemma PutSameRows(config: Config, t: Tables, op: Op, key: Key, o: Object)
    requires WellFormed(t) && op.Update? && BodyOf(config, op) == Success(o)
    requires op.id == o.id && KeyOf(op.tenant, o) == key && key in t.main && Abs(t)[key] == Rows.Split(o)
    ensures Outcome(config, t, op) == (t, Resource(Encode(o)))
  {
    UpdateReplaces(config, t, op, o);
    OutcomeKeepsWellFormed(config, t, op);
    SameEntrySameTables(t, Outcome(config, t, op).0, key);
  }

  /** After any run, what was read can be put back, with the exception above, and no table changes. */
  lemma GetThenPutAfterRun(config: Config, events: seq<Event>, key: Key, read: Object, body: Json)
    requires var t := Run(config, events).0;
             key in t.main && Rebuilt(read, key, Abs(t)[key])
    requires EncodesWithId(body, read)
    ensures var t := Run(config, events).0;
            Outcome(config, t, Update(key.tenant, NameOf(key.kind), key.id, Tree(body))) ==
            (t, if HasNames(read) then Resource(Encode(read)) else Malformed)
  {
    RunRefines(config, events);
    ReadIsLastWrite(config, events, key, read);
    GetThenPut(config, Run(config, events).0, key, read, body);
  }

  lemma RunOfOne(config: Config, e: Event)
    ensures Run(config, [e]).0 == Step(config, EMPTY, e).0
  {
    assert [e][..0] == [];
  }

  lemma CreateOnEmpty(config: Config, op: Op, o: Object)
    requires op.Create? && BodyOf(config, op) == Success(o)
    ensures var t := Outcome(config, EMPTY, op).0;
            WellFormed(t) && Abs(t) == map[KeyOf(op.tenant, o) := Rows.Split(o)]
  {
    AbsOfEmpty();
    OutcomeRefines(config, EMPTY, op);
    ApplyBody(config, map[], op);
  }

  lemma BodyOfCreate(config: Config, tenant: string, j: Json, o: Object)
    requires Decode(KindOf(o), j) == Success(o) && Valid(config, o)
    ensures BodyOf(config, Op.Create(tenant, NameOf(KindOf(o)), Tree(j))) == Success(o)
  {
    KindOfName(KindOf(o));
  }

  /** A create that decodes and validates, on the empty schema, stores its object and nothing else. */
  lemma StoredByCreate(config: Config, tenant: string, j: Json, o: Object)
    requires Decode(KindOf(o), j) == Success(o) && Valid(config, o) && Rows.Normal(o)
    ensures var t := Run(config, [Event(Op.Create(tenant, NameOf(KindOf(o)), Tree(j)), false)]).0;
            var key := KeyOf(tenant, o);
            WellFormed(t) && t.main.Keys == {key} && Rebuilt(o, key, Abs(t)[key])
  {
    var op := Op.Create(tenant, NameOf(KindOf(o)), Tree(j));
    BodyOfCreate(config, tenant, j, o);
    CreateOnEmpty(config, op, o);
    RunOfOne(config, Event(op, false));
    assert Outcome(config, EMPTY, op).0.main.Keys == Abs(Outcome(config, EMPTY, op).0).Keys;
  }
}
