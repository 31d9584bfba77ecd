/**
 The two backends side by side: the SQL backend's map of stored objects and the in-memory
 backend's texts, given the same operations, with the id factory and parser of
 windermere/windermere.go:52-106.
 */
module Simulation {
  import opened Wrappers
  import opened JsonTrees
  import opened Objects
  import opened Validation
  import Rows
  import opened Tables
  import opened Operations
  import opened Transactions
  import opened SqlBackends
  import opened Runs
  import opened SavedDocuments
  import opened InMemory

  // ---------- the in-memory backend as it is configured ----------

  /** CreateIDFromExternalID. (A body that is JSON but no object is refused here; the original panics.) */
  function IdFromExternalId(text: Text): Result<string> {
    if text.Tree? && text.json.Obj? && Get(text.json.fields, Attr.ExternalId).Str?
    then Success(text.json.fields[Attr.ExternalId].s)
    else Failure
  }

  /** The validating parser, by resource type. Types other than the seven are refused. */
  function ParseNamed(config: Config, resourceType: string, text: Text): Result<Object> {
    if KindNamed(resourceType).None? then Failure else Parse(config, KindNamed(resourceType).value, text)
  }

  function FileSetup(config: Config): Setup<Object> {
    Setup(IdFromExternalId, Some((resourceType, text) => ParseNamed(config, resourceType, text)))
  }

  predicate HasNullId(text: Text) {
    text.Tree? && text.json.Obj? && Get(text.json.fields, Attr.ExternalId) == Null
  }

  lemma DecodedId(kind: Kind, fields: map<Attr, Json>)
    requires ObjectOf(kind, fields).Success?
    ensures DecodeString(Get(fields, Attr.ExternalId)) == Success(ObjectOf(kind, fields).value.id)
  {
  }

  /**
   The id factory agrees with GetID on every object the parser accepts, unless its externalId is
   null: then GetID is "" and the factory fails. The UUID validator rules that case out.
   */
  lemma IdFactoryAgrees(config: Config, kind: Kind, text: Text)
    requires Parse(config, kind, text).Success?
    ensures IdFromExternalId(text) == if HasNullId(text) then Failure else Success(Parse(config, kind, text).value.id)
    ensures HasNullId(text) ==> Parse(config, kind, text).value.id == "" && !config.uuid
  {
    var fields := text.json.fields;
    assert Attr.ExternalId in RequiredOf(kind);
    DecodedId(kind, fields);
    UuidShape("");
  }

  /** On an encoded object the factory gives the object's own id. */
  lemma IdOfEncoded(o: Object)
    ensures IdFromExternalId(Tree(Encode(o))) == Success(o.id)
  {
  }

  // ---------- the relation ----------

  function SlotOf(k: Key): Slot {
    Slot(k.tenant, NameOf(k.kind), k.id)
  }

  /** `text` parses to an object of that key, and `s` keeps its rows; or neither backend has the key. */
  ghost predicate Agree(config: Config, k: Key, s: Store, text: Option<Text>) {
    if text.None? then k !in s
    else
      var o := Parse(config, k.kind, text.value);
      k in s && o.Success? && o.value.id == k.id && Rows.Split(o.value) == s[k]
  }

  ghost predicate Related(config: Config, s: Store, mem: ByTenant<Text>) {
    forall k: Key :: Agree(config, k, s, Find(mem, SlotOf(k)))
  }

  predicate Named(op: Op) {
    op.Clear? || KindNamed(op.resourceType).Some?
  }

  /**
   The operations on which the backends agree: a create of an id that is not stored, and an
   update whose path names its body's object. (A create with a null externalId is refused by
   one backend, so it must be a conflict on the other.)
   */
  ghost predicate Regular(config: Config, s: Store, op: Op) {
    var body := BodyOf(config, op);
    match op
    case Create(tenant, _, resource) =>
      body.Success? ==> (KeyOf(tenant, body.value) in s <==> HasNullId(resource))
    case Update(tenant, _, id, _) =>
      body.Success? && Key(tenant, KindOf(body.value), id) in s ==> body.value.id == id
    case _ => true
  }

  /** After `op` the two are still related, and both accepted it or both refused it. */
  ghost predicate StayInStep(config: Config, s: Store, mem: ByTenant<Text>, op: Op) {
    var (s', reply) := Apply(config, s, op);
    var (mem', memReply) := MemOutcome(FileSetup(config), mem, op);
    (Accepted(reply) <==> MemAccepted(memReply)) && Related(config, s', mem')
  }

  lemma SlotsDiffer(a: Key, b: Key)
    ensures SlotOf(a) == SlotOf(b) <==> a == b
  {
  }

  /** Changing one key on both sides by things that agree keeps the rest related. */
  lemma RelatedAfter(config: Config, s: Store, mem: ByTenant<Text>, s': Store, mem': ByTenant<Text>, key: Key)
    requires Related(config, s, mem)
    requires forall k :: k != key ==> (k in s' <==> k in s) && (k in s ==> s'[k] == s[k])
    requires forall slot :: slot != SlotOf(key) ==> Find(mem', slot) == Find(mem, slot)
    ensures Related(config, s', mem') <==> Agree(config, key, s', Find(mem', SlotOf(key)))
  {
    forall k: Key | k != key ensures Agree(config, k, s', Find(mem', SlotOf(k))) {
      SlotsDiffer(k, key);
      assert Agree(config, k, s, Find(mem, SlotOf(k)));
    }
  }

  /** The same operation in memory: what it replies, and what it leaves in every slot. */
  lemma MemoryBody(config: Config, mem: ByTenant<Text>, op: Op, key: Key)
    requires (op.Create? || op.Update?) && Named(op)
    requires BodyOf(config, op).Success? ==> KindOf(BodyOf(config, op).value) == key.kind
    requires key.tenant == op.tenant && NameOf(key.kind) == op.resourceType
    requires key.id == if op.Update? then op.id
        else if BodyOf(config, op).Success? then BodyOf(config, op).value.id else ""
    ensures var (mem', reply) := MemOutcome(FileSetup(config), mem, op);
            var stored := && BodyOf(config, op).Success?
                          && (op.Create? ==> !HasNullId(op.resource))
                          && (op.Update? ==> Find(mem, SlotOf(key)).Some?);
            && (MemAccepted(reply) <==> stored)
            && forall slot :: Find(mem', slot) == if stored && slot == SlotOf(key) then Some(op.resource)
                else Find(mem, slot)
  {
    if BodyOf(config, op).Success? {
      IdFactoryAgrees(config, key.kind, op.resource);
    }
    forall slot { MemOutcomeFinds(FileSetup(config), mem, op, slot); }
  }

  /** How a create or update that both backends carried out, or refused, in their own ways bears on the relation. */
  lemma CreateEffects(config: Config, s: Store, mem: ByTenant<Text>, s': Store, mem': ByTenant<Text>,
                      key: Key, o: Object, text: Text)
    requires Related(config, s, mem) && Parse(config, key.kind, text) == Success(o) && o.id == key.id
    requires s' == if key in s then s else s[key := Rows.Split(o)]
    requires forall slot :: Find(mem', slot) == if !HasNullId(text) && slot == SlotOf(key) then Some(text)
        else Find(mem, slot)
    ensures (key !in s <==> !HasNullId(text)) && Related(config, s', mem') <==> (key in s <==> HasNullId(text))
  {
    assert Agree(config, key, s, Find(mem, SlotOf(key)));
    RelatedAfter(config, s, mem, s', mem', key);
  }

  lemma Unchanged(config: Config, s: Store, mem: ByTenant<Text>, mem': ByTenant<Text>)
    requires Related(config, s, mem) && forall slot :: Find(mem', slot) == Find(mem, slot)
    ensures Related(config, s, mem')
  {
    forall k: Key ensures Agree(config, k, s, Find(mem', SlotOf(k))) {
      assert Agree(config, k, s, Find(mem, SlotOf(k)));
    }
  }

  lemma CreateInStep(config: Config, s: Store, mem: ByTenant<Text>, op: Op)
    requires Related(config, s, mem) && op.Create? && Named(op)
    ensures StayInStep(config, s, mem, op) <==> Regular(config, s, op)
  {
    var body := BodyOf(config, op);
    var key := Key(op.tenant, KindNamed(op.resourceType).value, if body.Success? then body.value.id else "");
    var s', mem' := Apply(config, s, op).0, MemOutcome(FileSetup(config), mem, op).0;
    ApplyBody(config, s, op);
    MemoryBody(config, mem, op, key);
    if body.Success? {
      CreateEffects(config, s, mem, s', mem', key, body.value, op.resource);
    } else {
      Unchanged(config, s, mem, mem');
    }
  }

  lemma UpdateEffects(config: Config, s: Store, mem: ByTenant<Text>, s': Store, mem': ByTenant<Text>,
                      path: Key, key: Key, o: Object, text: Text)
    requires Related(config, s, mem) && Parse(config, path.kind, text) == Success(o)
    requires path in s && key == Key(path.tenant, path.kind, o.id)
    requires s' == if key in s then s[key := Rows.Split(o)] else s
    requires forall slot :: Find(mem', slot) == if slot == SlotOf(path) then Some(text) else Find(mem, slot)
    ensures Related(config, s', mem') <==> o.id == path.id
  {
    if o.id == path.id {
      RelatedAfter(config, s, mem, s', mem', path);
    } else {
      assert !Agree(config, path, s', Find(mem', SlotOf(path)));
    }
  }

  lemma UpdateInStep(config: Config, s: Store, mem: ByTenant<Text>, op: Op)
    requires Related(config, s, mem) && op.Update? && Named(op)
    ensures StayInStep(config, s, mem, op) <==> Regular(config, s, op)
  {
    var body := BodyOf(config, op);
    var path := Key(op.tenant, KindNamed(op.resourceType).value, op.id);
    var s', mem' := Apply(config, s, op).0, MemOutcome(FileSetup(config), mem, op).0;
    assert Agree(config, path, s, Find(mem, SlotOf(path)));
    ApplyBody(config, s, op);
    MemoryBody(config, mem, op, path);
    if body.Success? && path in s {
      UpdateEffects(config, s, mem, s', mem', path, KeyOf(op.tenant, body.value), body.value, op.resource);
    } else {
      Unchanged(config, s, mem, mem');
    }
  }

  lemma DeleteInStep(config: Config, s: Store, mem: ByTenant<Text>, op: Op)
    requires Related(config, s, mem) && op.Delete? && Named(op)
    ensures StayInStep(config, s, mem, op)
  {
    var setup := FileSetup(config);
    var (s', reply) := Apply(config, s, op);
    var (mem', memReply) := MemOutcome(setup, mem, op);
    forall slot { MemOutcomeFinds(setup, mem, op, slot); }
    var key := Key(op.tenant, KindNamed(op.resourceType).value, op.id);
    assert Agree(config, key, s, Find(mem, SlotOf(key)));
    RelatedAfter(config, s, mem, s', mem', key);
  }

  lemma ClearInStep(config: Config, s: Store, mem: ByTenant<Text>, op: Op)
    requires Related(config, s, mem) && op.Clear?
    ensures StayInStep(config, s, mem, op)
  {
    var setup := FileSetup(config);
    var (s', reply) := Apply(config, s, op);
    var (mem', memReply) := MemOutcome(setup, mem, op);
    forall k: Key ensures Agree(config, k, s', Find(mem', SlotOf(k))) {
      MemOutcomeFinds(setup, mem, op, SlotOf(k));
      assert Agree(config, k, s, Find(mem, SlotOf(k)));
    }
  }

  /** One operation keeps the backends in step exactly when it is regular. */
  lemma InStepIffRegular(config: Config, s: Store, mem: ByTenant<Text>, op: Op)
    requires Related(config, s, mem) && Named(op)
    ensures StayInStep(config, s, mem, op) <==> Regular(config, s, op)
  {
    match op
    case Create(_, _, _) => CreateInStep(config, s, mem, op);
    case Update(_, _, _, _) => UpdateInStep(config, s, mem, op);
    case Delete(_, _, _) => DeleteInStep(config, s, mem, op);
    case Clear(_) => ClearInStep(config, s, mem, op);
  }

  /** A duplicate create is where the backends part: the SQL backend refuses it, the in-memory one overwrites. */
  lemma DuplicateCreate(config: Config, s: Store, mem: ByTenant<Text>, op: Op, o: Object)
    requires Related(config, s, mem) && op.Create? && BodyOf(config, op) == Success(o) && !HasNullId(op.resource)
    requires KeyOf(op.tenant, o) in s
    ensures Apply(config, s, op) == (s, Conflict)
    ensures var (mem', memReply) := MemOutcome(FileSetup(config), mem, op);
            memReply == Kept(op.resource) && Find(mem', SlotOf(KeyOf(op.tenant, o))) == Some(op.resource)
  {
    IdFactoryAgrees(config, KindOf(o), op.resource);
    MemOutcomeFinds(FileSetup(config), mem, op, SlotOf(KeyOf(op.tenant, o)));
  }

  // ---------- whole runs ----------

  function FaultFree(ops: seq<Op>): (events: seq<Event>)
    ensures |events| == |ops| && forall i :: 0 <= i < |ops| ==> events[i] == Event(ops[i], false)
  {
    seq(|ops|, i requires 0 <= i < |ops| => Event(ops[i], false))
  }

  /** The plain map and the replies after `ops`, none of which faults. */
  ghost function RunPlain(config: Config, ops: seq<Op>): (r: (Store, seq<Reply>))
    ensures |r.1| == |ops|
    decreases |ops|
  {
    if ops == [] then (map[], [])
    else
      var n := |ops| - 1;
      var (s, replies) := RunPlain(config, ops[..n]);
      var (s', reply) := Apply(config, s, ops[n]);
      (s', replies + [reply])
  }

  lemma {:induction false} PlainIsFaultFree(config: Config, ops: seq<Op>)
    ensures RunStore(config, FaultFree(ops)) == RunPlain(config, ops)
    decreases |ops|
  {
    if ops == [] {
      assert FaultFree(ops) == [];
    } else {
      var n := |ops| - 1;
      PlainIsFaultFree(config, ops[..n]);
      assert FaultFree(ops)[..n] == FaultFree(ops[..n]);
    }
  }

  /** The in-memory backend's texts and replies after `ops`, from its creation. */
  function RunMemory(config: Config, ops: seq<Op>): (r: (ByTenant<Text>, seq<MemReply>))
    ensures |r.1| == |ops|
    decreases |ops|
  {
    if ops == [] then (map[], [])
    else
      var n := |ops| - 1;
      var (mem, replies) := RunMemory(config, ops[..n]);
      var (mem', reply) := MemOutcome(FileSetup(config), mem, ops[n]);
      (mem', replies + [reply])
  }

  /** Every operation of the run is regular in the state it meets. */
  ghost predicate RegularRun(config: Config, ops: seq<Op>)
    decreases |ops|
  {
    ops != [] ==>
      var n := |ops| - 1;
      RegularRun(config, ops[..n]) && Regular(config, RunPlain(config, ops[..n]).0, ops[n])
  }

  /** After every operation of the run, the backends had accepted and refused alike and were related. */
  ghost predicate InStep(config: Config, ops: seq<Op>)
    decreases |ops|
  {
    var (s, replies) := RunPlain(config, ops);
    var (mem, memReplies) := RunMemory(config, ops);
    && Related(config, s, mem)
    && (ops != [] ==>
          var n := |ops| - 1;
          && InStep(config, ops[..n])
          && (Accepted(replies[n]) <==> MemAccepted(memReplies[n])))
  }

  /** Main result: the backends go in step through a run exactly when all its operations are regular. */
  lemma {:induction false} InStepIffRegularRun(config: Config, ops: seq<Op>)
    requires forall i :: 0 <= i < |ops| ==> Named(ops[i])
    ensures InStep(config, ops) <==> RegularRun(config, ops)
    decreases |ops|
  {
    if ops != [] {
      var before, op := ops[..|ops| - 1], ops[|ops| - 1];
      InStepIffRegularRun(config, before);
      if InStep(config, before) {
        InStepIffRegular(config, RunPlain(config, before).0, RunMemory(config, before).0, op);
      }
    }
  }

  // ---------- what clients see ----------

  /**
   Both views have the id or neither, and what the SQL backend reads is the normal form of what is
   parsed in memory.
   */
  ghost predicate SameEntry(objects: map<string, Object>, values: map<string, Option<Object>>, id: string) {
    && (id in objects <==> id in values)
    && (id in objects ==> values[id].Some? && Rows.Equivalent(objects[id], Rows.Norm(values[id].value)))
  }

  /** The two backends' views of one type of one tenant. */
  ghost predicate SameView(objects: map<string, Object>, values: map<string, Option<Object>>) {
    forall id :: SameEntry(objects, values, id)
  }

  ghost predicate RelatedAt(config: Config, s: Store, mem: ByTenant<Text>, tenant: string, kind: Kind) {
    forall id :: Agree(config, Key(tenant, kind, id), s, Find(mem, SlotOf(Key(tenant, kind, id))))
  }

  lemma EntryAgrees(config: Config, s: Store, text: Text, key: Key, o: Object)
    requires key in s && Rebuilt(o, key, s[key])
    ensures Agree(config, key, s, Some(text)) <==>
            var parsed := Parse(config, key.kind, text);
            parsed.Success? && Rows.Equivalent(o, Rows.Norm(parsed.value))
  {
    var parsed := Parse(config, key.kind, text);
    if parsed.Success? {
      Rows.NormKeeps(parsed.value);
      if Rows.Equivalent(o, Rows.Norm(parsed.value)) {
        Rows.EquivalentAreStoredAlike(o, Rows.Norm(parsed.value));
      } else if parsed.value.id == key.id && Rows.Split(parsed.value) == s[key] {
        Rows.ReadBackIsNorm(o, parsed.value);
      }
    }
  }

  lemma EntryIsSame(config: Config, s: Store, texts: ByTenant<Text>, parsed: ByTenant<Option<Object>>,
                    objects: map<string, Object>, key: Key)
    requires Mirror(FileSetup(config), texts, parsed) && IsSlice(objects, s, key.tenant, key.kind)
    ensures Agree(config, key, s, Find(texts, SlotOf(key))) <==>
            SameEntry(objects, Slice(parsed, key.tenant, NameOf(key.kind)), key.id)
  {
    var slice := Slice(texts, key.tenant, NameOf(key.kind));
    MirrorOfSlice(FileSetup(config), texts, parsed, key.tenant, NameOf(key.kind));
    KindOfName(key.kind);
    assert key.id in objects <==> Key(key.tenant, key.kind, key.id) in s;
    if key.id in objects && key.id in slice {
      EntryAgrees(config, s, slice[key.id], key, objects[key.id]);
    }
  }

  /** The relation is what clients see: at a tenant and type it holds exactly when the two views there are the same. */
  lemma ViewsAgree(config: Config, s: Store, texts: ByTenant<Text>, parsed: ByTenant<Option<Object>>,
                   tenant: string, kind: Kind, objects: map<string, Object>)
    requires Mirror(FileSetup(config), texts, parsed) && IsSlice(objects, s, tenant, kind)
    ensures SameView(objects, Slice(parsed, tenant, NameOf(kind))) <==> RelatedAt(config, s, texts, tenant, kind)
  {
    var values := Slice(parsed, tenant, NameOf(kind));
    forall id
      ensures Agree(config, Key(tenant, kind, id), s, Find(texts, SlotOf(Key(tenant, kind, id)))) <==>
          SameEntry(objects, values, id)
    {
      EntryIsSame(config, s, texts, parsed, objects, Key(tenant, kind, id));
    }
  }

  /** Whatever order the SQL backend's rows arrive in, its view at this tenant and type is not the in-memory one. */
  ghost predicate ViewsDiffer(s: Store, parsed: ByTenant<Option<Object>>, tenant: string, kind: Kind) {
    forall objects :: IsSlice(objects, s, tenant, kind) ==> !SameView(objects, Slice(parsed, tenant, NameOf(kind)))
  }

  /** Unrelated backends can be told apart: at some tenant and type their views differ. */
  lemma UnrelatedDiffer(config: Config, s: Store, texts: ByTenant<Text>, parsed: ByTenant<Option<Object>>)
    requires Mirror(FileSetup(config), texts, parsed) && !Related(config, s, texts)
    ensures exists tenant, kind :: ViewsDiffer(s, parsed, tenant, kind)
  {
    var k :| !Agree(config, k, s, Find(texts, SlotOf(k)));
    assert k == Key(k.tenant, k.kind, k.id);
    assert !RelatedAt(config, s, texts, k.tenant, k.kind);
    forall objects | IsSlice(objects, s, k.tenant, k.kind)
      ensures !SameView(objects, Slice(parsed, k.tenant, NameOf(k.kind)))
    {
      ViewsAgree(config, s, texts, parsed, k.tenant, k.kind, objects);
    }
    assert ViewsDiffer(s, parsed, k.tenant, k.kind);
  }

  /** The views agree after every regular run on the tables and in memory. */
  lemma ViewsAgreeAfterRun(config: Config, ops: seq<Op>, parsed: ByTenant<Option<Object>>,
                           tenant: string, kind: Kind, objects: map<string, Object>)
    requires (forall i :: 0 <= i < |ops| ==> Named(ops[i])) && RegularRun(config, ops)
    requires Mirror(FileSetup(config), RunMemory(config, ops).0, parsed)
    requires IsSlice(objects, Abs(Run(config, FaultFree(ops)).0), tenant, kind)
    ensures SameView(objects, Slice(parsed, tenant, NameOf(kind)))
  {
    InStepIffRegularRun(config, ops);
    PlainIsFaultFree(config, ops);
    RunRefines(config, FaultFree(ops));
    var s, mem := RunPlain(config, ops).0, RunMemory(config, ops).0;
    assert InStep(config, ops) && RelatedAt(config, s, mem, tenant, kind);
    ViewsAgree(config, s, mem, parsed, tenant, kind, objects);
  }

  /**
   What a client has seen by the end of `ops`: the last operation accepted by one backend only, or
   views that differ.
   */
  ghost predicate Apart(config: Config, ops: seq<Op>) {
    var (s, replies) := RunPlain(config, ops);
    var (mem, memReplies) := RunMemory(config, ops);
    || (ops != [] && !(Accepted(replies[|ops| - 1]) <==> MemAccepted(memReplies[|ops| - 1])))
    || forall parsed :: Mirror(FileSetup(config), mem, parsed) ==>
        exists tenant, kind :: ViewsDiffer(s, parsed, tenant, kind)
  }

  /** And after an irregular run a client can tell: at some point of the run the backends came visibly apart. */
  lemma {:induction false} IrregularRunShows(config: Config, ops: seq<Op>)
    requires (forall i :: 0 <= i < |ops| ==> Named(ops[i])) && !RegularRun(config, ops)
    ensures exists n | 0 <= n <= |ops| :: Apart(config, ops[..n])
    decreases |ops|
  {
    InStepIffRegularRun(config, ops);
    var before := ops[..|ops| - 1];
    InStepIffRegularRun(config, before);
    if !RegularRun(config, before) {
      IrregularRunShows(config, before);
      var n :| 0 <= n <= |before| && Apart(config, before[..n]);
      assert ops[..n] == before[..n];
    } else {
      var s, mem := RunPlain(config, ops).0, RunMemory(config, ops).0;
      if !Related(config, s, mem) {
        forall parsed | Mirror(FileSetup(config), mem, parsed)
          ensures exists tenant, kind :: ViewsDiffer(s, parsed, tenant, kind)
        {
          UnrelatedDiffer(config, s, mem, parsed);
        }
      }
      assert Apart(config, ops);
      assert ops[..|ops|] == ops;
    }
  }
}
