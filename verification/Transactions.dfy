/**
 The backend's operations as transactions: the statements each one issues, its outcome on the
 tables, and the plain map operation it amounts to (windermere/sqlbackend.go:394-575).
 */
module Transactions {
  import opened Wrappers
  import opened JsonTrees
  import opened Objects
  import opened Validation
  import Rows
  import opened Operations
  import opened Tables

  /** What a backend operation returns: a resource, nothing, or one of its errors. */
  datatype Reply =
    | Resource(body: Json)
    | Done
    | Conflict          // typed ConflictError
    | Missing           // typed MissingResourceError
    | Malformed         // typed MalformedResourceError
    | UnknownType       // unrecognized resource type
    | Rejected          // a statement violated a constraint
    | Fault             // a statement or the commit failed

  predicate Accepted(r: Reply) {
    r.Resource? || r.Done?
  }

  function KeyOf(tenant: string, o: Object): Key {
    Key(tenant, KindOf(o), o.id)
  }

  // ---------- the statements ----------

  /** createEmails and its likes: nothing when there is nothing to insert. */
  function InsertItems(key: Key, c: Rows.ChildTable, o: Object): seq<Statement> {
    if Rows.Items(o, c) == [] then [] else [InsertChildren(key, Rows.Items(o, c))]
  }

  function InsertAll(key: Key, cs: seq<Rows.ChildTable>, o: Object): seq<Statement> {
    if cs == [] then [] else InsertItems(key, cs[0], o) + InsertAll(key, cs[1..], o)
  }

  function ReplaceAll(key: Key, cs: seq<Rows.ChildTable>, o: Object): seq<Statement> {
    if cs == [] then []
    else [DeleteChildren(key, cs[0])] + InsertItems(key, cs[0], o) + ReplaceAll(key, cs[1..], o)
  }

  /** What the creators issue: the main row, then each child table's rows. */
  function CreateProgram(tenant: string, o: Object): seq<Statement> {
    [InsertMain(KeyOf(tenant, o), Rows.ColsOf(o))] + InsertAll(KeyOf(tenant, o), Rows.ChildTables(KindOf(o)), o)
  }

  /** What the mutators issue: update the main row, then delete and reinsert each child table's rows. */
  function MutateProgram(tenant: string, o: Object): seq<Statement> {
    [UpdateMain(KeyOf(tenant, o), Rows.ColsOf(o))] + ReplaceAll(KeyOf(tenant, o), Rows.ChildTables(KindOf(o)), o)
  }

  /** tablesForClearTenant. */
  const CLEARED: seq<Kind> :=
    [Users, StudentGroups, Organisations, SchoolUnitGroups, SchoolUnits, Employments, Activities]

  function ClearProgram(tenant: string, kinds: seq<Kind>): seq<Statement> {
    if kinds == [] then [] else [DeleteTenant(kinds[0], tenant)] + ClearProgram(tenant, kinds[1..])
  }

  // ---------- outcomes on the tables ----------

  /** The body's object, for operations that carry one and are not refused before reaching the database. */
  function BodyOf(config: Config, op: Op): Result<Object> {
    if !(op.Create? || op.Update?) || KindNamed(op.resourceType).None? then Failure
    else Parse(config, KindNamed(op.resourceType).value, op.resource)
  }

  ghost function Commit(t: Tables, program: seq<Statement>, reply: Reply): (Tables, Reply) {
    var r := ExecAll(t, program);
    if r.Success? then (r.value, reply) else (t, Rejected)
  }

  /** The operation's result when no statement faults: the committed tables and the reply. */
  ghost function Outcome(config: Config, t: Tables, op: Op): (Tables, Reply) {
    if op.Clear? then Commit(t, ClearProgram(op.tenant, CLEARED), Done)
    else
      var kind := KindNamed(op.resourceType);
      if kind.None? then (t, UnknownType)
      else if op.Delete? then
        var key := Key(op.tenant, kind.value, op.id);
        if key !in t.main then (t, Missing) else Commit(t, [DeleteMain(key)], Done)
      else
        var body := Parse(config, kind.value, op.resource);
        if body.Failure? then (t, Malformed)
        else if op.Create? then
          if KeyOf(op.tenant, body.value) in t.main then (t, Conflict)
          else Commit(t, CreateProgram(op.tenant, body.value), Resource(Encode(body.value)))
        else if Key(op.tenant, kind.value, op.id) !in t.main then (t, Missing)
        else Commit(t, MutateProgram(op.tenant, body.value), Resource(Encode(body.value)))
  }

  /** An operation, and whether some call to the database failed in it. */
  datatype Event = Event(op: Op, faulted: bool)

  /** The operation's result with faults: the first failing call ends it and leaves no trace. */
  ghost function Step(config: Config, t: Tables, e: Event): (Tables, Reply) {
    if e.faulted then (t, Fault) else Outcome(config, t, e.op)
  }

  // ---------- the plain map ----------

  function TenantKeys(keys: set<Key>, tenant: string): set<Key> {
    set k | k in keys && k.tenant == tenant
  }

  /** The same operation on a plain map from keys to what the tables keep. */
  ghost function Apply(config: Config, s: Store, op: Op): (Store, Reply) {
    if op.Clear? then (s - TenantKeys(s.Keys, op.tenant), Done)
    else
      var kind := KindNamed(op.resourceType);
      if kind.None? then (s, UnknownType)
      else if op.Delete? then
        var key := Key(op.tenant, kind.value, op.id);
        if key in s then (s - {key}, Done) else (s, Missing)
      else
        var body := Parse(config, kind.value, op.resource);
        if body.Failure? then (s, Malformed)
        else
          var key := KeyOf(op.tenant, body.value);
          var stored := s[key := Rows.Split(body.value)];
          var ok := Resource(Encode(body.value));
          if op.Create? then if key in s then (s, Conflict) else (stored, ok)
          else if Key(op.tenant, kind.value, op.id) !in s then (s, Missing)
          else if key in s then (stored, ok)
          else if Rows.AllItems(body.value) == multiset{} then (s, ok)
          else (s, Rejected)
  }

  /** An operation that carries an object, on the plain map, in terms of that object alone. */
  lemma ApplyBody(config: Config, s: Store, op: Op)
    requires (op.Create? || op.Update?) && KindNamed(op.resourceType).Some?
    ensures var body := BodyOf(config, op);
            var (s', reply) := Apply(config, s, op);
            if body.Failure? then (s', reply) == (s, Malformed)
            else
              var key := KeyOf(op.tenant, body.value);
              var path := Key(op.tenant, KindOf(body.value), if op.Update? then op.id else "");
              && KindNamed(op.resourceType) == Some(key.kind)
              && (op.Create? ==>
                    if key in s then (s', reply) == (s, Conflict)
                    else (s', reply) == (s[key := Rows.Split(body.value)], Resource(Encode(body.value))))
              && (op.Update? && path !in s ==> (s', reply) == (s, Missing))
              && (op.Update? && path in s ==>
                    if key in s then (s', reply) == (s[key := Rows.Split(body.value)], Resource(Encode(body.value)))
                    else s' == s)
  {
  }

  // ---------- statements on the plain map ----------

  lemma OneStatement(s: Store, stmt: Statement)
    ensures ExecAllStore(s, [stmt]) == ExecStore(s, stmt)
  {
  }

  lemma FirstThen(s: Store, stmt: Statement, program: seq<Statement>)
    ensures ExecAllStore(s, [stmt] + program) ==
            if ExecStore(s, stmt).Failure? then Failure else ExecAllStore(ExecStore(s, stmt).value, program)
  {
  }

  /** The map with the child items of one stored key replaced. */
  ghost function Put(s: Store, key: Key, items: multiset<Rows.Item>): (r: Store)
    requires key in s
    ensures key in r && r[key] == Rows.Stored(s[key].cols, items)
  {
    s[key := s[key].(items := items)]
  }

  lemma PutPut(s: Store, key: Key, a: multiset<Rows.Item>, b: multiset<Rows.Item>)
    requires key in s
    ensures Put(Put(s, key, a), key, b) == Put(s, key, b)
  {
  }

  lemma PutSame(s: Store, key: Key)
    requires key in s
    ensures Put(s, key, s[key].items) == s
  {
  }

  lemma InsertItemsStore(s: Store, key: Key, c: Rows.ChildTable, o: Object)
    ensures ExecAllStore(s, InsertItems(key, c, o)) ==
            if key in s then Success(Put(s, key, s[key].items + multiset(Rows.Items(o, c))))
            else if Rows.Items(o, c) == [] then Success(s)
            else Failure
  {
    if Rows.Items(o, c) == [] {
      if key in s {
        assert s[key].items + multiset(Rows.Items(o, c)) == s[key].items;
        PutSame(s, key);
      }
    } else {
      OneStatement(s, InsertChildren(key, Rows.Items(o, c)));
    }
  }

  lemma {:induction false} InsertAllStore(s: Store, key: Key, cs: seq<Rows.ChildTable>, o: Object)
    requires key in s
    ensures ExecAllStore(s, InsertAll(key, cs, o)) == Success(Put(s, key, s[key].items + Rows.ItemsIn(o, cs)))
  {
    var items := s[key].items;
    if cs == [] {
      assert items + Rows.ItemsIn(o, cs) == items;
      PutSame(s, key);
    } else {
      var rest := Rows.ItemsIn(o, cs[1..]);
      var first := items + multiset(Rows.Items(o, cs[0]));
      ExecAllStoreConcat(s, InsertItems(key, cs[0], o), InsertAll(key, cs[1..], o));
      InsertItemsStore(s, key, cs[0], o);
      InsertAllStore(Put(s, key, first), key, cs[1..], o);
      PutPut(s, key, first, first + rest);
      assert first + rest == items + Rows.ItemsIn(o, cs);
    }
  }

  /** The bag without the rows of the child tables in `cs`. */
  ghost function Without(items: multiset<Rows.Item>, cs: seq<Rows.ChildTable>): multiset<Rows.Item> {
    Filter(items, (i: Rows.Item) => Rows.TableOf(i) !in cs)
  }

  lemma ReplaceOne(s: Store, key: Key, c: Rows.ChildTable, o: Object)
    requires key in s
    ensures ExecAllStore(s, [DeleteChildren(key, c)] + InsertItems(key, c, o)) ==
            Success(Put(s, key, Without(s[key].items, [c]) + multiset(Rows.Items(o, c))))
  {
    var left := Without(s[key].items, [c]);
    FirstThen(s, DeleteChildren(key, c), InsertItems(key, c, o));
    assert Filter(s[key].items, (i: Rows.Item) => Rows.TableOf(i) != c) == left;
    InsertItemsStore(Put(s, key, left), key, c, o);
    PutPut(s, key, left, left + multiset(Rows.Items(o, c)));
  }

  /** Two programs that replace the items of a key, one after the other. */
  lemma PutThenPut(s: Store, key: Key, p: seq<Statement>, q: seq<Statement>, a: multiset<Rows.Item>,
                   b: multiset<Rows.Item>)
    requires key in s && ExecAllStore(s, p) == Success(Put(s, key, a))
    requires ExecAllStore(Put(s, key, a), q) == Success(Put(Put(s, key, a), key, b))
    ensures ExecAllStore(s, p + q) == Success(Put(s, key, b))
  {
    ExecAllStoreConcat(s, p, q);
    PutPut(s, key, a, b);
  }

  lemma {:induction false} ReplaceAllStore(s: Store, key: Key, cs: seq<Rows.ChildTable>, o: Object)
    requires key in s && forall i, j :: 0 <= i < j < |cs| ==> cs[i] != cs[j]
    ensures ExecAllStore(s, ReplaceAll(key, cs, o)) ==
            Success(Put(s, key, Without(s[key].items, cs) + Rows.ItemsIn(o, cs)))
  {
    var items := s[key].items;
    if cs == [] {
      assert Without(items, cs) + Rows.ItemsIn(o, cs) == items;
      PutSame(s, key);
    } else {
      var c, rest := cs[0], cs[1..];
      var first := Without(items, [c]) + multiset(Rows.Items(o, c));
      ReplaceOne(s, key, c, o);
      ReplaceAllStore(Put(s, key, first), key, rest, o);
      PutThenPut(s, key, [DeleteChildren(key, c)] + InsertItems(key, c, o), ReplaceAll(key, rest, o), first,
                 Without(first, rest) + Rows.ItemsIn(o, rest));
      ReplacedBag(items, c, rest, o);
      assert cs == [c] + rest;
    }
  }

  lemma ReplacedBag(items: multiset<Rows.Item>, c: Rows.ChildTable, rest: seq<Rows.ChildTable>, o: Object)
    requires c !in rest
    ensures Without(Without(items, [c]) + multiset(Rows.Items(o, c)), rest) + Rows.ItemsIn(o, rest)
         == Without(items, [c] + rest) + Rows.ItemsIn(o, [c] + rest)
  {
    var own := multiset(Rows.Items(o, c));
    Rows.ItemsTyped(o, c);
    KeepOwn(items, c, rest, own);
    assert ([c] + rest)[1..] == rest;
    assert Rows.ItemsIn(o, [c] + rest) == own + Rows.ItemsIn(o, rest);
  }

  lemma KeepOwn(items: multiset<Rows.Item>, c: Rows.ChildTable, rest: seq<Rows.ChildTable>, own: multiset<Rows.Item>)
    requires c !in rest && forall i :: i in own ==> Rows.TableOf(i) == c
    ensures Without(Without(items, [c]) + own, rest) == Without(items, [c] + rest) + own
  {
  }

  lemma {:induction false} ReplaceAllStoreMissing(s: Store, key: Key, cs: seq<Rows.ChildTable>, o: Object)
    requires key !in s
    ensures ExecAllStore(s, ReplaceAll(key, cs, o)) ==
            if Rows.ItemsIn(o, cs) == multiset{} then Success(s) else Failure
  {
    if cs != [] {
      var c, rest := cs[0], cs[1..];
      ExecAllStoreConcat(s, [DeleteChildren(key, c)] + InsertItems(key, c, o), ReplaceAll(key, rest, o));
      FirstThen(s, DeleteChildren(key, c), InsertItems(key, c, o));
      InsertItemsStore(s, key, c, o);
      ReplaceAllStoreMissing(s, key, rest, o);
      assert |multiset(Rows.Items(o, c))| == |Rows.Items(o, c)|;
    }
  }

  lemma PutEntry(s: Store, key: Key, entry: Rows.Stored, items: multiset<Rows.Item>)
    ensures Put(s[key := entry], key, items) == s[key := Rows.Stored(entry.cols, items)]
  {
  }

  lemma InsertWithItems(s: Store, key: Key, cols: Rows.Cols, cs: seq<Rows.ChildTable>, o: Object)
    requires key !in s
    ensures ExecAllStore(s, [InsertMain(key, cols)] + InsertAll(key, cs, o)) ==
            Success(s[key := Rows.Stored(cols, Rows.ItemsIn(o, cs))])
  {
    FirstThen(s, InsertMain(key, cols), InsertAll(key, cs, o));
    var entry := Rows.Stored(cols, multiset{});
    InsertAllStore(s[key := entry], key, cs, o);
    assert multiset{} + Rows.ItemsIn(o, cs) == Rows.ItemsIn(o, cs);
    PutEntry(s, key, entry, Rows.ItemsIn(o, cs));
  }

  lemma CreateStore(s: Store, tenant: string, o: Object)
    requires KeyOf(tenant, o) !in s
    ensures ExecAllStore(s, CreateProgram(tenant, o)) == Success(s[KeyOf(tenant, o) := Rows.Split(o)])
  {
    InsertWithItems(s, KeyOf(tenant, o), Rows.ColsOf(o), Rows.ChildTables(KindOf(o)), o);
  }

  lemma NothingLeft(items: multiset<Rows.Item>, cs: seq<Rows.ChildTable>, added: multiset<Rows.Item>)
    requires forall i :: i in items ==> Rows.TableOf(i) in cs
    ensures Without(items, cs) + added == added
  {
  }

  lemma UpdateWithItems(s: Store, key: Key, cols: Rows.Cols, cs: seq<Rows.ChildTable>, o: Object)
    requires key in s && (forall i :: i in s[key].items ==> Rows.TableOf(i) in cs)
    requires forall i, j :: 0 <= i < j < |cs| ==> cs[i] != cs[j]
    ensures ExecAllStore(s, [UpdateMain(key, cols)] + ReplaceAll(key, cs, o)) ==
            Success(s[key := Rows.Stored(cols, Rows.ItemsIn(o, cs))])
  {
    FirstThen(s, UpdateMain(key, cols), ReplaceAll(key, cs, o));
    var entry := s[key].(cols := cols);
    ReplaceAllStore(s[key := entry], key, cs, o);
    NothingLeft(s[key].items, cs, Rows.ItemsIn(o, cs));
    PutEntry(s, key, entry, Rows.ItemsIn(o, cs));
  }

  lemma MutateStored(s: Store, tenant: string, o: Object)
    requires TypedStore(s) && KeyOf(tenant, o) in s
    ensures ExecAllStore(s, MutateProgram(tenant, o)) == Success(s[KeyOf(tenant, o) := Rows.Split(o)])
  {
    assert TypedStored(KindOf(o), s[KeyOf(tenant, o)]);
    UpdateWithItems(s, KeyOf(tenant, o), Rows.ColsOf(o), Rows.ChildTables(KindOf(o)), o);
  }

  lemma MutateMissing(s: Store, tenant: string, o: Object)
    requires KeyOf(tenant, o) !in s
    ensures ExecAllStore(s, MutateProgram(tenant, o)) ==
            if Rows.AllItems(o) == multiset{} then Success(s) else Failure
  {
    var key, cs := KeyOf(tenant, o), Rows.ChildTables(KindOf(o));
    var update := UpdateMain(key, Rows.ColsOf(o));
    FirstThen(s, update, ReplaceAll(key, cs, o));
    ReplaceAllStoreMissing(s, key, cs, o);
  }

  function ClearedKeys(keys: set<Key>, tenant: string, kinds: seq<Kind>): set<Key> {
    set k | k in keys && k.tenant == tenant && k.kind in kinds
  }

  lemma {:induction false} ClearStore(s: Store, tenant: string, kinds: seq<Kind>)
    ensures ExecAllStore(s, ClearProgram(tenant, kinds)) == Success(s - ClearedKeys(s.Keys, tenant, kinds))
  {
    if kinds == [] {
      assert s - ClearedKeys(s.Keys, tenant, kinds) == s;
    } else {
      var delete := DeleteTenant(kinds[0], tenant);
      FirstThen(s, delete, ClearProgram(tenant, kinds[1..]));
      var s' := s - KeysIn(s.Keys, kinds[0], tenant);
      ClearStore(s', tenant, kinds[1..]);
      assert kinds == [kinds[0]] + kinds[1..];
      assert s' - ClearedKeys(s'.Keys, tenant, kinds[1..]) == s - ClearedKeys(s.Keys, tenant, kinds);
    }
  }

  // ---------- typing of the programs ----------

  lemma {:induction false} InsertAllTyped(key: Key, cs: seq<Rows.ChildTable>, o: Object)
    requires key.kind == KindOf(o)
    ensures AllTyped(InsertAll(key, cs, o))
    ensures forall s :: s in InsertAll(key, cs, o) ==> TenantOf(s) == key.tenant
  {
    if cs != [] {
      InsertAllTyped(key, cs[1..], o);
      Rows.ItemsTyped(o, cs[0]);
    }
  }

  lemma {:induction false} ReplaceAllTyped(key: Key, cs: seq<Rows.ChildTable>, o: Object)
    requires key.kind == KindOf(o) && forall c :: c in cs ==> Rows.Parent(c) == key.kind
    ensures AllTyped(ReplaceAll(key, cs, o))
    ensures forall s :: s in ReplaceAll(key, cs, o) ==> TenantOf(s) == key.tenant
  {
    if cs != [] {
      ReplaceAllTyped(key, cs[1..], o);
      Rows.ItemsTyped(o, cs[0]);
    }
  }

  lemma {:induction false} ClearTyped(tenant: string, kinds: seq<Kind>)
    ensures AllTyped(ClearProgram(tenant, kinds))
    ensures forall s :: s in ClearProgram(tenant, kinds) ==> TenantOf(s) == tenant
  {
    if kinds != [] {
      ClearTyped(tenant, kinds[1..]);
    }
  }

  lemma CreateTyped(tenant: string, o: Object)
    ensures AllTyped(CreateProgram(tenant, o))
    ensures forall s :: s in CreateProgram(tenant, o) ==> TenantOf(s) == tenant
  {
    InsertAllTyped(KeyOf(tenant, o), Rows.ChildTables(KindOf(o)), o);
    Rows.ColsOfTyped(o);
  }

  lemma MutateTyped(tenant: string, o: Object)
    ensures AllTyped(MutateProgram(tenant, o))
    ensures forall s :: s in MutateProgram(tenant, o) ==> TenantOf(s) == tenant
  {
    ReplaceAllTyped(KeyOf(tenant, o), Rows.ChildTables(KindOf(o)), o);
    Rows.ColsOfTyped(o);
  }

  // ---------- the refinement of one operation ----------

  /** A Create whose key is free is never stopped by a primary or foreign key. */
  lemma CreateIsNeverRejected(t: Tables, tenant: string, o: Object)
    requires WellFormed(t) && KeyOf(tenant, o) !in t.main
    ensures ExecAll(t, CreateProgram(tenant, o)).Success?
    ensures Abs(ExecAll(t, CreateProgram(tenant, o)).value) == Abs(t)[KeyOf(tenant, o) := Rows.Split(o)]
  {
    CreateTyped(tenant, o);
    ExecAllRefines(t, CreateProgram(tenant, o));
    CreateStore(Abs(t), tenant, o);
  }

  lemma ClearAll(s: Store, tenant: string)
    ensures ExecAllStore(s, ClearProgram(tenant, CLEARED)) == Success(s - TenantKeys(s.Keys, tenant))
  {
    ClearStore(s, tenant, CLEARED);
    forall k: Key ensures k.kind in CLEARED { EveryKindCleared(k.kind); }
    assert ClearedKeys(s.Keys, tenant, CLEARED) == TenantKeys(s.Keys, tenant);
  }

  lemma EveryKindCleared(kind: Kind)
    ensures kind in CLEARED
  {
  }

  lemma UpdateStored(t: Tables, tenant: string, o: Object)
    requires WellFormed(t) && KeyOf(tenant, o) in t.main
    ensures ExecAll(t, MutateProgram(tenant, o)).Success?
    ensures Abs(ExecAll(t, MutateProgram(tenant, o)).value) == Abs(t)[KeyOf(tenant, o) := Rows.Split(o)]
  {
    MutateTyped(tenant, o);
    ExecAllRefines(t, MutateProgram(tenant, o));
    AbsTyped(t);
    MutateStored(Abs(t), tenant, o);
  }

  lemma UpdateMissing(t: Tables, tenant: string, o: Object)
    requires WellFormed(t) && KeyOf(tenant, o) !in t.main
    ensures ExecAll(t, MutateProgram(tenant, o)) ==
            if Rows.AllItems(o) == multiset{} then Success(t) else Failure
  {
    MutateTyped(tenant, o);
    ExecAllRefines(t, MutateProgram(tenant, o));
    MutateMissing(Abs(t), tenant, o);
    if ExecAll(t, MutateProgram(tenant, o)).Success? {
      AbsInjective(ExecAll(t, MutateProgram(tenant, o)).value, t);
    }
  }

  lemma CreateRefines(config: Config, t: Tables, op: Op)
    requires WellFormed(t) && op.Create?
    ensures Apply(config, Abs(t), op) == (Abs(Outcome(config, t, op).0), Outcome(config, t, op).1)
  {
    var body := BodyOf(config, op);
    if body.Success? && KeyOf(op.tenant, body.value) !in t.main {
      CreateIsNeverRejected(t, op.tenant, body.value);
    }
  }

  lemma OutcomeOfUpdate(config: Config, t: Tables, op: Op)
    requires op.Update? && BodyOf(config, op).Success?
    ensures var o := BodyOf(config, op).value;
            Outcome(config, t, op) ==
            if Key(op.tenant, KindOf(o), op.id) !in t.main then (t, Missing)
            else Commit(t, MutateProgram(op.tenant, o), Resource(Encode(o)))
  {
  }

  lemma ApplyOfUpdate(config: Config, s: Store, op: Op)
    requires op.Update? && BodyOf(config, op).Success?
    ensures var o := BodyOf(config, op).value;
            var key := KeyOf(op.tenant, o);
            Apply(config, s, op) ==
            if Key(op.tenant, KindOf(o), op.id) !in s then (s, Missing)
            else if key in s then (s[key := Rows.Split(o)], Resource(Encode(o)))
            else if Rows.AllItems(o) == multiset{} then (s, Resource(Encode(o)))
            else (s, Rejected)
  {
  }

  lemma UpdateRefines(config: Config, t: Tables, op: Op)
    requires WellFormed(t) && op.Update?
    ensures Apply(config, Abs(t), op) == (Abs(Outcome(config, t, op).0), Outcome(config, t, op).1)
  {
    var body := BodyOf(config, op);
    if body.Success? {
      OutcomeOfUpdate(config, t, op);
      ApplyOfUpdate(config, Abs(t), op);
      if KeyOf(op.tenant, body.value) in t.main {
        UpdateStored(t, op.tenant, body.value);
      } else {
        UpdateMissing(t, op.tenant, body.value);
      }
    }
  }

  lemma DeleteRefines(config: Config, t: Tables, op: Op)
    requires WellFormed(t) && op.Delete?
    ensures Apply(config, Abs(t), op) == (Abs(Outcome(config, t, op).0), Outcome(config, t, op).1)
  {
    if KindNamed(op.resourceType).Some? {
      var delete := DeleteMain(Key(op.tenant, KindNamed(op.resourceType).value, op.id));
      ExecAllRefines(t, [delete]);
      OneStatement(Abs(t), delete);
    }
  }

  lemma CommitKeepsWellFormed(t: Tables, program: seq<Statement>, reply: Reply)
    requires WellFormed(t) && AllTyped(program)
    ensures WellFormed(Commit(t, program, reply).0)
  {
    ExecAllRefines(t, program);
  }

  lemma BodyKeepsWellFormed(config: Config, t: Tables, op: Op)
    requires WellFormed(t) && (op.Create? || op.Update?)
    ensures WellFormed(Outcome(config, t, op).0)
  {
    var body := BodyOf(config, op);
    if body.Success? {
      var reply := Resource(Encode(body.value));
      CreateTyped(op.tenant, body.value);
      MutateTyped(op.tenant, body.value);
      CommitKeepsWellFormed(t, CreateProgram(op.tenant, body.value), reply);
      CommitKeepsWellFormed(t, MutateProgram(op.tenant, body.value), reply);
    }
  }

  lemma OutcomeKeepsWellFormed(config: Config, t: Tables, op: Op)
    requires WellFormed(t)
    ensures WellFormed(Outcome(config, t, op).0)
  {
    match op
    case Clear(tenant) =>
      ClearTyped(tenant, CLEARED);
      CommitKeepsWellFormed(t, ClearProgram(tenant, CLEARED), Done);
    case Delete(tenant, resourceType, id) =>
      if KindNamed(resourceType).Some? {
        CommitKeepsWellFormed(t, [DeleteMain(Key(tenant, KindNamed(resourceType).value, id))], Done);
      }
    case _ => BodyKeepsWellFormed(config, t, op);
  }

  /**
   Main result: every operation on the thirteen tables is the corresponding operation on the
   plain map, with the same reply, and keeps the relational invariant.
   */
  lemma OutcomeRefines(config: Config, t: Tables, op: Op)
    requires WellFormed(t)
    ensures WellFormed(Outcome(config, t, op).0)
    ensures Apply(config, Abs(t), op) == (Abs(Outcome(config, t, op).0), Outcome(config, t, op).1)
  {
    OutcomeKeepsWellFormed(config, t, op);
    match op
    case Clear(tenant) =>
      ClearTyped(tenant, CLEARED);
      ExecAllRefines(t, ClearProgram(tenant, CLEARED));
      ClearAll(Abs(t), tenant);
    case Delete(_, _, _) => DeleteRefines(config, t, op);
    case Create(_, _, _) => CreateRefines(config, t, op);
    case Update(_, _, _, _) => UpdateRefines(config, t, op);
  }

  lemma CommitIsolates(t: Tables, program: seq<Statement>, reply: Reply, tenant: string)
    requires forall s :: s in program ==> TenantOf(s) == tenant
    ensures SameElsewhere(t, Commit(t, program, reply).0, tenant)
  {
    ExecAllIsolates(t, program, tenant);
  }

  lemma BodyIsolates(config: Config, t: Tables, op: Op)
    requires op.Create? || op.Update?
    ensures SameElsewhere(t, Outcome(config, t, op).0, op.tenant)
  {
    var body := BodyOf(config, op);
    if body.Success? {
      var reply := Resource(Encode(body.value));
      CreateTyped(op.tenant, body.value);
      MutateTyped(op.tenant, body.value);
      CommitIsolates(t, CreateProgram(op.tenant, body.value), reply, op.tenant);
      CommitIsolates(t, MutateProgram(op.tenant, body.value), reply, op.tenant);
    }
  }

  /** An operation for one tenant changes no row of another tenant in any of the thirteen tables. */
  lemma OutcomeIsolates(config: Config, t: Tables, op: Op)
    ensures SameElsewhere(t, Outcome(config, t, op).0, op.tenant)
  {
    match op
    case Clear(tenant) =>
      ClearTyped(tenant, CLEARED);
      CommitIsolates(t, ClearProgram(tenant, CLEARED), Done, tenant);
    case Delete(tenant, resourceType, id) =>
      if KindNamed(resourceType).Some? {
        CommitIsolates(t, [DeleteMain(Key(tenant, KindNamed(resourceType).value, id))], Done, tenant);
      }
    case _ => BodyIsolates(config, t, op);
  }

  /** Clear leaves none of the thirteen tables holding a row of the tenant. */
  lemma ClearEmptiesTenant(config: Config, t: Tables, tenant: string)
    requires WellFormed(t)
    ensures var u := Outcome(config, t, Clear(tenant)).0;
            && (forall k :: k in u.main ==> k.tenant != tenant)
            && (forall r :: r in u.child ==> r.key.tenant != tenant)
            && SameElsewhere(t, u, tenant)
  {
    OutcomeRefines(config, t, Clear(tenant));
    OutcomeIsolates(config, t, Clear(tenant));
    var u := Outcome(config, t, Clear(tenant)).0;
    assert u.main.Keys == Abs(u).Keys;
  }

  /** Delete removes the main row and exactly its child rows, by cascade. */
  lemma DeleteRemovesExactly(config: Config, t: Tables, key: Key)
    requires key in t.main
    ensures var (u, reply) := Outcome(config, t, Delete(key.tenant, NameOf(key.kind), key.id));
            && reply == Done
            && u.main == t.main - {key}
            && forall r :: u.child[r] == if r.key == key then 0 else t.child[r]
  {
    KindOfName(key.kind);
    assert Key(key.tenant, key.kind, key.id) == key;
    var program := [DeleteMain(key)];
    assert program[1..] == [];
    assert ExecAll(t, program) == Exec(t, program[0]);
  }
}
