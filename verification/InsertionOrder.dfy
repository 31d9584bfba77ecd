/**
 What is read when the database returns child rows in the order in which they were inserted, as
 its queries do not ask it to: the normal form of the last write, list order included.
 */
module InsertionOrder {
  import opened Wrappers
  import opened Objects
  import opened Validation
  import opened Rows
  import opened Tables
  import opened Engine
  import opened Operations
  import T = Transactions
  import opened Runs
  import SqlBackends

  // ---------- child rows in insertion order ----------

  function Kept(rows: seq<ChildRow>, keep: ChildRow -> bool): seq<ChildRow> {
    if rows == [] then []
    else
      var n := |rows| - 1;
      Kept(rows[..n], keep) + if keep(rows[n]) then [rows[n]] else []
  }

  /** The child rows after a statement: insertions come last, and a deletion leaves the others in place. */
  function After(rows: seq<ChildRow>, s: Statement): seq<ChildRow> {
    match s
    case InsertChildren(key, items) => rows + ChildRows(key, items)
    case DeleteChildren(key, table) => Kept(rows, (r: ChildRow) => !(r.key == key && TableOf(r.item) == table))
    case DeleteMain(key) => Kept(rows, (r: ChildRow) => r.key != key)
    case DeleteTenant(kind, tenant) => Kept(rows, (r: ChildRow) => !InTable(r.key, kind, tenant))
    case _ => rows
  }

  function AfterAll(rows: seq<ChildRow>, program: seq<Statement>): seq<ChildRow>
    decreases |program|
  {
    if program == [] then rows else AfterAll(After(rows, program[0]), program[1..])
  }

  lemma {:induction false} KeptCount(rows: seq<ChildRow>, keep: ChildRow -> bool, r: ChildRow)
    ensures multiset(Kept(rows, keep))[r] == if keep(r) then multiset(rows)[r] else 0
  {
    if rows != [] {
      var n := |rows| - 1;
      KeptCount(rows[..n], keep, r);
      assert rows == rows[..n] + [rows[n]];
    }
  }

  lemma KeptIsFilter(rows: seq<ChildRow>, keep: ChildRow -> bool)
    ensures multiset(Kept(rows, keep)) == Filter(multiset(rows), keep)
  {
    forall r { KeptCount(rows, keep, r); }
  }

  lemma AfterIsExec(t: Tables, rows: seq<ChildRow>, s: Statement)
    requires multiset(rows) == t.child && Exec(t, s).Success?
    ensures multiset(After(rows, s)) == Exec(t, s).value.child
  {
    match s
    case DeleteChildren(key, table) => KeptIsFilter(rows, (r: ChildRow) => !(r.key == key && TableOf(r.item) == table));
    case DeleteMain(key) => KeptIsFilter(rows, (r: ChildRow) => r.key != key);
    case DeleteTenant(kind, tenant) => KeptIsFilter(rows, (r: ChildRow) => !InTable(r.key, kind, tenant));
    case _ =>
  }

  lemma {:induction false} AfterAllIsExecAll(t: Tables, rows: seq<ChildRow>, program: seq<Statement>)
    requires multiset(rows) == t.child && ExecAll(t, program).Success?
    ensures multiset(AfterAll(rows, program)) == ExecAll(t, program).value.child
    decreases |program|
  {
    if program != [] {
      AfterIsExec(t, rows, program[0]);
      AfterAllIsExecAll(Exec(t, program[0]).value, After(rows, program[0]), program[1..]);
    }
  }

  // ---------- columns ----------

  /** The items of one key in one child table, in order. */
  function Column(rows: seq<ChildRow>, key: Key, c: ChildTable): seq<Item> {
    if rows == [] then []
    else
      var n := |rows| - 1;
      Column(rows[..n], key, c) + if rows[n].key == key && TableOf(rows[n].item) == c then [rows[n].item] else []
  }

  lemma ColumnOfMore(rows: seq<ChildRow>, r: ChildRow, k: Key, c: ChildTable)
    ensures Column(rows + [r], k, c) == Column(rows, k, c) + if r.key == k && TableOf(r.item) == c then [r.item] else []
  {
    assert (rows + [r])[..|rows|] == rows;
  }

  lemma OneMoreChildRow(rows: seq<ChildRow>, key: Key, items: seq<Item>, n: nat)
    requires |items| == n + 1
    ensures rows + ChildRows(key, items) == rows + ChildRows(key, items[..n]) + [ChildRow(key, items[n])]
  {
    assert ChildRows(key, items) == ChildRows(key, items[..n]) + [ChildRow(key, items[n])];
  }

  lemma {:induction false} OwnInserted(rows: seq<ChildRow>, key: Key, items: seq<Item>, c: ChildTable)
    requires forall i :: 0 <= i < |items| ==> TableOf(items[i]) == c
    ensures Column(rows + ChildRows(key, items), key, c) == Column(rows, key, c) + items
  {
    var column := Column(rows, key, c);
    if items == [] {
      assert rows + ChildRows(key, items) == rows && column + items == column;
    } else {
      var n := |items| - 1;
      OwnInserted(rows, key, items[..n], c);
      OneMoreChildRow(rows, key, items, n);
      ColumnOfMore(rows + ChildRows(key, items[..n]), ChildRow(key, items[n]), key, c);
      assert column + items == column + items[..n] + [items[n]];
    }
  }

  lemma {:induction false} OtherInserted(rows: seq<ChildRow>, key: Key, items: seq<Item>, k: Key, c: ChildTable)
    requires key != k || forall i :: 0 <= i < |items| ==> TableOf(items[i]) != c
    ensures Column(rows + ChildRows(key, items), k, c) == Column(rows, k, c)
  {
    if items == [] {
      assert rows + ChildRows(key, items) == rows;
    } else {
      var n := |items| - 1;
      OtherInserted(rows, key, items[..n], k, c);
      OneMoreChildRow(rows, key, items, n);
      ColumnOfMore(rows + ChildRows(key, items[..n]), ChildRow(key, items[n]), k, c);
    }
  }

  /** Inserting the items of one child table. */
  lemma ColumnOfInserted(rows: seq<ChildRow>, key: Key, items: seq<Item>, d: ChildTable, k: Key, c: ChildTable)
    requires forall i :: 0 <= i < |items| ==> TableOf(items[i]) == d
    ensures Column(rows + ChildRows(key, items), k, c) == Column(rows, k, c) + if key == k && d == c then items else []
  {
    if key == k && d == c {
      OwnInserted(rows, key, items, c);
    } else {
      OtherInserted(rows, key, items, k, c);
    }
  }

  /** Keeping all rows of a column, or none of them. */
  lemma {:induction false} ColumnOfKept(rows: seq<ChildRow>, keep: ChildRow -> bool, k: Key, c: ChildTable, all: bool)
    requires forall r: ChildRow :: r.key == k && TableOf(r.item) == c ==> keep(r) == all
    ensures Column(Kept(rows, keep), k, c) == if all then Column(rows, k, c) else []
  {
    if rows != [] {
      var n := |rows| - 1;
      var kept := Kept(rows[..n], keep);
      ColumnOfKept(rows[..n], keep, k, c, all);
      ColumnOfMore(kept, rows[n], k, c);
      assert Kept(rows, keep) == if keep(rows[n]) then kept + [rows[n]] else kept;
    }
  }

  lemma ColumnAfter(rows: seq<ChildRow>, s: Statement, k: Key, c: ChildTable)
    requires !s.InsertChildren?
    ensures Column(After(rows, s), k, c) ==
            if || (s.DeleteChildren? && s.key == k && s.table == c)
               || (s.DeleteMain? && s.key == k)
               || (s.DeleteTenant? && InTable(k, s.kind, s.tenant))
            then [] else Column(rows, k, c)
  {
    match s
    case DeleteChildren(key, table) =>
      ColumnOfKept(rows, (r: ChildRow) => !(r.key == key && TableOf(r.item) == table), k, c, !(key == k && table == c));
    case DeleteMain(key) => ColumnOfKept(rows, (r: ChildRow) => r.key != key, k, c, key != k);
    case DeleteTenant(kind, tenant) =>
      ColumnOfKept(rows, (r: ChildRow) => !InTable(r.key, kind, tenant), k, c, !InTable(k, kind, tenant));
    case _ =>
  }

  lemma {:induction false} AfterAllConcat(rows: seq<ChildRow>, a: seq<Statement>, b: seq<Statement>)
    ensures AfterAll(rows, a + b) == AfterAll(AfterAll(rows, a), b)
    decreases |a|
  {
    if a == [] {
      assert a + b == b;
    } else {
      assert (a + b)[1..] == a[1..] + b;
      AfterAllConcat(After(rows, a[0]), a[1..], b);
    }
  }

  lemma ColumnInsertItems(rows: seq<ChildRow>, key: Key, c: ChildTable, o: Object, k: Key, d: ChildTable)
    ensures Column(AfterAll(rows, T.InsertItems(key, c, o)), k, d) ==
            Column(rows, k, d) + if k == key && d == c then Items(o, c) else []
  {
    var items := Items(o, c);
    ItemsTyped(o, c);
    if items != [] {
      var program := [InsertChildren(key, items)];
      assert program[1..] == [];
      assert AfterAll(rows, program) == rows + ChildRows(key, items);
      ColumnOfInserted(rows, key, items, c, k, d);
    }
  }

  lemma {:induction false} ColumnInsertAll(rows: seq<ChildRow>, key: Key, cs: seq<ChildTable>, o: Object, k: Key,
                                           d: ChildTable)
    requires forall i, j :: 0 <= i < j < |cs| ==> cs[i] != cs[j]
    ensures Column(AfterAll(rows, T.InsertAll(key, cs, o)), k, d) ==
            Column(rows, k, d) + if k == key && d in cs then Items(o, d) else []
    decreases |cs|
  {
    if cs != [] {
      var one, rest := T.InsertItems(key, cs[0], o), T.InsertAll(key, cs[1..], o);
      AfterAllConcat(rows, one, rest);
      ColumnInsertItems(rows, key, cs[0], o, k, d);
      ColumnInsertAll(AfterAll(rows, one), key, cs[1..], o, k, d);
      OneOrRest(cs, d);
      var before, first := Column(rows, k, d), if k == key && d == cs[0] then Items(o, d) else [];
      assert before + first + [] == before + first && before + [] == before;
    }
  }

  lemma OneOrRest(cs: seq<ChildTable>, d: ChildTable)
    requires cs != [] && forall i, j :: 0 <= i < j < |cs| ==> cs[i] != cs[j]
    ensures d in cs <==> d == cs[0] || d in cs[1..]
    ensures d == cs[0] ==> d !in cs[1..]
  {
  }

  lemma ColumnReplaceOne(rows: seq<ChildRow>, key: Key, c: ChildTable, o: Object, k: Key, d: ChildTable)
    ensures Column(AfterAll(rows, [DeleteChildren(key, c)] + T.InsertItems(key, c, o)), k, d) ==
            if k == key && d == c then Items(o, c) else Column(rows, k, d)
  {
    var delete := DeleteChildren(key, c);
    var one := [delete] + T.InsertItems(key, c, o);
    assert one[1..] == T.InsertItems(key, c, o);
    assert AfterAll(rows, one) == AfterAll(After(rows, delete), one[1..]);
    ColumnAfter(rows, delete, k, d);
    ColumnInsertItems(After(rows, delete), key, c, o, k, d);
    assert [] + Items(o, c) == Items(o, c) && Column(rows, k, d) + [] == Column(rows, k, d);
  }

  lemma {:induction false} ColumnReplaceAll(rows: seq<ChildRow>, key: Key, cs: seq<ChildTable>, o: Object, k: Key,
                                            d: ChildTable)
    requires forall i, j :: 0 <= i < j < |cs| ==> cs[i] != cs[j]
    ensures Column(AfterAll(rows, T.ReplaceAll(key, cs, o)), k, d) ==
            if k == key && d in cs then Items(o, d) else Column(rows, k, d)
    decreases |cs|
  {
    if cs != [] {
      var one, rest := [DeleteChildren(key, cs[0])] + T.InsertItems(key, cs[0], o), T.ReplaceAll(key, cs[1..], o);
      AfterAllConcat(rows, one, rest);
      ColumnReplaceOne(rows, key, cs[0], o, k, d);
      ColumnReplaceAll(AfterAll(rows, one), key, cs[1..], o, k, d);
      OneOrRest(cs, d);
    }
  }

  lemma {:induction false} ColumnClear(rows: seq<ChildRow>, tenant: string, kinds: seq<Kind>, k: Key, d: ChildTable)
    ensures Column(AfterAll(rows, T.ClearProgram(tenant, kinds)), k, d) ==
            if k.tenant == tenant && k.kind in kinds then [] else Column(rows, k, d)
    decreases |kinds|
  {
    if kinds != [] {
      var delete, rest := DeleteTenant(kinds[0], tenant), T.ClearProgram(tenant, kinds[1..]);
      assert T.ClearProgram(tenant, kinds)[1..] == rest;
      ColumnAfter(rows, delete, k, d);
      ColumnClear(After(rows, delete), tenant, kinds[1..], k, d);
    }
  }

  // ---------- runs ----------

  /** The statements an accepted operation has committed. */
  ghost function ProgramOf(config: Config, op: Op): seq<Statement> {
    match op
    case Clear(tenant) => T.ClearProgram(tenant, T.CLEARED)
    case Delete(tenant, resourceType, id) =>
      if KindNamed(resourceType).None? then [] else [DeleteMain(Key(tenant, KindNamed(resourceType).value, id))]
    case _ =>
      var body := T.BodyOf(config, op);
      if body.Failure? then []
      else if op.Create? then T.CreateProgram(op.tenant, body.value)
      else T.MutateProgram(op.tenant, body.value)
  }

  ghost function RowsAfter(config: Config, rows: seq<ChildRow>, e: T.Event, reply: T.Reply): seq<ChildRow> {
    if T.Accepted(reply) then AfterAll(rows, ProgramOf(config, e.op)) else rows
  }

  /** All child rows after a run, in the order in which they were inserted. */
  ghost function RunRows(config: Config, events: seq<T.Event>): seq<ChildRow>
    decreases |events|
  {
    if events == [] then []
    else
      var n := |events| - 1;
      var reply := T.Step(config, Run(config, events[..n]).0, events[n]).1;
      RowsAfter(config, RunRows(config, events[..n]), events[n], reply)
  }

  lemma OutcomeOfProgram(config: Config, t: Tables, op: Op)
    ensures var (u, reply) := T.Outcome(config, t, op);
            if T.Accepted(reply) then ExecAll(t, ProgramOf(config, op)) == Success(u) else u == t
  {
  }

  /** The ordered rows are the tables' child rows. */
  lemma {:induction false} RunRowsAreChildren(config: Config, events: seq<T.Event>)
    ensures multiset(RunRows(config, events)) == Run(config, events).0.child
    decreases |events|
  {
    if events != [] {
      var n := |events| - 1;
      RunRowsAreChildren(config, events[..n]);
      if !events[n].faulted {
        var t := Run(config, events[..n]).0;
        OutcomeOfProgram(config, t, events[n].op);
        if T.Accepted(T.Outcome(config, t, events[n].op).1) {
          AfterAllIsExecAll(t, RunRows(config, events[..n]), ProgramOf(config, events[n].op));
        }
      }
    }
  }

  /** Every column of `key` holds the list of the object last written, in its order. */
  ghost predicate Lists(rows: seq<ChildRow>, key: Key, last: Option<Object>) {
    forall c :: Column(rows, key, c) == if last.Some? then Items(last.value, c) else []
  }

  lemma CreateLists(rows: seq<ChildRow>, tenant: string, o: Object, key: Key, c: ChildTable)
    ensures Column(AfterAll(rows, T.CreateProgram(tenant, o)), key, c) ==
            Column(rows, key, c) + if key == T.KeyOf(tenant, o) then Items(o, c) else []
  {
    var cs := ChildTables(KindOf(o));
    var insert := InsertMain(T.KeyOf(tenant, o), ColsOf(o));
    assert T.CreateProgram(tenant, o)[1..] == T.InsertAll(T.KeyOf(tenant, o), cs, o);
    ColumnAfter(rows, insert, key, c);
    ColumnInsertAll(rows, T.KeyOf(tenant, o), cs, o, key, c);
    ItemsTyped(o, c);
  }

  lemma MutateLists(rows: seq<ChildRow>, tenant: string, o: Object, key: Key, c: ChildTable)
    ensures Column(AfterAll(rows, T.MutateProgram(tenant, o)), key, c) ==
            if key == T.KeyOf(tenant, o) && Parent(c) == key.kind then Items(o, c) else Column(rows, key, c)
  {
    var cs := ChildTables(KindOf(o));
    var update := UpdateMain(T.KeyOf(tenant, o), ColsOf(o));
    assert T.MutateProgram(tenant, o)[1..] == T.ReplaceAll(T.KeyOf(tenant, o), cs, o);
    ColumnReplaceAll(rows, T.KeyOf(tenant, o), cs, o, key, c);
  }

  lemma NoItems(o: Object, c: ChildTable)
    requires AllItems(o) == multiset{}
    ensures Items(o, c) == []
  {
    if Items(o, c) != [] {
      var i := Items(o, c)[0];
      ItemsTyped(o, c);
      assert i in multiset(Items(o, c));
      AllItemsAt(o, i);
    }
  }

  lemma CreateStepLists(config: Config, s: Store, rows: seq<ChildRow>, op: Op, o: Object, key: Key,
                        before: Option<Object>)
    requires Holds(config, s, key, before) && Lists(rows, key, before) && T.KeyOf(op.tenant, o) !in s
    ensures Lists(AfterAll(rows, T.CreateProgram(op.tenant, o)), key,
                  if key == T.KeyOf(op.tenant, o) then Some(o) else before)
  {
    forall c { CreateLists(rows, op.tenant, o, key, c); }
  }

  lemma UpdateStepLists(config: Config, s: Store, rows: seq<ChildRow>, op: Op, o: Object, key: Key,
                        before: Option<Object>)
    requires Holds(config, s, key, before) && Lists(rows, key, before)
    requires T.KeyOf(op.tenant, o) in s || AllItems(o) == multiset{}
    ensures Lists(AfterAll(rows, T.MutateProgram(op.tenant, o)), key,
                  if key == T.KeyOf(op.tenant, o) && before.Some? then Some(o) else before)
  {
    forall c
      ensures Column(AfterAll(rows, T.MutateProgram(op.tenant, o)), key, c) ==
              if key == T.KeyOf(op.tenant, o) && before.Some? then Items(o, c)
              else if before.Some? then Items(before.value, c) else []
    {
      MutateLists(rows, op.tenant, o, key, c);
      ItemsTyped(o, c);
      if before.Some? {
        ItemsTyped(before.value, c);
      } else if key == T.KeyOf(op.tenant, o) {
        NoItems(o, c);
      }
    }
  }

  lemma CreateOpLists(config: Config, s: Store, rows: seq<ChildRow>, op: Op, key: Key, before: Option<Object>)
    requires Holds(config, s, key, before) && Lists(rows, key, before) && op.Create?
    ensures var e, reply := T.Event(op, false), T.Apply(config, s, op).1;
            Lists(RowsAfter(config, rows, e, reply), key, WrittenAfter(config, e, reply, key, before))
  {
    var reply, body := T.Apply(config, s, op).1, T.BodyOf(config, op);
    if T.Accepted(reply) {
      CreateStepLists(config, s, rows, op, body.value, key, before);
    }
  }

  lemma UpdateOpLists(config: Config, s: Store, rows: seq<ChildRow>, op: Op, key: Key, before: Option<Object>)
    requires Holds(config, s, key, before) && Lists(rows, key, before) && op.Update?
    ensures var e, reply := T.Event(op, false), T.Apply(config, s, op).1;
            Lists(RowsAfter(config, rows, e, reply), key, WrittenAfter(config, e, reply, key, before))
  {
    var reply, body := T.Apply(config, s, op).1, T.BodyOf(config, op);
    if T.Accepted(reply) {
      UpdateStepLists(config, s, rows, op, body.value, key, before);
    }
  }

  lemma ClearLists(rows: seq<ChildRow>, tenant: string, key: Key, before: Option<Object>)
    requires Lists(rows, key, before)
    ensures Lists(AfterAll(rows, T.ClearProgram(tenant, T.CLEARED)), key, if key.tenant == tenant then None else before)
  {
    T.EveryKindCleared(key.kind);
    forall c { ColumnClear(rows, tenant, T.CLEARED, key, c); }
  }

  lemma DeleteLists(rows: seq<ChildRow>, gone: Key, key: Key, before: Option<Object>)
    requires Lists(rows, key, before)
    ensures Lists(AfterAll(rows, [DeleteMain(gone)]), key, if key == gone then None else before)
  {
    assert [DeleteMain(gone)][1..] == [];
    assert AfterAll(rows, [DeleteMain(gone)]) == After(rows, DeleteMain(gone));
    forall c { ColumnAfter(rows, DeleteMain(gone), key, c); }
  }

  /** A removal's effect on history, in terms of the key it removes. */
  lemma RemovalWritten(config: Config, s: Store, e: T.Event, key: Key, before: Option<Object>)
    requires !e.faulted && e.op.Delete? && KindNamed(e.op.resourceType).Some?
    ensures var reply := StepStore(config, s, e).1;
            var gone := Key(e.op.tenant, KindNamed(e.op.resourceType).value, e.op.id);
            WrittenAfter(config, e, reply, key, before) == if T.Accepted(reply) && key == gone then None else before
  {
    KindOfName(key.kind);
  }

  lemma DeleteOpLists(config: Config, s: Store, rows: seq<ChildRow>, e: T.Event, key: Key, before: Option<Object>)
    requires Lists(rows, key, before) && !e.faulted && e.op.Delete?
    ensures var reply := StepStore(config, s, e).1;
            Lists(RowsAfter(config, rows, e, reply), key, WrittenAfter(config, e, reply, key, before))
  {
    if KindNamed(e.op.resourceType).Some? {
      RemovalWritten(config, s, e, key, before);
      DeleteLists(rows, Key(e.op.tenant, KindNamed(e.op.resourceType).value, e.op.id), key, before);
    }
  }

  lemma ClearOpLists(config: Config, s: Store, rows: seq<ChildRow>, e: T.Event, key: Key, before: Option<Object>)
    requires Lists(rows, key, before) && e.op.Clear?
    ensures var reply := StepStore(config, s, e).1;
            Lists(RowsAfter(config, rows, e, reply), key, WrittenAfter(config, e, reply, key, before))
  {
    ClearLists(rows, e.op.tenant, key, before);
  }

  lemma StepLists(config: Config, s: Store, rows: seq<ChildRow>, e: T.Event, key: Key, before: Option<Object>)
    requires Holds(config, s, key, before) && Lists(rows, key, before)
    ensures var reply := StepStore(config, s, e).1;
            Lists(RowsAfter(config, rows, e, reply), key, WrittenAfter(config, e, reply, key, before))
  {
    if e.op.Clear? {
      ClearOpLists(config, s, rows, e, key, before);
    } else if e.faulted {
      assert !T.Accepted(T.Fault);
    } else if e.op.Delete? {
      DeleteOpLists(config, s, rows, e, key, before);
    } else if e.op.Create? {
      CreateOpLists(config, s, rows, e.op, key, before);
    } else {
      UpdateOpLists(config, s, rows, e.op, key, before);
    }
  }

  /** After any run, each child table holds an object's items in the order of the list last written. */
  lemma {:induction false} RunLists(config: Config, events: seq<T.Event>, key: Key)
    ensures var replies := Run(config, events).1;
            |replies| == |events| && Lists(RunRows(config, events), key, LastWrite(config, events, replies, key))
    decreases |events|
  {
    RunRefines(config, events);
    if events != [] {
      var n := |events| - 1;
      RunLists(config, events[..n], key);
      RunRefines(config, events[..n]);
      HistoryDecides(config, events[..n], key);
      var (s, replies) := RunStore(config, events[..n]);
      assert Run(config, events).1[..n] == replies;
      assert StepStore(config, s, events[n]).1 == T.Step(config, Run(config, events[..n]).0, events[n]).1 by {
        if !events[n].faulted {
          T.OutcomeRefines(config, Run(config, events[..n]).0, events[n].op);
        }
      }
      StepLists(config, s, RunRows(config, events[..n]), events[n], key, LastWrite(config, events[..n], replies, key));
    }
  }

  // ---------- reading ----------

  lemma MapLast<A, B>(f: A -> B, s: seq<A>)
    requires s != []
    ensures var n := |s| - 1;
            Map(f, s)[..n] == Map(f, s[..n]) && Map(f, s) == Map(f, s[..n]) + [f(s[n])]
  {
  }

  lemma AppendLast(o: Object, items: seq<Item>)
    requires items != [] && KindOf(o) == Parent(TableOf(items[|items| - 1]))
    ensures AppendAll(o, items) == Append(AppendAll(o, items[..|items| - 1]), items[|items| - 1])
  {
  }

  /** One list at a time: what appending an object's items makes of the list they feed. */
  lemma {:induction false} AppendEmails(o: Object, emails: seq<Email>)
    requires o.User? && o.emails == None
    ensures AppendAll(o, Map(ToEmailItem, emails)) == o.(emails := if emails == [] then None else Some(emails))
  {
    var items := Map(ToEmailItem, emails);
    if emails != [] {
      var n := |emails| - 1;
      AppendEmails(o, emails[..n]);
      MapLast(ToEmailItem, emails);
      AppendLast(o, items);
      assert emails == emails[..n] + [emails[n]];
    }
  }

  lemma {:induction false} AppendEnrolments(o: Object, enrolments: seq<Enrolment>)
    requires o.User? && o.extension == Extension(None, None, None, None)
    ensures AppendAll(o, Map(ToEnrolmentItem, enrolments)) ==
            var kept := if enrolments == [] then None else Some(Map(PlainPart, enrolments));
            o.(extension := Extension(kept, None, None, None))
  {
    var items := Map(ToEnrolmentItem, enrolments);
    if enrolments != [] {
      var n := |enrolments| - 1;
      AppendEnrolments(o, enrolments[..n]);
      MapLast(ToEnrolmentItem, enrolments);
      AppendLast(o, items);
      MapLast(PlainPart, enrolments);
    }
  }

  lemma {:induction false} AppendMemberships(o: Object, refs: seq<Reference>)
    requires o.StudentGroup? && o.memberships == None
    ensures AppendAll(o, Map(ToMembershipItem, refs)) == o.(memberships := DropRefs(Some(refs)))
  {
    var items := Map(ToMembershipItem, refs);
    if refs != [] {
      var n := |refs| - 1;
      AppendMemberships(o, refs[..n]);
      MapLast(ToMembershipItem, refs);
      AppendLast(o, items);
      MapLast(DropRef, refs);
    }
  }

  lemma {:induction false} AppendSchoolTypes(o: Object, types: seq<string>)
    requires o.SchoolUnit? && o.schoolTypes == None
    ensures AppendAll(o, Map(ToSchoolTypeItem, types)) == o.(schoolTypes := if types == [] then None else Some(types))
  {
    var items := Map(ToSchoolTypeItem, types);
    if types != [] {
      var n := |types| - 1;
      AppendSchoolTypes(o, types[..n]);
      MapLast(ToSchoolTypeItem, types);
      AppendLast(o, items);
      assert types == types[..n] + [types[n]];
    }
  }

  lemma {:induction false} AppendTeachers(o: Object, refs: seq<Reference>)
    requires o.Activity? && o.teachers == None
    ensures AppendAll(o, Map(ToTeacherItem, refs)) == o.(teachers := DropRefs(Some(refs)))
  {
    var items := Map(ToTeacherItem, refs);
    if refs != [] {
      var n := |refs| - 1;
      AppendTeachers(o, refs[..n]);
      MapLast(ToTeacherItem, refs);
      AppendLast(o, items);
      MapLast(DropRef, refs);
    }
  }

  lemma {:induction false} AppendGroups(o: Object, refs: seq<Reference>)
    requires o.Activity? && o.groups == None
    ensures AppendAll(o, Map(ToGroupItem, refs)) == o.(groups := DropRefs(Some(refs)))
  {
    var items := Map(ToGroupItem, refs);
    if refs != [] {
      var n := |refs| - 1;
      AppendGroups(o, refs[..n]);
      MapLast(ToGroupItem, refs);
      AppendLast(o, items);
      MapLast(DropRef, refs);
    }
  }

  /** An object's bare main row with its own items appended, table by table. */
  function Refilled(o: Object, bare: Object, cs: seq<ChildTable>): Object {
    if cs == [] then bare
    else
      var n := |cs| - 1;
      AppendAll(Refilled(o, bare, cs[..n]), Items(o, cs[n]))
  }

  lemma RefilledOne(o: Object, bare: Object, c: ChildTable)
    ensures Refilled(o, bare, [c]) == AppendAll(bare, Items(o, c))
  {
    assert [c][..0] == [];
  }

  lemma RefilledTwo(o: Object, bare: Object, c: ChildTable, d: ChildTable)
    ensures Refilled(o, bare, [c, d]) == AppendAll(AppendAll(bare, Items(o, c)), Items(o, d))
  {
    assert [c, d][..1] == [c];
    RefilledOne(o, bare, c);
  }

  lemma UserRefilled(o: Object)
    requires o.User?
    ensures Refilled(o, FromRow(o.id, ColsOf(o)), [Emails, Enrolments]) == Norm(o)
  {
    var bare := FromRow(o.id, ColsOf(o));
    RefilledTwo(o, bare, Emails, Enrolments);
    AppendEmails(bare, Elems(o.emails));
    AppendEnrolments(AppendAll(bare, Items(o, Emails)), Elems(o.extension.enrolments));
  }

  lemma DropRefsOfElems(list: Option<seq<Reference>>)
    ensures DropRefs(Some(Elems(list))) == DropRefs(list)
  {
  }

  lemma TeachersRefilled(o: Object)
    requires o.Activity?
    ensures AppendAll(FromRow(o.id, ColsOf(o)), Items(o, ActivityTeachers)) ==
            Activity(o.id, o.displayName, DropRef(o.owner), None, DropRefs(o.teachers), None)
  {
    AppendTeachers(FromRow(o.id, ColsOf(o)), Elems(o.teachers));
    DropRefsOfElems(o.teachers);
  }

  lemma GroupsRefilled(o: Object, half: Object)
    requires o.Activity? && half.Activity? && half.groups == None
    ensures AppendAll(half, Items(o, ActivityGroups)) == half.(groups := DropRefs(o.groups))
  {
    AppendGroups(half, Elems(o.groups));
    DropRefsOfElems(o.groups);
  }

  lemma ActivityRefilled(o: Object)
    requires o.Activity?
    ensures Refilled(o, FromRow(o.id, ColsOf(o)), [ActivityTeachers, ActivityGroups]) == Norm(o)
  {
    RefilledTwo(o, FromRow(o.id, ColsOf(o)), ActivityTeachers, ActivityGroups);
    TeachersRefilled(o);
    GroupsRefilled(o, Activity(o.id, o.displayName, DropRef(o.owner), None, DropRefs(o.teachers), None));
  }

  lemma StudentGroupRefilled(o: Object)
    requires o.StudentGroup?
    ensures Refilled(o, FromRow(o.id, ColsOf(o)), [StudentMemberships]) == Norm(o)
  {
    RefilledOne(o, FromRow(o.id, ColsOf(o)), StudentMemberships);
    AppendMemberships(FromRow(o.id, ColsOf(o)), Elems(o.memberships));
  }

  lemma SchoolUnitRefilled(o: Object)
    requires o.SchoolUnit?
    ensures Refilled(o, FromRow(o.id, ColsOf(o)), [SchoolTypes]) == Norm(o)
  {
    RefilledOne(o, FromRow(o.id, ColsOf(o)), SchoolTypes);
    AppendSchoolTypes(FromRow(o.id, ColsOf(o)), Elems(o.schoolTypes));
  }

  /** Taken apart and put together again in order, an object is its normal form, list order included. */
  lemma RefilledIsNorm(o: Object)
    ensures Refilled(o, FromRow(o.id, ColsOf(o)), ChildTables(KindOf(o))) == Norm(o)
  {
    match KindOf(o)
    case Users => UserRefilled(o);
    case StudentGroups => StudentGroupRefilled(o);
    case SchoolUnits => SchoolUnitRefilled(o);
    case Activities => ActivityRefilled(o);
    case _ =>
  }

  /** A child query answered in insertion order. */
  function Answered(rows: seq<ChildRow>, c: ChildTable, tenant: string, id: Option<string>): seq<ChildRow> {
    Kept(rows, (r: ChildRow) => MatchesRow(r, c, tenant, id))
  }

  lemma {:induction false} AnsweredColumn(rows: seq<ChildRow>, key: Key, c: ChildTable, tenant: string,
                                          id: Option<string>)
    requires Matches(key, Parent(c), tenant, id)
    ensures ItemsOf(Answered(rows, c, tenant, id), key) == Column(rows, key, c)
  {
    if rows != [] {
      var n := |rows| - 1;
      AnsweredColumn(rows[..n], key, c, tenant, id);
      var answered := Answered(rows[..n], c, tenant, id);
      assert answered + [] == answered;
      assert (answered + [rows[n]])[..|answered|] == answered;
    }
  }

  /** All of a reader's child queries answered in insertion order. */
  ghost predicate AllAnswered(rows: seq<ChildRow>, cs: seq<ChildTable>, selected: seq<seq<ChildRow>>, tenant: string,
                              id: Option<string>)
  {
    |selected| == |cs| && forall n :: 0 <= n < |cs| ==> selected[n] == Answered(rows, cs[n], tenant, id)
  }

  lemma OneMoreAppended(bare: Object, key: Key, selected: seq<seq<ChildRow>>)
    requires selected != []
    ensures var n := |selected| - 1;
            SqlBackends.AppendTables(bare, key, selected) ==
            AppendAll(SqlBackends.AppendTables(bare, key, selected[..n]), ItemsOf(selected[n], key))
  {
  }

  lemma {:induction false} AppendedIsRefilled(rows: seq<ChildRow>, key: Key, o: Object, bare: Object,
                                              cs: seq<ChildTable>, selected: seq<seq<ChildRow>>,
                                              tenant: string, id: Option<string>)
    requires Lists(rows, key, Some(o)) && AllAnswered(rows, cs, selected, tenant, id)
    requires forall c :: c in cs ==> Matches(key, Parent(c), tenant, id)
    ensures SqlBackends.AppendTables(bare, key, selected) == Refilled(o, bare, cs)
    decreases |cs|
  {
    if cs != [] {
      var n := |cs| - 1;
      AppendedIsRefilled(rows, key, o, bare, cs[..n], selected[..n], tenant, id);
      AnsweredColumn(rows, key, cs[n], tenant, id);
      assert Column(rows, key, cs[n]) == Items(o, cs[n]);
      OneMoreAppended(bare, key, selected);
    }
  }

  /**
   Main result on order: after any run, a reader whose child queries are answered in insertion order reads exactly the
   normal form of what was last written, every list in its order.
   */
  lemma ReadInOrderIsNorm(config: Config, events: seq<T.Event>, rows: seq<MainRow>, objects: seq<Object>,
                          selected: seq<seq<ChildRow>>, kind: Kind, tenant: string, id: Option<string>, j: nat)
    requires var t := Run(config, events).0;
             && SqlBackends.MainRows(t, rows, kind, tenant, id)
             && SqlBackends.ReadInOrder(t, rows, SqlBackends.BareObjects(rows), objects, ChildTables(kind),
                                        selected, tenant, id)
    requires AllAnswered(RunRows(config, events), ChildTables(kind), selected, tenant, id) && j < |rows|
    ensures var (t, replies) := Run(config, events);
            |replies| == |events| &&
            var last := LastWrite(config, events, replies, rows[j].key);
            last.Some? && objects[j] == Norm(last.value)
  {
    var key := rows[j].key;
    RunRefines(config, events);
    RunLists(config, events, key);
    HistoryDecides(config, events, key);
    var o := LastWrite(config, events, Run(config, events).1, key).value;
    AppendedIsRefilled(RunRows(config, events), key, o, FromRow(key.id, rows[j].cols), ChildTables(kind), selected,
        tenant, id);
    RefilledIsNorm(o);
  }
}
