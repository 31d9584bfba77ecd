/**
 The thirteen tables, the SQL statements that change them, and the plain map of stored
 objects that they represent (the schema in windermere/sqlbackend.go:102-228).

 The seven main tables are one map, because their primary keys are (tenant, id); the six
 child tables are one bag of rows, because they have no key and a query returns their rows
 in any order. A row's table is part of its key.
 */
module Tables {
  import opened Wrappers
  import opened Objects
  import opened Rows

  /** A main table and a primary key in it. */
  datatype Key = Key(tenant: string, kind: Kind, id: string)

  /** A row of the child table `TableOf(item)`; `key` is what its foreign key refers to. */
  datatype ChildRow = ChildRow(key: Key, item: Item)

  datatype Tables = Tables(main: map<Key, Cols>, child: multiset<ChildRow>)

  const EMPTY := Tables(map[], multiset{})

  datatype Statement =
    | InsertMain(key: Key, cols: Cols)
    | UpdateMain(key: Key, cols: Cols)
    | DeleteMain(key: Key)
    | DeleteTenant(kind: Kind, tenant: string)
    | InsertChildren(key: Key, items: seq<Item>)
    | DeleteChildren(key: Key, table: ChildTable)

  /** Statements as the row types can produce them. */
  ghost predicate Typed(s: Statement) {
    match s
    case InsertMain(key, cols) => ColsKind(cols) == key.kind && CanonicalCols(cols)
    case UpdateMain(key, cols) => ColsKind(cols) == key.kind && CanonicalCols(cols)
    case InsertChildren(key, items) =>
      items != [] && forall i :: i in items ==> Parent(TableOf(i)) == key.kind && CanonicalItem(i)
    case DeleteChildren(key, table) => Parent(table) == key.kind
    case _ => true
  }

  function RowFor(key: Key): Item -> ChildRow {
    item => ChildRow(key, item)
  }

  function ChildRows(key: Key, items: seq<Item>): seq<ChildRow> {
    Map(RowFor(key), items)
  }

  /** The effect of one statement: a primary or foreign key violation rejects it, deletes cascade. */
  ghost function Exec(t: Tables, s: Statement): Result<Tables> {
    match s
    case InsertMain(key, cols) => if key in t.main then Failure else Success(t.(main := t.main[key := cols]))
    case UpdateMain(key, cols) => Success(if key in t.main then t.(main := t.main[key := cols]) else t)
    case DeleteMain(key) => Success(Tables(t.main - {key}, Filter(t.child, (r: ChildRow) => r.key != key)))
    case DeleteTenant(kind, tenant) =>
      Success(Tables(t.main - KeysIn(t.main.Keys, kind, tenant),
                     Filter(t.child, (r: ChildRow) => !InTable(r.key, kind, tenant))))
    case InsertChildren(key, items) =>
      if key in t.main then Success(t.(child := t.child + multiset(ChildRows(key, items)))) else Failure
    case DeleteChildren(key, table) =>
      Success(t.(child := Filter(t.child, (r: ChildRow) => !(r.key == key && TableOf(r.item) == table))))
  }

  predicate InTable(key: Key, kind: Kind, tenant: string) {
    key.kind == kind && key.tenant == tenant
  }

  function KeysIn(keys: set<Key>, kind: Kind, tenant: string): set<Key> {
    set k | k in keys && InTable(k, kind, tenant)
  }

  /** Statements one after the other, stopping at the first that is rejected. */
  ghost function ExecAll(t: Tables, program: seq<Statement>): Result<Tables>
    decreases |program|
  {
    if program == [] then Success(t)
    else
      var t' :- Exec(t, program[0]);
      ExecAll(t', program[1..])
  }

  /**
   The global invariant: no orphans (every child row's parent exists), every row is in the
   table its columns belong to, and NULL is never spelled "".
   */
  ghost predicate WellFormed(t: Tables) {
    && (forall k :: k in t.main ==> ColsKind(t.main[k]) == k.kind && CanonicalCols(t.main[k]))
    && (forall r :: r in t.child ==> r.key in t.main && Parent(TableOf(r.item)) == r.key.kind && CanonicalItem(r.item))
  }

  // ---------- the plain map ----------

  type Store = map<Key, Stored>

  /** The child items of one key. */
  ghost function ItemsAt(child: multiset<ChildRow>, key: Key): (items: multiset<Item>)
    ensures forall i :: items[i] == child[ChildRow(key, i)]
    decreases |child|
  {
    if child == multiset{} then multiset{}
    else
      var r :| r in child;
      var rest := ItemsAt(child[r := 0], key);
      if r.key == key then rest[r.item := child[r]] else rest
  }

  /** The items of one key in a list of child rows, in the order of the rows. */
  function ItemsOf(rows: seq<ChildRow>, key: Key): seq<Item> {
    if rows == [] then []
    else
      var n := |rows| - 1;
      ItemsOf(rows[..n], key) + if rows[n].key == key then [rows[n].item] else []
  }

  /** What the tables look like from outside. */
  ghost function Abs(t: Tables): (s: Store)
    ensures s.Keys == t.main.Keys
    ensures forall k :: k in t.main ==> s[k] == Stored(t.main[k], ItemsAt(t.child, k))
  {
    AbsOf(t.main, t.child)
  }

  ghost function AbsOf(main: map<Key, Cols>, child: multiset<ChildRow>): (s: Store)
    ensures s.Keys == main.Keys
    ensures forall k :: k in main ==> s[k] == Stored(main[k], ItemsAt(child, k))
    decreases |main|
  {
    if main == map[] then map[]
    else
      var k :| k in main;
      AbsOf(main - {k}, child)[k := Stored(main[k], ItemsAt(child, k))]
  }

  ghost predicate TypedStored(kind: Kind, stored: Stored) {
    && ColsKind(stored.cols) == kind
    && CanonicalCols(stored.cols)
    && forall i :: i in stored.items ==> Parent(TableOf(i)) == kind && CanonicalItem(i)
  }

  ghost predicate TypedStore(s: Store) {
    forall k :: k in s ==> TypedStored(k.kind, s[k])
  }

  lemma AbsTyped(t: Tables)
    requires WellFormed(t)
    ensures TypedStore(Abs(t))
  {
  }

  lemma AbsOfEmpty()
    ensures WellFormed(EMPTY) && Abs(EMPTY) == map[]
  {
  }

  /** The map determines the tables: nothing else is stored in any of them. */
  lemma AbsInjective(t: Tables, u: Tables)
    requires WellFormed(t) && WellFormed(u) && Abs(t) == Abs(u)
    ensures t == u
  {
    forall k | k in t.main ensures t.main[k] == u.main[k] {
      assert Abs(t)[k].cols == Abs(u)[k].cols;
    }
    SameMaps(t.main, u.main);
    forall r ensures t.child[r] == u.child[r] {
      if r.key in t.main {
        assert ItemsAt(t.child, r.key)[r.item] == ItemsAt(u.child, r.key)[r.item];
      } else {
        assert r !in t.child && r !in u.child;
      }
    }
  }

  /** One statement's effect on the plain map. */
  ghost function ExecStore(s: Store, stmt: Statement): Result<Store> {
    match stmt
    case InsertMain(key, cols) => if key in s then Failure else Success(s[key := Stored(cols, multiset{})])
    case UpdateMain(key, cols) => Success(if key in s then s[key := s[key].(cols := cols)] else s)
    case DeleteMain(key) => Success(s - {key})
    case DeleteTenant(kind, tenant) => Success(s - KeysIn(s.Keys, kind, tenant))
    case InsertChildren(key, items) =>
      if key in s then Success(s[key := s[key].(items := s[key].items + multiset(items))]) else Failure
    case DeleteChildren(key, table) =>
      if key !in s then Success(s)
      else Success(s[key := s[key].(items := Filter(s[key].items, (i: Item) => TableOf(i) != table))])
  }

  ghost function ExecAllStore(s: Store, program: seq<Statement>): Result<Store>
    decreases |program|
  {
    if program == [] then Success(s)
    else
      var s' :- ExecStore(s, program[0]);
      ExecAllStore(s', program[1..])
  }

  lemma SameAt(child: multiset<ChildRow>, other: multiset<ChildRow>, key: Key)
    requires forall i :: child[ChildRow(key, i)] == other[ChildRow(key, i)]
    ensures ItemsAt(child, key) == ItemsAt(other, key)
  {
  }

  /** Every accepted statement keeps the invariant: no table ever holds an orphan, at any statement boundary. */
  lemma ExecKeepsWellFormed(t: Tables, s: Statement)
    requires WellFormed(t) && Typed(s)
    ensures Exec(t, s).Success? ==> WellFormed(Exec(t, s).value)
  {
    if s.InsertChildren? && s.key in t.main {
      forall r | r in Exec(t, s).value.child
        ensures r.key in t.main && Parent(TableOf(r.item)) == r.key.kind && CanonicalItem(r.item)
      {
        if r !in t.child {
          assert r in ChildRows(s.key, s.items);
        }
      }
    }
  }

  /** Changing one key's main row and child rows changes exactly that entry of the map. */
  lemma AbsUpdate(t: Tables, u: Tables, key: Key, stored: Stored)
    requires u.main == t.main[key := stored.cols]
    requires forall r: ChildRow :: r.key != key ==> u.child[r] == t.child[r]
    requires forall i :: u.child[ChildRow(key, i)] == stored.items[i]
    ensures Abs(u) == Abs(t)[key := stored]
  {
    assert ItemsAt(u.child, key) == stored.items;
    var a, b := Abs(u), Abs(t)[key := stored];
    forall k | k in a ensures a[k] == b[k] {
      if k != key {
        SameAt(u.child, t.child, k);
      }
    }
    SameMaps(a, b);
  }

  lemma MainRefines(t: Tables, s: Statement)
    requires WellFormed(t) && ((s.InsertMain? && s.key !in t.main) || (s.UpdateMain? && s.key in t.main))
    ensures Abs(Exec(t, s).value) == ExecStore(Abs(t), s).value
  {
    forall i | s.key !in t.main ensures t.child[ChildRow(s.key, i)] == 0 {
      assert ChildRow(s.key, i) !in t.child;
    }
    AbsUpdate(t, Exec(t, s).value, s.key, Stored(s.cols, if s.key in t.main then Abs(t)[s.key].items else multiset{}));
  }

  /** Deleting main rows, cascade included, deletes their entries and leaves the others as they were. */
  lemma AbsRemove(t: Tables, u: Tables, keys: set<Key>)
    requires u.main == t.main - keys
    requires forall r: ChildRow :: r.key !in keys ==> u.child[r] == t.child[r]
    ensures Abs(u) == Abs(t) - keys
  {
    var a, b := Abs(u), Abs(t) - keys;
    forall k | k in a ensures a[k] == b[k] {
      SameAt(u.child, t.child, k);
    }
    SameMaps(a, b);
  }

  lemma DeleteMainRefines(t: Tables, s: Statement)
    requires s.DeleteMain?
    ensures Abs(Exec(t, s).value) == ExecStore(Abs(t), s).value
  {
    AbsRemove(t, Exec(t, s).value, {s.key});
  }

  lemma DeleteTenantRefines(t: Tables, s: Statement)
    requires WellFormed(t) && s.DeleteTenant?
    ensures Abs(Exec(t, s).value) == ExecStore(Abs(t), s).value
  {
    var keys, u := KeysIn(t.main.Keys, s.kind, s.tenant), Exec(t, s).value;
    forall r: ChildRow | r.key !in keys ensures u.child[r] == t.child[r] {
      if InTable(r.key, s.kind, s.tenant) {
        assert r !in t.child;
      }
    }
    AbsRemove(t, u, keys);
  }

  lemma CountChildRows(key: Key, items: seq<Item>, r: ChildRow)
    ensures multiset(ChildRows(key, items))[r] == if r.key == key then multiset(items)[r.item] else 0
  {
    if r.key == key {
      MapCount(RowFor(key), items, r.item);
    } else {
      assert r !in ChildRows(key, items);
    }
  }

  lemma InsertChildrenRefines(t: Tables, s: Statement)
    requires s.InsertChildren? && s.key in t.main
    ensures Abs(Exec(t, s).value) == ExecStore(Abs(t), s).value
  {
    forall r ensures multiset(ChildRows(s.key, s.items))[r] == if r.key == s.key then multiset(s.items)[r.item] else 0 {
      CountChildRows(s.key, s.items, r);
    }
    var u, stored := Exec(t, s).value, Abs(t)[s.key];
    AbsUpdate(t, u, s.key, stored.(items := stored.items + multiset(s.items)));
  }

  lemma DeleteChildrenRefines(t: Tables, s: Statement)
    requires s.DeleteChildren? && s.key in t.main
    ensures Abs(Exec(t, s).value) == ExecStore(Abs(t), s).value
  {
    var stored := Abs(t)[s.key];
    var left := Filter(stored.items, (i: Item) => TableOf(i) != s.table);
    AbsUpdate(t, Exec(t, s).value, s.key, stored.(items := left));
  }

  lemma DeleteChildrenOfNone(t: Tables, s: Statement)
    requires WellFormed(t) && s.DeleteChildren? && s.key !in t.main
    ensures Exec(t, s).value == t
  {
  }

  /** Statements on the tables and on the plain map correspond, rejections included. */
  lemma ExecRefines(t: Tables, s: Statement)
    requires WellFormed(t) && Typed(s)
    ensures Exec(t, s).Success? ==>
              WellFormed(Exec(t, s).value) && ExecStore(Abs(t), s) == Success(Abs(Exec(t, s).value))
    ensures Exec(t, s).Failure? ==> ExecStore(Abs(t), s).Failure?
  {
    ExecKeepsWellFormed(t, s);
    match s
    case InsertMain(key, _) => if key !in t.main { MainRefines(t, s); }
    case UpdateMain(key, _) => if key in t.main { MainRefines(t, s); }
    case DeleteMain(_) => DeleteMainRefines(t, s);
    case DeleteTenant(_, _) => DeleteTenantRefines(t, s);
    case InsertChildren(key, _) => if key in t.main { InsertChildrenRefines(t, s); }
    case DeleteChildren(key, _) =>
      if key in t.main { DeleteChildrenRefines(t, s); } else { DeleteChildrenOfNone(t, s); }
  }

  ghost predicate AllTyped(program: seq<Statement>) {
    forall s :: s in program ==> Typed(s)
  }

  /** Whole programs correspond, by induction over their statements. */
  lemma {:induction false} ExecAllRefines(t: Tables, program: seq<Statement>)
    requires WellFormed(t) && AllTyped(program)
    ensures ExecAll(t, program).Success? ==>
              && WellFormed(ExecAll(t, program).value)
              && ExecAllStore(Abs(t), program) == Success(Abs(ExecAll(t, program).value))
    ensures ExecAll(t, program).Failure? ==> ExecAllStore(Abs(t), program).Failure?
    decreases |program|
  {
    if program != [] {
      ExecRefines(t, program[0]);
      if Exec(t, program[0]).Success? {
        ExecAllRefines(Exec(t, program[0]).value, program[1..]);
      }
    }
  }

  lemma {:induction false} ExecAllConcat(t: Tables, a: seq<Statement>, b: seq<Statement>)
    ensures ExecAll(t, a + b) == if ExecAll(t, a).Failure? then Failure else ExecAll(ExecAll(t, a).value, b)
    decreases |a|
  {
    if a == [] {
      assert a + b == b;
    } else {
      assert (a + b)[1..] == a[1..] + b;
      if Exec(t, a[0]).Success? {
        ExecAllConcat(Exec(t, a[0]).value, a[1..], b);
      }
    }
  }

  lemma {:induction false} ExecAllStoreConcat(s: Store, a: seq<Statement>, b: seq<Statement>)
    ensures ExecAllStore(s, a + b) == if ExecAllStore(s, a).Failure? then Failure
        else ExecAllStore(ExecAllStore(s, a).value, b)
    decreases |a|
  {
    if a == [] {
      assert a + b == b;
    } else {
      assert (a + b)[1..] == a[1..] + b;
      if ExecStore(s, a[0]).Success? {
        ExecAllStoreConcat(ExecStore(s, a[0]).value, a[1..], b);
      }
    }
  }

  // ---------- tenants ----------

  function TenantOf(s: Statement): string {
    if s.DeleteTenant? then s.tenant else s.key.tenant
  }

  /** The tables agree on every row of every tenant but `tenant`. */
  ghost predicate SameElsewhere(t: Tables, u: Tables, tenant: string) {
    && (forall k: Key :: k.tenant != tenant ==>
          (k in t.main <==> k in u.main) && (k in t.main ==> t.main[k] == u.main[k]))
    && (forall r: ChildRow :: r.key.tenant != tenant ==> t.child[r] == u.child[r])
  }

  lemma ExecIsolates(t: Tables, s: Statement)
    ensures Exec(t, s).Success? ==> SameElsewhere(t, Exec(t, s).value, TenantOf(s))
  {
  }

  /** A program of one tenant's statements changes no row of another tenant in any of the thirteen tables. */
  lemma {:induction false} ExecAllIsolates(t: Tables, program: seq<Statement>, tenant: string)
    requires forall s :: s in program ==> TenantOf(s) == tenant
    ensures ExecAll(t, program).Success? ==> SameElsewhere(t, ExecAll(t, program).value, tenant)
    decreases |program|
  {
    if program != [] {
      ExecIsolates(t, program[0]);
      if Exec(t, program[0]).Success? {
        ExecAllIsolates(Exec(t, program[0]).value, program[1..], tenant);
      }
    }
  }
}
