/**
 The SQL backend (windermere/sqlbackend.go and the creators, mutators and readers beside it).

 Every method that changes the database is proved against the outcome of its operation on the
 tables; every reader returns exactly the objects the plain map holds.
 */
module SqlBackends {
  import opened Wrappers
  import opened JsonTrees
  import opened Objects
  import opened Validation
  import Rows
  import opened Tables
  import opened Engine
  import opened Faults
  import opened Operations
  import opened Transactions

  /** A query's answer, or the error it ended in. */
  datatype Answer<+T> = Answer(value: T) | Refused(error: Reply)

  /** `program` has been issued after `before`, or was stopped by a constraint, or by a fault. */
  ghost predicate Issued(start: Tables, before: seq<Statement>, after: seq<Statement>, program: seq<Statement>,
                         status: Status)
  {
    && (status == Executed ==> after == before + program)
    && (status == Violated ==> ExecAll(start, before + program).Failure?)
  }

  /** A program stopped part way stays stopped, however it would have gone on. */
  lemma IssuedInPart(start: Tables, before: seq<Statement>, after: seq<Statement>,
                     p: seq<Statement>, q: seq<Statement>, status: Status)
    requires Issued(start, before, after, p, status) && status != Executed
    ensures Issued(start, before, after, p + q, status)
  {
    ExecAllConcat(start, before + p, q);
    assert before + (p + q) == (before + p) + q;
  }

  lemma IssuedThen(start: Tables, before: seq<Statement>, between: seq<Statement>, after: seq<Statement>,
                   p: seq<Statement>, q: seq<Statement>, status: Status)
    requires Issued(start, before, between, p, Executed) && Issued(start, between, after, q, status)
    ensures Issued(start, before, after, p + q, status)
  {
    assert before + (p + q) == (before + p) + q;
  }

  lemma NothingIssued(start: Tables, log: seq<Statement>)
    ensures Issued(start, log, log, [], Executed)
  {
  }

  /** `o` is what the map keeps under `key`, rebuilt. */
  ghost predicate Rebuilt(o: Object, key: Key, stored: Rows.Stored) {
    o.id == key.id && KindOf(o) == key.kind && Rows.Normal(o) && Rows.Split(o) == stored
  }

  /** `objects` is the slice of the map for one tenant and kind. */
  ghost predicate IsSlice(objects: map<string, Object>, s: Store, tenant: string, kind: Kind) {
    && (forall id :: id in objects <==> Key(tenant, kind, id) in s)
    && (forall id :: id in objects ==> Rebuilt(objects[id], Key(tenant, kind, id), s[Key(tenant, kind, id)]))
  }

  ghost predicate EachEncoded(texts: map<string, Json>, objects: map<string, Object>) {
    texts.Keys == objects.Keys && forall id :: id in objects ==> texts[id] == Encode(objects[id])
  }

  // ---------- building objects from rows ----------

  /** Go's map lookup: a missing key reads as 0. */
  function Lookup(index: map<string, nat>, id: string): nat {
    if id in index then index[id] else 0
  }

  /** The items of the tables in `done`, among those of one key. */
  ghost predicate ItemsOfTables(t: Tables, key: Key, items: multiset<Rows.Item>, done: seq<Rows.ChildTable>) {
    forall i :: items[i] == if Rows.TableOf(i) in done then t.child[ChildRow(key, i)] else 0
  }

  /** Main row `j` carries the child rows of the tables in `done`, and those only. */
  ghost predicate Attached(t: Tables, row: MainRow, o: Object, done: seq<Rows.ChildTable>) {
    && o.id == row.key.id
    && KindOf(o) == row.key.kind
    && Rows.Normal(o)
    && Rows.ColsOf(o) == row.cols
    && ItemsOfTables(t, row.key, Rows.AllItems(o), done)
  }

  ghost predicate AllAttached(t: Tables, rows: seq<MainRow>, objects: seq<Object>, done: seq<Rows.ChildTable>) {
    |objects| == |rows| && forall j :: 0 <= j < |rows| ==> Attached(t, rows[j], objects[j], done)
  }

  ghost predicate IndexOf(rows: seq<MainRow>, index: map<string, nat>) {
    && (forall id :: id in index ==> index[id] < |rows| && rows[index[id]].key.id == id)
    && (forall j :: 0 <= j < |rows| ==> rows[j].key.id in index)
  }

  /** The rows of a main query, as SelectMain returns them. */
  ghost predicate MainRows(t: Tables, rows: seq<MainRow>, kind: Kind, tenant: string, id: Option<string>) {
    && (forall j :: 0 <= j < |rows| ==>
          rows[j].key in t.main && rows[j].cols == t.main[rows[j].key] && Matches(rows[j].key, kind, tenant, id))
    && DistinctKeys(rows)
    && (forall k :: k in t.main && Matches(k, kind, tenant, id) ==> MainRow(k, t.main[k]) in rows)
  }

  lemma BareIsAttached(t: Tables, row: MainRow)
    requires Rows.ColsKind(row.cols) == row.key.kind && Rows.CanonicalCols(row.cols)
    ensures Attached(t, row, Rows.FromRow(row.key.id, row.cols), [])
  {
    Rows.FromRowSplit(row.key.id, row.cols);
  }

  /** The objects of main rows, without any child rows. */
  function BareObjects(rows: seq<MainRow>): seq<Object> {
    Map((row: MainRow) => Rows.FromRow(row.key.id, row.cols), rows)
  }

  /** The loop over a reader's main rows: the bare objects, and the index from id to position. */
  method Build(ghost t: Tables, rows: seq<MainRow>, ghost kind: Kind, ghost tenant: string, ghost id: Option<string>)
    returns (objects: seq<Object>, index: map<string, nat>)
    requires WellFormed(t) && MainRows(t, rows, kind, tenant, id)
    ensures AllAttached(t, rows, objects, []) && IndexOf(rows, index)
    ensures objects == BareObjects(rows)
  {
    objects, index := [], map[];
    for i := 0 to |rows|
      invariant |objects| == i && forall j :: 0 <= j < i ==> objects[j] == Rows.FromRow(rows[j].key.id, rows[j].cols)
      invariant forall j :: 0 <= j < i ==> Attached(t, rows[j], objects[j], [])
      invariant forall id :: id in index ==> index[id] < i && rows[index[id]].key.id == id
      invariant forall j :: 0 <= j < i ==> rows[j].key.id in index
    {
      var o := Rows.FromRow(rows[i].key.id, rows[i].cols);
      BareIsAttached(t, rows[i]);
      objects := objects + [o];
      index := index[rows[i].key.id := i];
    }
  }

  /** The items of `key` among the first `n` child rows, and how one more row adds to them. */
  lemma OneMoreRow(rows: seq<ChildRow>, n: nat, key: Key)
    requires n < |rows|
    ensures ItemsAt(multiset(rows[..n + 1]), key) ==
            ItemsAt(multiset(rows[..n]), key) + if rows[n].key == key then multiset{rows[n].item} else multiset{}
  {
    assert rows[..n + 1] == rows[..n] + [rows[n]];
    var more := ItemsAt(multiset(rows[..n]), key) + if rows[n].key == key then multiset{rows[n].item} else multiset{};
    assert forall i :: ItemsAt(multiset(rows[..n + 1]), key)[i] == more[i];
  }

  /** Object `j` while child rows are being appended: its items so far are those of the rows seen. */
  ghost predicate Growing(was: Object, now: Object, key: Key, seen: multiset<ChildRow>) {
    && now.id == was.id
    && KindOf(now) == KindOf(was)
    && Rows.Normal(now)
    && Rows.ColsOf(now) == Rows.ColsOf(was)
    && Rows.AllItems(now) == Rows.AllItems(was) + ItemsAt(seen, key)
  }

  lemma GrowOne(was: Object, now: Object, key: Key, rows: seq<ChildRow>, n: nat)
    requires n < |rows| && Growing(was, now, key, multiset(rows[..n]))
    requires KindOf(now) == key.kind
    requires rows[n].key == key ==>
               Rows.Parent(Rows.TableOf(rows[n].item)) == key.kind && Rows.CanonicalItem(rows[n].item)
    ensures Growing(was, if rows[n].key == key then Rows.Append(now, rows[n].item) else now, key,
                    multiset(rows[..n + 1]))
  {
    OneMoreRow(rows, n, key);
    var before := ItemsAt(multiset(rows[..n]), key);
    if rows[n].key == key {
      Rows.AppendNormal(now, rows[n].item);
      Rows.AppendSplit(now, rows[n].item);
      assert Rows.AllItems(was) + before + multiset{rows[n].item} ==
          Rows.AllItems(was) + (before + multiset{rows[n].item});
    } else {
      assert before + multiset{} == before;
    }
  }

  ghost predicate AllGrowing(rows: seq<MainRow>, was: seq<Object>, now: seq<Object>, seen: multiset<ChildRow>) {
    && |was| == |now| == |rows|
    && forall j :: 0 <= j < |rows| ==> KindOf(was[j]) == rows[j].key.kind && Growing(was[j], now[j], rows[j].key, seen)
  }

  /** A child row whose parent is among the main rows, and whose id belongs to no other of them. */
  ghost predicate Belongs(rows: seq<MainRow>, r: ChildRow) {
    && (exists j :: 0 <= j < |rows| && rows[j].key == r.key)
    && (forall j :: 0 <= j < |rows| && rows[j].key.id == r.key.id ==> rows[j].key == r.key)
    && Rows.Parent(Rows.TableOf(r.item)) == r.key.kind
    && Rows.CanonicalItem(r.item)
  }

  ghost predicate DistinctKeys(rows: seq<MainRow>) {
    forall i, j :: 0 <= i < j < |rows| ==> rows[i].key != rows[j].key
  }

  lemma AttachedCanGrow(t: Tables, rows: seq<MainRow>, objects: seq<Object>, done: seq<Rows.ChildTable>)
    requires AllAttached(t, rows, objects, done)
    ensures AllGrowing(rows, objects, objects, multiset{})
  {
    forall j | 0 <= j < |rows|
      ensures KindOf(objects[j]) == rows[j].key.kind && Growing(objects[j], objects[j], rows[j].key, multiset{})
    {
      assert Attached(t, rows[j], objects[j], done);
      assert Rows.AllItems(objects[j]) + ItemsAt(multiset{}, rows[j].key) == Rows.AllItems(objects[j]);
    }
  }

  lemma GrowAll(rows: seq<MainRow>, was: seq<Object>, now: seq<Object>, children: seq<ChildRow>, n: nat, at: nat)
    requires n < |children| && AllGrowing(rows, was, now, multiset(children[..n]))
    requires DistinctKeys(rows) && Belongs(rows, children[n]) && at < |rows| && rows[at].key == children[n].key
    ensures KindOf(now[at]) == Rows.Parent(Rows.TableOf(children[n].item))
    ensures AllGrowing(rows, was, now[at := Rows.Append(now[at], children[n].item)], multiset(children[..n + 1]))
  {
    var after := now[at := Rows.Append(now[at], children[n].item)];
    forall j | 0 <= j < |rows|
      ensures Growing(was[j], after[j], rows[j].key, multiset(children[..n + 1]))
    {
      GrowOne(was[j], now[j], rows[j].key, children, n);
      assert rows[j].key == children[n].key ==> j == at;
    }
  }

  /** Through the index, a row that belongs is found; the default position 0 is never used. */
  lemma IndexFinds(rows: seq<MainRow>, index: map<string, nat>, r: ChildRow)
    requires IndexOf(rows, index) && Belongs(rows, r)
    ensures r.key.id in index && index[r.key.id] < |rows| && rows[index[r.key.id]].key == r.key
  {
  }

  /** Each object has had its own among `seen` appended, in their order. */
  ghost predicate InOrder(rows: seq<MainRow>, was: seq<Object>, now: seq<Object>, seen: seq<ChildRow>) {
    && |was| == |now| == |rows|
    && forall j :: 0 <= j < |rows| ==> now[j] == Rows.AppendAll(was[j], ItemsOf(seen, rows[j].key))
  }

  lemma OneMoreInOrder(rows: seq<MainRow>, was: seq<Object>, now: seq<Object>, children: seq<ChildRow>, n: nat, at: nat)
    requires n < |children| && InOrder(rows, was, now, children[..n])
    requires DistinctKeys(rows) && at < |rows| && rows[at].key == children[n].key
    requires KindOf(now[at]) == Rows.Parent(Rows.TableOf(children[n].item))
    ensures InOrder(rows, was, now[at := Rows.Append(now[at], children[n].item)], children[..n + 1])
  {
    var after := now[at := Rows.Append(now[at], children[n].item)];
    assert children[..n + 1][..n] == children[..n];
    forall j | 0 <= j < |rows|
      ensures after[j] == Rows.AppendAll(was[j], ItemsOf(children[..n + 1], rows[j].key))
    {
      var items := ItemsOf(children[..n], rows[j].key);
      if j == at {
        assert (items + [children[n].item])[..|items|] == items;
      } else {
        assert rows[j].key != children[n].key;
        assert ItemsOf(children[..n + 1], rows[j].key) == items;
      }
    }
  }

  /**
   A reader's loop over one child query: each row is appended to the object found through the
   index. The foreign key and the matching filters of the two queries are what keep the
   lookup from ever falling back on its default.
   */
  method AppendRows(rows: seq<MainRow>, objects: seq<Object>, index: map<string, nat>, children: seq<ChildRow>)
    returns (r: seq<Object>)
    requires IndexOf(rows, index) && DistinctKeys(rows)
    requires AllGrowing(rows, objects, objects, multiset{})
    requires forall n :: 0 <= n < |children| ==> Belongs(rows, children[n])
    ensures AllGrowing(rows, objects, r, multiset(children)) && InOrder(rows, objects, r, children)
  {
    r := objects;
    assert children[..0] == [];
    for n := 0 to |children|
      invariant AllGrowing(rows, objects, r, multiset(children[..n])) && InOrder(rows, objects, r, children[..n])
    {
      IndexFinds(rows, index, children[n]);
      var at := Lookup(index, children[n].key.id);
      GrowAll(rows, objects, r, children, n, at);
      OneMoreInOrder(rows, objects, r, children, n, at);
      r := r[at := Rows.Append(r[at], children[n].item)];
    }
    assert children[..|children|] == children;
  }

  /** What the foreign key gives a reader: every row of its child query belongs to its main rows. */
  lemma ChildBelongs(t: Tables, rows: seq<MainRow>, c: Rows.ChildTable, tenant: string, id: Option<string>, r: ChildRow)
    requires WellFormed(t) && MainRows(t, rows, Rows.Parent(c), tenant, id)
    requires r in t.child && MatchesRow(r, c, tenant, id)
    ensures Belongs(rows, r)
  {
  }

  lemma AllBelong(t: Tables, rows: seq<MainRow>, children: seq<ChildRow>, c: Rows.ChildTable, tenant: string,
                  id: Option<string>)
    requires WellFormed(t) && MainRows(t, rows, Rows.Parent(c), tenant, id) && Selects(t, children, c, tenant, id)
    ensures forall n :: 0 <= n < |children| ==> Belongs(rows, children[n])
  {
    forall n | 0 <= n < |children|
      ensures Belongs(rows, children[n])
    {
      assert children[n] in multiset(children);
      ChildBelongs(t, rows, c, tenant, id, children[n]);
    }
  }

  /** A child query's rows hold as many of an item as its table does, and nothing of other tables. */
  lemma AddedItem(t: Tables, key: Key, children: seq<ChildRow>, c: Rows.ChildTable, tenant: string, id: Option<string>,
                  i: Rows.Item)
    requires Matches(key, Rows.Parent(c), tenant, id) && Selects(t, children, c, tenant, id)
    ensures ItemsAt(multiset(children), key)[i] == if Rows.TableOf(i) == c then t.child[ChildRow(key, i)] else 0
  {
    assert MatchesRow(ChildRow(key, i), c, tenant, id) <==> Rows.TableOf(i) == c;
  }

  lemma ItemsOfOneMore(t: Tables, key: Key, items: multiset<Rows.Item>, children: seq<ChildRow>,
                       c: Rows.ChildTable, tenant: string, id: Option<string>, done: seq<Rows.ChildTable>)
    requires ItemsOfTables(t, key, items, done) && c !in done
    requires Matches(key, Rows.Parent(c), tenant, id) && Selects(t, children, c, tenant, id)
    ensures ItemsOfTables(t, key, items + ItemsAt(multiset(children), key), done + [c])
  {
    forall i
      ensures (items + ItemsAt(multiset(children), key))[i] ==
              if Rows.TableOf(i) in done + [c] then t.child[ChildRow(key, i)] else 0
    {
      AddedItem(t, key, children, c, tenant, id, i);
    }
  }

  /** One table's rows, complete, added to an object that had those of the tables in `done`. */
  lemma AttachedMore(t: Tables, row: MainRow, was: Object, now: Object, children: seq<ChildRow>,
                     c: Rows.ChildTable, tenant: string, id: Option<string>, done: seq<Rows.ChildTable>)
    requires Attached(t, row, was, done) && c !in done && Matches(row.key, Rows.Parent(c), tenant, id)
    requires Growing(was, now, row.key, multiset(children)) && Selects(t, children, c, tenant, id)
    ensures Attached(t, row, now, done + [c])
  {
    ItemsOfOneMore(t, row.key, Rows.AllItems(was), children, c, tenant, id, done);
  }

  /** The same for all objects of a reader. */
  lemma AllAttachedMore(t: Tables, rows: seq<MainRow>, was: seq<Object>, now: seq<Object>, children: seq<ChildRow>,
                        c: Rows.ChildTable, tenant: string, id: Option<string>, done: seq<Rows.ChildTable>)
    requires MainRows(t, rows, Rows.Parent(c), tenant, id) && Selects(t, children, c, tenant, id)
    requires AllAttached(t, rows, was, done) && c !in done && AllGrowing(rows, was, now, multiset(children))
    ensures AllAttached(t, rows, now, done + [c])
  {
    forall j | 0 <= j < |rows|
      ensures Attached(t, rows[j], now[j], done + [c])
    {
      AttachedMore(t, rows[j], was[j], now[j], children, c, tenant, id, done);
    }
  }

  /** An object with the rows of several child queries appended, query by query. */
  function AppendTables(o: Object, key: Key, selected: seq<seq<ChildRow>>): Object {
    if selected == [] then o
    else
      var n := |selected| - 1;
      Rows.AppendAll(AppendTables(o, key, selected[..n]), ItemsOf(selected[n], key))
  }

  /** What a reader's queries returned, and the objects it made of them, row order included. */
  ghost predicate ReadInOrder(t: Tables, rows: seq<MainRow>, bare: seq<Object>, objects: seq<Object>,
                              cs: seq<Rows.ChildTable>, selected: seq<seq<ChildRow>>,
                              tenant: string, id: Option<string>)
  {
    && |selected| == |cs|
    && (forall n :: 0 <= n < |cs| ==> Selects(t, selected[n], cs[n], tenant, id))
    && |bare| == |objects| == |rows|
    && forall j :: 0 <= j < |rows| ==> objects[j] == AppendTables(bare[j], rows[j].key, selected)
  }

  lemma OneMoreTable(t: Tables, rows: seq<MainRow>, bare: seq<Object>, was: seq<Object>, now: seq<Object>,
                     cs: seq<Rows.ChildTable>, selected: seq<seq<ChildRow>>, c: Rows.ChildTable,
                     children: seq<ChildRow>, tenant: string, id: Option<string>)
    requires ReadInOrder(t, rows, bare, was, cs, selected, tenant, id)
    requires Selects(t, children, c, tenant, id) && InOrder(rows, was, now, children)
    ensures ReadInOrder(t, rows, bare, now, cs + [c], selected + [children], tenant, id)
  {
    var more := selected + [children];
    assert more[..|selected|] == selected;
    assert forall j :: 0 <= j < |rows| ==> now[j] == AppendTables(bare[j], rows[j].key, more);
  }

  /** The loop that keys the objects read by their ids. */
  method ById(objects: seq<Object>) returns (result: map<string, Object>)
    ensures forall id :: id in result ==> result[id].id == id && result[id] in objects
    ensures forall j :: 0 <= j < |objects| ==> objects[j].id in result
  {
    result := map[];
    for n := 0 to |objects|
      invariant forall id :: id in result ==> result[id].id == id && result[id] in objects
      invariant forall j :: 0 <= j < n ==> objects[j].id in result
    {
      result := result[objects[n].id := objects[n]];
    }
  }

  /** Once all its child tables are attached, an object is what the map keeps under its key. */
  lemma AttachedIsRebuilt(t: Tables, row: MainRow, o: Object)
    requires WellFormed(t) && row.key in t.main && row.cols == t.main[row.key]
    requires Attached(t, row, o, Rows.ChildTables(row.key.kind))
    ensures Rebuilt(o, row.key, Abs(t)[row.key])
  {
  }

  lemma ReadIsStored(t: Tables, rows: seq<MainRow>, objects: seq<Object>, j: nat, kind: Kind, tenant: string)
    requires WellFormed(t) && MainRows(t, rows, kind, tenant, None)
    requires AllAttached(t, rows, objects, Rows.ChildTables(kind)) && j < |objects|
    ensures var key := Key(tenant, kind, objects[j].id);
            key in t.main && Rebuilt(objects[j], key, Abs(t)[key])
  {
    assert Attached(t, rows[j], objects[j], Rows.ChildTables(kind));
    assert rows[j].key == Key(tenant, kind, objects[j].id);
    AttachedIsRebuilt(t, rows[j], objects[j]);
  }

  lemma StoredIsRead(t: Tables, rows: seq<MainRow>, objects: seq<Object>, id: string, kind: Kind, tenant: string)
    returns (j: nat)
    requires MainRows(t, rows, kind, tenant, None) && Key(tenant, kind, id) in t.main
    requires AllAttached(t, rows, objects, Rows.ChildTables(kind))
    ensures j < |objects| && objects[j].id == id
  {
    var row := MainRow(Key(tenant, kind, id), t.main[Key(tenant, kind, id)]);
    j :| 0 <= j < |rows| && rows[j] == row;
    assert Attached(t, rows[j], objects[j], Rows.ChildTables(kind));
  }

  lemma SliceRead(t: Tables, rows: seq<MainRow>, objects: seq<Object>, result: map<string, Object>,
                  kind: Kind, tenant: string)
    requires WellFormed(t) && MainRows(t, rows, kind, tenant, None)
    requires AllAttached(t, rows, objects, Rows.ChildTables(kind))
    requires forall id :: id in result ==> result[id].id == id && result[id] in objects
    requires forall j :: 0 <= j < |objects| ==> objects[j].id in result
    ensures IsSlice(result, Abs(t), tenant, kind)
  {
    forall id | id in result
      ensures Key(tenant, kind, id) in t.main
          && Rebuilt(result[id], Key(tenant, kind, id), Abs(t)[Key(tenant, kind, id)])
    {
      var j :| 0 <= j < |objects| && objects[j] == result[id];
      ReadIsStored(t, rows, objects, j, kind, tenant);
    }
    forall id | Key(tenant, kind, id) in t.main
      ensures id in result
    {
      var j := StoredIsRead(t, rows, objects, id, kind, tenant);
    }
  }

  /** Distinct keys that all match one id number at most one. */
  lemma OnlyOneMatch(rows: seq<MainRow>, key: Key)
    requires DistinctKeys(rows)
    requires forall j :: 0 <= j < |rows| ==> Matches(rows[j].key, key.kind, key.tenant, Some(key.id))
    ensures |rows| <= 1
    ensures |rows| == 1 ==> rows[0].key == key
  {
    assert |rows| > 1 ==> rows[0].key != rows[1].key;
  }

  /** A read of one stored object finds it, once. */
  lemma OneRead(t: Tables, rows: seq<MainRow>, objects: seq<Object>, key: Key)
    requires WellFormed(t) && key in t.main && MainRows(t, rows, key.kind, key.tenant, Some(key.id))
    requires AllAttached(t, rows, objects, Rows.ChildTables(key.kind))
    ensures |objects| == 1 && Rebuilt(objects[0], key, Abs(t)[key])
  {
    assert MainRow(key, t.main[key]) in rows;
    OnlyOneMatch(rows, key);
    AttachedIsRebuilt(t, rows[0], objects[0]);
  }

  lemma ClearNext(tenant: string, kinds: seq<Kind>, n: nat, p: seq<Statement>)
    requires n < |kinds|
    ensures p + ClearProgram(tenant, kinds[n..]) ==
        p + [DeleteTenant(kinds[n], tenant)] + ClearProgram(tenant, kinds[n + 1..])
  {
  }

  class SqlBackend {
    const db: Database
    const config: Config

    constructor (db: Database, config: Config)
      ensures this.db == db && this.config == config
    {
      this.db, this.config := db, config;
    }

    ghost predicate Valid()
      reads db, db.calls
    {
      WellFormed(db.tables) && db.calls.Valid()
    }

    // ---------- creators and mutators ----------

    /** The loop in createEmails, createEnrolments, createMemberships and so on. */
    method ConvertAll<T>(list: seq<T>, convert: T -> Rows.Item) returns (items: seq<Rows.Item>)
      ensures items == Map(convert, list)
    {
      items := [];
      for i := 0 to |list|
        invariant |items| == i && forall j :: 0 <= j < i ==> items[j] == convert(list[j])
      {
        items := items + [convert(list[i])];
      }
    }

    /** Inserts an object's rows in one child table, by a single statement if there are any. */
    method CreateItems(tx: Transaction, tenant: string, o: Object, c: Rows.ChildTable) returns (status: Status)
      requires tx.Valid() && Rows.Parent(c) == KindOf(o)
      modifies tx, tx.db.calls
      ensures old(tx.db.calls.clock) <= tx.db.calls.clock
      ensures status == Faulted <==> tx.db.calls.failures != old(tx.db.calls.failures)
      ensures tx.Valid() && Issued(tx.start, old(tx.log), tx.log, InsertItems(KeyOf(tenant, o), c, o), status)
    {
      var items;
      match c {
        case Emails => items := ConvertAll(Elems(o.emails), Rows.ToEmailItem);
        case Enrolments => items := ConvertAll(Elems(o.extension.enrolments), Rows.ToEnrolmentItem);
        case StudentMemberships => items := ConvertAll(Elems(o.memberships), Rows.ToMembershipItem);
        case SchoolTypes => items := ConvertAll(Elems(o.schoolTypes), Rows.ToSchoolTypeItem);
        case ActivityTeachers => items := ConvertAll(Elems(o.teachers), Rows.ToTeacherItem);
        case ActivityGroups => items := ConvertAll(Elems(o.groups), Rows.ToGroupItem);
      }
      assert items == Rows.Items(o, c);
      if |items| == 0 {
        assert tx.log == old(tx.log) + [];
        return Executed;
      }
      Rows.ItemsTyped(o, c);
      status := tx.NamedExec(InsertChildren(KeyOf(tenant, o), items));
    }

    /** Inserts the rows of the child tables one after the other. */
    method CreateEach(tx: Transaction, tenant: string, o: Object, cs: seq<Rows.ChildTable>) returns (status: Status)
      requires tx.Valid() && forall c :: c in cs ==> Rows.Parent(c) == KindOf(o)
      modifies tx, tx.db.calls
      ensures old(tx.db.calls.clock) <= tx.db.calls.clock
      ensures status == Faulted <==> tx.db.calls.failures != old(tx.db.calls.failures)
      ensures tx.Valid() && Issued(tx.start, old(tx.log), tx.log, InsertAll(KeyOf(tenant, o), cs, o), status)
      decreases |cs|
    {
      if cs == [] {
        NothingIssued(tx.start, tx.log);
        return Executed;
      }
      ghost var p, q := InsertItems(KeyOf(tenant, o), cs[0], o), InsertAll(KeyOf(tenant, o), cs[1..], o);
      status := CreateItems(tx, tenant, o, cs[0]);
      if status != Executed {
        IssuedInPart(tx.start, old(tx.log), tx.log, p, q, status);
        return;
      }
      ghost var between := tx.log;
      status := CreateEach(tx, tenant, o, cs[1..]);
      IssuedThen(tx.start, old(tx.log), between, tx.log, p, q, status);
    }

    /** objectCreator: the main row, then the child rows. */
    method ObjectCreator(tx: Transaction, tenant: string, o: Object) returns (status: Status)
      requires tx.Valid()
      modifies tx, tx.db.calls
      ensures old(tx.db.calls.clock) <= tx.db.calls.clock
      ensures status == Faulted <==> tx.db.calls.failures != old(tx.db.calls.failures)
      ensures tx.Valid() && Issued(tx.start, old(tx.log), tx.log, CreateProgram(tenant, o), status)
    {
      var insert, cs := InsertMain(KeyOf(tenant, o), Rows.ColsOf(o)), Rows.ChildTables(KindOf(o));
      ghost var q := InsertAll(KeyOf(tenant, o), cs, o);
      Rows.ColsOfTyped(o);
      status := tx.NamedExec(insert);
      if status != Executed {
        IssuedInPart(tx.start, old(tx.log), tx.log, [insert], q, status);
        return;
      }
      ghost var between := tx.log;
      status := CreateEach(tx, tenant, o, cs);
      IssuedThen(tx.start, old(tx.log), between, tx.log, [insert], q, status);
    }

    /** Deletes and reinserts the rows of one child table. */
    method ReplaceItems(tx: Transaction, tenant: string, o: Object, c: Rows.ChildTable) returns (status: Status)
      requires tx.Valid() && Rows.Parent(c) == KindOf(o)
      modifies tx, tx.db.calls
      ensures old(tx.db.calls.clock) <= tx.db.calls.clock
      ensures status == Faulted <==> tx.db.calls.failures != old(tx.db.calls.failures)
      ensures tx.Valid()
      ensures Issued(tx.start, old(tx.log), tx.log,
                     [DeleteChildren(KeyOf(tenant, o), c)] + InsertItems(KeyOf(tenant, o), c, o), status)
    {
      var delete := DeleteChildren(KeyOf(tenant, o), c);
      ghost var q := InsertItems(KeyOf(tenant, o), c, o);
      status := tx.NamedExec(delete);
      if status != Executed {
        IssuedInPart(tx.start, old(tx.log), tx.log, [delete], q, status);
        return;
      }
      ghost var between := tx.log;
      status := CreateItems(tx, tenant, o, c);
      IssuedThen(tx.start, old(tx.log), between, tx.log, [delete], q, status);
    }

    method ReplaceEach(tx: Transaction, tenant: string, o: Object, cs: seq<Rows.ChildTable>) returns (status: Status)
      requires tx.Valid() && forall c :: c in cs ==> Rows.Parent(c) == KindOf(o)
      modifies tx, tx.db.calls
      ensures old(tx.db.calls.clock) <= tx.db.calls.clock
      ensures status == Faulted <==> tx.db.calls.failures != old(tx.db.calls.failures)
      ensures tx.Valid() && Issued(tx.start, old(tx.log), tx.log, ReplaceAll(KeyOf(tenant, o), cs, o), status)
      decreases |cs|
    {
      if cs == [] {
        NothingIssued(tx.start, tx.log);
        return Executed;
      }
      ghost var p := [DeleteChildren(KeyOf(tenant, o), cs[0])] + InsertItems(KeyOf(tenant, o), cs[0], o);
      ghost var q := ReplaceAll(KeyOf(tenant, o), cs[1..], o);
      status := ReplaceItems(tx, tenant, o, cs[0]);
      if status != Executed {
        IssuedInPart(tx.start, old(tx.log), tx.log, p, q, status);
        return;
      }
      ghost var between := tx.log;
      status := ReplaceEach(tx, tenant, o, cs[1..]);
      IssuedThen(tx.start, old(tx.log), between, tx.log, p, q, status);
    }

    /** objectMutator: update the main row, then replace the child rows. */
    method ObjectMutator(tx: Transaction, tenant: string, o: Object) returns (status: Status)
      requires tx.Valid()
      modifies tx, tx.db.calls
      ensures old(tx.db.calls.clock) <= tx.db.calls.clock
      ensures status == Faulted <==> tx.db.calls.failures != old(tx.db.calls.failures)
      ensures tx.Valid() && Issued(tx.start, old(tx.log), tx.log, MutateProgram(tenant, o), status)
    {
      var update, cs := UpdateMain(KeyOf(tenant, o), Rows.ColsOf(o)), Rows.ChildTables(KindOf(o));
      ghost var q := ReplaceAll(KeyOf(tenant, o), cs, o);
      Rows.ColsOfTyped(o);
      status := tx.NamedExec(update);
      if status != Executed {
        IssuedInPart(tx.start, old(tx.log), tx.log, [update], q, status);
        return;
      }
      ghost var between := tx.log;
      status := ReplaceEach(tx, tenant, o, cs);
      IssuedThen(tx.start, old(tx.log), between, tx.log, [update], q, status);
    }

    // ---------- operations ----------

    /** The end of every operation: commit what was issued, or report why it was not. */
    method Finish(tx: Transaction, status: Status, ghost program: seq<Statement>, reply: Reply, ghost failures: nat)
      returns (r: Reply)
      requires Valid() && tx.Valid() && tx.db == db && tx.start == db.tables
      requires Issued(tx.start, [], tx.log, program, status)
      requires status == Faulted <==> db.calls.failures != failures
      requires reply != Fault
      modifies db`tables, db.calls
      ensures Valid() && old(db.calls.clock) <= db.calls.clock
      ensures r == Fault <==> db.calls.failures != failures
      ensures r == Fault ==> db.tables == old(db.tables)
      ensures r != Fault ==> (db.tables, r) == Transactions.Commit(old(db.tables), program, reply)
    {
      assert [] + program == program;
      if status == Violated {
        return Rejected;
      }
      if status == Faulted {
        return Fault;
      }
      var ok := tx.Commit();
      return if ok then reply else Fault;
    }

    method Create(tenant: string, resourceType: string, resource: Text) returns (reply: Reply)
      requires Valid()
      modifies db`tables, db.calls
      ensures Valid() && old(db.calls.clock) <= db.calls.clock
      ensures var faulted := db.calls.failures != old(db.calls.failures);
              var op := Op.Create(tenant, resourceType, resource);
              (db.tables, reply) == Step(config, old(db.tables), Event(op, faulted))
    {
      var kind := KindNamed(resourceType);
      if kind.None? {
        return UnknownType;
      }
      var body := Parse(config, kind.value, resource);
      if body.Failure? {
        return Malformed;
      }
      var begun := db.Begin();
      if begun.None? {
        return Fault;
      }
      var tx := begun.value;
      var found := tx.HasRecord(KeyOf(tenant, body.value));
      if found.None? {
        return Fault;
      }
      if found.value {
        return Conflict;
      }
      var status := ObjectCreator(tx, tenant, body.value);
      reply := Finish(tx, status, CreateProgram(tenant, body.value), Resource(Encode(body.value)),
                      old(db.calls.failures));
    }

    method Update(tenant: string, resourceType: string, id: string, resource: Text) returns (reply: Reply)
      requires Valid()
      modifies db`tables, db.calls
      ensures Valid() && old(db.calls.clock) <= db.calls.clock
      ensures var faulted := db.calls.failures != old(db.calls.failures);
              var op := Op.Update(tenant, resourceType, id, resource);
              (db.tables, reply) == Step(config, old(db.tables), Event(op, faulted))
    {
      var kind := KindNamed(resourceType);
      if kind.None? {
        return UnknownType;
      }
      var body := Parse(config, kind.value, resource);
      if body.Failure? {
        return Malformed;
      }
      var begun := db.Begin();
      if begun.None? {
        return Fault;
      }
      var tx := begun.value;
      var found := tx.HasRecord(Key(tenant, kind.value, id));
      if found.None? {
        return Fault;
      }
      if !found.value {
        return Missing;
      }
      var status := ObjectMutator(tx, tenant, body.value);
      reply := Finish(tx, status, MutateProgram(tenant, body.value), Resource(Encode(body.value)),
                      old(db.calls.failures));
    }

    method Delete(tenant: string, resourceType: string, id: string) returns (reply: Reply)
      requires Valid()
      modifies db`tables, db.calls
      ensures Valid() && old(db.calls.clock) <= db.calls.clock
      ensures var faulted := db.calls.failures != old(db.calls.failures);
              (db.tables, reply) == Step(config, old(db.tables), Event(Op.Delete(tenant, resourceType, id), faulted))
    {
      var kind := KindNamed(resourceType);
      if kind.None? {
        return UnknownType;
      }
      var begun := db.Begin();
      if begun.None? {
        return Fault;
      }
      var tx := begun.value;
      var key := Key(tenant, kind.value, id);
      var found := tx.HasRecord(key);
      if found.None? {
        return Fault;
      }
      if !found.value {
        return Missing;
      }
      var status := tx.NamedExec(DeleteMain(key));
      reply := Finish(tx, status, [DeleteMain(key)], Done, old(db.calls.failures));
    }

    /** The loop over the tables to clear. */
    method ClearTables(tx: Transaction, tenant: string, kinds: seq<Kind>) returns (status: Status)
      requires tx.Valid()
      modifies tx, tx.db.calls
      ensures old(tx.db.calls.clock) <= tx.db.calls.clock
      ensures status == Faulted <==> tx.db.calls.failures != old(tx.db.calls.failures)
      ensures tx.Valid() && Issued(tx.start, old(tx.log), tx.log, ClearProgram(tenant, kinds), status)
    {
      ghost var p: seq<Statement> := [];
      NothingIssued(tx.start, tx.log);
      for n := 0 to |kinds|
        invariant tx.Valid() && Issued(tx.start, old(tx.log), tx.log, p, Executed)
        invariant old(tx.db.calls.clock) <= tx.db.calls.clock && tx.db.calls.failures == old(tx.db.calls.failures)
        invariant p + ClearProgram(tenant, kinds[n..]) == ClearProgram(tenant, kinds)
      {
        ghost var between, q, rest := tx.log, [DeleteTenant(kinds[n], tenant)], ClearProgram(tenant, kinds[n + 1..]);
        ClearNext(tenant, kinds, n, p);
        status := tx.NamedExec(DeleteTenant(kinds[n], tenant));
        IssuedThen(tx.start, old(tx.log), between, tx.log, p, q, status);
        if status != Executed {
          IssuedInPart(tx.start, old(tx.log), tx.log, p + q, rest, status);
          return;
        }
        p := p + q;
      }
      assert kinds[|kinds|..] == [] && p + [] == p;
      return Executed;
    }

    method Clear(tenant: string) returns (reply: Reply)
      requires Valid()
      modifies db`tables, db.calls
      ensures Valid() && old(db.calls.clock) <= db.calls.clock
      ensures var faulted := db.calls.failures != old(db.calls.failures);
              (db.tables, reply) == Step(config, old(db.tables), Event(Op.Clear(tenant), faulted))
    {
      var begun := db.Begin();
      if begun.None? {
        return Fault;
      }
      var tx := begun.value;
      var status := ClearTables(tx, tenant, CLEARED);
      reply := Finish(tx, status, ClearProgram(tenant, CLEARED), Done, old(db.calls.failures));
    }

    // ---------- readers ----------

    /** One child query of a reader and the loop over its rows. */
    method Attach(tx: Transaction, rows: seq<MainRow>, objects: seq<Object>, index: map<string, nat>,
                  c: Rows.ChildTable, tenant: string, id: Option<string>, ghost done: seq<Rows.ChildTable>)
      returns (r: Option<seq<Object>>, ghost selected: seq<ChildRow>)
      requires tx.Valid() && tx.db == db && MainRows(tx.work, rows, Rows.Parent(c), tenant, id) && IndexOf(rows, index)
      requires AllAttached(tx.work, rows, objects, done) && c !in done
      modifies db.calls
      ensures db.calls.Valid() && old(db.calls.clock) <= db.calls.clock
      ensures r.Some? <==> db.calls.failures == old(db.calls.failures)
      ensures r.Some? ==> AllAttached(tx.work, rows, r.value, done + [c])
      ensures r.Some? ==> Selects(tx.work, selected, c, tenant, id) && InOrder(rows, objects, r.value, selected)
    {
      var children := tx.SelectChildren(c, tenant, id);
      if children.None? {
        return None, [];
      }
      AllBelong(tx.work, rows, children.value, c, tenant, id);
      AttachedCanGrow(tx.work, rows, objects, done);
      var grown := AppendRows(rows, objects, index, children.value);
      AllAttachedMore(tx.work, rows, objects, grown, children.value, c, tenant, id, done);
      return Some(grown), children.value;
    }

    /** The child queries of a reader, one after the other. */
    method AttachEach(tx: Transaction, rows: seq<MainRow>, bare: seq<Object>, index: map<string, nat>,
                      cs: seq<Rows.ChildTable>, ghost kind: Kind, tenant: string, id: Option<string>)
      returns (r: Option<seq<Object>>, ghost selected: seq<seq<ChildRow>>)
      requires tx.Valid() && tx.db == db && MainRows(tx.work, rows, kind, tenant, id) && IndexOf(rows, index)
      requires AllAttached(tx.work, rows, bare, [])
      requires forall i, j :: 0 <= i < j < |cs| ==> cs[i] != cs[j]
      requires forall c :: c in cs ==> Rows.Parent(c) == kind
      modifies db.calls
      ensures db.calls.Valid() && old(db.calls.clock) <= db.calls.clock
      ensures r.Some? <==> db.calls.failures == old(db.calls.failures)
      ensures r.Some? ==> AllAttached(tx.work, rows, r.value, cs)
      ensures r.Some? ==> ReadInOrder(tx.work, rows, bare, r.value, cs, selected, tenant, id)
    {
      var objects := bare;
      selected := [];
      assert cs[..0] == [];
      for n := 0 to |cs|
        invariant AllAttached(tx.work, rows, objects, cs[..n])
        invariant ReadInOrder(tx.work, rows, bare, objects, cs[..n], selected, tenant, id)
        invariant db.calls.Valid() && old(db.calls.clock) <= db.calls.clock
        invariant db.calls.failures == old(db.calls.failures)
      {
        assert cs[n] !in cs[..n];
        var more, children := Attach(tx, rows, objects, index, cs[n], tenant, id, cs[..n]);
        if more.None? {
          return None, [];
        }
        OneMoreTable(tx.work, rows, bare, objects, more.value, cs[..n], selected, cs[n], children, tenant, id);
        objects := more.value;
        selected := selected + [children];
        assert cs[..n + 1] == cs[..n] + [cs[n]];
      }
      assert cs[..|cs|] == cs;
      r := Some(objects);
    }

    /** The readers: main query, then each child query, for all of a tenant's objects or for one id. */
    method ObjectReader(tx: Transaction, kind: Kind, tenant: string, id: Option<string>)
      returns (r: Option<seq<Object>>, ghost rows: seq<MainRow>, ghost selected: seq<seq<ChildRow>>)
      requires tx.Valid() && tx.db == db
      modifies db.calls
      ensures db.calls.Valid() && old(db.calls.clock) <= db.calls.clock
      ensures r.Some? <==> db.calls.failures == old(db.calls.failures)
      ensures r.Some? ==> MainRows(tx.work, rows, kind, tenant, id) && |r.value| == |rows|
      ensures r.Some? ==> AllAttached(tx.work, rows, r.value, Rows.ChildTables(kind))
      ensures r.Some? ==>
                ReadInOrder(tx.work, rows, BareObjects(rows), r.value, Rows.ChildTables(kind), selected, tenant, id)
    {
      rows, selected := [], [];
      var main := tx.SelectMain(kind, tenant, id);
      if main.None? {
        return None, [], [];
      }
      rows := main.value;
      var objects, index := Build(tx.work, main.value, kind, tenant, id);
      r, selected := AttachEach(tx, main.value, objects, index, Rows.ChildTables(kind), kind, tenant, id);
    }

    /** objectReaderOne: the object under a key that is known to be stored. */
    method ObjectReaderOne(tx: Transaction, key: Key) returns (r: Option<Object>)
      requires tx.Valid() && tx.db == db && key in tx.work.main
      modifies db.calls
      ensures db.calls.Valid() && old(db.calls.clock) <= db.calls.clock
      ensures r.Some? <==> db.calls.failures == old(db.calls.failures)
      ensures r.Some? ==> Rebuilt(r.value, key, Abs(tx.work)[key])
    {
      var objects, rows, selected := ObjectReader(tx, key.kind, key.tenant, Some(key.id));
      if objects.None? {
        return None;
      }
      OneRead(tx.work, rows, objects.value, key);
      if |objects.value| != 1 {
        assert false;
      }
      return Some(objects.value[0]);
    }

    /** All objects of one type of one tenant: exactly the map's slice, unless some call fails. */
    method GetParsedResources(tenant: string, resourceType: string) returns (r: Answer<map<string, Object>>)
      requires Valid()
      modifies db`tables, db.calls
      ensures Valid() && db.tables == old(db.tables) && old(db.calls.clock) <= db.calls.clock
      ensures r == Refused(Fault) <==> db.calls.failures != old(db.calls.failures)
      ensures r.Refused? && r.error != Fault <==> r == Refused(UnknownType)
      ensures r != Refused(Fault) ==> (r.Answer? <==> KindNamed(resourceType).Some?)
      ensures r.Answer? ==> IsSlice(r.value, Abs(db.tables), tenant, KindNamed(resourceType).value)
    {
      var begun := db.Begin();
      if begun.None? {
        return Refused(Fault);
      }
      var tx := begun.value;
      var kind := KindNamed(resourceType);
      if kind.None? {
        return Refused(UnknownType);
      }
      var objects, rows, selected := ObjectReader(tx, kind.value, tenant, None);
      if objects.None? {
        return Refused(Fault);
      }
      var ok := tx.Commit();
      if !ok {
        return Refused(Fault);
      }
      var result := ById(objects.value);
      SliceRead(db.tables, rows, objects.value, result, kind.value, tenant);
      return Answer(result);
    }

    /** One object: unless some call fails, the one the map holds, or missing when it holds none. */
    method GetParsedResource(tenant: string, resourceType: string, id: string) returns (r: Answer<Object>)
      requires Valid()
      modifies db`tables, db.calls
      ensures Valid() && db.tables == old(db.tables) && old(db.calls.clock) <= db.calls.clock
      ensures r == Refused(Fault) <==> db.calls.failures != old(db.calls.failures)
      ensures r != Refused(Fault) ==> FoundOne(tenant, resourceType, id, r)
    {
      var kind := KindNamed(resourceType);
      if kind.None? {
        return Refused(UnknownType);
      }
      var begun := db.Begin();
      if begun.None? {
        return Refused(Fault);
      }
      var tx := begun.value;
      var key := Key(tenant, kind.value, id);
      var found := tx.HasRecord(key);
      if found.None? {
        return Refused(Fault);
      }
      if !found.value {
        return Refused(Missing);
      }
      var o := ObjectReaderOne(tx, key);
      if o.None? {
        return Refused(Fault);
      }
      var ok := tx.Commit();
      if !ok {
        return Refused(Fault);
      }
      return Answer(o.value);
    }

    /** The answer to a query for one object, when nothing fails. */
    ghost predicate FoundOne(tenant: string, resourceType: string, id: string, r: Answer<Object>)
      reads db
    {
      var kind := KindNamed(resourceType);
      if kind.None? then r == Refused(UnknownType)
      else
        var key := Key(tenant, kind.value, id);
        if key !in db.tables.main then r == Refused(Missing)
        else r.Answer? && Rebuilt(r.value, key, Abs(db.tables)[key])
    }

    /** All objects of one type as texts: what GetParsedResources reads, each encoded. */
    method GetResources(tenant: string, resourceType: string)
      returns (r: Answer<map<string, Json>>, ghost objects: map<string, Object>)
      requires Valid()
      modifies db`tables, db.calls
      ensures Valid() && db.tables == old(db.tables) && old(db.calls.clock) <= db.calls.clock
      ensures r == Refused(Fault) <==> db.calls.failures != old(db.calls.failures)
      ensures r.Refused? && r.error != Fault <==> r == Refused(UnknownType)
      ensures r != Refused(Fault) ==> (r.Answer? <==> KindNamed(resourceType).Some?)
      ensures r.Answer? ==> IsSlice(objects, Abs(db.tables), tenant, KindNamed(resourceType).value)
      ensures r.Answer? ==> EachEncoded(r.value, objects)
    {
      objects := map[];
      var read := GetParsedResources(tenant, resourceType);
      if read.Refused? {
        return Refused(read.error), objects;
      }
      objects := read.value;
      var result: map<string, Json>, left := map[], read.value.Keys;
      while left != {}
        invariant left <= read.value.Keys && result.Keys == read.value.Keys - left
        invariant forall id :: id in result ==> result[id] == Encode(read.value[id])
      {
        var id :| id in left;
        left := left - {id};
        result := result[id := Encode(read.value[id])];
      }
      r := Answer(result);
    }

    /** One object as text. */
    method GetResource(tenant: string, resourceType: string, id: string)
      returns (r: Answer<Json>, ghost parsed: Answer<Object>)
      requires Valid()
      modifies db`tables, db.calls
      ensures Valid() && db.tables == old(db.tables) && old(db.calls.clock) <= db.calls.clock
      ensures r == Refused(Fault) <==> db.calls.failures != old(db.calls.failures)
      ensures r != Refused(Fault) ==> FoundOne(tenant, resourceType, id, parsed)
      ensures r == if parsed.Refused? then Refused(parsed.error) else Answer(Encode(parsed.value))
    {
      var read := GetParsedResource(tenant, resourceType, id);
      parsed := read;
      if read.Refused? {
        return Refused(read.error), parsed;
      }
      r := Answer(Encode(read.value));
    }
  }
}
