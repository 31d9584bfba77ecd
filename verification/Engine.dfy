/**
 The database as the backend uses it: committed tables, and transactions that work on a
 private copy which is either committed or discarded.

 Every call (beginning a transaction, a statement, a query, a commit) is counted, and fails
 exactly when the schedule of failing calls says so. Queries return their rows in any order. A
 transaction's `log` is the ghost record of the statements it has executed.
 */
module Engine {
  import opened Wrappers
  import opened Faults
  import opened Objects
  import opened Rows
  import opened Tables

  datatype Status = Executed | Violated | Faulted

  /** A row of a main table. */
  datatype MainRow = MainRow(key: Key, cols: Cols)

  /** The WHERE clause shared by the readers' queries: a tenant, and for a single object its id. */
  predicate Matches(key: Key, kind: Kind, tenant: string, id: Option<string>) {
    key.kind == kind && key.tenant == tenant && (id.Some? ==> key.id == id.value)
  }

  predicate MatchesRow(r: ChildRow, c: ChildTable, tenant: string, id: Option<string>) {
    TableOf(r.item) == c && Matches(r.key, Parent(c), tenant, id)
  }

  /** A child query's answer: the matching rows, each as often as the table holds it, in any order. */
  ghost predicate Selects(t: Tables, rows: seq<ChildRow>, c: ChildTable, tenant: string, id: Option<string>) {
    forall r :: multiset(rows)[r] == if MatchesRow(r, c, tenant, id) then t.child[r] else 0
  }

  class Database {
    var tables: Tables
    const calls: Calls

    constructor (fails: Schedule)
      ensures tables == EMPTY && WellFormed(tables)
      ensures fresh(calls) && calls.Valid() && calls.fails == fails && calls.clock == 0
    {
      tables := EMPTY;
      calls := new Calls(fails);
    }

    /** One call has been made since, which failed or not. */
    ghost predicate OneCall(clock: nat, failures: nat, failed: bool)
      reads calls
    {
      && calls.clock == clock + 1
      && (failed <==> calls.fails(clock))
      && calls.failures == failures + if failed then 1 else 0
    }

    /** Beginx: a transaction on the committed tables. */
    method Begin() returns (tx: Option<Transaction>)
      requires WellFormed(tables) && calls.Valid()
      modifies calls
      ensures calls.Valid() && OneCall(old(calls.clock), old(calls.failures), tx.None?)
      ensures tx.Some? ==>
                && fresh(tx.value)
                && tx.value.Valid()
                && tx.value.db == this
                && tx.value.start == tables
                && tx.value.log == []
    {
      var failed := calls.Call();
      if failed {
        return None;
      }
      var t := new Transaction(this);
      return Some(t);
    }
  }

  class Transaction {
    const db: Database
    var work: Tables
    ghost const start: Tables
    ghost var log: seq<Statement>

    /** The working copy is what the logged statements make of the committed tables. */
    ghost predicate Valid()
      reads this, db.calls
    {
      db.calls.Valid() && WellFormed(start) && WellFormed(work) && ExecAll(start, log) == Success(work)
    }

    constructor (db: Database)
      requires WellFormed(db.tables) && db.calls.Valid()
      ensures Valid() && this.db == db && start == db.tables && log == []
    {
      this.db, work, start := db, db.tables, db.tables;
      log := [];
    }

    /** One statement. It is carried out, rejected by a key constraint, or fails. */
    method NamedExec(s: Statement) returns (status: Status)
      requires Valid() && Typed(s)
      modifies this, db.calls
      ensures Valid() && db.OneCall(old(db.calls.clock), old(db.calls.failures), status == Faulted)
      ensures status == Executed ==> log == old(log) + [s]
      ensures status == Violated ==> ExecAll(start, old(log) + [s]).Failure?
    {
      var failed := db.calls.Call();
      if failed {
        return Faulted;
      }
      ghost var before := work;
      ExecAllConcat(start, log, [s]);
      assert [s][1..] == [];
      assert ExecAll(before, [s]) == Exec(before, s);
      ExecKeepsWellFormed(work, s);
      match s {
        case InsertMain(key, cols) =>
          if key in work.main {
            return Violated;
          }
          work := work.(main := work.main[key := cols]);
        case UpdateMain(key, cols) =>
          if key in work.main {
            work := work.(main := work.main[key := cols]);
          }
        case DeleteMain(key) =>
          var child := Keep(work.child, (r: ChildRow) => r.key != key);
          work := Tables(work.main - {key}, child);
        case DeleteTenant(kind, tenant) =>
          var child := Keep(work.child, (r: ChildRow) => !InTable(r.key, kind, tenant));
          work := Tables(work.main - KeysIn(work.main.Keys, kind, tenant), child);
        case InsertChildren(key, items) =>
          if key !in work.main {
            return Violated;
          }
          work := work.(child := work.child + multiset(ChildRows(key, items)));
        case DeleteChildren(key, table) =>
          var child := Keep(work.child, (r: ChildRow) => !(r.key == key && TableOf(r.item) == table));
          work := work.(child := child);
      }
      assert work.child == Exec(before, s).value.child;
      log := log + [s];
      return Executed;
    }

    /** SELECT 1 FROM a main table WHERE tenant and id match: none if the query fails. */
    method HasRecord(key: Key) returns (found: Option<bool>)
      requires db.calls.Valid()
      modifies db.calls
      ensures db.calls.Valid() && db.OneCall(old(db.calls.clock), old(db.calls.failures), found.None?)
      ensures found.Some? ==> (found.value <==> key in work.main)
    {
      var failed := db.calls.Call();
      if failed {
        return None;
      }
      return Some(key in work.main);
    }

    /** The matching main rows, in any order, each once. */
    method SelectMain(kind: Kind, tenant: string, id: Option<string>) returns (rows: Option<seq<MainRow>>)
      requires db.calls.Valid()
      modifies db.calls
      ensures db.calls.Valid() && db.OneCall(old(db.calls.clock), old(db.calls.failures), rows.None?)
      ensures rows.Some? ==>
                && (forall i :: 0 <= i < |rows.value| ==>
                      var row := rows.value[i];
                      row.key in work.main && row.cols == work.main[row.key] && Matches(row.key, kind, tenant, id))
                && (forall i, j :: 0 <= i < j < |rows.value| ==> rows.value[i].key != rows.value[j].key)
                && (forall k :: k in work.main && Matches(k, kind, tenant, id) ==>
                    MainRow(k, work.main[k]) in rows.value)
    {
      var failed := db.calls.Call();
      if failed {
        return None;
      }
      var found: seq<MainRow> := [];
      var left := work.main.Keys;
      while left != {}
        invariant left <= work.main.Keys
        invariant forall i :: 0 <= i < |found| ==>
                    && found[i].key in work.main - left
                    && found[i].cols == work.main[found[i].key]
                    && Matches(found[i].key, kind, tenant, id)
        invariant forall i, j :: 0 <= i < j < |found| ==> found[i].key != found[j].key
        invariant forall k :: k in work.main - left && Matches(k, kind, tenant, id) ==>
            MainRow(k, work.main[k]) in found
      {
        var k :| k in left;
        left := left - {k};
        if Matches(k, kind, tenant, id) {
          found := found + [MainRow(k, work.main[k])];
        }
      }
      return Some(found);
    }

    method SelectChildren(c: ChildTable, tenant: string, id: Option<string>) returns (rows: Option<seq<ChildRow>>)
      requires db.calls.Valid()
      modifies db.calls
      ensures db.calls.Valid() && db.OneCall(old(db.calls.clock), old(db.calls.failures), rows.None?)
      ensures rows.Some? ==> Selects(work, rows.value, c, tenant, id)
    {
      var failed := db.calls.Call();
      if failed {
        return None;
      }
      var found: seq<ChildRow> := [];
      var left := work.child;
      while left != multiset{}
        invariant left <= work.child
        invariant forall r :: multiset(found)[r] == if MatchesRow(r, c, tenant, id) then work.child[r] - left[r] else 0
        decreases |left|
      {
        var r :| r in left;
        left := left - multiset{r};
        if MatchesRow(r, c, tenant, id) {
          found := found + [r];
        }
      }
      return Some(found);
    }

    /** Makes the working copy the committed tables, or fails and changes nothing. */
    method Commit() returns (ok: bool)
      requires db.calls.Valid()
      modifies db`tables, db.calls
      ensures db.calls.Valid() && db.OneCall(old(db.calls.clock), old(db.calls.failures), !ok)
      ensures db.tables == if ok then work else old(db.tables)
    {
      var failed := db.calls.Call();
      if failed {
        return false;
      }
      db.tables := work;
      return true;
    }
  }

  /** The rows that a DELETE leaves behind. */
  method Keep(rows: multiset<ChildRow>, keep: ChildRow -> bool) returns (kept: multiset<ChildRow>)
    ensures kept == Filter(rows, keep)
  {
    var left := rows;
    kept := multiset{};
    while left != multiset{}
      invariant left <= rows
      invariant forall r :: kept[r] == if keep(r) then rows[r] - left[r] else 0
      decreases |left|
    {
      var r :| r in left;
      left := left - multiset{r};
      if keep(r) {
        kept := kept + multiset{r};
      }
    }
  }
}
