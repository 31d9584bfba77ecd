/**
 Bringing a database to the current schema (initSchema in windermere/sqlbackend.go).

 A schema is any value and a migration any partial function on it. The first migration also
 creates the version row, so it fails where there is one already.
 */
module Migrations {
  import opened Wrappers
  import opened Faults

  /** `version` is the row of windermere_meta; None when there is no such table. */
  datatype Db<S> = Db(schema: S, version: Option<nat>)

  type Migration<!S> = S -> Result<S>

  /** Runs migration number `i`. */
  function RunOne<S>(migrations: seq<Migration<S>>, i: nat, db: Db<S>): Result<Db<S>>
    requires 1 <= i <= |migrations|
  {
    if i == 1 && db.version.Some? then Failure
    else
      var schema :- migrations[i - 1](db.schema);
      Success(Db(schema, if i == 1 then Some(1) else db.version))
  }

  /** Runs the migrations from number `i` on. */
  function RunFrom<S>(migrations: seq<Migration<S>>, i: nat, db: Db<S>): Result<Db<S>>
    requires 1 <= i
    decreases |migrations| - i
  {
    if i > |migrations| then Success(db)
    else
      var db' :- RunOne(migrations, i, db);
      RunFrom(migrations, i + 1, db')
  }

  function VersionOf<S>(db: Db<S>): nat {
    if db.version.Some? then db.version.value else 0
  }

  /** The UPDATE of the version row, which matches nothing when there is none. */
  function Stamp<S>(db: Db<S>, version: nat): Db<S> {
    if db.version.Some? then db.(version := Some(version)) else db
  }

  /** A start in which nothing fails. */
  function Start<S>(migrations: seq<Migration<S>>, db: Db<S>): Result<Db<S>> {
    if VersionOf(db) > |migrations| then Failure
    else
      var db' :- RunFrom(migrations, VersionOf(db) + 1, db);
      Success(Stamp(db', |migrations|))
  }

  /** `schemas` are those that the migrations after the first `v` make, one from the other. */
  ghost predicate Chain<S>(migrations: seq<Migration<S>>, v: nat, schemas: seq<S>) {
    && v <= |migrations|
    && |schemas| == |migrations| - v + 1
    && forall k :: 0 <= k < |migrations| - v ==> migrations[v + k](schemas[k]) == Success(schemas[k + 1])
  }

  /** Each of the migrations after the first `v`, carried out in turn, leads from one schema to the other. */
  ghost predicate Leads<S(!new)>(migrations: seq<Migration<S>>, v: nat, from: S, until: S) {
    exists schemas :: Chain(migrations, v, schemas) && schemas[0] == from && schemas[|schemas| - 1] == until
  }

  lemma {:induction false} RunIsChain<S>(migrations: seq<Migration<S>>, v: nat, db: Db<S>) returns (schemas: seq<S>)
    requires v <= |migrations| && RunFrom(migrations, v + 1, db).Success?
    ensures Chain(migrations, v, schemas) && schemas[0] == db.schema
    ensures schemas[|schemas| - 1] == RunFrom(migrations, v + 1, db).value.schema
    decreases |migrations| - v
  {
    if v == |migrations| {
      schemas := [db.schema];
    } else {
      var rest := RunIsChain(migrations, v + 1, RunOne(migrations, v + 1, db).value);
      schemas := [db.schema] + rest;
      forall k | 0 < k < |migrations| - v
        ensures migrations[v + k](schemas[k]) == Success(schemas[k + 1])
      {
        assert migrations[v + 1 + (k - 1)](rest[k - 1]) == Success(rest[k]);
      }
    }
  }

  /** A chain that starts at the database's schema is run, unless a version row is in the way of the first migration. */
  lemma {:induction false} ChainIsRun<S>(migrations: seq<Migration<S>>, v: nat, db: Db<S>, schemas: seq<S>)
    requires Chain(migrations, v, schemas) && schemas[0] == db.schema
    ensures var ran := RunFrom(migrations, v + 1, db);
            && (ran.Failure? <==> v == 0 && migrations != [] && db.version.Some?)
            && (ran.Success? ==> ran.value.schema == schemas[|schemas| - 1])
    decreases |migrations| - v
  {
    if v < |migrations| {
      assert migrations[v + 0](schemas[0]) == Success(schemas[1]);
      if !(v == 0 && db.version.Some?) {
        forall k | 0 <= k < |migrations| - (v + 1)
          ensures migrations[v + 1 + k](schemas[1..][k]) == Success(schemas[1..][k + 1])
        {
          assert migrations[v + (k + 1)](schemas[k + 1]) == Success(schemas[k + 2]);
        }
        ChainIsRun(migrations, v + 1, RunOne(migrations, v + 1, db).value, schemas[1..]);
      }
    }
  }

  /**
   Main result on what is run: the migrations from a version on succeed with a schema exactly when,
   each carried out on what the one before it made, they lead to it, and no version row is in the
   way of the first.
   */
  lemma RunLeads<S(!new)>(migrations: seq<Migration<S>>, v: nat, db: Db<S>, schema: S)
    requires v <= |migrations|
    ensures var ran := RunFrom(migrations, v + 1, db);
            ran.Success? && ran.value.schema == schema <==>
            !(v == 0 && migrations != [] && db.version.Some?) && Leads(migrations, v, db.schema, schema)
  {
    if RunFrom(migrations, v + 1, db).Success? {
      var schemas := RunIsChain(migrations, v, db);
      ChainIsRun(migrations, v, db, schemas);
    }
    forall schemas | Chain(migrations, v, schemas) && schemas[0] == db.schema && schemas[|schemas| - 1] == schema
      ensures !(v == 0 && migrations != [] && db.version.Some?) ==>
                RunFrom(migrations, v + 1, db).Success? && RunFrom(migrations, v + 1, db).value.schema == schema
    {
      ChainIsRun(migrations, v, db, schemas);
    }
  }

  /** What a start without faults does, said of the migrations alone. */
  lemma StartLeads<S(!new)>(migrations: seq<Migration<S>>, db: Db<S>)
    ensures Start(migrations, db).Success? <==>
            && VersionOf(db) <= |migrations|
            && !(VersionOf(db) == 0 && migrations != [] && db.version.Some?)
            && exists schema :: Leads(migrations, VersionOf(db), db.schema, schema)
    ensures Start(migrations, db).Success? ==>
              Leads(migrations, VersionOf(db), db.schema, Start(migrations, db).value.schema)
  {
    var v := VersionOf(db);
    if v <= |migrations| {
      var ran := RunFrom(migrations, v + 1, db);
      if ran.Success? {
        RunLeads(migrations, v, db, ran.value.schema);
      }
      forall schema | Leads(migrations, v, db.schema, schema) && !(v == 0 && migrations != [] && db.version.Some?)
        ensures ran.Success?
      {
        RunLeads(migrations, v, db, schema);
      }
    }
  }

  // ---------- the method ----------

  class SchemaStore<!S(!new)> {
    const migrations: seq<Migration<S>>
    const sqlite: bool // the one driver that needs foreign keys switched on
    const calls: Calls
    var db: Db<S>

    constructor (migrations: seq<Migration<S>>, sqlite: bool, calls: Calls, db: Db<S>)
      ensures this.migrations == migrations && this.sqlite == sqlite && this.calls == calls && this.db == db
    {
      this.migrations, this.sqlite, this.calls, this.db := migrations, sqlite, calls, db;
    }

    /** The number of the call that reads the version. */
    ghost function ReadAt(clock: nat): nat {
      clock + if sqlite then 1 else 0
    }

    /** The version as it is read: an error counts as 0. */
    ghost function Seen(clock: nat, db: Db<S>): nat {
      if calls.fails(ReadAt(clock)) then 0 else VersionOf(db)
    }

    /** The number of the call that updates the version row, after Beginx and the migrations; Commit follows. */
    ghost function UpdateAt(clock: nat, db: Db<S>): nat
      requires Seen(clock, db) <= |migrations|
    {
      ReadAt(clock) + 2 + |migrations| - Seen(clock, db)
    }

    /**
     Everything that must go well does: all calls but those whose errors are ignored, and the
     migrations themselves.
     */
    ghost predicate Succeeds(clock: nat, db: Db<S>) {
      && Seen(clock, db) <= |migrations|
      && (sqlite ==> !calls.fails(clock))
      && Goes(ReadAt(clock) + 1, UpdateAt(clock, db))
      && RunFrom(migrations, Seen(clock, db) + 1, db).Success?
    }

    /** The loop over the migrations from `version` on: the database they make, or none when one fails. */
    method Migrate(version: nat) returns (work: Option<Db<S>>)
      requires calls.Valid() && version <= |migrations|
      modifies calls
      ensures calls.Valid()
      ensures var ran := RunFrom(migrations, version + 1, db);
              var until := old(calls.clock) + |migrations| - version;
              && (work.Some? <==> ran.Success? && Faultless(calls.fails, old(calls.clock), until))
              && (work.Some? ==> work == Some(ran.value) && calls.clock == until)
              && calls.failures >= old(calls.failures) && (work.Some? ==> calls.failures == old(calls.failures))
              && (work.None? && calls.failures == old(calls.failures) ==> ran.Failure?)
    {
      var done, i := db, version + 1;
      while i <= |migrations|
        invariant version + 1 <= i <= |migrations| + 1
        invariant calls.Valid() && calls.clock == old(calls.clock) + i - version - 1
        invariant Faultless(calls.fails, old(calls.clock), calls.clock) && calls.failures == old(calls.failures)
        invariant RunFrom(migrations, version + 1, db) == RunFrom(migrations, i, done)
      {
        var failed := calls.Call();
        if failed {
          return None;
        }
        var ran := RunOne(migrations, i, done);
        if ran.Failure? {
          return None;
        }
        done := ran.value;
        i := i + 1;
      }
      return Some(done);
    }

    /** The transaction: Beginx, the migrations, the UPDATE whose error is ignored, Commit. */
    method Upgrade(version: nat) returns (ok: bool)
      requires calls.Valid() && version <= |migrations|
      modifies this`db, calls
      ensures calls.Valid() && calls.failures >= old(calls.failures)
      ensures var ran := RunFrom(migrations, version + 1, old(db));
              var update := old(calls.clock) + 1 + |migrations| - version;
              && (ok <==> Goes(old(calls.clock), update) && ran.Success?)
              && (!ok ==> db == old(db))
              && (ok ==> db == if calls.fails(update) then ran.value else Stamp(ran.value, |migrations|))
              && (calls.failures == old(calls.failures) ==> (ok <==> ran.Success?))
              && (ok && calls.failures == old(calls.failures) ==> !calls.fails(update))
    {
      var failed := calls.Call();
      if failed {
        return false;
      }
      var migrated := Migrate(version);
      if migrated.None? {
        return false;
      }
      var work := migrated.value;
      failed := calls.Call();
      if !failed {
        work := Stamp(work, |migrations|);
      }
      failed := calls.Call();
      if failed {
        return false;
      }
      db := work;
      ok := true;
    }

    /** The transaction's calls, from number `begin`, go well; the error of number `update` is ignored. */
    ghost predicate Goes(begin: nat, update: nat) {
      !calls.fails(begin) && Faultless(calls.fails, begin + 1, update) && !calls.fails(update + 1)
    }

    /**
     initSchema. It succeeds exactly when every error that is noticed stays away. An error while
     reading the version counts as version 0, and where there is a version the first migration then
     refuses to run. An error of the final UPDATE is not noticed.
     */
    method InitSchema() returns (ok: bool)
      requires calls.Valid()
      modifies this`db, calls
      ensures calls.Valid()
      ensures ok <==> Succeeds(old(calls.clock), old(db))
      ensures !ok ==> db == old(db)
      ensures ok ==>
                var ran := RunFrom(migrations, Seen(old(calls.clock), old(db)) + 1, old(db)).value;
                db == if calls.fails(UpdateAt(old(calls.clock), old(db))) then ran else Stamp(ran, |migrations|)
      ensures calls.failures == old(calls.failures) ==>
                (ok <==> Start(migrations, old(db)).Success?) && (ok ==> Start(migrations, old(db)) == Success(db))
      ensures ok ==> Leads(migrations, Seen(old(calls.clock), old(db)), old(db).schema, db.schema)
      ensures calls.fails(ReadAt(old(calls.clock))) && old(db).version.Some? && migrations != [] ==> !ok
    {
      var failed;
      if sqlite {
        failed := calls.Call();
        if failed {
          return false;
        }
      }
      var version := VersionOf(db);
      failed := calls.Call();
      if failed {
        version := 0;
      }
      if version > |migrations| {
        return false;
      }
      ghost var before := db;
      ok := Upgrade(version);
      StartLeads(migrations, before);
      if ok {
        RunLeads(migrations, version, before, db.schema);
      }
    }
  }

  // ---------- what it means ----------

  lemma {:induction false} RunInTwoParts<S>(migrations: seq<Migration<S>>, w: nat, i: nat, db: Db<S>)
    requires 1 <= i <= w + 1 <= |migrations| + 1
    ensures var part := RunFrom(migrations[..w], i, db);
            RunFrom(migrations, i, db) == if part.Failure? then Failure else RunFrom(migrations, w + 1, part.value)
    decreases w - i
  {
    if i <= w {
      var one := RunOne(migrations, i, db);
      assert migrations[..w][i - 1] == migrations[i - 1];
      if one.Success? {
        RunInTwoParts(migrations, w, i + 1, one.value);
      }
    }
  }

  /** The version row is made by the first migration and left alone by the others. */
  lemma {:induction false} RunKeepsVersion<S>(migrations: seq<Migration<S>>, i: nat, db: Db<S>)
    requires 1 <= i && RunFrom(migrations, i, db).Success?
    ensures RunFrom(migrations, i, db).value.version == if i == 1 <= |migrations| then Some(1) else db.version
    decreases |migrations| - i
  {
    if i <= |migrations| {
      RunKeepsVersion(migrations, i + 1, RunOne(migrations, i, db).value);
    }
  }

  /** From number 2 on, migrations do not depend on the version row. */
  lemma {:induction false} RunIgnoresStamp<S>(migrations: seq<Migration<S>>, i: nat, db: Db<S>, v: nat)
    requires 2 <= i
    ensures var ran := RunFrom(migrations, i, db);
            RunFrom(migrations, i, Stamp(db, v)) == if ran.Failure? then Failure else Success(Stamp(ran.value, v))
    decreases |migrations| - i
  {
    if i <= |migrations| {
      var one := RunOne(migrations, i, db);
      if one.Success? {
        RunIgnoresStamp(migrations, i + 1, one.value, v);
      }
    }
  }

  /**
   Main result: starting an old release first and the current one afterwards gives what starting the
   current one alone gives, for every database the old release accepts and however many migrations
   were added since.
   */
  lemma PathIndependence<S>(migrations: seq<Migration<S>>, w: nat, db: Db<S>)
    requires VersionOf(db) <= w <= |migrations|
    ensures var older := Start(migrations[..w], db);
            Start(migrations, db) == if older.Failure? then Failure else Start(migrations, older.value)
  {
    var i := VersionOf(db) + 1;
    var part := RunFrom(migrations[..w], i, db);
    RunInTwoParts(migrations, w, i, db);
    if part.Success? {
      RunKeepsVersion(migrations[..w], i, db);
      if w > 0 {
        assert VersionOf(Stamp(part.value, w)) == w;
        RunIgnoresStamp(migrations, w + 1, part.value, w);
      }
    }
  }

  /** A second start changes nothing. */
  lemma SecondStartIsNoOp<S>(migrations: seq<Migration<S>>, db: Db<S>)
    requires Start(migrations, db).Success?
    ensures Start(migrations, Start(migrations, db).value) == Start(migrations, db)
  {
    assert migrations[..|migrations|] == migrations;
    PathIndependence(migrations, |migrations|, db);
  }

  /** After a start the version is that of the release. */
  lemma StartSetsVersion<S>(migrations: seq<Migration<S>>, db: Db<S>)
    requires Start(migrations, db).Success?
    ensures VersionOf(Start(migrations, db).value) == |migrations|
  {
    RunKeepsVersion(migrations, VersionOf(db) + 1, db);
  }

  /**
   When the final UPDATE is lost, the version left behind is right exactly when there was nothing to
   run, or when the first migration, which writes its own version, was the only one.
   */
  lemma LostUpdate<S>(migrations: seq<Migration<S>>, db: Db<S>)
    requires VersionOf(db) <= |migrations| && RunFrom(migrations, VersionOf(db) + 1, db).Success?
    ensures VersionOf(RunFrom(migrations, VersionOf(db) + 1, db).value) == |migrations| <==>
            VersionOf(db) == |migrations| || (VersionOf(db) == 0 && |migrations| == 1)
  {
    RunKeepsVersion(migrations, VersionOf(db) + 1, db);
  }

  /** With a single migration a lost UPDATE does no harm: the database is as if it had been carried out. */
  lemma LostUpdateIsHarmless<S>(migration: Migration<S>, db: Db<S>)
    requires VersionOf(db) <= 1 && RunFrom([migration], VersionOf(db) + 1, db).Success?
    ensures Start([migration], db) == RunFrom([migration], VersionOf(db) + 1, db)
  {
    RunKeepsVersion([migration], VersionOf(db) + 1, db);
  }
}
