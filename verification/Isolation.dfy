/**
 Tenants do not interfere: whatever other tenants do, a tenant's rows and replies are those of
 the run of its own operations alone.
 */
module Isolation {
  import opened Wrappers
  import opened Objects
  import opened Validation
  import Rows
  import opened Tables
  import opened Operations
  import opened Transactions
  import opened Runs

  /** The events of one tenant. */
  function Only(events: seq<Event>, tenant: string): seq<Event> {
    if events == [] then []
    else
      var n := |events| - 1;
      Only(events[..n], tenant) + if events[n].op.tenant == tenant then [events[n]] else []
  }

  /** The replies to the events of one tenant. */
  function RepliesTo(events: seq<Event>, replies: seq<Reply>, tenant: string): seq<Reply>
    requires |replies| == |events|
  {
    if events == [] then []
    else
      var n := |events| - 1;
      RepliesTo(events[..n], replies[..n], tenant) + if events[n].op.tenant == tenant then [replies[n]] else []
  }

  ghost predicate SameFor(s: Store, u: Store, tenant: string) {
    forall k: Key :: k.tenant == tenant ==> (k in s <==> k in u) && (k in s ==> s[k] == u[k])
  }

  /** The tables agree on every row of `tenant`. */
  ghost predicate SameRows(t: Tables, u: Tables, tenant: string) {
    && (forall k: Key :: k.tenant == tenant ==>
          (k in t.main <==> k in u.main) && (k in t.main ==> t.main[k] == u.main[k]))
    && (forall r: ChildRow :: r.key.tenant == tenant ==> t.child[r] == u.child[r])
  }

  lemma OwnBody(config: Config, s: Store, u: Store, op: Op)
    requires SameFor(s, u, op.tenant) && (op.Create? || op.Update?)
    ensures Apply(config, s, op).1 == Apply(config, u, op).1
    ensures SameFor(Apply(config, s, op).0, Apply(config, u, op).0, op.tenant)
  {
    if KindNamed(op.resourceType).Some? {
      ApplyBody(config, s, op);
      ApplyBody(config, u, op);
    }
  }

  lemma OwnStep(config: Config, s: Store, u: Store, e: Event)
    requires SameFor(s, u, e.op.tenant)
    ensures StepStore(config, s, e).1 == StepStore(config, u, e).1
    ensures SameFor(StepStore(config, s, e).0, StepStore(config, u, e).0, e.op.tenant)
  {
    if !e.faulted && (e.op.Create? || e.op.Update?) {
      OwnBody(config, s, u, e.op);
    }
  }

  lemma OtherBody(config: Config, s: Store, op: Op, tenant: string)
    requires op.tenant != tenant && (op.Create? || op.Update?)
    ensures SameFor(Apply(config, s, op).0, s, tenant)
  {
    if KindNamed(op.resourceType).Some? {
      ApplyBody(config, s, op);
    }
  }

  lemma OtherStep(config: Config, s: Store, e: Event, tenant: string)
    requires e.op.tenant != tenant
    ensures SameFor(StepStore(config, s, e).0, s, tenant)
  {
    if !e.faulted && (e.op.Create? || e.op.Update?) {
      OtherBody(config, s, e.op, tenant);
    }
  }

  lemma {:induction false} StoreNoninterference(config: Config, events: seq<Event>, tenant: string)
    ensures var (s, replies) := RunStore(config, events);
            var (u, own) := RunStore(config, Only(events, tenant));
            SameFor(s, u, tenant) && |replies| == |events| && RepliesTo(events, replies, tenant) == own
    decreases |events|
  {
    if events != [] {
      var n := |events| - 1;
      var before, e := events[..n], events[n];
      StoreNoninterference(config, before, tenant);
      var (s, replies) := RunStore(config, before);
      var (u, own) := RunStore(config, Only(before, tenant));
      assert RunStore(config, events).1[..n] == replies;
      if e.op.tenant == tenant {
        OwnStep(config, s, u, e);
        assert Only(events, tenant)[..|Only(before, tenant)|] == Only(before, tenant);
      } else {
        OtherStep(config, s, e, tenant);
        assert Only(events, tenant) == Only(before, tenant);
      }
    }
  }

  lemma SameStoreSameRows(t: Tables, u: Tables, tenant: string)
    requires WellFormed(t) && WellFormed(u) && SameFor(Abs(t), Abs(u), tenant)
    ensures SameRows(t, u, tenant)
  {
    forall k: Key | k.tenant == tenant
      ensures (k in t.main <==> k in u.main) && (k in t.main ==> t.main[k] == u.main[k])
    {
      assert k in Abs(t) ==> Abs(t)[k].cols == Abs(u)[k].cols;
    }
    forall r: ChildRow | r.key.tenant == tenant
      ensures t.child[r] == u.child[r]
    {
      if r.key in t.main {
        assert Abs(t)[r.key].items[r.item] == Abs(u)[r.key].items[r.item];
      } else {
        assert r !in t.child && r !in u.child;
      }
    }
  }

  /**
   Main result: after any run, a tenant's rows in all thirteen tables, and the replies it has had,
   are what they would be had the other tenants done nothing.
   */
  lemma Noninterference(config: Config, events: seq<Event>, tenant: string)
    ensures var (t, replies) := Run(config, events);
            var (u, own) := Run(config, Only(events, tenant));
            SameRows(t, u, tenant) && |replies| == |events| && RepliesTo(events, replies, tenant) == own
  {
    RunRefines(config, events);
    RunRefines(config, Only(events, tenant));
    StoreNoninterference(config, events, tenant);
    SameStoreSameRows(Run(config, events).0, Run(config, Only(events, tenant)).0, tenant);
  }
}
