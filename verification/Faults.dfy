/**
 Faults: calls to a database that fail for reasons of their own. The calls are numbered in the
 order in which they are made, and a schedule says which of them fail.
 */
module Faults {

  type Schedule = nat -> bool

  /** None of the calls from number `from` up to `until` fails. */
  ghost predicate Faultless(fails: Schedule, from: nat, until: nat) {
    forall n: nat :: from <= n < until ==> !fails(n)
  }

  /** How many of the first `n` calls fail. */
  ghost function FailuresIn(fails: Schedule, n: nat): nat {
    if n == 0 then 0 else FailuresIn(fails, n - 1) + if fails(n - 1) then 1 else 0
  }

  /** The calls made so far, and how many of them failed. */
  class Calls {
    const fails: Schedule
    var clock: nat
    ghost var failures: nat

    ghost predicate Valid()
      reads this
    {
      failures == FailuresIn(fails, clock)
    }

    constructor (fails: Schedule)
      ensures Valid() && this.fails == fails && clock == 0
    {
      this.fails, clock, failures := fails, 0, 0;
    }

    /** One more call. */
    method Call() returns (failed: bool)
      requires Valid()
      modifies this
      ensures Valid() && clock == old(clock) + 1
      ensures failed <==> fails(old(clock))
      ensures failures == old(failures) + if failed then 1 else 0
    {
      failed := fails(clock);
      clock := clock + 1;
      if failed {
        failures := failures + 1;
      }
    }
  }

  /** The count of failures stays the same exactly while no call fails. */
  lemma {:induction false} SameFailures(fails: Schedule, from: nat, until: nat)
    requires from <= until
    ensures FailuresIn(fails, from) <= FailuresIn(fails, until)
    ensures FailuresIn(fails, from) == FailuresIn(fails, until) <==> Faultless(fails, from, until)
  {
    if from < until {
      SameFailures(fails, from, until - 1);
      assert Faultless(fails, from, until) <==> Faultless(fails, from, until - 1) && !fails(until - 1);
    }
  }
}
