/** Stock result types, and the few facts about sequences and multisets the other modules share. */
module Wrappers {

  datatype Option<+T> = None | Some(value: T)

  /** The outcome of a Go function returning `(value, error)`. The error text is not modelled. */
  datatype Result<+T> = Success(value: T) | Failure {
    predicate IsFailure() {
      Failure?
    }

    function PropagateFailure<U>(): Result<U>
      requires Failure?
    {
      Failure
    }

    function Extract(): T
      requires Success?
    {
      value
    }
  }

  /** The elements of a Go slice, where `None` is the nil slice. */
  function Elems<T>(list: Option<seq<T>>): seq<T> {
    if list.Some? then list.value else []
  }

  function Map<A, B>(f: A -> B, s: seq<A>): (r: seq<B>)
    ensures |r| == |s|
    ensures forall i :: 0 <= i < |s| ==> r[i] == f(s[i])
  {
    seq(|s|, i requires 0 <= i < |s| => f(s[i]))
  }

  /** Counting through a function that is injective where it matters. */
  lemma {:induction false} MapCount<A, B>(f: A -> B, s: seq<A>, e: A)
    requires forall x :: x in s && f(x) == f(e) ==> x == e
    ensures multiset(Map(f, s))[f(e)] == multiset(s)[e]
  {
    if s != [] {
      var n := |s| - 1;
      MapCount(f, s[..n], e);
      assert s == s[..n] + [s[n]];
      assert Map(f, s) == Map(f, s[..n]) + [f(s[n])];
    }
  }

  /** The part of a multiset whose elements satisfy `p`. */
  ghost function Filter<T(!new)>(m: multiset<T>, p: T -> bool): (r: multiset<T>)
    ensures forall x :: r[x] == if p(x) then m[x] else 0
    decreases |m|
  {
    if m == multiset{} then multiset{}
    else
      var x :| x in m;
      var rest := Filter(m[x := 0], p);
      if p(x) then rest[x := m[x]] else rest
  }

  lemma SameMaps<K, V>(a: map<K, V>, b: map<K, V>)
    requires a.Keys == b.Keys && forall k :: k in a ==> a[k] == b[k]
    ensures a == b
  {
  }
}
