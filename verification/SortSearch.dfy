/** Go's `sort.Search`: binary search for the first index at which a monotone condition holds. */
module SortSearch {

  ghost predicate Monotone(n: nat, f: nat -> bool) {
    forall i, j :: 0 <= i <= j < n && f(i) ==> f(j)
  }

  method Search(n: nat, f: nat -> bool) returns (index: nat)
    requires Monotone(n, f)
    ensures index <= n
    ensures forall k :: 0 <= k < index ==> !f(k)
    ensures forall k :: index <= k < n ==> f(k)
  {
    var i, j := 0, n;
    while i < j
      invariant 0 <= i <= j <= n
      invariant forall k :: 0 <= k < i ==> !f(k)
      invariant forall k :: j <= k < n ==> f(k)
    {
      var h := (i + j) / 2;
      if !f(h) {
        i := h + 1;
      } else {
        j := h;
      }
    }
    return i;
  }

  // ----- insertion into a sorted sequence -----

  ghost predicate Sorted(q: seq<nat>) {
    forall i, j :: 0 <= i <= j < |q| ==> q[i] <= q[j]
  }

  /** The place of x in a sorted sequence: behind everything smaller. */
  function Place(q: seq<nat>, x: nat): (i: nat)
    ensures i <= |q| && (forall k :: 0 <= k < i ==> q[k] < x) && (i < |q| ==> q[i] >= x)
  {
    if q == [] || q[0] >= x then 0 else 1 + Place(q[1..], x)
  }

  function Insert(q: seq<nat>, x: nat): seq<nat> {
    q[..Place(q, x)] + [x] + q[Place(q, x)..]
  }

  lemma InsertSorted(q: seq<nat>, x: nat)
    requires Sorted(q)
    ensures Sorted(Insert(q, x))
    ensures multiset(Insert(q, x)) == multiset(q) + multiset{x}
    ensures |Insert(q, x)| == |q| + 1
  {
    var i := Place(q, x);
    assert q == q[..i] + q[i..];
    if i < |q| {
      assert forall k :: i <= k < |q| ==> q[i] <= q[k];
    }
  }

  /** The insertion of the source, which finds the place by binary search. */
  method InsertBySearch(q: seq<nat>, x: nat) returns (r: seq<nat>)
    requires Sorted(q)
    ensures r == Insert(q, x)
  {
    var f := (i: nat) => i < |q| && q[i] >= x;
    var index := Search(|q|, f);
    assert index < |q| ==> f(index);
    assert Place(q, x) < index ==> !f(Place(q, x));
    return q[..index] + [x] + q[index..];
  }

  function InsertAll(q: seq<nat>, xs: seq<nat>): seq<nat> {
    if xs == [] then q else Insert(InsertAll(q, xs[..|xs| - 1]), xs[|xs| - 1])
  }

  lemma {:induction false} InsertAllSorted(q: seq<nat>, xs: seq<nat>)
    requires Sorted(q)
    ensures Sorted(InsertAll(q, xs))
    ensures multiset(InsertAll(q, xs)) == multiset(q) + multiset(xs)
    ensures |InsertAll(q, xs)| == |q| + |xs|
  {
    if xs != [] {
      InsertAllSorted(q, xs[..|xs| - 1]);
      InsertSorted(InsertAll(q, xs[..|xs| - 1]), xs[|xs| - 1]);
      assert xs == xs[..|xs| - 1] + [xs[|xs| - 1]];
    }
  }
}
