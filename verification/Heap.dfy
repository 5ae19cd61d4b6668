/**
  The binary heap of Go's container/heap on a sequence: sift up, sift down, Push, Pop, Remove, Fix and Init, each with
  the same comparisons and swaps, and what they promise: the heap order, the elements, and that the first is the best.
  */
module Heap {

  function Swap<T>(h: seq<T>, i: nat, j: nat): seq<T>
    requires i < |h| && j < |h|
  {
    h[i := h[j]][j := h[i]]
  }

  function Parent(k: nat): nat {
    if k == 0 then 0 else (k - 1) / 2
  }

  function Up<T>(h: seq<T>, j: nat, less: (T, T) -> bool): (r: seq<T>)
    requires j < |h|
    ensures |r| == |h|
    decreases j
  {
    if j == 0 || !less(h[j], h[Parent(j)]) then h
    else Up(Swap(h, j, Parent(j)), Parent(j), less)
  }

  /** The child that sift down compares with. */
  function Child<T>(h: seq<T>, i: nat, n: nat, less: (T, T) -> bool): (c: nat)
    requires 2 * i + 1 < n <= |h|
    ensures i < c < n && Parent(c) == i
  {
    if 2 * i + 2 < n && less(h[2 * i + 2], h[2 * i + 1]) then 2 * i + 2 else 2 * i + 1
  }

  /** Whether sift down moves the element at i at all. */
  predicate Sinks<T>(h: seq<T>, i: nat, n: nat, less: (T, T) -> bool)
    requires i < n <= |h|
  {
    2 * i + 1 < n && less(h[Child(h, i, n, less)], h[i])
  }

  function Down<T>(h: seq<T>, i: nat, n: nat, less: (T, T) -> bool): (r: seq<T>)
    requires i < n <= |h|
    ensures |r| == |h|
    decreases n - i
  {
    if Sinks(h, i, n, less) then
      var c := Child(h, i, n, less);
      Down(Swap(h, i, c), c, n, less)
    else h
  }

  /** Restores the order after the element at i changed. */
  function Settle<T>(h: seq<T>, i: nat, n: nat, less: (T, T) -> bool): (r: seq<T>)
    requires i < n <= |h|
    ensures |r| == |h|
  {
    if Sinks(h, i, n, less) then Down(h, i, n, less) else Up(h, i, less)
  }

  function Push<T>(h: seq<T>, x: T, less: (T, T) -> bool): seq<T> {
    Up(h + [x], |h|, less)
  }

  /** The heap with the element to be popped moved to the end. */
  function PopLast<T>(h: seq<T>, less: (T, T) -> bool): (r: seq<T>)
    requires |h| > 0
    ensures |r| == |h|
  {
    var n := |h| - 1;
    if n == 0 then h else Down(Swap(h, 0, n), 0, n, less)
  }

  function RemoveLast<T>(h: seq<T>, i: nat, less: (T, T) -> bool): (r: seq<T>)
    requires i < |h|
    ensures |r| == |h|
  {
    var n := |h| - 1;
    if i == n then h else Settle(Swap(h, i, n), i, n, less)
  }

  function Fix<T>(h: seq<T>, i: nat, less: (T, T) -> bool): seq<T>
    requires i < |h|
  {
    Settle(h, i, |h|, less)
  }

  /** Init from index k - 1 down to 0. */
  function InitFrom<T>(h: seq<T>, k: nat, less: (T, T) -> bool): (r: seq<T>)
    requires k <= |h|
    ensures |r| == |h|
    decreases k
  {
    if k == 0 then h else InitFrom(Down(h, k - 1, |h|, less), k - 1, less)
  }

  function Init<T>(h: seq<T>, less: (T, T) -> bool): seq<T> {
    InitFrom(h, |h| / 2, less)
  }

  // ----- the order -----

  /** The comparison is the descending order of a rank, on the elements present. */
  ghost predicate Agrees<T(!new)>(h: seq<T>, less: (T, T) -> bool, rank: T -> int) {
    forall a, b :: a in h && b in h ==> (less(a, b) <==> rank(a) > rank(b))
  }

  /** Parents rank at least as high as their children, for the first n elements and parents from lo on. */
  ghost predicate Ordered<T>(h: seq<T>, n: nat, lo: nat, rank: T -> int)
    requires n <= |h|
  {
    forall k :: 1 <= k < n && Parent(k) >= lo ==> rank(h[Parent(k)]) >= rank(h[k])
  }

  /** As Ordered, except that the element at i may be out of place against its parent and its children. */
  ghost predicate OrderedBut<T>(h: seq<T>, n: nat, lo: nat, i: nat, rank: T -> int)
    requires i < n <= |h|
  {
    && (forall k :: 1 <= k < n && Parent(k) >= lo && Parent(k) != i && k != i ==> rank(h[Parent(k)]) >= rank(h[k]))
    && (forall k :: 1 <= k < n && Parent(k) == i && i > 0 && Parent(i) >= lo ==> rank(h[Parent(i)]) >= rank(h[k]))
  }

  /** The element at i is in place against its parent. */
  ghost predicate BelowParent<T>(h: seq<T>, lo: nat, i: nat, rank: T -> int)
    requires i < |h|
  {
    i > 0 && Parent(i) >= lo ==> rank(h[Parent(i)]) >= rank(h[i])
  }

  ghost predicate AboveChildren<T>(h: seq<T>, n: nat, i: nat, rank: T -> int)
    requires i < n <= |h|
  {
    forall k :: 1 <= k < n && Parent(k) == i ==> rank(h[i]) >= rank(h[k])
  }

  lemma SwapSame<T>(h: seq<T>, i: nat, j: nat)
    requires i < |h| && j < |h|
    ensures multiset(Swap(h, i, j)) == multiset(h)
    ensures forall x :: x in Swap(h, i, j) <==> x in h
  {
    var s := Swap(h, i, j);
    assert forall x :: x in s <==> x in multiset(s);
    assert forall x :: x in h <==> x in multiset(h);
  }

  lemma SwapAgrees<T(!new)>(h: seq<T>, i: nat, j: nat, less: (T, T) -> bool, rank: T -> int)
    requires i < |h| && j < |h| && Agrees(h, less, rank)
    ensures Agrees(Swap(h, i, j), less, rank)
  {
    hide Swap;
    SwapSame(h, i, j);
  }

  // ----- sift up -----

  lemma UpStep<T>(h: seq<T>, n: nat, j: nat, rank: T -> int)
    requires 0 < j < n <= |h| && OrderedBut(h, n, 0, j, rank) && AboveChildren(h, n, j, rank)
    requires rank(h[j]) > rank(h[Parent(j)])
    ensures OrderedBut(Swap(h, j, Parent(j)), n, 0, Parent(j), rank)
    ensures AboveChildren(Swap(h, j, Parent(j)), n, Parent(j), rank)
  {
  }

  lemma InPlace<T>(h: seq<T>, n: nat, lo: nat, j: nat, rank: T -> int)
    requires j < n <= |h| && OrderedBut(h, n, lo, j, rank) && AboveChildren(h, n, j, rank)
    requires BelowParent(h, lo, j, rank)
    ensures Ordered(h, n, lo, rank)
  {
  }

  lemma {:induction false} UpOrdered<T(!new)>(h: seq<T>, n: nat, j: nat, less: (T, T) -> bool, rank: T -> int)
    requires j < n <= |h| && Agrees(h, less, rank)
    requires OrderedBut(h, n, 0, j, rank) && AboveChildren(h, n, j, rank)
    ensures Ordered(Up(h, j, less), n, 0, rank)
    decreases j
  {
    hide Swap, OrderedBut, AboveChildren, Ordered, Agrees;
    assert j > 0 ==> (less(h[j], h[Parent(j)]) <==> rank(h[j]) > rank(h[Parent(j)])) by {
      AgreesAt(h, less, rank, j, Parent(j));
    }
    if j == 0 || !less(h[j], h[Parent(j)]) {
      InPlace(h, n, 0, j, rank);
    } else {
      UpStep(h, n, j, rank);
      SwapAgrees(h, j, Parent(j), less, rank);
      SwapLength(h, j, Parent(j));
      UpOrdered(Swap(h, j, Parent(j)), n, Parent(j), less, rank);
    }
  }

  lemma SwapLength<T>(h: seq<T>, i: nat, j: nat)
    requires i < |h| && j < |h|
    ensures |Swap(h, i, j)| == |h|
  {
  }

  lemma AgreesAt<T(!new)>(h: seq<T>, less: (T, T) -> bool, rank: T -> int, i: nat, j: nat)
    requires Agrees(h, less, rank) && i < |h| && j < |h|
    ensures less(h[i], h[j]) <==> rank(h[i]) > rank(h[j])
  {
  }

  /** Sift up permutes the first j + 1 elements. */
  lemma {:induction false} UpSame<T>(h: seq<T>, j: nat, less: (T, T) -> bool)
    requires j < |h|
    ensures multiset(Up(h, j, less)) == multiset(h)
    ensures forall k :: j < k < |h| ==> Up(h, j, less)[k] == h[k]
    decreases j
  {
    if j > 0 && less(h[j], h[Parent(j)]) {
      SwapSame(h, j, Parent(j));
      UpSame(Swap(h, j, Parent(j)), Parent(j), less);
    }
  }

  // ----- sift down -----

  lemma DownStep<T>(h: seq<T>, n: nat, lo: nat, i: nat, c: nat, rank: T -> int)
    requires i < c < n <= |h| && Parent(c) == i && lo <= i
    requires OrderedBut(h, n, lo, i, rank)
    requires rank(h[c]) > rank(h[i])
    requires forall k :: 1 <= k < n && Parent(k) == i ==> rank(h[c]) >= rank(h[k])
    ensures OrderedBut(Swap(h, i, c), n, lo, c, rank)
    ensures BelowParent(Swap(h, i, c), lo, c, rank)
    ensures BelowParent(Swap(h, i, c), lo, i, rank)
  {
  }

  lemma ChildBest<T(!new)>(h: seq<T>, i: nat, n: nat, less: (T, T) -> bool, rank: T -> int)
    requires i < n <= |h| && Agrees(h, less, rank)
    ensures 2 * i + 1 < n ==>
              forall k :: 1 <= k < n && Parent(k) == i ==> rank(h[Child(h, i, n, less)]) >= rank(h[k])
    ensures Sinks(h, i, n, less) <==> !AboveChildren(h, n, i, rank)
  {
    if 2 * i + 1 < n {
      AgreesAt(h, less, rank, Child(h, i, n, less), i);
      if 2 * i + 2 < n {
        AgreesAt(h, less, rank, 2 * i + 2, 2 * i + 1);
      }
      assert Parent(2 * i + 1) == i;
    }
  }

  /** Sinking restores the order below; at the top it never breaks it. */
  lemma {:induction false} DownOrdered<T(!new)>(h: seq<T>, n: nat, lo: nat, i: nat, less: (T, T) -> bool, rank: T -> int)
    requires lo <= i < n <= |h| && Agrees(h, less, rank) && OrderedBut(h, n, lo, i, rank)
    requires BelowParent(h, lo, i, rank) || Sinks(h, i, n, less)
    ensures Ordered(Down(h, i, n, less), n, lo, rank)
    decreases n - i
  {
    hide Swap, OrderedBut, AboveChildren, Ordered, Agrees, BelowParent, Sinks, Child;
    ChildBest(h, i, n, less, rank);
    if Sinks(h, i, n, less) {
      SinksHasChild(h, i, n, less);
      var c := Child(h, i, n, less);
      assert rank(h[c]) > rank(h[i]) by { AgreesAt(h, less, rank, c, i); }
      DownStep(h, n, lo, i, c, rank);
      SwapAgrees(h, i, c, less, rank);
      SwapLength(h, i, c);
      DownOrdered(Swap(h, i, c), n, lo, c, less, rank);
    } else {
      InPlace(h, n, lo, i, rank);
    }
  }

  lemma SinksHasChild<T>(h: seq<T>, i: nat, n: nat, less: (T, T) -> bool)
    requires i < n <= |h| && Sinks(h, i, n, less)
    ensures 2 * i + 1 < n && less(h[Child(h, i, n, less)], h[i])
  {
  }

  /** Sift down permutes the elements from i to n. */
  lemma {:induction false} DownSame<T>(h: seq<T>, i: nat, n: nat, less: (T, T) -> bool)
    requires i < n <= |h|
    ensures multiset(Down(h, i, n, less)) == multiset(h)
    ensures forall k :: n <= k < |h| ==> Down(h, i, n, less)[k] == h[k]
    decreases n - i
  {
    if Sinks(h, i, n, less) {
      var c := Child(h, i, n, less);
      SwapSame(h, i, c);
      DownSame(Swap(h, i, c), c, n, less);
    }
  }

  lemma SettleSame<T>(h: seq<T>, i: nat, n: nat, less: (T, T) -> bool)
    requires i < n <= |h|
    ensures multiset(Settle(h, i, n, less)) == multiset(h)
    ensures forall k :: n <= k < |h| ==> Settle(h, i, n, less)[k] == h[k]
  {
    hide Up, Down, Sinks;
    UpSame(h, i, less);
    DownSame(h, i, n, less);
  }

  lemma SettleOrdered<T(!new)>(h: seq<T>, i: nat, n: nat, less: (T, T) -> bool, rank: T -> int)
    requires i < n <= |h| && Agrees(h, less, rank) && OrderedBut(h, n, 0, i, rank)
    ensures Ordered(Settle(h, i, n, less), n, 0, rank)
  {
    hide Up, Down, Sinks, Agrees, OrderedBut, AboveChildren, Ordered;
    if Sinks(h, i, n, less) {
      DownOrdered(h, n, 0, i, less, rank);
    } else {
      ChildBest(h, i, n, less, rank);
      UpOrdered(h, n, i, less, rank);
    }
  }

  // ----- the operations -----

  ghost predicate IsHeap<T>(h: seq<T>, rank: T -> int) {
    Ordered(h, |h|, 0, rank)
  }

  /** The first element of a heap ranks highest. */
  lemma {:induction false} TopBest<T>(h: seq<T>, rank: T -> int, k: nat)
    requires IsHeap(h, rank) && k < |h|
    ensures rank(h[0]) >= rank(h[k])
  {
    if k > 0 {
      TopBest(h, rank, Parent(k));
    }
  }

  /** Whatever the comparison, Push adds the element and nothing else. */
  lemma PushSame<T>(h: seq<T>, x: T, less: (T, T) -> bool)
    ensures multiset(Push(h, x, less)) == multiset(h) + multiset{x}
    ensures |Push(h, x, less)| == |h| + 1
  {
    hide Up;
    UpSame(h + [x], |h|, less);
  }

  lemma PushHeap<T(!new)>(h: seq<T>, x: T, less: (T, T) -> bool, rank: T -> int)
    requires IsHeap(h, rank) && Agrees(h + [x], less, rank)
    ensures IsHeap(Push(h, x, less), rank)
    ensures multiset(Push(h, x, less)) == multiset(h) + multiset{x}
    ensures |Push(h, x, less)| == |h| + 1
  {
    hide Up, Agrees;
    PushSame(h, x, less);
    UpOrdered(h + [x], |h| + 1, |h|, less, rank);
  }

  /** The first n elements of a sequence that is ordered so far are a heap. */
  lemma PrefixHeap<T>(r: seq<T>, n: nat, rank: T -> int)
    requires n <= |r| && Ordered(r, n, 0, rank)
    ensures IsHeap(r[..n], rank)
  {
  }

  lemma PrefixSame<T>(r: seq<T>, h: seq<T>, n: nat)
    requires |r| == n + 1 && multiset(r) == multiset(h)
    ensures multiset(r[..n]) == multiset(h) - multiset{r[n]}
  {
    assert r == r[..n] + [r[n]];
  }

  /** Whatever the comparison, Pop takes the first element and leaves the others. */
  lemma PopSame<T>(h: seq<T>, less: (T, T) -> bool)
    requires |h| > 0
    ensures PopLast(h, less)[|h| - 1] == h[0]
    ensures multiset(PopLast(h, less)[..|h| - 1]) == multiset(h) - multiset{h[0]}
  {
    hide Down, Swap;
    var n := |h| - 1;
    SwapSame(h, 0, n);
    SwapAt(h, 0, n);
    if n > 0 {
      DownSame(Swap(h, 0, n), 0, n, less);
    }
    PrefixSame(PopLast(h, less), h, n);
  }

  /** Pop takes the best element and leaves a heap of the others. */
  lemma PopHeap<T(!new)>(h: seq<T>, less: (T, T) -> bool, rank: T -> int)
    requires |h| > 0 && IsHeap(h, rank) && Agrees(h, less, rank)
    ensures PopLast(h, less)[|h| - 1] == h[0]
    ensures IsHeap(PopLast(h, less)[..|h| - 1], rank)
    ensures multiset(PopLast(h, less)[..|h| - 1]) == multiset(h) - multiset{h[0]}
  {
    hide Down, Agrees, Swap, IsHeap;
    var n := |h| - 1;
    PopSame(h, less);
    SwapToEnd(h, 0, rank);
    if n > 0 {
      SwapAgrees(h, 0, n, less, rank);
      DownOrdered(Swap(h, 0, n), n, 0, 0, less, rank);
    }
    PrefixHeap(PopLast(h, less), n, rank);
  }

  lemma SwapToEnd<T>(h: seq<T>, i: nat, rank: T -> int)
    requires i < |h| && IsHeap(h, rank)
    ensures |Swap(h, i, |h| - 1)| == |h| && Swap(h, i, |h| - 1)[|h| - 1] == h[i]
    ensures multiset(Swap(h, i, |h| - 1)) == multiset(h)
    ensures i < |h| - 1 ==> OrderedBut(Swap(h, i, |h| - 1), |h| - 1, 0, i, rank)
    ensures i == |h| - 1 ==> Ordered(h, i, 0, rank)
  {
    hide OrderedBut, Swap;
    SwapSame(h, i, |h| - 1);
    SwapAt(h, i, |h| - 1);
    if i < |h| - 1 {
      ReplacedBut(h, Swap(h, i, |h| - 1), |h| - 1, i, rank);
    }
  }

  lemma SwapAt<T>(h: seq<T>, i: nat, j: nat)
    requires i < |h| && j < |h|
    ensures |Swap(h, i, j)| == |h| && Swap(h, i, j)[j] == h[i] && Swap(h, i, j)[i] == h[j]
    ensures forall k :: 0 <= k < |h| && k != i && k != j ==> Swap(h, i, j)[k] == h[k]
  {
  }

  /** A heap with the element at i replaced is in order but for that element. */
  lemma ReplacedBut<T>(h: seq<T>, g: seq<T>, n: nat, i: nat, rank: T -> int)
    requires i < n <= |h| && IsHeap(h, rank) && |g| == |h|
    requires forall k :: 0 <= k < n && k != i ==> g[k] == h[k]
    ensures OrderedBut(g, n, 0, i, rank)
  {
    if 0 < i {
      forall k | 1 <= k < n && Parent(k) == i
        ensures rank(g[Parent(i)]) >= rank(g[k])
      {
        assert rank(h[Parent(i)]) >= rank(h[i]) >= rank(h[k]);
      }
    }
  }

  /** Whatever the comparison, Remove takes the element at i and leaves the others. */
  lemma RemoveSame<T>(h: seq<T>, i: nat, less: (T, T) -> bool)
    requires i < |h|
    ensures RemoveLast(h, i, less)[|h| - 1] == h[i]
    ensures multiset(RemoveLast(h, i, less)[..|h| - 1]) == multiset(h) - multiset{h[i]}
  {
    hide Settle, Swap;
    var n := |h| - 1;
    SwapSame(h, i, n);
    SwapAt(h, i, n);
    if i < n {
      SettleSame(Swap(h, i, n), i, n, less);
    }
    PrefixSame(RemoveLast(h, i, less), h, n);
  }

  /** Remove takes the element at i and leaves a heap of the others. */
  lemma RemoveHeap<T(!new)>(h: seq<T>, i: nat, less: (T, T) -> bool, rank: T -> int)
    requires i < |h| && IsHeap(h, rank) && Agrees(h, less, rank)
    ensures RemoveLast(h, i, less)[|h| - 1] == h[i]
    ensures IsHeap(RemoveLast(h, i, less)[..|h| - 1], rank)
    ensures multiset(RemoveLast(h, i, less)[..|h| - 1]) == multiset(h) - multiset{h[i]}
  {
    hide Settle, Agrees, Swap, IsHeap, Ordered, OrderedBut;
    var n := |h| - 1;
    RemoveSame(h, i, less);
    SwapToEnd(h, i, rank);
    if i < n {
      SwapAgrees(h, i, n, less, rank);
      SettleOrdered(Swap(h, i, n), i, n, less, rank);
    }
    PrefixHeap(RemoveLast(h, i, less), n, rank);
  }

  /** Fix restores the heap after one element was replaced. */
  lemma FixHeap<T(!new)>(h: seq<T>, i: nat, x: T, less: (T, T) -> bool, rank: T -> int)
    requires i < |h| && IsHeap(h, rank) && Agrees(h[i := x], less, rank)
    ensures IsHeap(Fix(h[i := x], i, less), rank)
    ensures multiset(Fix(h[i := x], i, less)) == multiset(h[i := x])
  {
    hide Settle, Agrees, OrderedBut;
    var g := h[i := x];
    ReplacedBut(h, g, |h|, i, rank);
    SettleOrdered(g, i, |g|, less, rank);
    SettleSame(g, i, |g|, less);
  }

  lemma {:induction false} InitFromHeap<T(!new)>(h: seq<T>, k: nat, less: (T, T) -> bool, rank: T -> int)
    requires k <= |h| && Agrees(h, less, rank) && Ordered(h, |h|, k, rank)
    ensures IsHeap(InitFrom(h, k, less), rank)
    ensures multiset(InitFrom(h, k, less)) == multiset(h)
    decreases k
  {
    hide Down, Agrees, Ordered, OrderedBut, BelowParent, Sinks;
    if k > 0 {
      assert OrderedBut(h, |h|, k - 1, k - 1, rank) && BelowParent(h, k - 1, k - 1, rank) by {
        OrderedNext(h, k, rank);
      }
      var g := Down(h, k - 1, |h|, less);
      DownOrdered(h, |h|, k - 1, k - 1, less, rank);
      DownSame(h, k - 1, |h|, less);
      SameAgrees(h, g, less, rank);
      InitFromHeap(g, k - 1, less, rank);
    }
  }

  lemma OrderedNext<T>(h: seq<T>, k: nat, rank: T -> int)
    requires 0 < k <= |h| && Ordered(h, |h|, k, rank)
    ensures OrderedBut(h, |h|, k - 1, k - 1, rank) && BelowParent(h, k - 1, k - 1, rank)
  {
  }

  lemma SameAgrees<T(!new)>(h: seq<T>, g: seq<T>, less: (T, T) -> bool, rank: T -> int)
    requires Agrees(h, less, rank) && multiset(g) == multiset(h)
    ensures Agrees(g, less, rank)
  {
    forall x | x in g
      ensures x in h
    {
      assert x in multiset(g);
    }
  }

  /** Init makes a heap of any sequence. */
  lemma InitHeap<T(!new)>(h: seq<T>, less: (T, T) -> bool, rank: T -> int)
    requires Agrees(h, less, rank)
    ensures IsHeap(Init(h, less), rank)
    ensures multiset(Init(h, less)) == multiset(h)
  {
    hide InitFrom, Agrees;
    InitFromHeap(h, |h| / 2, less, rank);
  }
}
