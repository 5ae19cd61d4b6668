/**
  Transactions by price and nonce: a price heap holds the next transaction of each account, the map the ones after it.
  */
module PriceNonce {
  import Heap
  import opened Wrappers

  type Address = nat

  /** A transaction; `sender` is what the signer recovers from it. */
  datatype Tx = Tx(sender: Address, price: int, id: nat)

  function Price(tx: Tx): int {
    tx.price
  }

  predicate Dearer(x: Tx, y: Tx) {
    x.price > y.price
  }

  lemma PriceAgrees(h: seq<Tx>)
    ensures Heap.Agrees(h, Dearer, Price)
  {
  }

  // ----- the abstract state: what is left of each account -----

  /** Each account has at most one head. */
  ghost predicate OneHead(m: multiset<Tx>) {
    && (forall x :: x in m ==> m[x] == 1)
    && (forall x, y :: x in m && y in m && x.sender == y.sender ==> x == y)
  }

  ghost predicate HasHead(m: multiset<Tx>, a: Address) {
    exists x :: x in m && x.sender == a
  }

  /** The transactions of the account still to come: its head, then its list; nothing when it has no head. */
  ghost function Remaining(m: multiset<Tx>, txs: map<Address, seq<Tx>>, a: Address): seq<Tx> {
    if HasHead(m, a) then
      var x :| x in m && x.sender == a;
      [x] + (if a in txs then txs[a] else [])
    else []
  }

  lemma RemainingOf(m: multiset<Tx>, txs: map<Address, seq<Tx>>, x: Tx)
    requires OneHead(m) && x in m
    ensures Remaining(m, txs, x.sender) == [x] + (if x.sender in txs then txs[x.sender] else [])
  {
  }

  /** An account whose head and list did not change has the same transactions left. */
  lemma RemainingSame(m: multiset<Tx>, txs: map<Address, seq<Tx>>, n: multiset<Tx>, uxs: map<Address, seq<Tx>>, a: Address)
    requires OneHead(m) && OneHead(n)
    requires forall x: Tx :: x.sender == a ==> (x in m <==> x in n)
    requires (a in txs <==> a in uxs) && (a in txs ==> txs[a] == uxs[a])
    ensures Remaining(m, txs, a) == Remaining(n, uxs, a)
  {
    assert HasHead(m, a) <==> HasHead(n, a);
    if HasHead(m, a) {
      var x :| x in m && x.sender == a;
      RemainingOf(m, txs, x);
      RemainingOf(n, uxs, x);
    }
  }

  /** The places left in the lists. */
  ghost function Slots(txs: map<Address, seq<Tx>>): set<(Address, int)> {
    set a, k | a in txs && 0 <= k < |txs[a]| :: (a, k)
  }

  lemma SlotsShrink(txs: map<Address, seq<Tx>>, a: Address)
    requires a in txs && |txs[a]| > 0
    ensures Slots(txs[a := txs[a][1..]]) < Slots(txs)
  {
    var less := txs[a := txs[a][1..]];
    assert (a, |txs[a]| - 1) in Slots(txs) && (a, |txs[a]| - 1) !in Slots(less);
    forall p | p in Slots(less)
      ensures p in Slots(txs)
    {
    }
  }

  /** The transactions of one account, in order. */
  function Select(out: seq<Tx>, a: Address): seq<Tx> {
    if out == [] then []
    else Select(out[..|out| - 1], a) + (if out[|out| - 1].sender == a then [out[|out| - 1]] else [])
  }

  /** The first transaction of every account, and the lists after them. */
  ghost predicate Divided(given: map<Address, seq<Tx>>, all: seq<Tx>, rest: map<Address, seq<Tx>>, todo: set<Address>)
    requires forall a :: a in given ==> |given[a]| > 0
  {
    && todo <= given.Keys && rest.Keys == given.Keys
    && (forall a :: a in todo ==> rest[a] == given[a])
    && (forall a :: a in given && a !in todo ==> rest[a] == given[a][1..] && given[a][0] in all)
    && (forall x :: x in all ==> x.sender in given && x.sender !in todo && x == given[x.sender][0])
  }

  lemma OneHeadAdd(all: seq<Tx>, x: Tx)
    requires OneHead(multiset(all)) && forall y :: y in all ==> y.sender != x.sender
    ensures OneHead(multiset(all + [x]))
  {
    assert multiset(all + [x]) == multiset(all) + multiset{x};
    assert forall y :: y in multiset(all) <==> y in all;
  }

  method FirstOfEach(given: map<Address, seq<Tx>>) returns (all: seq<Tx>, rest: map<Address, seq<Tx>>)
    requires forall a :: a in given ==> |given[a]| > 0
    requires forall a, k :: a in given && 0 <= k < |given[a]| ==> given[a][k].sender == a
    ensures OneHead(multiset(all))
    ensures Divided(given, all, rest, {})
  {
    hide OneHead;
    all, rest := [], given;
    var todo := given.Keys;
    assert OneHead(multiset(all)) by { NoHeads(all); }
    while todo != {}
      invariant Divided(given, all, rest, todo)
      invariant OneHead(multiset(all))
      decreases |todo|
    {
      var from :| from in todo;
      var list := rest[from];
      OneHeadAdd(all, list[0]);
      all := all + [list[0]];
      var acc := list[0].sender;
      rest := rest[acc := list[1..]];
      if from != acc {
        rest := rest - {from};
      }
      todo := todo - {from};
    }
  }

  lemma NoHeads(all: seq<Tx>)
    requires all == []
    ensures OneHead(multiset(all))
  {
  }

  lemma StartsWhole(given: map<Address, seq<Tx>>, all: seq<Tx>, rest: map<Address, seq<Tx>>, a: Address)
    requires forall a :: a in given ==> |given[a]| > 0
    requires forall a, k :: a in given && 0 <= k < |given[a]| ==> given[a][k].sender == a
    requires OneHead(multiset(all)) && Divided(given, all, rest, {})
    ensures Remaining(multiset(all), rest, a) == if a in given then given[a] else []
  {
    hide OneHead, Remaining;
    assert forall x :: x in multiset(all) <==> x in all;
    if a in given {
      RemainingOf(multiset(all), rest, given[a][0]);
      assert given[a] == [given[a][0]] + given[a][1..];
    } else {
      NoHead(multiset(all), rest, a);
    }
  }

  class TransactionsByPriceAndNonce {
    var txs: map<Address, seq<Tx>>
    var heads: seq<Tx>

    ghost predicate Valid()
      reads this
    {
      && Heap.IsHeap(heads, Price)
      && OneHead(multiset(heads))
      && (forall a, k :: a in txs && 0 <= k < |txs[a]| ==> txs[a][k].sender == a)
    }

    ghost function Left(a: Address): seq<Tx>
      reads this
    {
      Remaining(multiset(heads), txs, a)
    }

    /** Every account starts with its whole list. */
    constructor (given: map<Address, seq<Tx>>)
      requires forall a :: a in given ==> |given[a]| > 0
      requires forall a, k :: a in given && 0 <= k < |given[a]| ==> given[a][k].sender == a
      ensures Valid()
      ensures forall a :: Left(a) == if a in given then given[a] else []
    {
      var all, rest := FirstOfEach(given);
      txs := rest;
      heads := Heap.Init(all, Dearer);
      new;
      hide Heap.Init, Heap.IsHeap, OneHead, Remaining;
      PriceAgrees(all);
      Heap.InitHeap(all, Dearer, Price);
      forall a
        ensures Left(a) == if a in given then given[a] else []
      {
        StartsWhole(given, all, rest, a);
      }
    }

    /** The dearest head, if any account has transactions left. */
    method Peek() returns (tx: Option<Tx>)
      requires Valid()
      ensures tx.None? <==> heads == []
      ensures tx.None? <==> forall a :: Left(a) == []
      ensures tx.Some? ==>
                && heads != [] && tx.value == heads[0]
                && Left(tx.value.sender) != [] && Left(tx.value.sender)[0] == tx.value
                && forall a :: Left(a) != [] ==> tx.value.price >= Left(a)[0].price
    {
      if |heads| == 0 {
        return None;
      }
      tx := Some(heads[0]);
      assert heads[0] in multiset(heads);
      RemainingOf(multiset(heads), txs, heads[0]);
      assert Left(heads[0].sender) != [];
      forall a | Left(a) != []
        ensures heads[0].price >= Left(a)[0].price
      {
        var x :| x in multiset(heads) && x.sender == a;
        RemainingOf(multiset(heads), txs, x);
        var k :| 0 <= k < |heads| && heads[k] == x;
        Heap.TopBest(heads, Price, k);
      }
    }

    /** Takes the best head; the next transaction of the same account takes its place. */
    method Shift()
      requires Valid() && heads != []
      modifies this
      ensures Valid()
      ensures old(Left(heads[0].sender)) == [old(heads[0])] + Left(old(heads[0]).sender)
      ensures forall a :: a != old(heads[0]).sender ==> Left(a) == old(Left(a))
      ensures Slots(txs) < old(Slots(txs)) || (txs == old(txs) && |heads| == old(|heads|) - 1)
    {
      hide Heap.Fix, Heap.PopLast, Heap.IsHeap, OneHead, Remaining;
      var first := heads[0];
      var acc := first.sender;
      if acc in txs && |txs[acc]| > 0 {
        var next := txs[acc][0];
        ShiftLeaves(heads, txs);
        SlotsShrink(txs, acc);
        heads := heads[0 := next];
        txs := txs[acc := txs[acc][1..]];
        heads := Heap.Fix(heads, 0, Dearer);
      } else {
        PopLeaves(heads, txs);
        heads := Heap.PopLast(heads, Dearer)[..|heads| - 1];
      }
    }

    /** Takes the best head and with it everything its account has left. */
    method Pop()
      requires Valid() && heads != []
      modifies this
      ensures Valid()
      ensures Left(old(heads[0]).sender) == [] && txs == old(txs) && |heads| == old(|heads|) - 1
      ensures forall a :: a != old(heads[0]).sender ==> Left(a) == old(Left(a))
    {
      hide Heap.PopLast, Heap.IsHeap, OneHead, Remaining;
      PopLeaves(heads, txs);
      heads := Heap.PopLast(heads, Dearer)[..|heads| - 1];
    }
  }

  lemma PopLeaves(heads: seq<Tx>, txs: map<Address, seq<Tx>>)
    requires heads != [] && Heap.IsHeap(heads, Price) && OneHead(multiset(heads))
    ensures Heap.IsHeap(Heap.PopLast(heads, Dearer)[..|heads| - 1], Price)
    ensures multiset(Heap.PopLast(heads, Dearer)[..|heads| - 1]) == multiset(heads) - multiset{heads[0]}
    ensures OneHead(multiset(heads) - multiset{heads[0]})
    ensures Remaining(multiset(heads) - multiset{heads[0]}, txs, heads[0].sender) == []
    ensures Remaining(multiset(heads), txs, heads[0].sender)
         == [heads[0]] + (if heads[0].sender in txs then txs[heads[0].sender] else [])
    ensures forall a :: a != heads[0].sender ==>
              Remaining(multiset(heads) - multiset{heads[0]}, txs, a) == Remaining(multiset(heads), txs, a)
  {
    hide Remaining, Heap.PopLast, Heap.IsHeap;
    PriceAgrees(heads);
    Heap.PopHeap(heads, Dearer, Price);
    var m, first := multiset(heads), heads[0];
    assert first in m;
    RemainingOf(m, txs, first);
    var n := m - multiset{first};
    NoHead(n, txs, first.sender);
    forall a | a != first.sender
      ensures Remaining(n, txs, a) == Remaining(m, txs, a)
    {
      RemainingSame(m, txs, n, txs, a);
    }
  }

  lemma NoHead(m: multiset<Tx>, txs: map<Address, seq<Tx>>, a: Address)
    requires !HasHead(m, a)
    ensures Remaining(m, txs, a) == []
  {
  }

  lemma ShiftLeaves(heads: seq<Tx>, txs: map<Address, seq<Tx>>)
    requires heads != [] && Heap.IsHeap(heads, Price) && OneHead(multiset(heads))
    requires heads[0].sender in txs && |txs[heads[0].sender]| > 0
    requires txs[heads[0].sender][0].sender == heads[0].sender
    ensures var next := txs[heads[0].sender][0];
            var rest := txs[heads[0].sender := txs[heads[0].sender][1..]];
            var fixed := Heap.Fix(heads[0 := next], 0, Dearer);
            && Heap.IsHeap(fixed, Price)
            && OneHead(multiset(fixed))
            && Remaining(multiset(heads), txs, heads[0].sender)
               == [heads[0]] + Remaining(multiset(fixed), rest, heads[0].sender)
            && forall a :: a != heads[0].sender ==>
                 Remaining(multiset(fixed), rest, a) == Remaining(multiset(heads), txs, a)
  {
    hide Remaining, Heap.Fix, Heap.IsHeap, OneHead;
    var first, acc := heads[0], heads[0].sender;
    var next := txs[acc][0];
    var rest := txs[acc := txs[acc][1..]];
    var m, n := multiset(heads), multiset(heads[0 := next]);
    PriceAgrees(heads[0 := next]);
    Heap.FixHeap(heads, 0, next, Dearer, Price);
    assert n == m - multiset{first} + multiset{next};
    assert first in m;
    OneHeadReplaced(m, first, next);
    RemainingOf(m, txs, first);
    RemainingOf(n, rest, next);
    forall a | a != acc
      ensures Remaining(n, rest, a) == Remaining(m, txs, a)
    {
      assert forall x: Tx :: x.sender == a ==> (x in m <==> x in n);
      RemainingSame(m, txs, n, rest, a);
    }
  }

  lemma OneHeadReplaced(m: multiset<Tx>, first: Tx, next: Tx)
    requires OneHead(m) && first in m && next.sender == first.sender
    ensures OneHead(m - multiset{first} + multiset{next})
  {
    var n := m - multiset{first};
    assert forall x :: x in n ==> x in m && x != first;
    assert next !in n;
  }

  // ----- whole runs -----

  /** Whether the account was dropped by one of the first n decisions. */
  ghost predicate Dropped(out: seq<Tx>, decide: nat -> bool, n: nat, a: Address) {
    exists k: nat :: k < n && k < |out| && !decide(k) && out[k].sender == a
  }

  /** The account's transactions came in list order, up to where it stands or was dropped. */
  ghost predicate InOrder(start: seq<Tx>, out: seq<Tx>, decide: nat -> bool, left: seq<Tx>, a: Address) {
    if Dropped(out, decide, |out|, a) then left == [] && Select(out, a) <= start
    else Select(out, a) + left == start
  }

  /** The k-th transaction was at least as dear as the account's next one. */
  ghost predicate Dearest(start: seq<Tx>, out: seq<Tx>, decide: nat -> bool, k: nat, a: Address) {
    k < |out| && !Dropped(out, decide, k, a) && |Select(out[..k], a)| < |start| ==>
      out[k].price >= start[|Select(out[..k], a)|].price
  }

  lemma InOrderNext(start: seq<Tx>, out: seq<Tx>, decide: nat -> bool, left: seq<Tx>, tx: Tx, next: seq<Tx>, a: Address)
    requires InOrder(start, out, decide, left, a)
    requires tx.sender != a ==> next == left
    requires tx.sender == a && decide(|out|) ==> left == [tx] + next
    requires tx.sender == a && !decide(|out|) ==> left != [] && left[0] == tx && next == []
    ensures InOrder(start, out + [tx], decide, next, a)
  {
    var longer := out + [tx];
    assert longer[..|out|] == out;
    assert Dropped(out, decide, |out|, a) ==> Dropped(longer, decide, |longer|, a) by {
      if Dropped(out, decide, |out|, a) {
        var k: nat :| k < |out| && !decide(k) && out[k].sender == a;
        assert longer[k].sender == a;
      }
    }
    assert tx.sender == a && !decide(|out|) ==> longer[|out|].sender == a && !decide(|out|);
    assert Dropped(longer, decide, |longer|, a) ==>
        Dropped(out, decide, |out|, a) || (tx.sender == a && !decide(|out|)) by {
      if Dropped(longer, decide, |longer|, a) {
        var k: nat :| k < |longer| && !decide(k) && longer[k].sender == a;
        assert k < |out| ==> out[k].sender == a;
      }
    }
    if tx.sender == a && !Dropped(out, decide, |out|, a) {
      assert left == [tx] + left[1..];
      assert Select(out, a) + left == Select(longer, a) + left[1..];
      assert Select(longer, a) <= start;
    }
  }

  lemma DearestKept(start: seq<Tx>, out: seq<Tx>, tx: Tx, decide: nat -> bool, k: nat, a: Address)
    requires k < |out| && Dearest(start, out, decide, k, a)
    ensures Dearest(start, out + [tx], decide, k, a)
  {
    var longer := out + [tx];
    assert longer[..k] == out[..k];
    if Dropped(out, decide, k, a) {
      var l: nat :| l < k && l < |out| && !decide(l) && out[l].sender == a;
      assert longer[l].sender == a;
    }
  }

  lemma DearestNow(start: seq<Tx>, out: seq<Tx>, tx: Tx, decide: nat -> bool, left: seq<Tx>, a: Address)
    requires InOrder(start, out, decide, left, a)
    requires left != [] ==> tx.price >= left[0].price
    ensures Dearest(start, out + [tx], decide, |out|, a)
  {
    var longer := out + [tx];
    assert longer[..|out|] == out;
    if Dropped(out, decide, |out|, a) {
      var l: nat :| l < |out| && !decide(l) && out[l].sender == a;
      assert longer[l].sender == a;
    } else {
      assert start == Select(out, a) + left;
    }
  }

  ghost predicate NoneAfterDrop(out: seq<Tx>, decide: nat -> bool) {
    forall k: nat, l: nat :: k < l < |out| && !decide(k) ==> out[l].sender != out[k].sender
  }

  lemma NoneAfterDropNext(start: seq<Tx>, out: seq<Tx>, tx: Tx, decide: nat -> bool, left: seq<Tx>)
    requires NoneAfterDrop(out, decide)
    requires left != [] && InOrder(start, out, decide, left, tx.sender)
    ensures NoneAfterDrop(out + [tx], decide)
  {
    assert !Dropped(out, decide, |out|, tx.sender);
  }

  /** What a run has handed out so far. */
  ghost predicate Told(m: multiset<Tx>, txs: map<Address, seq<Tx>>, out: seq<Tx>, decide: nat -> bool) {
    && NoneAfterDrop(out, decide)
    && forall k: nat, a: Address :: k < |out| ==> Dearest(Remaining(m, txs, a), out, decide, k, a)
  }

  ghost predicate Standing(m: multiset<Tx>, txs: map<Address, seq<Tx>>, out: seq<Tx>, decide: nat -> bool,
                           n: multiset<Tx>, rest: map<Address, seq<Tx>>)
  {
    forall a: Address :: InOrder(Remaining(m, txs, a), out, decide, Remaining(n, rest, a), a)
  }

  lemma ToldNext(m: multiset<Tx>, txs: map<Address, seq<Tx>>, out: seq<Tx>, decide: nat -> bool,
                 n: multiset<Tx>, rest: map<Address, seq<Tx>>, tx: Tx)
    requires Told(m, txs, out, decide) && Standing(m, txs, out, decide, n, rest)
    requires Remaining(n, rest, tx.sender) != []
    requires forall a :: Remaining(n, rest, a) != [] ==> tx.price >= Remaining(n, rest, a)[0].price
    ensures Told(m, txs, out + [tx], decide)
  {
    hide Remaining, InOrder, Dearest, NoneAfterDrop;
    NoneAfterDropNext(Remaining(m, txs, tx.sender), out, tx, decide, Remaining(n, rest, tx.sender));
    forall k: nat, a: Address | k < |out + [tx]|
      ensures Dearest(Remaining(m, txs, a), out + [tx], decide, k, a)
    {
      if k < |out| {
        DearestKept(Remaining(m, txs, a), out, tx, decide, k, a);
      } else {
        DearestNow(Remaining(m, txs, a), out, tx, decide, Remaining(n, rest, a), a);
      }
    }
  }

  lemma StandingNext(m: multiset<Tx>, txs: map<Address, seq<Tx>>, out: seq<Tx>, decide: nat -> bool,
                     n: multiset<Tx>, rest: map<Address, seq<Tx>>, tx: Tx,
                     n': multiset<Tx>, rest': map<Address, seq<Tx>>)
    requires Standing(m, txs, out, decide, n, rest)
    requires forall a :: a != tx.sender ==> Remaining(n', rest', a) == Remaining(n, rest, a)
    requires decide(|out|) ==> Remaining(n, rest, tx.sender) == [tx] + Remaining(n', rest', tx.sender)
    requires !decide(|out|) ==>
               && Remaining(n, rest, tx.sender) != [] && Remaining(n, rest, tx.sender)[0] == tx
               && Remaining(n', rest', tx.sender) == []
    ensures Standing(m, txs, out + [tx], decide, n', rest')
  {
    hide Remaining, InOrder;
    forall a: Address
      ensures InOrder(Remaining(m, txs, a), out + [tx], decide, Remaining(n', rest', a), a)
    {
      InOrderNext(Remaining(m, txs, a), out, decide, Remaining(n, rest, a), tx, Remaining(n', rest', a), a);
    }
  }

  /**
    A whole run that, for the k-th transaction peeked, shifts or pops as decided. Every account's transactions come in
    list order, all of them exactly once unless the account is popped; after a pop none of that account follows; and
    each transaction is at least as dear as what any other account has next at that point.
    */
  method Run(t: TransactionsByPriceAndNonce, decide: nat -> bool) returns (out: seq<Tx>)
    requires t.Valid()
    modifies t
    ensures forall a :: t.Left(a) == []
    ensures forall a :: Select(out, a) <= old(t.Left(a))
    ensures forall a :: !Dropped(out, decide, |out|, a) ==> Select(out, a) == old(t.Left(a))
    ensures NoneAfterDrop(out, decide)
    ensures forall k: nat, a: Address :: k < |out| ==> Dearest(old(t.Left(a)), out, decide, k, a)
  {
    hide Remaining, InOrder, Dearest, NoneAfterDrop, Slots, Heap.IsHeap, OneHead;
    out := [];
    ghost var m, txs := multiset(t.heads), t.txs;
    assert Standing(m, txs, out, decide, m, txs) && Told(m, txs, out, decide) by {
      RunStart(m, txs, decide);
    }
    while t.heads != []
      invariant t.Valid()
      invariant Told(m, txs, out, decide)
      invariant Standing(m, txs, out, decide, multiset(t.heads), t.txs)
      decreases Slots(t.txs), |t.heads|
    {
      ghost var n, rest := multiset(t.heads), t.txs;
      assert forall a :: t.Left(a) == Remaining(n, rest, a);
      var best := t.Peek();
      forall a | Remaining(n, rest, a) != []
        ensures best.value.price >= Remaining(n, rest, a)[0].price
      {
        assert t.Left(a) != [];
      }
      ToldNext(m, txs, out, decide, n, rest, best.value);
      if decide(|out|) {
        t.Shift();
      } else {
        t.Pop();
      }
      assert forall a :: t.Left(a) == Remaining(multiset(t.heads), t.txs, a);
      StandingNext(m, txs, out, decide, n, rest, best.value, multiset(t.heads), t.txs);
      out := out + [best.value];
    }
    var none := t.Peek();
    assert forall a :: t.Left(a) == Remaining(multiset(t.heads), t.txs, a);
    forall a
      ensures Select(out, a) <= Remaining(m, txs, a)
      ensures !Dropped(out, decide, |out|, a) ==> Select(out, a) == Remaining(m, txs, a)
    {
      RunEnd(Remaining(m, txs, a), out, decide, a);
    }
  }

  lemma RunStart(m: multiset<Tx>, txs: map<Address, seq<Tx>>, decide: nat -> bool)
    ensures Standing(m, txs, [], decide, m, txs)
    ensures Told(m, txs, [], decide)
  {
    hide Remaining;
    forall a: Address
      ensures InOrder(Remaining(m, txs, a), [], decide, Remaining(m, txs, a), a)
    {
      assert [] + Remaining(m, txs, a) == Remaining(m, txs, a);
    }
  }

  lemma RunEnd(start: seq<Tx>, out: seq<Tx>, decide: nat -> bool, a: Address)
    requires InOrder(start, out, decide, [], a)
    ensures Select(out, a) <= start
    ensures !Dropped(out, decide, |out|, a) ==> Select(out, a) == start
  {
    assert Select(out, a) + [] == Select(out, a);
  }
}
