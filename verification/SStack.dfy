/**
  The block-based stack under the priority queues, and the heap operations that run on it. The blocks refine a plain
  sequence, and the positions reported to the index callback follow the items.
  */
module SStack {
  import Heap
  import opened Wrappers

  const BLOCK_SIZE: nat := 4096
  const TWO_63: int := 0x8000_0000_0000_0000

  type int64 = x: int | -TWO_63 <= x < TWO_63

  datatype Item<T> = Item(value: T, priority: int64)

  // ----- comparison -----

  /** The int64 difference of two priorities. */
  function Wrapped(d: int): (r: int64)
    ensures -TWO_63 <= d < TWO_63 ==> r == d
  {
    (d + TWO_63) % (2 * TWO_63) - TWO_63
  }

  predicate Before<T>(x: Item<T>, y: Item<T>) {
    Wrapped(x.priority - y.priority) > 0
  }

  function Priority<T>(x: Item<T>): int {
    x.priority
  }

  /** The wrapped comparison is the true one exactly when the difference does not overflow. */
  lemma BeforeIff<T>(x: Item<T>, y: Item<T>)
    ensures (Before(x, y) <==> x.priority > y.priority) <==> -TWO_63 <= x.priority - y.priority < TWO_63
  {
    var d := x.priority - y.priority;
    if d < -TWO_63 {
      assert (d + TWO_63) % (2 * TWO_63) == d + TWO_63 + 2 * TWO_63;
    } else if d >= TWO_63 {
      assert (d + TWO_63) % (2 * TWO_63) == d + TWO_63 - 2 * TWO_63;
    }
  }

  /** The two ends of int64: the heap puts the lowest priority on top, where a plain comparison takes the highest. */
  lemma WrapAround<T>(low: T, high: T)
    ensures var x, y := Item(low, -TWO_63), Item(high, TWO_63 - 1);
            && Before(x, y) && !(x.priority > y.priority)
            && Heap.Push([y], x, Before) == [x, y]
  {
    var x, y := Item(low, -TWO_63), Item(high, TWO_63 - 1);
    BeforeIff(x, y);
    assert Heap.Swap([y] + [x], 1, 0) == [x, y];
  }

  predicate InWindow(base: int, p: int) {
    base <= p < base + TWO_63
  }

  /** The priorities lie in a window narrower than 2^63. */
  ghost predicate Within<T>(base: int, s: seq<Item<T>>) {
    forall k :: 0 <= k < |s| ==> InWindow(base, s[k].priority)
  }

  /** Two priorities lie in a common window exactly when the wrapped comparison tells them apart in both directions. */
  lemma SameWindow<T>(x: Item<T>, y: Item<T>)
    ensures (exists base :: InWindow(base, x.priority) && InWindow(base, y.priority))
       <==> (Before(x, y) <==> x.priority > y.priority) && (Before(y, x) <==> y.priority > x.priority)
  {
    hide Wrapped;
    BeforeIff(x, y);
    BeforeIff(y, x);
    var d := x.priority - y.priority;
    if -TWO_63 < d < TWO_63 {
      var low: int := if d < 0 then x.priority else y.priority;
      assert InWindow(low, x.priority) && InWindow(low, y.priority);
    }
  }

  lemma WithinAgrees<T(!new)>(base: int, s: seq<Item<T>>)
    requires Within(base, s)
    ensures Heap.Agrees(s, Before, Priority)
  {
    forall x, y | x in s && y in s
      ensures Before(x, y) <==> Priority(x) > Priority(y)
    {
      BeforeIff(x, y);
    }
  }

  /** A heap by true priority, within a window. */
  ghost predicate Heaped<T>(base: int, s: seq<Item<T>>) {
    Heap.IsHeap(s, Priority) && Within(base, s)
  }

  lemma WithinSome<T>(base: int, s: seq<Item<T>>, r: seq<Item<T>>)
    requires Within(base, s) && multiset(r) <= multiset(s)
    ensures Within(base, r)
  {
    forall k | 0 <= k < |r|
      ensures InWindow(base, r[k].priority)
    {
      assert r[k] in multiset(r);
      assert r[k] in s;
    }
  }

  lemma TopHighest<T>(base: int, s: seq<Item<T>>)
    requires s != []
    ensures Heaped(base, s) ==> forall k :: 0 <= k < |s| ==> s[0].priority >= s[k].priority
  {
    if Heaped(base, s) {
      forall k | 0 <= k < |s|
        ensures s[0].priority >= s[k].priority
      {
        Heap.TopBest(s, Priority, k);
      }
    }
  }

  lemma PushHeaped<T(!new)>(base: int, s: seq<Item<T>>, x: Item<T>)
    ensures Heaped(base, s) && InWindow(base, x.priority) ==> Heaped(base, Heap.Push(s, x, Before))
    ensures multiset(Heap.Push(s, x, Before)) == multiset(s) + multiset{x}
  {
    hide Heap.IsHeap, Heap.Push, Before;
    Heap.PushSame(s, x, Before);
    if Heaped(base, s) && InWindow(base, x.priority) {
      WithinAgrees(base, s + [x]);
      Heap.PushHeap(s, x, Before, Priority);
      WithinSome(base, s + [x], Heap.Push(s, x, Before));
    }
  }

  lemma PopHeaped<T(!new)>(base: int, s: seq<Item<T>>)
    requires s != []
    ensures Heap.PopLast(s, Before)[|s| - 1] == s[0]
    ensures multiset(Heap.PopLast(s, Before)[..|s| - 1]) == multiset(s) - multiset{s[0]}
    ensures Heaped(base, s) ==> Heaped(base, Heap.PopLast(s, Before)[..|s| - 1])
  {
    hide Heap.IsHeap, Heap.PopLast, Before, Within;
    Heap.PopSame(s, Before);
    if Heaped(base, s) {
      WithinAgrees(base, s);
      Heap.PopHeap(s, Before, Priority);
      WithinSome(base, s, Heap.PopLast(s, Before)[..|s| - 1]);
    }
  }

  lemma RemoveHeaped<T(!new)>(base: int, s: seq<Item<T>>, i: nat)
    requires i < |s|
    ensures Heap.RemoveLast(s, i, Before)[|s| - 1] == s[i]
    ensures multiset(Heap.RemoveLast(s, i, Before)[..|s| - 1]) == multiset(s) - multiset{s[i]}
    ensures Heaped(base, s) ==> Heaped(base, Heap.RemoveLast(s, i, Before)[..|s| - 1])
  {
    hide Heap.IsHeap, Heap.RemoveLast, Before, Within;
    Heap.RemoveSame(s, i, Before);
    if Heaped(base, s) {
      WithinAgrees(base, s);
      Heap.RemoveHeap(s, i, Before, Priority);
      WithinSome(base, s, Heap.RemoveLast(s, i, Before)[..|s| - 1]);
    }
  }

  // ----- reported positions -----

  /** What the application was last told about each item. */
  class Tracker<T(==)> {
    var last: map<T, int>

    constructor ()
      ensures last == map[]
    {
      last := map[];
    }
  }

  /** The index in the space shared by two stacks: even for one, odd for the other, -1 for removed in both. */
  function Virtual(parity: nat, index: int): (r: int)
    requires parity <= 1 && index >= -1
    ensures index == -1 ==> r == -1
    ensures index >= 0 ==> r >= 0 && r % 2 == parity && r / 2 == index
  {
    if parity == 0 then
      if index == -1 then -1 else index + index
    else index + index + 1
  }

  ghost predicate Distinct<T>(s: seq<Item<T>>) {
    forall k, l :: 0 <= k < l < |s| ==> s[k].value != s[l].value
  }

  ghost predicate Holds<T>(s: seq<Item<T>>, v: T) {
    exists k :: 0 <= k < |s| && s[k].value == v
  }

  /** Every item's last report is its position. */
  ghost predicate Indexed<T>(s: seq<Item<T>>, parity: nat, last: map<T, int>)
    requires parity <= 1
  {
    forall k :: 0 <= k < |s| ==> s[k].value in last && last[s[k].value] == Virtual(parity, k)
  }

  /** Values outside the stack keep their last report. */
  ghost predicate OthersKept<T(!new)>(s: seq<Item<T>>, before: map<T, int>, after: map<T, int>) {
    forall v :: !Holds(s, v) ==> (v in after <==> v in before) && (v in after ==> after[v] == before[v])
  }

  ghost predicate SameValues<T(!new)>(s: seq<Item<T>>, t: seq<Item<T>>) {
    forall v :: Holds(s, v) <==> Holds(t, v)
  }

  /** Every value once, and reported where it is. */
  ghost predicate InStep<T>(s: seq<Item<T>>, parity: nat, reports: bool, last: map<T, int>)
    requires parity <= 1
  {
    Distinct(s) && (reports ==> Indexed(s, parity, last))
  }

  lemma SwapInStep<T(!new)>(s: seq<Item<T>>, i: nat, j: nat, parity: nat, reports: bool, last: map<T, int>)
    requires parity <= 1 && i < |s| && j < |s| && InStep(s, parity, reports, last)
    ensures var now := if reports then last[s[j].value := Virtual(parity, i)][s[i].value := Virtual(parity, j)] else last;
            && InStep(Heap.Swap(s, i, j), parity, reports, now)
            && SameValues(s, Heap.Swap(s, i, j))
            && OthersKept(s, last, now)
  {
    hide Virtual;
    var t := Heap.Swap(s, i, j);
    forall v | Holds(s, v)
      ensures Holds(t, v)
    {
      var k :| 0 <= k < |s| && s[k].value == v;
      assert t[if k == i then j else if k == j then i else k].value == v;
    }
    forall v | Holds(t, v)
      ensures Holds(s, v)
    {
      var k :| 0 <= k < |s| && t[k].value == v;
      assert s[if k == i then j else if k == j then i else k].value == v;
    }
    assert Holds(s, s[i].value) && Holds(s, s[j].value);
  }

  lemma KeptTwice<T(!new)>(s: seq<Item<T>>, t: seq<Item<T>>, a: map<T, int>, b: map<T, int>, c: map<T, int>)
    requires SameValues(s, t) && OthersKept(s, a, b) && OthersKept(t, b, c)
    ensures OthersKept(s, a, c)
  {
  }

  lemma SameTwice<T(!new)>(s: seq<Item<T>>, t: seq<Item<T>>, u: seq<Item<T>>)
    requires SameValues(s, t) && SameValues(t, u)
    ensures SameValues(s, u)
  {
  }

  lemma Unmoved<T(!new)>(s: seq<Item<T>>, last: map<T, int>)
    ensures SameValues(s, s) && OthersKept(s, last, last)
  {
  }

  /** After a push: the new value joins the others. */
  lemma PushInStep<T(!new)>(s: seq<Item<T>>, item: Item<T>, parity: nat, reports: bool, last: map<T, int>)
    requires parity <= 1 && InStep(s, parity, reports, last) && !Holds(s, item.value)
    ensures var now := if reports then last[item.value := Virtual(parity, |s|)] else last;
            && InStep(s + [item], parity, reports, now)
            && OthersKept(s + [item], last, now)
  {
    hide Virtual;
    var t := s + [item];
    assert t[|s|].value == item.value;
    assert Holds(t, item.value);
  }

  /** After a pop of the last item: it was reported removed, the others stay where they are. */
  lemma PopInStep<T(!new)>(s: seq<Item<T>>, parity: nat, reports: bool, last: map<T, int>)
    requires parity <= 1 && s != [] && InStep(s, parity, reports, last)
    ensures var now := if reports then last[s[|s| - 1].value := -1] else last;
            && InStep(s[..|s| - 1], parity, reports, now)
            && OthersKept(s, last, now)
            && Taken(s, s[|s| - 1].value, s[..|s| - 1])
  {
    hide Virtual;
    var n := |s| - 1;
    assert Holds(s, s[n].value);
    forall v | Holds(s, v) && v != s[n].value
      ensures Holds(s[..n], v)
    {
      var k :| 0 <= k < |s| && s[k].value == v;
      assert s[..n][k].value == v;
    }
    forall v | Holds(s[..n], v)
      ensures Holds(s, v) && v != s[n].value
    {
      var k :| 0 <= k < n && s[..n][k].value == v;
      assert s[k].value == v;
    }
  }

  /** The values of t are those of s without v, which s has. */
  ghost predicate Taken<T(!new)>(s: seq<Item<T>>, v: T, t: seq<Item<T>>) {
    && Holds(s, v)
    && forall w :: Holds(t, w) <==> Holds(s, w) && w != v
  }

  lemma TakenFrom<T(!new)>(r: seq<Item<T>>, s: seq<Item<T>>, v: T, t: seq<Item<T>>)
    requires SameValues(r, s) && Taken(s, v, t)
    ensures Taken(r, v, t)
  {
  }

  class SStack<T(==,!new)> {
    const tracker: Tracker<T>
    const reports: bool   // whether there is an index callback
    const parity: nat

    var size: nat
    var capacity: nat
    var offset: nat
    var blocks: seq<array<Option<Item<T>>>>
    var active: array<Option<Item<T>>>

    ghost var number: nat   // the active block's number
    ghost var contents: seq<Item<T>>
    ghost var repr: set<object>

    ghost predicate Blocks()
      reads this
    {
      && |blocks| >= 1 && capacity == |blocks| * BLOCK_SIZE && size <= capacity
      && (forall b :: 0 <= b < |blocks| ==> blocks[b] in repr && blocks[b].Length == BLOCK_SIZE)
      && (forall b, c :: 0 <= b < c < |blocks| ==> blocks[b] != blocks[c])
      && this in repr && tracker !in repr && parity <= 1
      && number < |blocks| && active == blocks[number]
      && offset <= BLOCK_SIZE && number * BLOCK_SIZE + offset == size
      && |contents| == size
    }

    /** The blocks hold the contents. */
    ghost predicate Valid()
      reads this, repr
    {
      && Blocks()
      && forall b, o :: 0 <= b < |blocks| && 0 <= o < BLOCK_SIZE && b * BLOCK_SIZE + o < size ==>
           blocks[b][o] == Some(contents[b * BLOCK_SIZE + o])
    }

    constructor (tracker: Tracker<T>, reports: bool, parity: nat)
      requires parity <= 1
      ensures Valid() && fresh(repr) && contents == []
      ensures this.tracker == tracker && this.reports == reports && this.parity == parity
    {
      this.tracker, this.reports, this.parity := tracker, reports, parity;
      size, capacity, offset := 0, BLOCK_SIZE, 0;
      var first := new Option<Item<T>>[BLOCK_SIZE](_ => None);
      active, blocks := first, [first];
      number, contents := 0, [];
      new;
      repr := {this, first};
    }

    /** The setIndex callback, as the lazy queue sets it up for its two stacks. */
    method SetIndex(value: T, index: int)
      requires index >= -1 && parity <= 1
      modifies tracker
      ensures tracker.last == if reports then old(tracker.last)[value := Virtual(parity, index)] else old(tracker.last)
    {
      if reports {
        tracker.last := tracker.last[value := Virtual(parity, index)];
      }
    }

    /** Makes room: a new block when the stack is full, the next block when the active one is. */
    method Grow()
      requires Valid()
      modifies this
      ensures Valid() && offset < BLOCK_SIZE && size < capacity
      ensures contents == old(contents) && fresh(repr - old(repr)) && old(repr) <= repr
    {
      if size == capacity {
        var more := new Option<Item<T>>[BLOCK_SIZE](_ => None);
        active := more;
        blocks := blocks + [more];
        capacity := capacity + BLOCK_SIZE;
        offset := 0;
        number := |blocks| - 1;
        repr := repr + {more};
      } else if offset == BLOCK_SIZE {
        active := blocks[size / BLOCK_SIZE];
        offset := 0;
        number := size / BLOCK_SIZE;
      }
    }

    method Push(item: Item<T>)
      requires Valid()
      modifies repr, tracker
      ensures Valid() && fresh(repr - old(repr)) && old(repr) <= repr
      ensures contents == old(contents) + [item]
      ensures tracker.last
           == if reports then old(tracker.last)[item.value := Virtual(parity, |old(contents)|)] else old(tracker.last)
    {
      Grow();
      SetIndex(item.value, size);
      Store(item);
    }

    method Store(item: Item<T>)
      requires Valid() && offset < BLOCK_SIZE && size < capacity
      modifies this, active
      ensures Valid() && repr == old(repr) && contents == old(contents) + [item]
    {
      active[offset] := Some(item);
      offset := offset + 1;
      size := size + 1;
      contents := contents + [item];
    }

    method Pop() returns (item: Item<T>)
      requires Valid() && contents != []
      modifies repr, tracker
      ensures Valid() && repr == old(repr)
      ensures item == old(contents)[|old(contents)| - 1] && contents == old(contents)[..|old(contents)| - 1]
      ensures tracker.last == if reports then old(tracker.last)[item.value := -1] else old(tracker.last)
      ensures offset < BLOCK_SIZE && active[offset] == None
    {
      item := Take();
      SetIndex(item.value, -1);
    }

    method Take() returns (item: Item<T>)
      requires Valid() && contents != []
      modifies this, blocks
      ensures Valid() && repr == old(repr)
      ensures item == old(contents)[|old(contents)| - 1] && contents == old(contents)[..|old(contents)| - 1]
      ensures offset < BLOCK_SIZE && active[offset] == None
    {
      StepBack();
      item := active[offset].value;
      active[offset] := None;
    }

    /** Moves back to the last element, which may be the last one of the block before. */
    method StepBack()
      requires Valid() && contents != []
      modifies this
      ensures Valid() && repr == old(repr) && blocks == old(blocks) && offset < BLOCK_SIZE
      ensures contents == old(contents)[..|old(contents)| - 1]
      ensures active[offset] == Some(old(contents)[|old(contents)| - 1])
    {
      size := size - 1;
      if offset == 0 {
        offset := BLOCK_SIZE - 1;
        number := number - 1;
        assert size / BLOCK_SIZE == number;
        active := blocks[size / BLOCK_SIZE];
      } else {
        offset := offset - 1;
      }
      contents := contents[..size];
    }

    method At(i: nat) returns (item: Item<T>)
      requires Valid() && i < |contents|
      ensures item == contents[i]
    {
      var b, o := i / BLOCK_SIZE, i % BLOCK_SIZE;
      assert b * BLOCK_SIZE + o == i;
      item := blocks[b][o].value;
    }

    method Less(i: nat, j: nat) returns (less: bool)
      requires Valid() && i < |contents| && j < |contents|
      ensures less == Before(contents[i], contents[j])
    {
      var x := At(i);
      var y := At(j);
      less := Wrapped(x.priority - y.priority) > 0;
    }

    method Put(i: nat, item: Item<T>)
      requires Valid() && i < |contents|
      modifies this`contents, blocks
      ensures Valid() && repr == old(repr) && contents == old(contents)[i := item]
    {
      var b, o := i / BLOCK_SIZE, i % BLOCK_SIZE;
      blocks[b][o] := Some(item);
      contents := contents[i := item];
    }

    method Swap(i: nat, j: nat)
      requires Valid() && i < |contents| && j < |contents|
      modifies repr, tracker
      ensures Valid() && repr == old(repr)
      ensures contents == Heap.Swap(old(contents), i, j)
      ensures tracker.last ==
              if reports then
                old(tracker.last)[old(contents)[j].value := Virtual(parity, i)][old(contents)[i].value := Virtual(parity, j)]
              else old(tracker.last)
    {
      var a := At(j);
      var b := At(i);
      SetIndex(a.value, i);
      SetIndex(b.value, j);
      Put(i, a);
      Put(j, b);
    }

    // ----- container/heap on the stack -----

    ghost predicate Tracked()
      reads this, tracker
    {
      parity <= 1 && InStep(contents, parity, reports, tracker.last)
    }

    /** A swap within the heap: positions follow, nothing else changes. */
    method Exchange(i: nat, j: nat)
      requires Valid() && Tracked() && i < |contents| && j < |contents|
      modifies repr, tracker
      ensures Valid() && Tracked() && repr == old(repr)
      ensures contents == Heap.Swap(old(contents), i, j)
      ensures SameValues(old(contents), contents) && OthersKept(old(contents), old(tracker.last), tracker.last)
      ensures !reports ==> tracker.last == old(tracker.last)
      ensures old(tracker.last).Keys <= tracker.last.Keys
    {
      hide InStep, SameValues, OthersKept, Heap.Swap, Virtual, Valid, Blocks;
      SwapInStep(contents, i, j, parity, reports, tracker.last);
      Swap(i, j);
    }

    method Up(from: nat)
      requires Valid() && Tracked() && from < |contents|
      modifies repr, tracker
      ensures Valid() && Tracked() && repr == old(repr)
      ensures contents == Heap.Up(old(contents), from, Before)
      ensures SameValues(old(contents), contents) && OthersKept(old(contents), old(tracker.last), tracker.last)
      ensures !reports ==> tracker.last == old(tracker.last)
      ensures old(tracker.last).Keys <= tracker.last.Keys
    {
      hide InStep, SameValues, OthersKept, Heap.Swap, Virtual, Valid, Blocks, Before;
      var j: nat := from;
      Unmoved(contents, tracker.last);
      while true
        invariant Valid() && Tracked() && repr == old(repr)
        invariant j < |contents| && Heap.Up(contents, j, Before) == Heap.Up(old(contents), from, Before)
        invariant SameValues(old(contents), contents) && OthersKept(old(contents), old(tracker.last), tracker.last)
        invariant !reports ==> tracker.last == old(tracker.last)
        invariant old(tracker.last).Keys <= tracker.last.Keys
        decreases j
      {
        var i := Heap.Parent(j);
        if i == j {
          break;
        }
        var less := Less(j, i);
        if !less {
          break;
        }
        ghost var was, told := contents, tracker.last;
        Exchange(j, i);
        KeptTwice(old(contents), was, old(tracker.last), told, tracker.last);
        SameTwice(old(contents), was, contents);
        j := i;
      }
    }

    method Down(from: nat, n: nat) returns (moved: bool)
      requires Valid() && Tracked() && from < n <= |contents|
      modifies repr, tracker
      ensures Valid() && Tracked() && repr == old(repr)
      ensures contents == Heap.Down(old(contents), from, n, Before)
      ensures moved == Heap.Sinks(old(contents), from, n, Before)
      ensures SameValues(old(contents), contents) && OthersKept(old(contents), old(tracker.last), tracker.last)
      ensures !reports ==> tracker.last == old(tracker.last)
      ensures old(tracker.last).Keys <= tracker.last.Keys
    {
      hide InStep, SameValues, OthersKept, Heap.Swap, Virtual, Valid, Blocks, Before;
      var i := from;
      Unmoved(contents, tracker.last);
      while true
        invariant Valid() && Tracked() && repr == old(repr)
        invariant from <= i < n <= |contents|
        invariant Heap.Down(contents, i, n, Before) == Heap.Down(old(contents), from, n, Before)
        invariant i == from ==> contents == old(contents)
        invariant i > from ==> Heap.Sinks(old(contents), from, n, Before)
        invariant SameValues(old(contents), contents) && OthersKept(old(contents), old(tracker.last), tracker.last)
        invariant !reports ==> tracker.last == old(tracker.last)
        invariant old(tracker.last).Keys <= tracker.last.Keys
        decreases n - i
      {
        var left := 2 * i + 1;
        if left >= n {
          break;
        }
        var j := left;
        var right := left + 1;
        if right < n {
          var better := Less(right, left);
          if better {
            j := right;
          }
        }
        var less := Less(j, i);
        if !less {
          break;
        }
        ghost var was, told := contents, tracker.last;
        Exchange(i, j);
        KeptTwice(old(contents), was, old(tracker.last), told, tracker.last);
        SameTwice(old(contents), was, contents);
        i := j;
      }
      moved := i > from;
    }

    /** The blocks hold the contents, in step with the tracker. */
    ghost predicate Ready()
      reads this, repr, tracker
    {
      Valid() && Tracked()
    }

    /** Adds an item. The order of a heap is kept for priorities in a window, everything else for all priorities. */
    method HeapPush(item: Item<T>, ghost base: int)
      requires Ready() && !Holds(contents, item.value)
      modifies repr, tracker
      ensures Ready() && fresh(repr - old(repr)) && old(repr) <= repr
      ensures multiset(contents) == multiset(old(contents)) + multiset{item}
      ensures SameValues(old(contents) + [item], contents)
      ensures OthersKept(old(contents) + [item], old(tracker.last), tracker.last)
      ensures !reports ==> tracker.last == old(tracker.last)
      ensures old(tracker.last).Keys <= tracker.last.Keys
      ensures old(Heaped(base, contents)) && InWindow(base, item.priority) ==> Heaped(base, contents)
    {
      hide InStep, SameValues, OthersKept, Virtual, Valid, Blocks, Before, Heap.Up, Heaped, Holds;
      PushInStep(contents, item, parity, reports, tracker.last);
      PushHeaped(base, contents, item);
      Push(item);
      ghost var told := tracker.last;
      Unmoved(contents, tracker.last);
      SizeIs();
      Up(size - 1);
      KeptTwice(old(contents) + [item], old(contents) + [item], old(tracker.last), told, tracker.last);
    }

    /** Takes the first item. */
    method HeapPop(ghost base: int) returns (item: Item<T>)
      requires Ready() && contents != []
      modifies repr, tracker
      ensures Ready() && repr == old(repr)
      ensures item == old(contents)[0]
      ensures multiset(contents) == multiset(old(contents)) - multiset{item}
      ensures Taken(old(contents), item.value, contents)
      ensures OthersKept(old(contents), old(tracker.last), tracker.last)
      ensures reports ==> item.value in tracker.last && tracker.last[item.value] == -1
      ensures !reports ==> tracker.last == old(tracker.last)
      ensures old(tracker.last).Keys <= tracker.last.Keys
      ensures old(Heaped(base, contents)) ==>
                Heaped(base, contents) && forall k :: 0 <= k < |old(contents)| ==> item.priority >= old(contents)[k].priority
    {
      hide InStep, SameValues, OthersKept, Virtual, Valid, Blocks, Before, Heap.Down, Heap.Swap, Heaped, Taken;
      PopHeaped(base, contents);
      TopHighest(base, contents);
      SwapNothing(contents);
      var n := size - 1;
      SizeIs();
      ghost var was, told := contents, tracker.last;
      Exchange(0, n);
      if n > 0 {
        ghost var mid, toldMid := contents, tracker.last;
        var moved := Down(0, n);
        KeptTwice(was, mid, told, toldMid, tracker.last);
        SameTwice(was, mid, contents);
      }
      item := PopTracked(was, told);
    }

    lemma SizeIs()
      requires Valid()
      ensures size == |contents|
    {
    }

    /** The final pop of Pop and Remove, after the item was moved to the end. */
    method PopTracked(ghost was: seq<Item<T>>, ghost told: map<T, int>) returns (item: Item<T>)
      requires Valid() && Tracked() && contents != []
      requires SameValues(was, contents) && OthersKept(was, told, tracker.last)
      modifies repr, tracker
      ensures Valid() && Tracked() && repr == old(repr)
      ensures item == old(contents)[|old(contents)| - 1] && contents == old(contents)[..|old(contents)| - 1]
      ensures Taken(was, item.value, contents) && OthersKept(was, told, tracker.last)
      ensures reports ==> item.value in tracker.last && tracker.last[item.value] == -1
      ensures !reports ==> tracker.last == old(tracker.last)
      ensures old(tracker.last).Keys <= tracker.last.Keys
    {
      hide InStep, SameValues, OthersKept, Virtual, Valid, Blocks, Taken;
      PopInStep(contents, parity, reports, tracker.last);
      TakenFrom(was, contents, contents[|contents| - 1].value, contents[..|contents| - 1]);
      ghost var now := if reports then tracker.last[contents[|contents| - 1].value := -1] else tracker.last;
      KeptTwice(was, contents, told, tracker.last, now);
      item := Pop();
    }

    /** Takes the item at the given index of the heap. */
    method HeapRemove(i: nat, ghost base: int) returns (item: Item<T>)
      requires Ready() && i < |contents|
      modifies repr, tracker
      ensures Ready() && repr == old(repr)
      ensures item == old(contents)[i]
      ensures multiset(contents) == multiset(old(contents)) - multiset{item}
      ensures Taken(old(contents), item.value, contents)
      ensures OthersKept(old(contents), old(tracker.last), tracker.last)
      ensures reports ==> item.value in tracker.last && tracker.last[item.value] == -1
      ensures !reports ==> tracker.last == old(tracker.last)
      ensures old(tracker.last).Keys <= tracker.last.Keys
      ensures old(Heaped(base, contents)) ==> Heaped(base, contents)
    {
      hide InStep, SameValues, OthersKept, Virtual, Valid, Blocks, Before, Heap.Down, Heap.Up, Heap.Sinks, Heap.Swap,
        Heaped, Taken;
      RemoveHeaped(base, contents, i);
      Unmoved(contents, tracker.last);
      SizeIs();
      var n := size - 1;
      ghost var was, told := contents, tracker.last;
      if n != i {
        Exchange(i, n);
        SettleTracked(i, n, was, told);
      }
      item := PopTracked(was, told);
    }

    method SettleTracked(i: nat, n: nat, ghost was: seq<Item<T>>, ghost told: map<T, int>)
      requires Valid() && Tracked() && i < n <= |contents|
      requires SameValues(was, contents) && OthersKept(was, told, tracker.last)
      modifies repr, tracker
      ensures Valid() && Tracked() && repr == old(repr)
      ensures contents == Heap.Settle(old(contents), i, n, Before)
      ensures SameValues(was, contents) && OthersKept(was, told, tracker.last)
      ensures !reports ==> tracker.last == old(tracker.last)
      ensures old(tracker.last).Keys <= tracker.last.Keys
    {
      hide InStep, SameValues, OthersKept, Virtual, Valid, Blocks, Before, Heap.Down, Heap.Up, Heap.Sinks;
      SettleStays(contents, i, n);
      ghost var mid, toldMid := contents, tracker.last;
      var moved := Down(i, n);
      KeptTwice(was, mid, told, toldMid, tracker.last);
      SameTwice(was, mid, contents);
      if !moved {
        ghost var low, toldLow := contents, tracker.last;
        Up(i);
        KeptTwice(was, low, told, toldLow, tracker.last);
        SameTwice(was, low, contents);
      }
    }
  }

  lemma SettleStays<T>(s: seq<Item<T>>, i: nat, n: nat)
    requires i < n <= |s|
    ensures !Heap.Sinks(s, i, n, Before) ==> Heap.Down(s, i, n, Before) == s
  {
  }

  lemma SwapNothing<T>(s: seq<Item<T>>)
    requires s != []
    ensures Heap.Swap(s, 0, 0) == s
  {
  }
}
