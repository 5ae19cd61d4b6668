/**
  The lazy priority queue: items wait in one of two heaps under an upper estimate of their priority, and are evaluated
  only when they reach the top.
  */
module LazyQueue {
  import Heap
  import opened SStack
  import opened Wrappers

  /** No value is in both. */
  ghost predicate Apart<T(!new)>(s: seq<Item<T>>, t: seq<Item<T>>) {
    forall v :: !(Holds(s, v) && Holds(t, v))
  }

  lemma NoneApart<T(!new)>(s: seq<Item<T>>)
    ensures Apart([], s) && Apart(s, [])
  {
  }

  lemma GoneAfterReset<T(!new)>(s: seq<Item<T>>, t: seq<Item<T>>, last: map<T, int>, p: nat, q: nat)
    requires p <= 1 && q <= 1 && InStep(s, p, true, last) && InStep(t, q, true, last) && GoneTold(s, t, last)
    ensures GoneTold([], [], last) <==> s == [] && t == []
  {
    hide Virtual;
    assert s != [] ==> s[0].value in last && last[s[0].value] == Virtual(p, 0);
    assert t != [] ==> t[0].value in last && last[t[0].value] == Virtual(q, 0);
  }

  /** Reports about other values leave a stack in step. */
  lemma StaysInStep<T(!new)>(s: seq<Item<T>>, parity: nat, reports: bool, u: seq<Item<T>>, a: map<T, int>, b: map<T, int>)
    requires parity <= 1 && InStep(s, parity, reports, a) && Apart(s, u) && OthersKept(u, a, b)
    ensures InStep(s, parity, reports, b)
  {
    hide Virtual;
    forall k | 0 <= k < |s|
      ensures !Holds(u, s[k].value)
    {
      assert Holds(s, s[k].value);
    }
  }

  /** Every value that is in neither queue was last reported removed. */
  ghost predicate GoneTold<T(!new)>(s: seq<Item<T>>, t: seq<Item<T>>, last: map<T, int>) {
    forall v :: v in last && !Holds(s, v) && !Holds(t, v) ==> last[v] == -1
  }

  /** The values of two stacks. */
  ghost function ValuesOf<T(!new)>(s: seq<Item<T>>, t: seq<Item<T>>): iset<T> {
    iset v | Holds(s, v) || Holds(t, v)
  }

  // ----- estimates -----

  /** The estimate of an item is an upper bound of its priority between two times. */
  ghost predicate Covers<T>(priority: (T, int) -> int64, x: Item<T>, from: int, until: int) {
    forall t :: from <= t <= until ==> priority(x.value, t) <= x.priority
  }

  ghost predicate Estimated<T>(priority: (T, int) -> int64, s: seq<Item<T>>, from: int, until: int) {
    forall k :: 0 <= k < |s| ==> Covers(priority, s[k], from, until)
  }

  /** What maxPriority promises: a bound for any moment between now and the given time. */
  ghost predicate Bounding<T(!new)>(priority: (T, int) -> int64, maxPriority: (T, int, int) -> int64) {
    forall v, now, until :: Covers(priority, Item(v, maxPriority(v, now, until)), now, until)
  }

  lemma EstimatedLater<T>(priority: (T, int) -> int64, s: seq<Item<T>>, from: int, until: int, from': int, until': int)
    requires Estimated(priority, s, from, until) && from <= from' && until' <= until
    ensures Estimated(priority, s, from', until')
  {
  }

  lemma EstimatedLess<T>(priority: (T, int) -> int64, s: seq<Item<T>>, x: Item<T>, r: seq<Item<T>>, from: int, until: int)
    requires Estimated(priority, s, from, until) && multiset(r) == multiset(s) - multiset{x}
    ensures Estimated(priority, r, from, until)
  {
    hide Covers;
    forall k | 0 <= k < |r|
      ensures Covers(priority, r[k], from, until)
    {
      assert r[k] in multiset(r);
      assert r[k] in s;
    }
  }

  lemma EstimatedMore<T>(priority: (T, int) -> int64, s: seq<Item<T>>, x: Item<T>, r: seq<Item<T>>, from: int, until: int)
    requires Estimated(priority, s, from, until) && multiset(r) == multiset(s) + multiset{x}
    requires Covers(priority, x, from, until)
    ensures Estimated(priority, r, from, until)
  {
    hide Covers;
    forall k | 0 <= k < |r|
      ensures Covers(priority, r[k], from, until)
    {
      assert r[k] in multiset(r);
      assert r[k] == x || r[k] in s;
    }
  }

  // ----- which items, under which estimates -----

  /** Every item of the one is an item of the other, under the same estimate. */
  ghost predicate Among<T(!new)>(s: seq<Item<T>>, t: seq<Item<T>>) {
    forall x :: x in s ==> x in t
  }

  /** Every item of the one is an item of the other, or was estimated anew at the given time. */
  ghost predicate Renewed<T(!new)>(estimate: (T, int, int) -> int64, now: int, until: int, s: seq<Item<T>>, t: seq<Item<T>>)
  {
    forall x :: x in s ==> x in t || x.priority == estimate(x.value, now, until)
  }

  lemma AmongLess<T(!new)>(s: seq<Item<T>>, item: Item<T>, r: seq<Item<T>>)
    requires multiset(r) == multiset(s) - multiset{item}
    ensures Among(r, s)
  {
    forall x | x in r
      ensures x in s
    {
      assert x in multiset(r);
      assert x in multiset(s);
    }
  }

  lemma RenewedMore<T(!new)>(estimate: (T, int, int) -> int64, now: int, until: int, s: seq<Item<T>>, item: Item<T>,
                             r: seq<Item<T>>)
    requires multiset(r) == multiset(s) + multiset{item} && item.priority == estimate(item.value, now, until)
    ensures Renewed(estimate, now, until, r, s)
  {
    forall x | x in r
      ensures x in s || x == item
    {
      assert x in multiset(r);
      assert x in multiset(s) || x == item;
    }
  }

  lemma AmongTwice<T(!new)>(s: seq<Item<T>>, t: seq<Item<T>>, u: seq<Item<T>>)
    requires Among(s, t) && Among(t, u)
    ensures Among(s, u)
  {
  }

  lemma NothingRenewed<T(!new)>(estimate: (T, int, int) -> int64, now: int, until: int, s: seq<Item<T>>)
    ensures Among(s, s) && Renewed(estimate, now, until, s, s)
  {
  }

  lemma RenewedTwice<T(!new)>(estimate: (T, int, int) -> int64, now: int, until: int, s: seq<Item<T>>, t: seq<Item<T>>,
                              u: seq<Item<T>>)
    requires Renewed(estimate, now, until, t, u)
    ensures Renewed(estimate, now, until, s, t) || Among(s, t) ==> Renewed(estimate, now, until, s, u)
  {
  }

  class LazyQueue<T(==,!new)> {
    const tracker: Tracker<T>
    const period: nat
    const priority: (T, int) -> int64           // the actual priority at a time
    const maxPriority: (T, int, int) -> int64   // the estimate made at a time, until another

    var queue0: SStack<T>
    var queue1: SStack<T>
    const popQueue: SStack<T>
    var maxUntil: int
    var indexOffset: nat

    ghost var refreshed: int    // time of the last refresh
    ghost var clock: int        // latest time seen
    ghost var punctual: bool    // no refresh came later than a period after the one before

    /** The three stacks are separate and report to the same tracker, or not at all. */
    ghost predicate Linked()
      reads this, queue0, queue1, popQueue
    {
      && queue0.tracker == tracker && queue1.tracker == tracker && popQueue.tracker == tracker
      && queue0.reports && queue1.reports && !popQueue.reports
      && indexOffset <= 1 && queue0.parity == indexOffset && queue1.parity == 1 - indexOffset
      && popQueue.parity <= 1
      && queue0.repr !! queue1.repr && queue0.repr !! popQueue.repr && queue1.repr !! popQueue.repr
      && queue0 in queue0.repr && queue1 in queue1.repr && popQueue in popQueue.repr
      && this !in queue0.repr && this !in queue1.repr && this !in popQueue.repr
      && tracker !in queue0.repr && tracker !in queue1.repr && tracker !in popQueue.repr
    }

    /** The stacks hold different values, each reported where it is. */
    ghost predicate Sound()
      reads this, queue0, queue0.repr, queue1, queue1.repr, popQueue, popQueue.repr, tracker
    {
      && Linked()
      && queue0.Ready() && queue1.Ready() && popQueue.Ready()
      && Apart(queue0.contents, queue1.contents)
      && Apart(popQueue.contents, queue0.contents) && Apart(popQueue.contents, queue1.contents)
      && GoneTold(queue0.contents, queue1.contents, tracker.last)
    }

    /** The stacks are heaps by true priority: the wrapped comparison needs the priorities to lie in a window. */
    ghost predicate Orderly(base: int)
      reads this, queue0, queue1, popQueue
    {
      Heaped(base, queue0.contents) && Heaped(base, queue1.contents) && Heaped(base, popQueue.contents)
    }

    /** Refreshes were on time and the callbacks keep their promise. */
    ghost predicate Trusted()
      reads this
    {
      punctual && Bounding(priority, maxPriority)
    }

    /** The estimates hold until the next refresh is due, in the second queue until the one after it. */
    ghost predicate Current()
      reads this, queue0, queue1
    {
      && refreshed <= clock
      && (Trusted() ==>
            && Estimated(priority, queue0.contents, clock, refreshed + period)
            && Estimated(priority, queue1.contents, clock, refreshed + 2 * period))
    }

    ghost predicate Valid()
      reads this, queue0, queue0.repr, queue1, queue1.repr, popQueue, popQueue.repr, tracker
    {
      Sound() && popQueue.contents == [] && Current() && maxUntil == refreshed + 2 * period
    }

    /** A queue over three empty stacks, before its first refresh. */
    constructor (period: nat, priority: (T, int) -> int64, maxPriority: (T, int, int) -> int64, tracker: Tracker<T>,
                 first: SStack<T>, second: SStack<T>, popped: SStack<T>, ghost now: int)
      requires first.Ready() && second.Ready() && popped.Ready()
      requires first.tracker == second.tracker == popped.tracker == tracker && tracker.last == map[]
      requires first.reports && second.reports && !popped.reports
      requires first.parity == 0 && second.parity == 1 && popped.parity == 0
      requires first.repr !! second.repr && first.repr !! popped.repr && second.repr !! popped.repr
      requires first.contents == [] && second.contents == [] && popped.contents == []
      ensures Sound() && Current() && refreshed == clock == now && punctual && indexOffset == 0
      ensures queue0 == first && queue1 == second && popQueue == popped && this.tracker == tracker
      ensures this.period == period && this.priority == priority && this.maxPriority == maxPriority
    {
      this.period, this.priority, this.maxPriority, this.tracker := period, priority, maxPriority, tracker;
      queue0, queue1, popQueue := first, second, popped;
      maxUntil, indexOffset := 0, 0;
      refreshed, clock, punctual := now, now, true;
      new;
      hide InStep, Virtual, Heaped, Estimated;
      NoneEstimated(priority, [], now, now + period);
      NoneEstimated(priority, [], now, now + 2 * period);
    }

    ghost predicate Has(v: T)
      reads this, queue0, queue1
    {
      Holds(queue0.contents, v) || Holds(queue1.contents, v)
    }

    /** The values in the queue. */
    ghost function All(): iset<T>
      reads this, queue0, queue1
    {
      ValuesOf(queue0.contents, queue1.contents)
    }

    lemma AllHas()
      ensures forall v :: v in All() <==> Has(v)
    {
    }

    // ----- one heap operation at a time -----

    /** Adds an item to the second queue. */
    method PushSecond(item: Item<T>, ghost base: int)
      requires Sound() && !Holds(queue0.contents, item.value) && !Holds(queue1.contents, item.value)
      requires !Holds(popQueue.contents, item.value)
      modifies queue1.repr, tracker
      ensures Sound() && fresh(queue1.repr - old(queue1.repr))
      ensures queue0.contents == old(queue0.contents) && popQueue.contents == old(popQueue.contents)
      ensures multiset(queue1.contents) == multiset(old(queue1.contents)) + multiset{item}
      ensures SameValues(old(queue1.contents) + [item], queue1.contents)
      ensures old(tracker.last).Keys <= tracker.last.Keys
      ensures old(Orderly(base)) && InWindow(base, item.priority) ==> Orderly(base)
    {
      hide InStep, SameValues, OthersKept, Virtual, Heaped, Holds, Apart, GoneTold;
      ghost var s, t, p := queue0.contents, queue1.contents, popQueue.contents;
      ghost var told := tracker.last;
      queue1.HeapPush(item, base);
      PushApart(s, t, p, item, queue1.contents);
      StaysInStep(s, queue0.parity, true, t + [item], told, tracker.last);
      StaysInStep(p, popQueue.parity, false, t + [item], told, tracker.last);
      GonePushed(s, t, item, queue1.contents, told, tracker.last);
    }

    /** Takes the item at index i out of the first queue, as the top or from the middle. */
    method TakeFirst(i: nat, pop: bool, ghost base: int) returns (item: Item<T>)
      requires Sound() && i < |queue0.contents| && (pop ==> i == 0)
      modifies queue0.repr, tracker
      ensures Sound() && queue0.repr == old(queue0.repr)
      ensures queue1.contents == old(queue1.contents) && popQueue.contents == old(popQueue.contents)
      ensures item == old(queue0.contents)[i]
      ensures multiset(queue0.contents) == multiset(old(queue0.contents)) - multiset{item}
      ensures Taken(old(queue0.contents), item.value, queue0.contents)
      ensures item.value in tracker.last && tracker.last[item.value] == -1
      ensures old(tracker.last).Keys <= tracker.last.Keys
      ensures old(Orderly(base)) ==> Orderly(base)
    {
      hide InStep, SameValues, OthersKept, Virtual, Heaped, Holds, Apart, GoneTold, Taken;
      ghost var s, t, p := queue0.contents, queue1.contents, popQueue.contents;
      ghost var told := tracker.last;
      if pop {
        item := queue0.HeapPop(base);
      } else {
        item := queue0.HeapRemove(i, base);
      }
      ApartBack(s, t);
      TakeApart(s, t, item.value, queue0.contents);
      TakeApart(s, p, item.value, queue0.contents);
      ApartBack(t, queue0.contents);
      StaysInStep(t, queue1.parity, true, s, told, tracker.last);
      StaysInStep(p, popQueue.parity, false, s, told, tracker.last);
      GoneTaken(s, t, item.value, queue0.contents, told, tracker.last);
    }

    /** The same for the second queue. */
    method TakeSecond(i: nat, pop: bool, ghost base: int) returns (item: Item<T>)
      requires Sound() && i < |queue1.contents| && (pop ==> i == 0)
      modifies queue1.repr, tracker
      ensures Sound() && queue1.repr == old(queue1.repr)
      ensures queue0.contents == old(queue0.contents) && popQueue.contents == old(popQueue.contents)
      ensures item == old(queue1.contents)[i]
      ensures multiset(queue1.contents) == multiset(old(queue1.contents)) - multiset{item}
      ensures Taken(old(queue1.contents), item.value, queue1.contents)
      ensures item.value in tracker.last && tracker.last[item.value] == -1
      ensures old(tracker.last).Keys <= tracker.last.Keys
      ensures old(Orderly(base)) ==> Orderly(base)
    {
      hide InStep, SameValues, OthersKept, Virtual, Heaped, Holds, Apart, GoneTold, Taken;
      ghost var s, t, p := queue0.contents, queue1.contents, popQueue.contents;
      ghost var told := tracker.last;
      if pop {
        item := queue1.HeapPop(base);
      } else {
        item := queue1.HeapRemove(i, base);
      }
      TakeApart(t, s, item.value, queue1.contents);
      TakeApart(t, p, item.value, queue1.contents);
      StaysInStep(s, queue0.parity, true, t, told, tracker.last);
      StaysInStep(p, popQueue.parity, false, t, told, tracker.last);
      GoneBack(s, t, told);
      GoneTaken(t, s, item.value, queue1.contents, told, tracker.last);
      GoneBack(queue1.contents, s, tracker.last);
    }

    /** Adds an evaluated item to the queue of items to hand out. */
    method PushPopped(item: Item<T>, ghost base: int)
      requires Sound() && !Holds(queue0.contents, item.value) && !Holds(queue1.contents, item.value)
      requires !Holds(popQueue.contents, item.value)
      modifies popQueue.repr, tracker
      ensures Sound() && fresh(popQueue.repr - old(popQueue.repr)) && tracker.last == old(tracker.last)
      ensures queue0.contents == old(queue0.contents) && queue1.contents == old(queue1.contents)
      ensures multiset(popQueue.contents) == multiset(old(popQueue.contents)) + multiset{item}
      ensures SameValues(old(popQueue.contents) + [item], popQueue.contents)
      ensures old(Orderly(base)) && InWindow(base, item.priority) ==> Orderly(base)
    {
      hide InStep, SameValues, OthersKept, Virtual, Heaped, Holds, Apart, GoneTold;
      ghost var s, t, p := queue0.contents, queue1.contents, popQueue.contents;
      popQueue.HeapPush(item, base);
      ApartBack(p, s);
      ApartBack(p, t);
      PushApart(s, p, t, item, popQueue.contents);
      ApartBack(s, popQueue.contents);
      ApartBack(t, popQueue.contents);
    }

    method PopPopped(ghost base: int) returns (item: Item<T>)
      requires Sound() && popQueue.contents != []
      modifies popQueue.repr, tracker
      ensures Sound() && popQueue.repr == old(popQueue.repr) && tracker.last == old(tracker.last)
      ensures queue0.contents == old(queue0.contents) && queue1.contents == old(queue1.contents)
      ensures item == old(popQueue.contents)[0]
      ensures multiset(popQueue.contents) == multiset(old(popQueue.contents)) - multiset{item}
      ensures Taken(old(popQueue.contents), item.value, popQueue.contents)
      ensures old(Orderly(base)) ==> Orderly(base)
    {
      hide InStep, SameValues, OthersKept, Virtual, Heaped, Holds, Apart, GoneTold, Taken;
      ghost var s, t, p := queue0.contents, queue1.contents, popQueue.contents;
      item := popQueue.HeapPop(base);
      ApartBack(p, s);
      ApartBack(p, t);
      TakeApart(p, s, item.value, popQueue.contents);
      TakeApart(p, t, item.value, popQueue.contents);
      ApartBack(s, popQueue.contents);
      ApartBack(t, popQueue.contents);
    }

    // ----- the operations -----

    /** Whether an index points to the first queue: its parity differs from the offset by an even number. */
    predicate InFirst(index: int)
      reads this
    {
      index % 2 == indexOffset
    }

    ghost predicate InRange(index: int)
      reads this, queue0, queue1
    {
      index >= 0 && index / 2 < if InFirst(index) then |queue0.contents| else |queue1.contents|
    }

    /** The item an index points to. */
    ghost predicate Located(index: int, v: T)
      reads this, queue0, queue1
    {
      && InRange(index)
      && v == (if InFirst(index) then queue0.contents[index / 2] else queue1.contents[index / 2]).value
    }

    /** What an index points to in the first queue, and in the second. */
    ghost function FirstAt(index: int): multiset<Item<T>>
      reads this, queue0, queue1
    {
      if InRange(index) && InFirst(index) then multiset{queue0.contents[index / 2]} else multiset{}
    }

    ghost function SecondAt(index: int): multiset<Item<T>>
      reads this, queue0, queue1
    {
      if InRange(index) && !InFirst(index) then multiset{queue1.contents[index / 2]} else multiset{}
    }

    /** The last index reported for a queued item locates it; everything else was last reported removed. */
    lemma LastLocates(v: T)
      requires Sound()
      ensures Has(v) ==> v in tracker.last && Located(tracker.last[v], v)
      ensures !Has(v) && v in tracker.last ==> tracker.last[v] == -1
    {
      hide Heaped, Virtual;
      if Holds(queue0.contents, v) {
        var k :| 0 <= k < |queue0.contents| && queue0.contents[k].value == v;
        assert tracker.last[v] == Virtual(queue0.parity, k);
      } else if Holds(queue1.contents, v) {
        var k :| 0 <= k < |queue1.contents| && queue1.contents[k].value == v;
        assert tracker.last[v] == Virtual(queue1.parity, k);
      }
    }

    method Push(data: T, now: int, ghost base: int)
      requires Valid() && clock <= now && !Has(data)
      modifies this`clock, queue1.repr, tracker
      ensures Valid() && clock == now && fresh(queue1.repr - old(queue1.repr))
      ensures forall v :: Has(v) <==> old(Has(v)) || v == data
      ensures queue0.contents == old(queue0.contents)
      ensures multiset(queue1.contents)
           == multiset(old(queue1.contents)) + multiset{Item(data, maxPriority(data, now, maxUntil))}
      ensures old(Orderly(base)) && InWindow(base, maxPriority(data, now, maxUntil)) ==> Orderly(base)
    {
      hide InStep, SameValues, OthersKept, Virtual, Heaped, Apart, GoneTold, Covers, Estimated;
      var item := Item(data, maxPriority(data, now, maxUntil));
      ghost var s, t := queue0.contents, queue1.contents;
      NoneHeld(popQueue.contents, data);
      PushSecond(item, base);
      PushedHolds(t, item, queue1.contents);
      if Trusted() {
        assert Covers(priority, item, now, maxUntil);
        EstimatedLater(priority, s, clock, refreshed + period, now, refreshed + period);
        EstimatedLater(priority, t, clock, maxUntil, now, maxUntil);
        EstimatedMore(priority, t, item, queue1.contents, now, maxUntil);
      }
      clock := now;
    }

    /** Removes the item an index points to; a negative index removes nothing. */
    method Remove(index: int, ghost base: int) returns (data: Option<T>)
      requires Valid() && (index >= 0 ==> InRange(index))
      modifies queue0.repr, queue1.repr, tracker
      ensures Valid() && queue0.repr == old(queue0.repr) && queue1.repr == old(queue1.repr)
      ensures old(Orderly(base)) ==> Orderly(base)
      ensures index < 0 ==>
                && data == None && tracker.last == old(tracker.last)
                && queue0.contents == old(queue0.contents) && queue1.contents == old(queue1.contents)
                && forall v :: Has(v) <==> old(Has(v))
      ensures index >= 0 ==>
                && data.Some? && old(Located(index, data.value))
                && data.value in tracker.last && tracker.last[data.value] == -1
                && forall v :: Has(v) <==> old(Has(v)) && v != data.value
      ensures multiset(queue0.contents) == multiset(old(queue0.contents)) - old(FirstAt(index))
      ensures multiset(queue1.contents) == multiset(old(queue1.contents)) - old(SecondAt(index))
    {
      hide InStep, SameValues, OthersKept, Virtual, Heaped, GoneTold, Covers, Estimated;
      if index < 0 {
        return None;
      }
      ghost var s, t := queue0.contents, queue1.contents;
      var item;
      if InFirst(index) {
        item := TakeFirst(index / 2, false, base);
        if Trusted() {
          EstimatedLess(priority, s, item, queue0.contents, clock, refreshed + period);
        }
      } else {
        item := TakeSecond(index / 2, false, base);
        if Trusted() {
          EstimatedLess(priority, t, item, queue1.contents, clock, maxUntil);
        }
      }
      data := Some(item.value);
    }

    /** The estimate that Update makes lies in a window: of the item an index points to, or for a negative index of nil. */
    ghost predicate RenewFits(index: int, now: int, nil: T, base: int)
      reads this, queue0, queue1
    {
      if index < 0 then InWindow(base, maxPriority(nil, now, maxUntil))
      else forall v :: Located(index, v) ==> InWindow(base, maxPriority(v, now, maxUntil))
    }

    /** Makes a new estimate for the item an index points to; for a negative index it pushes nil. */
    method Update(index: int, now: int, nil: T, ghost base: int)
      requires Valid() && clock <= now && (if index < 0 then !Has(nil) else InRange(index))
      modifies this`clock, queue0.repr, queue1.repr, tracker
      ensures Valid() && clock == now && queue0.repr == old(queue0.repr) && fresh(queue1.repr - old(queue1.repr))
      ensures forall v :: Has(v) <==> old(Has(v)) || (index < 0 && v == nil)
      ensures multiset(queue0.contents) == multiset(old(queue0.contents)) - old(FirstAt(index))
      ensures exists data: T ::
                && (if index < 0 then data == nil else old(Located(index, data)))
                && multiset(queue1.contents) == multiset(old(queue1.contents)) - old(SecondAt(index))
                                                + multiset{Item(data, maxPriority(data, now, maxUntil))}
      ensures old(Orderly(base) && RenewFits(index, now, nil, base)) ==> Orderly(base)
    {
      hide InStep, SameValues, OthersKept, Virtual, Heaped, GoneTold, Covers, Estimated, Sound, Current, Has, Located,
        InRange, Orderly, FirstAt, SecondAt;
      SoundApart();
      if index >= 0 {
        LocatedHas(index);
      }
      var removed := Remove(index, base);
      var data := if removed.None? then nil else removed.value;
      assert if index < 0 then data == nil else old(Located(index, data));
      Push(data, now, base);
    }

    lemma LocatedHas(index: int)
      requires InRange(index)
      ensures index >= 0 && forall v :: Located(index, v) ==> Has(v)
    {
    }

    /** The estimates that moving the first queue makes lie in a window. */
    ghost predicate MovesFit(now: int, until: int, base: int)
      reads this, queue0
    {
      forall v :: Holds(queue0.contents, v) ==> InWindow(base, maxPriority(v, now, until))
    }

    /** Moves the items of the first queue over with new estimates and exchanges the queues. */
    method Refresh(now: int, ghost base: int)
      requires Sound() && popQueue.contents == [] && Current() && clock <= now
      modifies this, queue0.repr, queue1.repr, tracker
      ensures Valid() && queue0 == old(queue1) && queue1 == old(queue0) && queue1.contents == []
      ensures queue1.repr == old(queue0.repr) && fresh(queue0.repr - old(queue1.repr)) && popQueue.repr == old(popQueue.repr)
      ensures clock == now && refreshed == now && indexOffset == 1 - old(indexOffset)
      ensures punctual == (old(punctual) && now <= old(refreshed) + period)
      ensures forall v :: Has(v) <==> old(Has(v))
      ensures Renewed(maxPriority, now, now + period, queue0.contents, old(queue1.contents))
      ensures old(Orderly(base) && MovesFit(now, now + period, base)) ==> Orderly(base)
    {
      hide Heaped, Sound, Covers, Estimated, Has, Renewed;
      SoundApart();
      ghost var fit := Orderly(base) && MovesFit(now, now + period, base);
      ghost var trusted := Trusted() && now <= refreshed + period;
      if trusted {
        EstimatedLater(priority, queue1.contents, clock, refreshed + 2 * period, now, now + period);
      }
      SetUntil(now + period);
      MoveAll(now, base, trusted, fit);
      SoundApart();
      SwapQueues();
      SetUntil(maxUntil + period);
      SetRefreshed(now);
      NoneEstimated(priority, queue1.contents, now, maxUntil);
    }

    method SetUntil(until: int)
      requires Sound()
      modifies this`maxUntil
      ensures Sound() && maxUntil == until
      ensures forall v :: Has(v) <==> old(Has(v))
    {
      hide InStep, Virtual, Heaped, Holds, GoneTold, Apart;
      maxUntil := until;
    }

    ghost method SetRefreshed(now: int)
      requires Sound()
      modifies this`punctual, this`refreshed, this`clock
      ensures Sound() && refreshed == now && clock == now
      ensures punctual == (old(punctual) && now <= old(refreshed) + period)
      ensures forall v :: Has(v) <==> old(Has(v))
    {
      hide InStep, Virtual, Heaped, Holds, GoneTold, Apart;
      punctual := punctual && now <= refreshed + period;
      refreshed, clock := now, now;
    }

    method SwapQueues()
      requires Sound()
      modifies this`queue0, this`queue1, this`indexOffset
      ensures Sound() && queue0 == old(queue1) && queue1 == old(queue0) && indexOffset == 1 - old(indexOffset)
      ensures forall v :: Has(v) <==> old(Has(v))
    {
      hide InStep, Virtual, Heaped, Holds, GoneTold, Apart;
      ApartBack(queue0.contents, queue1.contents);
      GoneBack(queue0.contents, queue1.contents, tracker.last);
      queue0, queue1 := queue1, queue0;
      indexOffset := 1 - indexOffset;
    }

    /** Empties the first queue into the second. */
    method MoveAll(now: int, ghost base: int, ghost trusted: bool, ghost fit: bool)
      requires Sound() && popQueue.contents == []
      requires fit ==> Orderly(base) && MovesFit(now, maxUntil, base)
      requires trusted ==> Bounding(priority, maxPriority) && Estimated(priority, queue1.contents, now, maxUntil)
      modifies queue0.repr, queue1.repr, tracker
      ensures Sound() && popQueue.contents == [] && queue0.contents == []
      ensures queue0.repr == old(queue0.repr) && fresh(queue1.repr - old(queue1.repr))
      ensures trusted ==> Estimated(priority, queue1.contents, now, maxUntil)
      ensures forall v :: Has(v) <==> old(Has(v))
      ensures Renewed(maxPriority, now, maxUntil, queue1.contents, old(queue1.contents))
      ensures fit ==> Orderly(base)
    {
      hide Heaped, Sound, Covers, Estimated, Has, Holds, Renewed, Among;
      StackSizes();
      NothingRenewed(maxPriority, now, maxUntil, queue1.contents);
      while queue0.size != 0
        invariant Sound() && Linked() && popQueue.contents == [] && queue0.size == |queue0.contents|
        invariant fit ==> Orderly(base) && MovesFit(now, maxUntil, base)
        invariant trusted ==> Estimated(priority, queue1.contents, now, maxUntil)
        invariant queue0.repr == old(queue0.repr) && fresh(queue1.repr - old(queue1.repr))
        invariant forall v :: Has(v) <==> old(Has(v))
        invariant Renewed(maxPriority, now, maxUntil, queue1.contents, old(queue1.contents))
        decreases queue0.size
      {
        ghost var t := queue1.contents;
        MoveOne(now, base, trusted, fit);
        RenewedTwice(maxPriority, now, maxUntil, queue1.contents, t, old(queue1.contents));
        StackSizes();
      }
    }

    lemma StackSizes()
      requires Sound()
      ensures Linked()
      ensures queue0.size == |queue0.contents| && queue1.size == |queue1.contents| && popQueue.size == |popQueue.contents|
    {
      hide Heaped, GoneTold, Apart, InStep;
    }

    method MoveOne(now: int, ghost base: int, ghost trusted: bool, ghost fit: bool)
      requires Sound() && popQueue.contents == [] && queue0.contents != []
      requires fit ==> Orderly(base) && MovesFit(now, maxUntil, base)
      requires trusted ==> Bounding(priority, maxPriority) && Estimated(priority, queue1.contents, now, maxUntil)
      modifies queue0.repr, queue1.repr, tracker
      ensures Sound() && popQueue.contents == [] && |queue0.contents| == |old(queue0.contents)| - 1
      ensures fit ==> Orderly(base) && MovesFit(now, maxUntil, base)
      ensures queue0.repr == old(queue0.repr) && fresh(queue1.repr - old(queue1.repr))
      ensures trusted ==> Estimated(priority, queue1.contents, now, maxUntil)
      ensures forall v :: Has(v) <==> old(Has(v))
      ensures Renewed(maxPriority, now, maxUntil, queue1.contents, old(queue1.contents))
    {
      hide Heaped, Sound, Covers, Estimated, Holds, SameValues, InWindow, Renewed;
      ghost var s, t := queue0.contents, queue1.contents;
      SoundApart();
      TopItem(s);
      var top := TakeFirst(0, true, base);
      SoundApart();
      SmallerBy(s, top, queue0.contents);
      var item := Item(top.value, maxPriority(top.value, now, maxUntil));
      NoneHeld(popQueue.contents, item.value);
      PushSecond(item, base);
      PushedHolds(t, item, queue1.contents);
      RenewedMore(maxPriority, now, maxUntil, t, item, queue1.contents);
      if trusted {
        assert Covers(priority, item, now, maxUntil);
        EstimatedMore(priority, t, item, queue1.contents, now, maxUntil);
      }
    }

    lemma SoundApart()
      requires Sound()
      ensures Linked()
      ensures forall v :: !(Holds(queue0.contents, v) && Holds(queue1.contents, v))
      ensures forall v :: !(Holds(popQueue.contents, v) && Holds(queue0.contents, v))
      ensures forall v :: !(Holds(popQueue.contents, v) && Holds(queue1.contents, v))
    {
      hide Heaped, GoneTold, InStep;
    }

    /**
      Replaces the stacks by empty ones. The index offset stays and nothing is reported, so the index space is in order
      afterwards exactly when the offset was even and the queue empty already.
      */
    method Reset()
      requires Valid()
      modifies this
      ensures queue0.contents == [] && queue1.contents == [] && indexOffset == old(indexOffset)
      ensures fresh(queue0.repr) && fresh(queue1.repr) && tracker.last == old(tracker.last)
      ensures queue0.Ready() && queue1.Ready() && queue0.tracker == queue1.tracker == tracker
      ensures queue1.reports && queue1.parity == 1 && queue0.repr !! queue1.repr && queue0 in queue0.repr
      ensures Sound() <==> indexOffset == 0 && old(queue0.contents) == [] && old(queue1.contents) == []
    {
      hide InStep, Virtual, Heaped, Apart, Estimated, GoneTold;
      ghost var s, t, last := queue0.contents, queue1.contents, tracker.last;
      GoneAfterReset(s, t, last, queue0.parity, queue1.parity);
      NoneApart(s);
      NoneApart(popQueue.contents);
      queue0 := NewStack(tracker, true, 0);
      queue1 := NewStack(tracker, true, 1);
    }

    // ----- popping -----

    /** The index of the queue whose top has the higher estimate, the first one in a tie, -1 if both are empty. */
    ghost predicate Best(next: int)
      reads this, queue0, queue1
    {
      && -1 <= next <= 1
      && (next == -1 <==> queue0.contents == [] && queue1.contents == [])
      && (next == 0 ==>
            queue0.contents != [] && (queue1.contents != [] ==> queue1.contents[0].priority <= queue0.contents[0].priority))
      && (next == 1 ==>
            queue1.contents != [] && (queue0.contents != [] ==> queue0.contents[0].priority < queue1.contents[0].priority))
    }

    method PeekIndex() returns (next: int)
      requires Sound()
      ensures Best(next)
      ensures queue0.contents != [] && queue1.contents != [] ==>
                var ahead := queue1.contents[0].priority - queue0.contents[0].priority;
                (next == 1 <==> Before(queue1.contents[0], queue0.contents[0])) <==> -TWO_63 <= ahead < TWO_63
    {
      hide InStep, Virtual, Heaped, Holds, GoneTold, Apart;
      if queue0.size != 0 {
        if queue1.size != 0 {
          var top0 := queue0.At(0);
          var top1 := queue1.At(0);
          BeforeIff(top1, top0);
          if top1.priority > top0.priority {
            return 1;
          }
        }
        return 0;
      }
      if queue1.size != 0 {
        return 1;
      }
      return -1;
    }

    /** Everything is sound and estimated at the given time, while evaluated items may wait to be handed out. */
    ghost predicate Running(now: int)
      reads this, queue0, queue0.repr, queue1, queue1.repr, popQueue, popQueue.repr, tracker
    {
      && Sound() && Current() && maxUntil == refreshed + 2 * period && clock == now
      && (forall v :: Holds(popQueue.contents, v) ==> v in tracker.last)
      && Exact(priority, now, popQueue.contents)
    }

    /** The stacks are in order, and what popping evaluates and estimates lies in their window. */
    ghost predicate Fits(base: int, now: int)
      reads this, queue0, queue1, popQueue
    {
      && Orderly(base)
      && forall v :: Queued(queue0.contents, queue1.contents, popQueue.contents, v) ==>
           InWindow(base, priority(v, now)) && InWindow(base, maxPriority(v, now, maxUntil))
    }

    ghost method SetClock(now: int)
      requires Valid() && clock <= now
      modifies this`clock
      ensures Running(now) && Sound() && Linked()
      ensures forall base :: Fits(base, now) == old(Fits(base, now))
    {
      hide InStep, Virtual, GoneTold, Apart, Estimated, Heaped, InWindow;
      if Trusted() {
        EstimatedLater(priority, queue0.contents, clock, refreshed + period, now, refreshed + period);
        EstimatedLater(priority, queue1.contents, clock, maxUntil, now, maxUntil);
      }
      clock := now;
    }

    /** Takes the top of a queue. */
    method TakeNext(next: int, ghost base: int) returns (top: Item<T>)
      requires Sound() && Current() && maxUntil == refreshed + 2 * period
      requires (next == 0 && queue0.contents != []) || (next == 1 && queue1.contents != [])
      modifies queue0.repr, queue1.repr, tracker
      ensures Sound() && Current() && (old(Orderly(base)) ==> Orderly(base))
      ensures popQueue.contents == old(popQueue.contents)
      ensures Among(queue0.contents, old(queue0.contents)) && Among(queue1.contents, old(queue1.contents))
      ensures |queue0.contents| + |queue1.contents| == |old(queue0.contents)| + |old(queue1.contents)| - 1
      ensures Holds(old(queue0.contents), top.value) || Holds(old(queue1.contents), top.value)
      ensures forall v :: Holds(queue0.contents, v) || Holds(queue1.contents, v)
                     <==> (Holds(old(queue0.contents), v) || Holds(old(queue1.contents), v)) && v != top.value
      ensures queue0.repr == old(queue0.repr) && queue1.repr == old(queue1.repr)
      ensures old(tracker.last).Keys <= tracker.last.Keys && top.value in tracker.last
    {
      hide Heaped, Sound, Covers, Estimated, Holds, SameValues;
      ghost var s, t := queue0.contents, queue1.contents;
      SoundApart();
      if next == 0 {
        TopItem(s);
        top := TakeFirst(0, true, base);
        SmallerBy(s, top, queue0.contents);
        AmongLess(s, top, queue0.contents);
        if Trusted() {
          EstimatedLess(priority, s, top, queue0.contents, clock, refreshed + period);
        }
      } else {
        TopItem(t);
        top := TakeSecond(0, true, base);
        SmallerBy(t, top, queue1.contents);
        AmongLess(t, top, queue1.contents);
        if Trusted() {
          EstimatedLess(priority, t, top, queue1.contents, clock, maxUntil);
        }
      }
    }

    /** Takes the top of a queue and evaluates it. */
    method Evaluate(next: int, now: int, ghost base: int, ghost fit: bool)
      requires Running(now) && (fit ==> Fits(base, now))
      requires (next == 0 && queue0.contents != []) || (next == 1 && queue1.contents != [])
      modifies queue0.repr, queue1.repr, popQueue.repr, tracker
      ensures Running(now) && (fit ==> Fits(base, now))
      ensures forall v :: Queued(queue0.contents, queue1.contents, popQueue.contents, v)
                     <==> old(Queued(queue0.contents, queue1.contents, popQueue.contents, v))
      ensures Among(queue0.contents, old(queue0.contents)) && Among(queue1.contents, old(queue1.contents))
      ensures |queue0.contents| + |queue1.contents| == |old(queue0.contents)| + |old(queue1.contents)| - 1
      ensures queue0.repr == old(queue0.repr) && queue1.repr == old(queue1.repr)
      ensures fresh(popQueue.repr - old(popQueue.repr))
      ensures old(tracker.last).Keys <= tracker.last.Keys
    {
      hide Heaped, Sound, Covers, Estimated, Holds, SameValues, InWindow, Exact, Among;
      ghost var p := popQueue.contents;
      SoundApart();
      var top := TakeNext(next, base);
      SoundApart();
      var item := Item(top.value, priority(top.value, now));
      PushPopped(item, base);
      SoundApart();
      PushedHolds(p, item, popQueue.contents);
      ExactMore(priority, now, p, item, popQueue.contents);
    }

    /** The first of the evaluated items is above every estimate. */
    ghost predicate Leads()
      reads this, queue0, queue1, popQueue
    {
      && popQueue.contents != []
      && (queue0.contents != [] ==> queue0.contents[0].priority < popQueue.contents[0].priority)
      && (queue1.contents != [] ==> queue1.contents[0].priority < popQueue.contents[0].priority)
    }

    /** An evaluated item above every estimate is of the highest actual priority of all. */
    lemma LeaderIsBest(now: int, v: T, base: int)
      requires Running(now) && Leads() && Orderly(base)
      requires Queued(queue0.contents, queue1.contents, popQueue.contents, v)
      requires Trusted() && now <= refreshed + period
      ensures popQueue.contents[0].priority >= priority(v, now)
    {
      hide InStep, Virtual, GoneTold, Apart, Within;
      if Holds(queue0.contents, v) {
        EstimateBound(priority, queue0.contents, now, refreshed + period, v);
      } else if Holds(queue1.contents, v) {
        EstimateBound(priority, queue1.contents, now, maxUntil, v);
      } else {
        var k :| 0 <= k < |popQueue.contents| && popQueue.contents[k].value == v;
        Heap.TopBest(popQueue.contents, Priority, k);
      }
    }

    /** Takes the best evaluated item. */
    method HandOut(now: int, ghost base: int, ghost fit: bool) returns (item: Item<T>)
      requires Running(now) && (fit ==> Fits(base, now)) && Leads()
      modifies popQueue.repr, tracker
      ensures Running(now) && (fit ==> Fits(base, now))
      ensures queue0.contents == old(queue0.contents) && queue1.contents == old(queue1.contents)
      ensures |popQueue.contents| == |old(popQueue.contents)| - 1 && popQueue.repr == old(popQueue.repr)
      ensures tracker.last == old(tracker.last) && item.value in tracker.last
      ensures item.priority == priority(item.value, now)
      ensures old(Queued(queue0.contents, queue1.contents, popQueue.contents, item.value))
      ensures forall v :: Queued(queue0.contents, queue1.contents, popQueue.contents, v)
                     <==> old(Queued(queue0.contents, queue1.contents, popQueue.contents, v)) && v != item.value
      ensures fit && Trusted() && now <= refreshed + period ==>
                forall v :: old(Queued(queue0.contents, queue1.contents, popQueue.contents, v)) ==>
                  item.priority >= priority(v, now)
    {
      hide Heaped, Sound, Covers, Estimated, Holds, SameValues, InWindow;
      ghost var s, t, p := queue0.contents, queue1.contents, popQueue.contents;
      SoundApart();
      TopItem(p);
      if fit && Trusted() && now <= refreshed + period {
        forall v | Queued(s, t, p, v)
          ensures p[0].priority >= priority(v, now)
        {
          LeaderIsBest(now, v, base);
        }
      }
      item := PopPopped(base);
      SmallerBy(p, item, popQueue.contents);
      ExactLess(priority, now, p, item, popQueue.contents);
    }

    /** Puts an evaluated item back under a new estimate. */
    method PutBackOne(now: int, ghost base: int, ghost fit: bool)
      requires Running(now) && (fit ==> Fits(base, now)) && popQueue.contents != []
      modifies queue1.repr, popQueue.repr, tracker
      ensures Running(now) && (fit ==> Fits(base, now))
      ensures |popQueue.contents| == |old(popQueue.contents)| - 1 && popQueue.repr == old(popQueue.repr)
      ensures fresh(queue1.repr - old(queue1.repr)) && queue0.repr == old(queue0.repr)
      ensures old(tracker.last).Keys <= tracker.last.Keys
      ensures forall v :: Queued(queue0.contents, queue1.contents, popQueue.contents, v)
                     <==> old(Queued(queue0.contents, queue1.contents, popQueue.contents, v))
      ensures queue0.contents == old(queue0.contents)
      ensures Renewed(maxPriority, now, maxUntil, queue1.contents, old(queue1.contents))
    {
      hide Heaped, Sound, Covers, Estimated, Holds, SameValues, InWindow, Exact, Renewed;
      ghost var s, t, p := queue0.contents, queue1.contents, popQueue.contents;
      SoundApart();
      TopItem(p);
      var popped := PopPopped(base);
      SoundApart();
      SmallerBy(p, popped, popQueue.contents);
      ExactLess(priority, now, p, popped, popQueue.contents);
      var item := Item(popped.value, maxPriority(popped.value, now, maxUntil));
      PushSecond(item, base);
      SoundApart();
      PushedHolds(t, item, queue1.contents);
      RenewedMore(maxPriority, now, maxUntil, t, item, queue1.contents);
      if Trusted() {
        assert Covers(priority, item, now, maxUntil);
        EstimatedMore(priority, t, item, queue1.contents, now, maxUntil);
      }
    }

    method PutBack(now: int, ghost base: int, ghost fit: bool)
      requires Running(now) && (fit ==> Fits(base, now))
      modifies queue1.repr, popQueue.repr, tracker
      ensures Running(now) && popQueue.contents == [] && (fit ==> Fits(base, now))
      ensures popQueue.repr == old(popQueue.repr) && fresh(queue1.repr - old(queue1.repr)) && queue0.repr == old(queue0.repr)
      ensures old(tracker.last).Keys <= tracker.last.Keys
      ensures forall v :: Queued(queue0.contents, queue1.contents, popQueue.contents, v)
                     <==> old(Queued(queue0.contents, queue1.contents, popQueue.contents, v))
      ensures queue0.contents == old(queue0.contents)
      ensures Renewed(maxPriority, now, maxUntil, queue1.contents, old(queue1.contents))
    {
      hide Sound, Current, Queued, Fits, Renewed, Among;
      StackSizes();
      NothingRenewed(maxPriority, now, maxUntil, queue1.contents);
      while popQueue.size != 0
        invariant Running(now) && (fit ==> Fits(base, now)) && Linked() && popQueue.size == |popQueue.contents|
        invariant popQueue.repr == old(popQueue.repr) && fresh(queue1.repr - old(queue1.repr))
        invariant queue0.repr == old(queue0.repr) && old(tracker.last).Keys <= tracker.last.Keys
        invariant forall v :: Queued(queue0.contents, queue1.contents, popQueue.contents, v)
                         <==> old(Queued(queue0.contents, queue1.contents, popQueue.contents, v))
        invariant queue0.contents == old(queue0.contents)
        invariant Renewed(maxPriority, now, maxUntil, queue1.contents, old(queue1.contents))
        decreases popQueue.size
      {
        ghost var t := queue1.contents;
        PutBackOne(now, base, fit);
        RenewedTwice(maxPriority, now, maxUntil, queue1.contents, t, old(queue1.contents));
        StackSizes();
      }
    }

    /** Nothing is lost or handed out twice, and on time everything comes in falling order of actual priority. */
    ghost predicate Account(s0: seq<Item<T>>, t0: seq<Item<T>>, out: seq<Item<T>>, now: int, fit: bool)
      reads this, queue0, queue1, popQueue, tracker
    {
      && Conserved(s0, t0, queue0.contents, queue1.contents, popQueue.contents, out)
      && Among(queue0.contents, s0) && Renewed(maxPriority, now, maxUntil, queue1.contents, t0)
      && Exact(priority, now, out)
      && (forall k :: 0 <= k < |out| ==> out[k].value in tracker.last)
      && (fit && Trusted() && now <= refreshed + period ==>
            Falling(priority, now, queue0.contents, queue1.contents, popQueue.contents, out))
    }

    /** Whether the best evaluated item can be handed out. */
    method CanHandOut(next: int) returns (can: bool)
      requires Sound() && Best(next)
      ensures can <==> Leads()
      ensures !can && next == -1 ==> popQueue.contents == []
    {
      hide InStep, Virtual, Heaped, Holds, GoneTold, Apart;
      if popQueue.size == 0 {
        return false;
      }
      if next == -1 {
        return true;
      }
      var first := popQueue.At(0);
      var top;
      if next == 0 {
        top := queue0.At(0);
      } else {
        top := queue1.At(0);
      }
      can := top.priority < first.priority;
    }

    /** The inner loop: hands out evaluated items while they lead, until the callback stops it. */
    method HandOutReady(next: int, now: int, goOn: seq<Item<T>> -> bool, soFar: seq<Item<T>>,
                        ghost s0: seq<Item<T>>, ghost t0: seq<Item<T>>, ghost base: int, ghost fit: bool)
      returns (out: seq<Item<T>>, stop: bool)
      requires Running(now) && (fit ==> Fits(base, now)) && Best(next)
      requires Account(s0, t0, soFar, now, fit) && Continued(goOn, soFar)
      modifies popQueue.repr, tracker
      ensures Running(now) && (fit ==> Fits(base, now)) && Best(next) && Account(s0, t0, out, now, fit) && Linked()
      ensures queue0.contents == old(queue0.contents) && queue1.contents == old(queue1.contents)
      ensures popQueue.repr == old(popQueue.repr)
      ensures stop ==> out != [] && !goOn(out) && Continued(goOn, out[..|out| - 1])
      ensures !stop ==> Continued(goOn, out) && (next == -1 ==> popQueue.contents == [])
    {
      hide Sound, Current, Queued, Fits, Conserved, Falling, Exact, Leads, Continued, Among, Renewed;
      out, stop := soFar, false;
      SoundApart();
      while true
        invariant Running(now) && (fit ==> Fits(base, now)) && Best(next) && Account(s0, t0, out, now, fit) && Linked()
        invariant queue0.contents == old(queue0.contents) && queue1.contents == old(queue1.contents)
        invariant popQueue.repr == old(popQueue.repr) && Continued(goOn, out)
        decreases |popQueue.contents|
      {
        var can := CanHandOut(next);
        if !can {
          return;
        }
        ghost var p := popQueue.contents;
        var item := HandOut(now, base, fit);
        ConservedNext(s0, t0, queue0.contents, queue1.contents, p, popQueue.contents, out, item);
        ExactNext(priority, now, out, item);
        if fit && Trusted() && now <= refreshed + period {
          FallingNext(priority, now, queue0.contents, queue1.contents, p, popQueue.contents, out, item);
        }
        ContinuedNext(goOn, out, item);
        out := out + [item];
        SoundApart();
        if !goOn(out) {
          stop := true;
          return;
        }
      }
    }

    lemma NothingOut(now: int, goOn: seq<Item<T>> -> bool, fit: bool)
      requires popQueue.contents == []
      ensures Account(queue0.contents, queue1.contents, [], now, fit)
      ensures Continued(goOn, [])
    {
    }

    method Evaluated(next: int, now: int, ghost out: seq<Item<T>>, ghost s0: seq<Item<T>>, ghost t0: seq<Item<T>>,
                     ghost base: int, ghost fit: bool)
      requires Running(now) && (fit ==> Fits(base, now)) && Account(s0, t0, out, now, fit) && Best(next) && next != -1
      modifies queue0.repr, queue1.repr, popQueue.repr, tracker
      ensures Running(now) && (fit ==> Fits(base, now)) && Account(s0, t0, out, now, fit) && Sound() && Linked()
      ensures |queue0.contents| + |queue1.contents| == |old(queue0.contents)| + |old(queue1.contents)| - 1
      ensures queue0.repr == old(queue0.repr) && queue1.repr == old(queue1.repr)
      ensures fresh(popQueue.repr - old(popQueue.repr))
    {
      hide Sound, Current, Queued, Fits, Conserved, Falling, Exact, Bounding, Holds, Among, Renewed;
      ghost var s, t, p := queue0.contents, queue1.contents, popQueue.contents;
      SoundApart();
      Evaluate(next, now, base, fit);
      SoundApart();
      AmongTwice(queue0.contents, s, s0);
      RenewedTwice(maxPriority, now, maxUntil, queue1.contents, t, t0);
      ConservedSame(s0, t0, s, t, p, queue0.contents, queue1.contents, popQueue.contents, out);
      FallingSame(priority, now, s, t, p, queue0.contents, queue1.contents, popQueue.contents, out);
    }

    method PutAllBack(now: int, ghost out: seq<Item<T>>, ghost s0: seq<Item<T>>, ghost t0: seq<Item<T>>, ghost base: int,
                      ghost fit: bool)
      requires Running(now) && (fit ==> Fits(base, now)) && Account(s0, t0, out, now, fit)
      modifies queue1.repr, popQueue.repr, tracker
      ensures Running(now) && popQueue.contents == [] && Account(s0, t0, out, now, fit) && Sound() && Linked()
      ensures fit ==> Fits(base, now)
      ensures popQueue.repr == old(popQueue.repr) && fresh(queue1.repr - old(queue1.repr)) && queue0.repr == old(queue0.repr)
    {
      hide Sound, Current, Queued, Fits, Conserved, Falling, Exact, Bounding, Holds, Among, Renewed;
      ghost var s, t, p := queue0.contents, queue1.contents, popQueue.contents;
      SoundApart();
      PutBack(now, base, fit);
      SoundApart();
      RenewedTwice(maxPriority, now, maxUntil, queue1.contents, t, t0);
      ConservedSame(s0, t0, s, t, p, queue0.contents, queue1.contents, popQueue.contents, out);
      FallingSame(priority, now, s, t, p, queue0.contents, queue1.contents, popQueue.contents, out);
    }

    lemma PoppedTold(next: int, now: int, out: seq<Item<T>>, s0: seq<Item<T>>, t0: seq<Item<T>>, fit: bool)
      requires Running(now) && popQueue.contents == [] && Account(s0, t0, out, now, fit) && Best(next)
      ensures Valid() && clock == now
      ensures next == -1 ==> queue0.contents == [] && queue1.contents == []
      ensures Conserved(s0, t0, queue0.contents, queue1.contents, [], out) && Exact(priority, now, out)
      ensures Among(queue0.contents, s0) && Renewed(maxPriority, now, maxUntil, queue1.contents, t0)
      ensures fit && Trusted() && now <= refreshed + period ==>
                Falling(priority, now, queue0.contents, queue1.contents, [], out)
      ensures forall k :: 0 <= k < |out| ==> out[k].value in tracker.last && tracker.last[out[k].value] == -1
    {
      hide Current, Falling, Exact, Heaped, InStep, Trusted, Among, Renewed;
      forall k | 0 <= k < |out|
        ensures tracker.last[out[k].value] == -1
      {
        assert Holds(out, out[k].value);
      }
    }

    /**
      Pops items to the callback until it stops or none is left. Nothing is lost: each item that was queued is still
      queued or was handed out once. If the refreshes came on time and the estimates are upper bounds, the items come in
      falling order of actual priority and none still queued is higher; this alone needs priorities in a window.
      */
    method MultiPop(now: int, goOn: seq<Item<T>> -> bool, ghost base: int) returns (out: seq<Item<T>>)
      requires Valid() && clock <= now
      modifies this`clock, queue0.repr, queue1.repr, popQueue.repr, tracker
      ensures Valid() && clock == now
      ensures queue0.repr == old(queue0.repr)
      ensures fresh(queue1.repr - old(queue1.repr)) && fresh(popQueue.repr - old(popQueue.repr))
      ensures Conserved(old(queue0.contents), old(queue1.contents), queue0.contents, queue1.contents, [], out)
      ensures Among(queue0.contents, old(queue0.contents))
      ensures Renewed(maxPriority, now, maxUntil, queue1.contents, old(queue1.contents))
      ensures Exact(priority, now, out)
      ensures old(Fits(base, now)) && Trusted() && now <= refreshed + period ==>
                Falling(priority, now, queue0.contents, queue1.contents, [], out)
      ensures forall k :: 0 < k < |out| ==> goOn(out[..k])
      ensures (queue0.contents == [] && queue1.contents == []) || (out != [] && !goOn(out))
      ensures forall k :: 0 <= k < |out| ==> out[k].value in tracker.last && tracker.last[out[k].value] == -1
      ensures old(Fits(base, now)) ==> Orderly(base)
    {
      hide Sound, Current, Fits, Conserved, Falling, Exact, Continued, Bounding, Account, Best, Running, Among, Renewed;
      ghost var s0, t0 := queue0.contents, queue1.contents;
      SoundApart();
      ghost var fit := Fits(base, now);
      SetClock(now);
      out := [];
      NothingOut(now, goOn, fit);
      var next := PeekIndex();
      var stop := false;
      while next != -1 && !stop
        invariant Running(now) && Best(next) && Account(s0, t0, out, now, fit) && Linked()
        invariant fit ==> Fits(base, now)
        invariant !stop ==> Continued(goOn, out) && (next == -1 ==> popQueue.contents == [])
        invariant stop ==> popQueue.contents == [] && out != [] && !goOn(out) && Continued(goOn, out[..|out| - 1])
        invariant queue0.repr == old(queue0.repr)
        invariant fresh(queue1.repr - old(queue1.repr)) && fresh(popQueue.repr - old(popQueue.repr))
        decreases if stop then 0 else 1, |queue0.contents| + |queue1.contents|
      {
        Evaluated(next, now, out, s0, t0, base, fit);
        next := PeekIndex();
        out, stop := HandOutReady(next, now, goOn, out, s0, t0, base, fit);
        if stop {
          PutAllBack(now, out, s0, t0, base, fit);
          next := PeekIndex();
        }
      }
      PoppedTold(next, now, out, s0, t0, fit);
      PoppedContinued(goOn, out);
      assert fit ==> Orderly(base) by { FitsOrderly(base, now); }
    }

    lemma FitsOrderly(base: int, now: int)
      ensures Fits(base, now) ==> Orderly(base)
    {
    }

    /** Pops the item of highest actual priority, if any. */
    method Pop(now: int, ghost base: int) returns (item: Option<Item<T>>)
      requires Valid() && clock <= now
      modifies this`clock, queue0.repr, queue1.repr, popQueue.repr, tracker
      ensures Valid() && clock == now && queue0.repr == old(queue0.repr)
      ensures fresh(queue1.repr - old(queue1.repr)) && fresh(popQueue.repr - old(popQueue.repr))
      ensures item.None? <==> old(queue0.contents) == [] && old(queue1.contents) == []
      ensures item.Some? ==>
                && (Holds(old(queue0.contents), item.value.value) || Holds(old(queue1.contents), item.value.value))
                && item.value.priority == priority(item.value.value, now)
                && (forall v :: Has(v) <==> old(Has(v)) && v != item.value.value)
                && (old(Fits(base, now)) && Trusted() && now <= refreshed + period ==>
                      forall v :: old(Has(v)) ==> item.value.priority >= priority(v, now))
    {
      hide Sound, Current, Fits, Linked, Bounding, Orderly;
      ghost var s, t := queue0.contents, queue1.contents;
      var stopAtOnce := (items: seq<Item<T>>) => false;
      var out := MultiPop(now, stopAtOnce, base);
      if out != [] {
        AtMostOne(stopAtOnce, out);
      }
      PoppedOne(priority, now, s, t, queue0.contents, queue1.contents, out);
      item := if out == [] then None else Some(out[0]);
    }
  }

  /** What a pop of at most one item amounts to. */
  lemma PoppedOne<T(!new)>(priority: (T, int) -> int64, now: int, s0: seq<Item<T>>, t0: seq<Item<T>>,
                           s: seq<Item<T>>, t: seq<Item<T>>, out: seq<Item<T>>)
    requires Conserved(s0, t0, s, t, [], out) && Exact(priority, now, out) && |out| <= 1
    requires s == t == [] || out != []
    ensures out == [] <==> s0 == [] && t0 == []
    ensures out != [] ==>
              && (Holds(s0, out[0].value) || Holds(t0, out[0].value))
              && out[0].priority == priority(out[0].value, now)
              && (forall v :: Holds(s, v) || Holds(t, v) <==> (Holds(s0, v) || Holds(t0, v)) && v != out[0].value)
              && (Falling(priority, now, s, t, [], out) ==>
                    forall v :: Holds(s0, v) || Holds(t0, v) ==> out[0].priority >= priority(v, now))
  {
    assert forall v :: Holds(out, v) <==> out != [] && v == out[0].value;
    assert s0 != [] ==> Holds(s0, s0[0].value);
    assert t0 != [] ==> Holds(t0, t0[0].value);
    assert out != [] ==> Holds(out, out[0].value);
  }

  lemma EstimateBound<T>(priority: (T, int) -> int64, s: seq<Item<T>>, now: int, until: int, v: T)
    requires Estimated(priority, s, now, until) && now <= until && Heap.IsHeap(s, Priority) && Holds(s, v)
    ensures s != [] && s[0].priority >= priority(v, now)
  {
    var k :| 0 <= k < |s| && s[k].value == v;
    Heap.TopBest(s, Priority, k);
    assert Covers(priority, s[k], now, until);
  }

  // ----- what popping keeps account of -----

  ghost predicate Queued<T>(s: seq<Item<T>>, t: seq<Item<T>>, p: seq<Item<T>>, v: T) {
    Holds(s, v) || Holds(t, v) || Holds(p, v)
  }

  /** The items carry their actual priority. */
  ghost predicate Exact<T>(priority: (T, int) -> int64, now: int, p: seq<Item<T>>) {
    forall k :: 0 <= k < |p| ==> p[k].priority == priority(p[k].value, now)
  }

  /** What was queued at the start is queued or was handed out, once and not both. */
  ghost predicate Conserved<T(!new)>(s0: seq<Item<T>>, t0: seq<Item<T>>, s: seq<Item<T>>, t: seq<Item<T>>, p: seq<Item<T>>,
                                     out: seq<Item<T>>)
  {
    && Distinct(out)
    && (forall v :: Holds(s0, v) || Holds(t0, v) <==> Queued(s, t, p, v) || Holds(out, v))
    && (forall v :: !(Queued(s, t, p, v) && Holds(out, v)))
  }

  /** What was handed out came in falling order, and everything still queued is no higher. */
  ghost predicate Falling<T(!new)>(priority: (T, int) -> int64, now: int, s: seq<Item<T>>, t: seq<Item<T>>, p: seq<Item<T>>,
                                   out: seq<Item<T>>)
  {
    && (forall k, l :: 0 <= k < l < |out| ==> out[k].priority >= out[l].priority)
    && (forall k, v :: 0 <= k < |out| && Queued(s, t, p, v) ==> out[k].priority >= priority(v, now))
  }

  /** The callback asked for more each time. */
  ghost predicate Continued<T>(goOn: seq<Item<T>> -> bool, out: seq<Item<T>>) {
    forall k :: 0 < k <= |out| ==> goOn(out[..k])
  }

  lemma ContinuedNext<T>(goOn: seq<Item<T>> -> bool, out: seq<Item<T>>, item: Item<T>)
    requires Continued(goOn, out)
    ensures goOn(out + [item]) ==> Continued(goOn, out + [item])
    ensures (out + [item])[..|out|] == out
  {
    forall k | 0 < k <= |out|
      ensures (out + [item])[..k] == out[..k]
    {
    }
    assert (out + [item])[..|out| + 1] == out + [item];
  }

  lemma PoppedContinued<T>(goOn: seq<Item<T>> -> bool, out: seq<Item<T>>)
    requires Continued(goOn, out) || (out != [] && Continued(goOn, out[..|out| - 1]))
    ensures forall k :: 0 < k < |out| ==> goOn(out[..k])
  {
    forall k | 0 < k < |out|
      ensures goOn(out[..k])
    {
      assert out[..|out| - 1][..k] == out[..k];
    }
  }

  lemma AtMostOne<T>(goOn: seq<Item<T>> -> bool, out: seq<Item<T>>)
    requires forall k :: 0 < k < |out| ==> goOn(out[..k])
    requires out != [] && !goOn(out[..1])
    ensures |out| == 1
  {
  }

  lemma ConservedSame<T(!new)>(s0: seq<Item<T>>, t0: seq<Item<T>>, s: seq<Item<T>>, t: seq<Item<T>>, p: seq<Item<T>>,
                               s': seq<Item<T>>, t': seq<Item<T>>, p': seq<Item<T>>, out: seq<Item<T>>)
    requires Conserved(s0, t0, s, t, p, out)
    requires forall v :: Queued(s', t', p', v) <==> Queued(s, t, p, v)
    ensures Conserved(s0, t0, s', t', p', out)
  {
    hide Queued, Holds;
  }

  lemma FallingSame<T(!new)>(priority: (T, int) -> int64, now: int, s: seq<Item<T>>, t: seq<Item<T>>, p: seq<Item<T>>,
                             s': seq<Item<T>>, t': seq<Item<T>>, p': seq<Item<T>>, out: seq<Item<T>>)
    requires forall v :: Queued(s', t', p', v) <==> Queued(s, t, p, v)
    ensures Falling(priority, now, s, t, p, out) ==> Falling(priority, now, s', t', p', out)
  {
    hide Queued;
  }

  lemma ConservedNext<T(!new)>(s0: seq<Item<T>>, t0: seq<Item<T>>, s: seq<Item<T>>, t: seq<Item<T>>, p: seq<Item<T>>,
                               r: seq<Item<T>>, out: seq<Item<T>>, item: Item<T>)
    requires Conserved(s0, t0, s, t, p, out) && Queued(s, t, p, item.value)
    requires forall v :: Queued(s, t, r, v) <==> Queued(s, t, p, v) && v != item.value
    ensures Conserved(s0, t0, s, t, r, out + [item])
  {
    hide Queued;
    assert SameValues(out + [item], out + [item]);
    PushedHolds(out, item, out + [item]);
    assert Distinct(out + [item]) by {
      forall k | 0 <= k < |out|
        ensures out[k].value != item.value
      {
        assert Holds(out, out[k].value);
      }
    }
  }

  lemma ExactNext<T>(priority: (T, int) -> int64, now: int, out: seq<Item<T>>, item: Item<T>)
    requires Exact(priority, now, out) && item.priority == priority(item.value, now)
    ensures Exact(priority, now, out + [item])
  {
  }

  lemma FallingNext<T(!new)>(priority: (T, int) -> int64, now: int, s: seq<Item<T>>, t: seq<Item<T>>, p: seq<Item<T>>,
                             r: seq<Item<T>>, out: seq<Item<T>>, item: Item<T>)
    requires Falling(priority, now, s, t, p, out) && Queued(s, t, p, item.value)
    requires item.priority == priority(item.value, now)
    requires forall v :: Queued(s, t, r, v) <==> Queued(s, t, p, v) && v != item.value
    requires forall v :: Queued(s, t, p, v) ==> item.priority >= priority(v, now)
    ensures Falling(priority, now, s, t, r, out + [item])
  {
    hide Queued;
  }

  lemma ExactMore<T>(priority: (T, int) -> int64, now: int, p: seq<Item<T>>, x: Item<T>, r: seq<Item<T>>)
    requires Exact(priority, now, p) && multiset(r) == multiset(p) + multiset{x} && x.priority == priority(x.value, now)
    ensures Exact(priority, now, r)
  {
    forall k | 0 <= k < |r|
      ensures r[k].priority == priority(r[k].value, now)
    {
      assert r[k] in multiset(r);
      assert r[k] == x || r[k] in p;
    }
  }

  lemma ExactLess<T>(priority: (T, int) -> int64, now: int, p: seq<Item<T>>, x: Item<T>, r: seq<Item<T>>)
    requires Exact(priority, now, p) && multiset(r) == multiset(p) - multiset{x}
    ensures Exact(priority, now, r)
  {
    forall k | 0 <= k < |r|
      ensures r[k].priority == priority(r[k].value, now)
    {
      assert r[k] in multiset(r);
      assert r[k] in p;
    }
  }

  lemma TopItem<T>(s: seq<Item<T>>)
    requires s != []
    ensures Holds(s, s[0].value)
  {
  }

  lemma SmallerBy<T>(s: seq<Item<T>>, x: Item<T>, r: seq<Item<T>>)
    requires x in s && multiset(r) == multiset(s) - multiset{x}
    ensures |r| == |s| - 1
  {
    assert x in multiset(s);
    assert |multiset(r)| == |r| && |multiset(s)| == |s|;
  }

  lemma NoneEstimated<T>(priority: (T, int) -> int64, s: seq<Item<T>>, from: int, until: int)
    requires s == []
    ensures Estimated(priority, s, from, until)
  {
  }

  lemma NoneLeft<T(!new)>(s: seq<Item<T>>)
    ensures (forall v :: !Holds(s, v)) <==> s == []
  {
    assert s != [] ==> Holds(s, s[0].value);
  }

  lemma NoneHeld<T>(s: seq<Item<T>>, v: T)
    requires s == []
    ensures !Holds(s, v)
  {
  }

  lemma PushedHolds<T(!new)>(t: seq<Item<T>>, item: Item<T>, u: seq<Item<T>>)
    requires SameValues(t + [item], u)
    ensures forall v :: Holds(u, v) <==> Holds(t, v) || v == item.value
  {
    forall v
      ensures Holds(u, v) <==> Holds(t, v) || v == item.value
    {
      assert Holds(u, v) <==> Holds(t + [item], v);
      assert forall k :: 0 <= k < |t| ==> (t + [item])[k] == t[k];
      assert (t + [item])[|t|] == item;
    }
  }

  lemma PushApart<T(!new)>(s: seq<Item<T>>, t: seq<Item<T>>, p: seq<Item<T>>, item: Item<T>, u: seq<Item<T>>)
    requires Apart(s, t) && Apart(p, t) && !Holds(s, item.value) && !Holds(p, item.value)
    requires SameValues(t + [item], u)
    ensures Apart(s, u) && Apart(p, u) && Apart(s, t + [item]) && Apart(p, t + [item])
  {
    forall v | Holds(t + [item], v)
      ensures Holds(t, v) || v == item.value
    {
      var k :| 0 <= k < |t + [item]| && (t + [item])[k].value == v;
      assert k < |t| ==> t[k].value == v;
    }
  }

  lemma GonePushed<T(!new)>(s: seq<Item<T>>, t: seq<Item<T>>, item: Item<T>, u: seq<Item<T>>, a: map<T, int>, b: map<T, int>)
    requires GoneTold(s, t, a) && SameValues(t + [item], u) && OthersKept(t + [item], a, b)
    ensures GoneTold(s, u, b)
  {
    forall v | v in b && !Holds(s, v) && !Holds(u, v)
      ensures b[v] == -1
    {
      assert !Holds(t + [item], v);
      assert forall k :: 0 <= k < |t| ==> (t + [item])[k] == t[k];
    }
  }

  lemma ApartBack<T(!new)>(s: seq<Item<T>>, t: seq<Item<T>>)
    requires Apart(s, t)
    ensures Apart(t, s)
  {
  }

  lemma TakeApart<T(!new)>(s: seq<Item<T>>, t: seq<Item<T>>, v: T, r: seq<Item<T>>)
    requires Apart(t, s) && Taken(s, v, r)
    ensures Apart(t, r)
  {
  }

  lemma GoneBack<T(!new)>(s: seq<Item<T>>, t: seq<Item<T>>, last: map<T, int>)
    requires GoneTold(s, t, last)
    ensures GoneTold(t, s, last)
  {
  }

  lemma GoneTaken<T(!new)>(s: seq<Item<T>>, t: seq<Item<T>>, v: T, r: seq<Item<T>>, a: map<T, int>, b: map<T, int>)
    requires GoneTold(s, t, a) && Taken(s, v, r) && OthersKept(s, a, b) && v in b && b[v] == -1
    ensures GoneTold(r, t, b)
  {
  }

  /** An empty stack. */
  method NewStack<T(==,!new)>(tracker: Tracker<T>, reports: bool, parity: nat) returns (s: SStack<T>)
    requires parity <= 1
    ensures fresh(s) && fresh(s.repr) && s.Ready() && s.contents == [] && s.tracker == tracker
    ensures s.reports == reports && s.parity == parity
  {
    s := new SStack<T>(tracker, reports, parity);
  }

  /** A queue before its first refresh. */
  method EmptyQueue<T(==,!new)>(period: nat, priority: (T, int) -> int64, maxPriority: (T, int, int) -> int64,
                                ghost now: int)
    returns (q: LazyQueue<T>)
    ensures fresh(q) && q.Sound() && q.Current() && q.refreshed == q.clock == now && q.punctual && q.indexOffset == 0
    ensures q.queue0.contents == [] && q.queue1.contents == [] && q.popQueue.contents == []
    ensures q.period == period && q.priority == priority && q.maxPriority == maxPriority
    ensures fresh(q.queue0.repr) && fresh(q.queue1.repr) && fresh(q.popQueue.repr) && fresh(q.tracker)
  {
    hide InStep, Virtual, Heaped, Estimated, Apart, GoneTold, Bounding, Holds;
    var told := new Tracker<T>();
    var first := NewStack(told, true, 0);
    var second := NewStack(told, true, 1);
    var popped := NewStack(told, false, 0);
    q := new LazyQueue<T>(period, priority, maxPriority, told, first, second, popped, now);
  }

  /** A queue right after its first refresh. */
  method NewLazyQueue<T(==,!new)>(period: nat, priority: (T, int) -> int64, maxPriority: (T, int, int) -> int64, now: int)
    returns (q: LazyQueue<T>)
    ensures fresh(q) && q.Valid() && q.refreshed == q.clock == now && q.punctual && q.indexOffset == 1
    ensures q.queue0.contents == [] && q.queue1.contents == [] && q.popQueue.contents == []
    ensures q.period == period && q.priority == priority && q.maxPriority == maxPriority
    ensures fresh(q.queue0.repr) && fresh(q.queue1.repr) && fresh(q.popQueue.repr) && fresh(q.tracker)
  {
    hide InStep, Virtual, Heaped, Estimated, Apart, GoneTold, Bounding;
    q := EmptyQueue(period, priority, maxPriority, now);
    assert forall v :: !q.Has(v);
    q.Refresh(now, 0);
    NoneLeft(q.queue0.contents);
    assert forall v :: Holds(q.queue0.contents, v) ==> q.Has(v);
  }

  /** A new queue that is reset loses track: the first item pushed is told an index that points to no item. */
  method ResetLosesTrack<T(==,!new)>(period: nat, priority: (T, int) -> int64, maxPriority: (T, int, int) -> int64,
                                     data: T, now: int)
    returns (q: LazyQueue<T>)
    ensures fresh(q) && q.Has(data)
    ensures data in q.tracker.last && q.tracker.last[data] == 1 && !q.InRange(q.tracker.last[data])
  {
    hide q.Sound, Estimated, Bounding, q.Trusted;
    q := NewLazyQueue(period, priority, maxPriority, now);
    q.Reset();
    var item := Item(data, maxPriority(data, now, q.maxUntil));
    q.queue1.HeapPush(item, 0);
    OnlyOne(q.queue1.contents, item);
    assert Holds(q.queue1.contents, q.queue1.contents[0].value);
    assert q.queue1.Tracked();
  }

  lemma OnlyOne<T>(s: seq<Item<T>>, x: Item<T>)
    requires multiset(s) == multiset{x}
    ensures s == [x]
  {
    assert |multiset(s)| == |s|;
    assert s[0] in multiset(s);
  }
}
