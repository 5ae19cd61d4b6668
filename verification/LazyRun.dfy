/**
  Whole runs of a lazy queue against the plain queue it stands for: a set of values, to which pushing adds, from which
  removing and popping take, and of which popping takes the highest.
  */
module LazyRun {
  import Heap
  import opened SStack
  import opened Q = LazyQueue
  import opened Wrappers

  datatype Op<T> =
    | OpPush(data: T)
    | OpUpdate(data: T)
    | OpRemove(data: T)
    | OpRefresh
    | OpMultiPop(limit: nat)

  // ----- the plain queue -----

  /** The values left after an operation that handed out some. */
  ghost function After<T(!new)>(held: iset<T>, op: Op<T>, out: seq<Item<T>>): iset<T> {
    match op
    case OpPush(v) => held + iset{v}
    case OpRemove(v) => held - iset{v}
    case OpMultiPop(_) => iset v | v in held && !Holds(out, v)
    case OpUpdate(_) => held
    case OpRefresh => held
  }

  /** Popping hands out different values of the queue with their priorities, as many as asked for or all there are. */
  ghost predicate Legal<T(!new)>(held: iset<T>, op: Op<T>, out: seq<Item<T>>, priority: (T, int) -> int64, now: int) {
    match op
    case OpMultiPop(limit) =>
      && Distinct(out) && Exact(priority, now, out) && (forall v :: Holds(out, v) ==> v in held)
      && |out| <= Most(limit) && (|out| < Most(limit) ==> forall v :: v in held ==> Holds(out, v))
    case _ => out == []
  }

  /** The callback is asked only after an item was handed out. */
  function Most(limit: nat): nat {
    if limit == 0 then 1 else limit
  }

  /** What was handed out comes in falling priority, and nothing left is higher. */
  ghost predicate Descends<T(!new)>(left: iset<T>, out: seq<Item<T>>, priority: (T, int) -> int64, now: int) {
    && (forall k, l :: 0 <= k < l < |out| ==> out[k].priority >= out[l].priority)
    && (forall k, v :: 0 <= k < |out| && v in left ==> out[k].priority >= priority(v, now))
  }

  // ----- one operation -----

  /** What an operation evaluates and estimates lies in a window; `first` are the values of the first queue. */
  ghost predicate Suits<T(!new)>(priority: (T, int) -> int64, maxPriority: (T, int, int) -> int64, first: iset<T>,
                                 held: iset<T>, op: Op<T>, now: int, until: int, period: nat, base: int)
  {
    match op
    case OpPush(v) => v !in held ==> InWindow(base, maxPriority(v, now, until))
    case OpUpdate(v) => v in held ==> InWindow(base, maxPriority(v, now, until))
    case OpRemove(_) => true
    case OpRefresh => forall v :: v in first ==> InWindow(base, maxPriority(v, now, now + period))
    case OpMultiPop(_) =>
      forall v :: v in held ==> InWindow(base, priority(v, now)) && InWindow(base, maxPriority(v, now, until))
  }

  /** The queues are in order, and what an operation evaluates and estimates lies in their window. */
  ghost predicate Fitting<T(!new)>(q: LazyQueue<T>, op: Op<T>, now: int, base: int)
    reads q, q.queue0, q.queue1, q.popQueue
  {
    && q.Orderly(base)
    && Suits(q.priority, q.maxPriority, ValuesOf(q.queue0.contents, []), q.All(), op, now, q.maxUntil, q.period, base)
  }

  /** An application's step: it pushes what is not queued, and updates and removes by the last index it was told. */
  method Step<T(==,!new)>(q: LazyQueue<T>, op: Op<T>, now: int, ghost base: int) returns (out: seq<Item<T>>)
    requires q.Valid() && q.clock <= now
    modifies q, q.queue0.repr, q.queue1.repr, q.popQueue.repr, q.tracker
    ensures q.Valid() && q.clock <= now
    ensures fresh(q.queue0.repr + q.queue1.repr - old(q.queue0.repr + q.queue1.repr))
    ensures fresh(q.popQueue.repr - old(q.popQueue.repr))
    ensures q.All() == After(old(q.All()), op, out)
    ensures Legal(old(q.All()), op, out, q.priority, now)
    ensures q.refreshed == if op.OpRefresh? then now else old(q.refreshed)
    ensures q.punctual == (old(q.punctual) && (op.OpRefresh? ==> now <= old(q.refreshed) + q.period))
    ensures old(Fitting(q, op, now, base)) ==> q.Orderly(base)
    ensures old(Fitting(q, op, now, base)) && q.Trusted() &&
            (op.OpMultiPop? ==> now <= q.refreshed + q.period) ==>
              Descends(q.All(), out, q.priority, now)
  {
    hide Heaped, InStep, Apart, GoneTold, Estimated, Holds, q.Sound, q.Orderly;
    q.SoundApart();
    q.AllHas();
    ghost var held := q.All();
    assert forall v :: v in held <==> old(q.Has(v));
    out := [];
    match op {
      case OpPush(v) =>
        q.LastLocates(v);
        if v !in q.tracker.last || q.tracker.last[v] == -1 {
          q.Push(v, now, base);
        }
      case OpUpdate(v) =>
        q.LastLocates(v);
        if v in q.tracker.last && q.tracker.last[v] != -1 {
          FittingRenews(q, v, now, base);
          q.Update(q.tracker.last[v], now, v, base);
        }
      case OpRemove(v) =>
        q.LastLocates(v);
        if v in q.tracker.last && q.tracker.last[v] != -1 {
          var removed := q.Remove(q.tracker.last[v], base);
          assert removed == Some(v);
        }
      case OpRefresh =>
        FittingMoves(q, now, base);
        q.Refresh(now, base);
      case OpMultiPop(limit) =>
        out := PopUpTo(q, limit, now, base);
    }
    q.AllHas();
  }

  /** Pops with a callback that asks for more until it has seen enough. */
  method PopUpTo<T(==,!new)>(q: LazyQueue<T>, limit: nat, now: int, ghost base: int) returns (out: seq<Item<T>>)
    requires q.Valid() && q.clock <= now
    modifies q`clock, q.queue0.repr, q.queue1.repr, q.popQueue.repr, q.tracker
    ensures q.Valid() && q.clock == now && q.queue0.repr == old(q.queue0.repr)
    ensures fresh(q.queue1.repr - old(q.queue1.repr)) && fresh(q.popQueue.repr - old(q.popQueue.repr))
    ensures q.All() == After(old(q.All()), OpMultiPop(limit), out)
    ensures Legal(old(q.All()), OpMultiPop(limit), out, q.priority, now)
    ensures old(Fitting(q, OpMultiPop(limit), now, base)) ==> q.Orderly(base)
    ensures old(Fitting(q, OpMultiPop(limit), now, base)) && q.Trusted() && now <= q.refreshed + q.period ==>
              Descends(q.All(), out, q.priority, now)
  {
    hide Heaped, Holds, q.Sound, q.Current, q.Orderly, Conserved, Falling, Exact, Bounding;
    q.SoundApart();
    ghost var s, t := q.queue0.contents, q.queue1.contents;
    FittingPops(q, limit, now, base);
    out := q.MultiPop(now, items => |items| < limit, base);
    PopsLegal(q.priority, now, limit, s, t, q.queue0.contents, q.queue1.contents, out);
    PopsDescend(q.priority, now, q.queue0.contents, q.queue1.contents, out);
  }

  lemma FittingRenews<T(!new)>(q: LazyQueue<T>, v: T, now: int, base: int)
    requires v in q.tracker.last && q.Located(q.tracker.last[v], v)
    ensures Fitting(q, OpUpdate(v), now, base) ==> q.RenewFits(q.tracker.last[v], now, v, base)
  {
    hide Heaped, InWindow;
  }

  lemma FittingMoves<T(!new)>(q: LazyQueue<T>, now: int, base: int)
    ensures Fitting(q, OpRefresh, now, base) ==> q.MovesFit(now, now + q.period, base)
  {
    hide Heaped, InWindow;
    assert forall v :: Holds(q.queue0.contents, v) ==> v in ValuesOf(q.queue0.contents, []);
  }

  lemma FittingPops<T(!new)>(q: LazyQueue<T>, limit: nat, now: int, base: int)
    requires q.popQueue.contents == []
    ensures Fitting(q, OpMultiPop(limit), now, base) ==> q.Fits(base, now)
  {
    hide Heaped, InWindow;
  }

  lemma PopsLegal<T(!new)>(priority: (T, int) -> int64, now: int, limit: nat, s0: seq<Item<T>>, t0: seq<Item<T>>,
                           s: seq<Item<T>>, t: seq<Item<T>>, out: seq<Item<T>>)
    requires Conserved(s0, t0, s, t, [], out) && Exact(priority, now, out)
    requires forall k :: 0 < k < |out| ==> |out[..k]| < limit
    requires (s == [] && t == []) || (out != [] && !(|out| < limit))
    ensures var held := ValuesOf(s0, t0);
            && Legal(held, OpMultiPop(limit), out, priority, now)
            && After(held, OpMultiPop(limit), out) == ValuesOf(s, t)
  {
    hide Exact, Distinct;
    assert |out| > 1 ==> |out[..|out| - 1]| == |out| - 1;
    NoneLeft(s);
    NoneLeft(t);
    NoneHolds<T>();
  }

  lemma NoneHolds<T(!new)>()
    ensures forall v: T :: !Holds<T>([], v)
  {
  }

  lemma PopsDescend<T(!new)>(priority: (T, int) -> int64, now: int, s: seq<Item<T>>, t: seq<Item<T>>, out: seq<Item<T>>)
    ensures Falling(priority, now, s, t, [], out) ==>
              Descends(ValuesOf(s, t), out, priority, now)
  {
    hide Holds;
  }

  // ----- whole runs -----

  /** The values held after k operations. */
  ghost function Held<T(!new)>(first: iset<T>, ops: seq<Op<T>>, outs: seq<seq<Item<T>>>, k: nat): iset<T>
    requires k <= |ops| && k <= |outs|
  {
    if k == 0 then first else After(Held(first, ops, outs, k - 1), ops[k - 1], outs[k - 1])
  }

  lemma {:induction false} HeldSame<T(!new)>(first: iset<T>, ops: seq<Op<T>>, outs: seq<seq<Item<T>>>, out: seq<Item<T>>,
                                             k: nat)
    requires k <= |ops| && k <= |outs|
    ensures Held(first, ops, outs + [out], k) == Held(first, ops, outs, k)
  {
    if k > 0 {
      HeldSame(first, ops, outs, out, k - 1);
    }
  }

  /** Every value that is ever in the queue. */
  ghost function Ever<T(!new)>(first: iset<T>, ops: seq<Op<T>>): iset<T> {
    first + iset v | OpPush(v) in ops
  }

  lemma {:induction false} HeldEver<T(!new)>(first: iset<T>, ops: seq<Op<T>>, outs: seq<seq<Item<T>>>, k: nat)
    requires k <= |ops| && k <= |outs|
    ensures Held(first, ops, outs, k) <= Ever(first, ops)
  {
    if k > 0 {
      HeldEver(first, ops, outs, k - 1);
      assert ops[k - 1] in ops;
    }
  }

  /** When the queue was last refreshed before operation k. */
  ghost function LastRefresh<T>(first: int, ops: seq<Op<T>>, times: seq<int>, k: nat): int
    requires k <= |ops| == |times|
  {
    if k == 0 then first else if ops[k - 1].OpRefresh? then times[k - 1] else LastRefresh(first, ops, times, k - 1)
  }

  /** Every refresh and every pop comes within a period after a refresh. */
  ghost predicate OnTime<T>(first: int, period: nat, ops: seq<Op<T>>, times: seq<int>)
    requires |ops| == |times|
  {
    forall k :: 0 <= k < |ops| && (ops[k].OpRefresh? || ops[k].OpMultiPop?) ==>
      times[k] <= LastRefresh(first, ops, times, k) + period
  }

  /** The contents of the two queues, with their estimates. */
  datatype Snapshot<T> = Snapshot(first: seq<Item<T>>, second: seq<Item<T>>)

  ghost function Now<T(!new)>(q: LazyQueue<T>): Snapshot<T>
    reads q, q.queue0, q.queue1
  {
    Snapshot(q.queue0.contents, q.queue1.contents)
  }

  /** The queued estimates, and what an operation evaluates and estimates, lie in a window. */
  ghost predicate TightIn<T(!new)>(at: Snapshot<T>, op: Op<T>, priority: (T, int) -> int64,
                                   maxPriority: (T, int, int) -> int64, now: int, until: int, period: nat, base: int)
  {
    && Within(base, at.first) && Within(base, at.second)
    && Suits(priority, maxPriority, ValuesOf(at.first, []), ValuesOf(at.first, at.second), op, now, until, period, base)
  }

  ghost predicate Tight<T(!new)>(at: Snapshot<T>, op: Op<T>, priority: (T, int) -> int64,
                                 maxPriority: (T, int, int) -> int64, now: int, until: int, period: nat)
  {
    exists base :: TightIn(at, op, priority, maxPriority, now, until, period, base)
  }

  /** Each of the first k operations found the contents of its moment in a window of its own. */
  ghost predicate AllTight<T(!new)>(trace: seq<Snapshot<T>>, ops: seq<Op<T>>, times: seq<int>,
                                    priority: (T, int) -> int64, maxPriority: (T, int, int) -> int64, refreshed: int,
                                    period: nat, k: nat)
    requires k <= |ops| == |times| && k <= |trace|
  {
    forall j :: 0 <= j < k ==>
      Tight(trace[j], ops[j], priority, maxPriority, times[j], LastRefresh(refreshed, ops, times, j) + 2 * period, period)
  }

  /** Refreshes and pops on time, an estimate that is a bound, and queues in order at the start. */
  ghost predicate Prompt<T(!new)>(q: LazyQueue<T>, ops: seq<Op<T>>, times: seq<int>)
    requires |ops| == |times|
    reads q, q.queue0, q.queue1
  {
    q.Trusted() && OnTime(q.refreshed, q.period, ops, times) && InOrder(Now(q))
  }

  ghost predicate InOrder<T>(at: Snapshot<T>) {
    Heap.IsHeap(at.first, Priority) && Heap.IsHeap(at.second, Priority)
  }

  /** One window that holds the queued estimates, and at all times of the run the priorities and estimates of values. */
  ghost predicate Narrow<T(!new)>(q: LazyQueue<T>, ops: seq<Op<T>>, times: seq<int>, base: int)
    requires |ops| == |times|
    reads q, q.queue0, q.queue1
  {
    && Within(base, q.queue0.contents) && Within(base, q.queue1.contents)
    && Narrows(q.priority, q.maxPriority, q.period, q.refreshed, Ever(q.All(), ops), ops, times, base)
  }

  ghost predicate Narrows<T(!new)>(priority: (T, int) -> int64, maxPriority: (T, int, int) -> int64, period: nat,
                                   refreshed: int, vs: iset<T>, ops: seq<Op<T>>, times: seq<int>, base: int)
    requires |ops| == |times|
  {
    forall v, k :: v in vs && 0 <= k < |times| ==>
      Windows(priority, maxPriority, v, times[k], LastRefresh(refreshed, ops, times, k) + 2 * period, times[k] + period,
              base)
  }

  ghost predicate Windows<T>(priority: (T, int) -> int64, maxPriority: (T, int, int) -> int64, v: T, now: int, until: int,
                             next: int, base: int)
  {
    && InWindow(base, priority(v, now))
    && InWindow(base, maxPriority(v, now, until))
    && InWindow(base, maxPriority(v, now, next))
  }

  /** What was popped so far is what the plain queue may pop. */
  ghost predicate Traced<T(!new)>(first: iset<T>, ops: seq<Op<T>>, times: seq<int>, outs: seq<seq<Item<T>>>,
                                  priority: (T, int) -> int64)
    requires |outs| <= |ops| == |times|
  {
    forall k :: 0 <= k < |outs| ==> Legal(Held(first, ops, outs, k), ops[k], outs[k], priority, times[k])
  }

  /** Every pop so far took the highest, as long as the operations up to it were tight. */
  ghost predicate Highest<T(!new)>(first: iset<T>, ops: seq<Op<T>>, times: seq<int>, outs: seq<seq<Item<T>>>,
                                   trace: seq<Snapshot<T>>, priority: (T, int) -> int64,
                                   maxPriority: (T, int, int) -> int64, refreshed: int, period: nat)
    requires |outs| <= |ops| == |times| && |outs| <= |trace|
  {
    forall k :: 0 <= k < |outs| && AllTight(trace, ops, times, priority, maxPriority, refreshed, period, k + 1) ==>
      Descends(Held(first, ops, outs, k + 1), outs[k], priority, times[k])
  }

  lemma TracedNext<T(!new)>(first: iset<T>, ops: seq<Op<T>>, times: seq<int>, outs: seq<seq<Item<T>>>, out: seq<Item<T>>,
                            priority: (T, int) -> int64, left: iset<T>)
    requires |outs| < |ops| == |times| && Traced(first, ops, times, outs, priority)
    requires Legal(Held(first, ops, outs, |outs|), ops[|outs|], out, priority, times[|outs|])
    requires left == After(Held(first, ops, outs, |outs|), ops[|outs|], out)
    ensures Traced(first, ops, times, outs + [out], priority)
    ensures left == Held(first, ops, outs + [out], |outs| + 1)
    ensures forall k :: 0 <= k <= |outs| ==> Held(first, ops, outs + [out], k) == Held(first, ops, outs, k)
  {
    hide Legal, After;
    forall k | 0 <= k <= |outs|
      ensures Held(first, ops, outs + [out], k) == Held(first, ops, outs, k)
    {
      HeldSame(first, ops, outs, out, k);
    }
  }

  /** What the operations before found does not change. */
  lemma TightSame<T(!new)>(trace: seq<Snapshot<T>>, at: Snapshot<T>, ops: seq<Op<T>>, times: seq<int>,
                           priority: (T, int) -> int64, maxPriority: (T, int, int) -> int64, refreshed: int, period: nat,
                           k: nat)
    requires k <= |ops| == |times| && k <= |trace|
    ensures AllTight(trace + [at], ops, times, priority, maxPriority, refreshed, period, k)
       <==> AllTight(trace, ops, times, priority, maxPriority, refreshed, period, k)
  {
    hide Tight;
  }

  lemma HighestNext<T(!new)>(first: iset<T>, ops: seq<Op<T>>, times: seq<int>, outs: seq<seq<Item<T>>>, out: seq<Item<T>>,
                             trace: seq<Snapshot<T>>, at: Snapshot<T>, priority: (T, int) -> int64,
                             maxPriority: (T, int, int) -> int64, refreshed: int, period: nat)
    requires |outs| < |ops| == |times| && |trace| == |outs| + 1
    requires Highest(first, ops, times, outs, trace, priority, maxPriority, refreshed, period)
    requires forall k :: 0 <= k <= |outs| ==> Held(first, ops, outs + [out], k) == Held(first, ops, outs, k)
    requires AllTight(trace, ops, times, priority, maxPriority, refreshed, period, |outs| + 1) ==>
               Descends(Held(first, ops, outs + [out], |outs| + 1), out, priority, times[|outs|])
    ensures Highest(first, ops, times, outs + [out], trace + [at], priority, maxPriority, refreshed, period)
  {
    hide AllTight, Descends, Held;
    forall k | 0 <= k <= |outs| && AllTight(trace + [at], ops, times, priority, maxPriority, refreshed, period, k + 1)
      ensures Descends(Held(first, ops, outs + [out], k + 1), (outs + [out])[k], priority, times[k])
    {
      TightSame(trace, at, ops, times, priority, maxPriority, refreshed, period, k + 1);
    }
  }

  /** An operation that is tight finds queues in order fitting. */
  lemma TightFits<T(!new)>(q: LazyQueue<T>, op: Op<T>, now: int, base: int)
    requires q.popQueue.contents == [] && InOrder(Now(q))
    requires TightIn(Now(q), op, q.priority, q.maxPriority, now, q.maxUntil, q.period, base)
    ensures Fitting(q, op, now, base)
  {
    hide Suits, Within;
    NoneHeaped<T>(base);
  }

  lemma NoneHeaped<T>(base: int)
    ensures Heaped<T>(base, [])
  {
  }

  /** In a narrow run every operation is tight in the one window. */
  lemma NarrowTight<T(!new)>(q: LazyQueue<T>, ever: iset<T>, op: Op<T>, now: int, base: int)
    requires q.All() <= ever && (op.OpPush? ==> op.data in ever)
    requires forall v :: v in ever ==> Windows(q.priority, q.maxPriority, v, now, q.maxUntil, now + q.period, base)
    requires Within(base, q.queue0.contents) && Within(base, q.queue1.contents)
    ensures TightIn(Now(q), op, q.priority, q.maxPriority, now, q.maxUntil, q.period, base)
  {
    hide InWindow, Within, Holds;
    assert ValuesOf(q.queue0.contents, []) <= q.All() by { FirstOfAll(q); }
  }

  lemma FirstOfAll<T(!new)>(q: LazyQueue<T>)
    ensures ValuesOf(q.queue0.contents, []) <= q.All()
  {
  }

  lemma ValidLinked<T(!new)>(q: LazyQueue<T>)
    requires q.Valid()
    ensures q.Linked() && q.maxUntil == q.refreshed + 2 * q.period && q.popQueue.contents == []
  {
  }

  /** The snapshots lead from one to another, and hold the values the plain queue holds. */
  ghost predicate Follows<T(!new)>(trace: seq<Snapshot<T>>, start: Snapshot<T>, end: Snapshot<T>, first: iset<T>,
                                   ops: seq<Op<T>>, outs: seq<seq<Item<T>>>)
    requires |outs| <= |ops|
  {
    && |trace| == |outs| + 1 && trace[0] == start && trace[|outs|] == end
    && forall k :: 0 <= k <= |outs| ==> ValuesOf(trace[k].first, trace[k].second) == Held(first, ops, outs, k)
  }

  lemma FollowsNext<T(!new)>(trace: seq<Snapshot<T>>, start: Snapshot<T>, q: LazyQueue<T>, first: iset<T>,
                             ops: seq<Op<T>>, outs: seq<seq<Item<T>>>, out: seq<Item<T>>)
    requires |outs| < |ops| && |trace| == |outs| + 1 && Follows(trace, start, trace[|outs|], first, ops, outs)
    requires forall k :: 0 <= k <= |outs| ==> Held(first, ops, outs + [out], k) == Held(first, ops, outs, k)
    requires q.All() == Held(first, ops, outs + [out], |outs| + 1)
    ensures Follows(trace + [Now(q)], start, Now(q), first, ops, outs + [out])
  {
    hide Held;
  }

  lemma AllTightNext<T(!new)>(trace: seq<Snapshot<T>>, ops: seq<Op<T>>, times: seq<int>, priority: (T, int) -> int64,
                              maxPriority: (T, int, int) -> int64, refreshed: int, period: nat, k: nat)
    requires k < |ops| == |times| && k < |trace|
    ensures AllTight(trace, ops, times, priority, maxPriority, refreshed, period, k + 1) <==>
              && AllTight(trace, ops, times, priority, maxPriority, refreshed, period, k)
              && Tight(trace[k], ops[k], priority, maxPriority, times[k],
                       LastRefresh(refreshed, ops, times, k) + 2 * period, period)
  {
    hide Tight, LastRefresh;
  }

  lemma OrderlyMeans<T(!new)>(q: LazyQueue<T>, base: int)
    ensures q.Orderly(base) ==>
              InOrder(Now(q)) && Within(base, q.queue0.contents) && Within(base, q.queue1.contents)
  {
  }

  /** A window in which the next operation is tight, if there is one: the given one in a narrow run. */
  ghost function Window<T(!new)>(at: Snapshot<T>, op: Op<T>, priority: (T, int) -> int64,
                                 maxPriority: (T, int, int) -> int64, now: int, until: int, period: nat, base: int)
    : (w: int)
    ensures TightIn(at, op, priority, maxPriority, now, until, period, base) ==> w == base
    ensures Tight(at, op, priority, maxPriority, now, until, period) ==>
              TightIn(at, op, priority, maxPriority, now, until, period, w)
  {
    if TightIn(at, op, priority, maxPriority, now, until, period, base) then base
    else if Tight(at, op, priority, maxPriority, now, until, period) then
      var w :| TightIn(at, op, priority, maxPriority, now, until, period, w); w
    else base
  }

  lemma Starts<T(!new)>(q: LazyQueue<T>, ops: seq<Op<T>>, times: seq<int>)
    requires |ops| == |times|
    ensures Traced(q.All(), ops, times, [], q.priority) && q.All() == Held(q.All(), ops, [], 0)
    ensures Highest(q.All(), ops, times, [], [Now(q)], q.priority, q.maxPriority, q.refreshed, q.period)
    ensures Follows([Now(q)], Now(q), Now(q), q.All(), ops, [])
    ensures AllTight([Now(q)], ops, times, q.priority, q.maxPriority, q.refreshed, q.period, 0)
    ensures Prompt(q, ops, times) ==> InOrder(Now(q))
  {
    hide q.Trusted, InOrder;
  }

  /** The next operation of a narrow run. */
  lemma NarrowNow<T(!new)>(q: LazyQueue<T>, first: iset<T>, ops: seq<Op<T>>, times: seq<int>, outs: seq<seq<Item<T>>>,
                           refreshed: int, base: int)
    requires |outs| < |ops| == |times| && q.All() == Held(first, ops, outs, |outs|)
    requires q.maxUntil == LastRefresh(refreshed, ops, times, |outs|) + 2 * q.period
    requires Within(base, q.queue0.contents) && Within(base, q.queue1.contents)
    requires Narrows(q.priority, q.maxPriority, q.period, refreshed, Ever(first, ops), ops, times, base)
    ensures TightIn(Now(q), ops[|outs|], q.priority, q.maxPriority, times[|outs|], q.maxUntil, q.period, base)
  {
    hide q.All, Held, Windows, TightIn, Within, LastRefresh;
    HeldEver(first, ops, outs, |outs|);
    assert ops[|outs|] in ops;
    NarrowTight(q, Ever(first, ops), ops[|outs|], times[|outs|], base);
  }

  /**
    Any run of operations, with any priorities. The queue holds what the plain queue holds and pops what that may pop, the
    last index told for a queued item locates it, and all others were told -1. In a prompt run each pop comes in falling
    priority and leaves nothing higher, as long as each operation so far found the contents of its moment in a window of
    its own. One window for the whole run is a way to have that.
    */
  method Run<T(==,!new)>(q: LazyQueue<T>, ops: seq<Op<T>>, times: seq<int>, ghost base: int)
    returns (outs: seq<seq<Item<T>>>, ghost trace: seq<Snapshot<T>>)
    requires q.Valid() && |times| == |ops|
    requires forall k :: 0 <= k < |times| ==> q.clock <= times[k]
    requires forall k, l :: 0 <= k < l < |times| ==> times[k] <= times[l]
    modifies q, q.queue0.repr, q.queue1.repr, q.popQueue.repr, q.tracker
    ensures q.Valid() && |outs| == |ops|
    ensures forall v :: q.Has(v) ==> v in q.tracker.last && q.Located(q.tracker.last[v], v)
    ensures forall v :: !q.Has(v) && v in q.tracker.last ==> q.tracker.last[v] == -1
    ensures q.All() == Held(old(q.All()), ops, outs, |ops|)
    ensures Traced(old(q.All()), ops, times, outs, q.priority)
    ensures Follows(trace, old(Now(q)), Now(q), old(q.All()), ops, outs)
    ensures old(Prompt(q, ops, times)) ==>
              Highest(old(q.All()), ops, times, outs, trace, q.priority, q.maxPriority, old(q.refreshed), q.period)
    ensures old(Prompt(q, ops, times) && Narrow(q, ops, times, base)) ==>
              AllTight(trace, ops, times, q.priority, q.maxPriority, old(q.refreshed), q.period, |ops|)
  {
    hide q.Valid, q.Orderly, q.All, q.Sound, q.Current, Fitting, Legal, Descends, After, Narrows, Traced, Highest,
      q.Located, Bounding, q.Has, InOrder, AllTight, TightIn, Held, Follows, Window, Ever, Within;
    ghost var first, refreshed := q.All(), q.refreshed;
    ghost var prompt, narrow := Prompt(q, ops, times), Prompt(q, ops, times) && Narrow(q, ops, times, base);
    outs, trace := [], [Now(q)];
    Starts(q, ops, times);
    ValidLinked(q);
    var k := 0;
    while k < |ops|
      invariant 0 <= k <= |ops| && |outs| == k && |trace| == k + 1 && q.Valid() && (k < |ops| ==> q.clock <= times[k])
      invariant fresh(q.queue0.repr + q.queue1.repr - old(q.queue0.repr + q.queue1.repr))
      invariant fresh(q.popQueue.repr - old(q.popQueue.repr))
      invariant q.All() == Held(first, ops, outs, k) && Traced(first, ops, times, outs, q.priority)
      invariant Follows(trace, old(Now(q)), Now(q), first, ops, outs) && trace[k] == Now(q)
      invariant q.refreshed == LastRefresh(refreshed, ops, times, k)
      invariant prompt ==> q.punctual
      invariant prompt ==> Highest(first, ops, times, outs, trace, q.priority, q.maxPriority, refreshed, q.period)
      invariant prompt && AllTight(trace, ops, times, q.priority, q.maxPriority, refreshed, q.period, k) ==> InOrder(Now(q))
      invariant narrow ==> Within(base, q.queue0.contents) && Within(base, q.queue1.contents)
      invariant narrow ==> AllTight(trace, ops, times, q.priority, q.maxPriority, refreshed, q.period, k)
      invariant q.Linked() && q.maxUntil == q.refreshed + 2 * q.period && q.popQueue.contents == []
    {
      ghost var tight := Tight(Now(q), ops[k], q.priority, q.maxPriority, times[k], q.maxUntil, q.period);
      ghost var ordered := prompt && AllTight(trace, ops, times, q.priority, q.maxPriority, refreshed, q.period, k);
      if narrow {
        NarrowNow(q, first, ops, times, outs, refreshed, base);
      }
      ghost var window := Window(Now(q), ops[k], q.priority, q.maxPriority, times[k], q.maxUntil, q.period, base);
      if ordered && tight {
        TightFits(q, ops[k], times[k], window);
      }
      var out := Step(q, ops[k], times[k], window);
      ValidLinked(q);
      OrderlyMeans(q, window);
      TracedNext(first, ops, times, outs, out, q.priority, q.All());
      AllTightNext(trace, ops, times, q.priority, q.maxPriority, refreshed, q.period, k);
      if prompt {
        HighestNext(first, ops, times, outs, out, trace, Now(q), q.priority, q.maxPriority, refreshed, q.period);
      }
      TightSame(trace, Now(q), ops, times, q.priority, q.maxPriority, refreshed, q.period, k + 1);
      FollowsNext(trace, old(Now(q)), q, first, ops, outs, out);
      trace := trace + [Now(q)];
      outs := outs + [out];
      k := k + 1;
    }
    AllLocated(q);
  }

  lemma AllLocated<T(!new)>(q: LazyQueue<T>)
    requires q.Valid()
    ensures forall v :: q.Has(v) ==> v in q.tracker.last && q.Located(q.tracker.last[v], v)
    ensures forall v :: !q.Has(v) && v in q.tracker.last ==> q.tracker.last[v] == -1
  {
    hide q.Sound, q.Has, q.Located, q.Current;
    forall v
      ensures q.Has(v) ==> v in q.tracker.last && q.Located(q.tracker.last[v], v)
      ensures !q.Has(v) && v in q.tracker.last ==> q.tracker.last[v] == -1
    {
      q.LastLocates(v);
    }
  }
}
