/**
  The request distributor of the bloom matcher: a step machine over the cases of its select loop, together with
  the retrievers that follow the Multiplex protocol (wait for a bit, collect sections of it, deliver them).
  */
module Distributor {
  import opened SortSearch
  import opened Wrappers

  const MAX_UINT64: nat := 0xFFFF_FFFF_FFFF_FFFF

  /** Where a retriever is in the protocol. */
  datatype Retriever =
    | Idle
    | Waiting                                  // offers itself for a bit
    | Assigned(bit: nat)                       // has a bit but has not collected sections yet
    | Holding(bit: nat, sections: seq<nat>)    // has collected sections and not delivered them yet

  datatype State = State(
    requests: map<nat, seq<nat>>,   // per bit, the sections requested, ordered
    unallocs: set<nat>,             // bits with pending requests but without a retriever
    listening: bool,                // whether new retrievers are listened for
    allocs: int,                    // number of active allocations
    retrievers: seq<Retriever>,
    requested: multiset<(nat, nat)>,  // history: every (bit, section) that was requested
    delivered: multiset<(nat, nat)>)  // history: every (bit, section) that was delivered

  function Queue(s: State, bit: nat): seq<nat> {
    if bit in s.requests then s.requests[bit] else []
  }

  function Init(): State {
    State(map[], {}, false, 0, [], multiset{}, multiset{})
  }

  // ----- the steps -----

  datatype Action =
    | Join                                                     // a new retriever starts
    | Offer(id: nat)                                           // a retriever asks for a bit
    | Request(bit: nat, section: nat, to: Option<nat>)         // a scheduler requests a section
    | Arrive(id: nat, bit: nat)                                // a waiting retriever is received
    | Collect(id: nat, want: nat, to: Option<nat>)             // a retriever collects sections
    | Deliver(id: nat, present: seq<bool>, to: Option<nat>)    // a retriever delivers its sections

  /** `assign`: hands the bit to a waiting retriever if one is taken, or records it and starts listening. */
  function Assign(s: State, bit: nat, to: Option<nat>): State
    requires to.Some? ==> to.value < |s.retrievers|
  {
    match to
    case Some(id) => s.(allocs := s.allocs + 1, retrievers := s.retrievers[id := Assigned(bit)])
    case None => s.(listening := true, unallocs := s.unallocs + {bit})
  }

  ghost predicate Ready(s: State, to: Option<nat>) {
    to.Some? ==> to.value < |s.retrievers| && s.retrievers[to.value] == Waiting
  }

  /** The bit that the search over `unallocs` ends with: one with the lowest first section, or the initial 0. */
  ghost predicate Picked(s: State, bit: nat) {
    || (&& bit in s.unallocs && Queue(s, bit) != [] && Queue(s, bit)[0] < MAX_UINT64
        && forall idx :: idx in s.unallocs ==> Queue(s, idx) != [] && Queue(s, bit)[0] <= Queue(s, idx)[0])
    || (bit == 0 && forall idx :: idx in s.unallocs ==> Queue(s, idx) != [] && Queue(s, idx)[0] >= MAX_UINT64)
  }

  ghost predicate Enabled(s: State, a: Action) {
    match a
    case Join => true
    case Offer(id) => id < |s.retrievers| && s.retrievers[id] == Idle
    case Request(_, section, to) => section < MAX_UINT64 && Ready(s, to)
    case Arrive(id, bit) =>
      s.listening && id < |s.retrievers| && s.retrievers[id] == Waiting && Picked(s, bit)
    case Collect(id, _, to) =>
      id < |s.retrievers| && s.retrievers[id].Assigned? && Ready(s, to)
    case Deliver(id, present, to) =>
      && id < |s.retrievers| && s.retrievers[id].Holding?
      && |present| == |s.retrievers[id].sections| && Ready(s, to)
  }

  function RequestStep(s: State, bit: nat, section: nat, to: Option<nat>): State
    requires to.Some? ==> to.value < |s.retrievers|
  {
    var queue := Queue(s, bit);
    var s1 := s.(requests := s.requests[bit := Insert(queue, section)],
                 requested := s.requested + multiset{(bit, section)});
    if |queue| == 0 then Assign(s1, bit, to) else s1
  }

  function ArriveStep(s: State, id: nat, bit: nat): State
    requires id < |s.retrievers|
  {
    var unallocs := s.unallocs - {bit};
    s.(unallocs := unallocs, listening := if unallocs == {} then false else s.listening,
       allocs := s.allocs + 1, retrievers := s.retrievers[id := Assigned(bit)])
  }

  function CollectStep(s: State, id: nat, want: nat, to: Option<nat>): State
    requires id < |s.retrievers| && s.retrievers[id].Assigned?
    requires to.Some? ==> to.value < |s.retrievers|
  {
    var bit := s.retrievers[id].bit;
    var queue := Queue(s, bit);
    if want >= |queue| then
      s.(requests := s.requests - {bit}, retrievers := s.retrievers[id := Holding(bit, queue)])
    else
      var s1 := s.(requests := s.requests[bit := queue[want..]],
                   retrievers := s.retrievers[id := Holding(bit, queue[..want])]);
      Assign(s1, bit, to)
  }

  /** The sections whose bitset is present, or those whose bitset is missing. */
  function Split(sections: seq<nat>, present: seq<bool>, which: bool): seq<nat>
    requires |sections| == |present|
  {
    if sections == [] then []
    else
      var n := |sections| - 1;
      Split(sections[..n], present[..n], which) + if present[n] == which then [sections[n]] else []
  }

  function Pairs(bit: nat, sections: seq<nat>): multiset<(nat, nat)> {
    if sections == [] then multiset{}
    else Pairs(bit, sections[..|sections| - 1]) + multiset{(bit, sections[|sections| - 1])}
  }

  function DeliverStep(s: State, id: nat, present: seq<bool>, to: Option<nat>): State
    requires id < |s.retrievers| && s.retrievers[id].Holding? && |present| == |s.retrievers[id].sections|
    requires to.Some? ==> to.value < |s.retrievers|
  {
    var bit, sections := s.retrievers[id].bit, s.retrievers[id].sections;
    var missing := Split(sections, present, false);
    var s1 := s.(allocs := s.allocs - 1, retrievers := s.retrievers[id := Idle],
                 delivered := s.delivered + Pairs(bit, Split(sections, present, true)));
    if |missing| == 0 then s1
    else
      var queue := InsertAll(Queue(s, bit), missing);
      var s2 := s1.(requests := s1.requests[bit := queue]);
      if |queue| == |missing| then Assign(s2, bit, to) else s2
  }

  function Apply(s: State, a: Action): State
    requires Enabled(s, a)
  {
    match a
    case Join => s.(retrievers := s.retrievers + [Idle])
    case Offer(id) => s.(retrievers := s.retrievers[id := Waiting])
    case Request(bit, section, to) => RequestStep(s, bit, section, to)
    case Arrive(id, bit) => ArriveStep(s, id, bit)
    case Collect(id, want, to) => CollectStep(s, id, want, to)
    case Deliver(id, present, to) => DeliverStep(s, id, present, to)
  }

  // ----- counting retrievers -----

  /** How many retrievers have the bit and have not collected. */
  function AssignedTo(rs: seq<Retriever>, bit: nat): nat {
    if rs == [] then 0 else AssignedTo(rs[..|rs| - 1], bit) + B(rs[|rs| - 1] == Assigned(bit))
  }

  /** How many retrievers have a bit or hold sections. */
  function Active(rs: seq<Retriever>): nat {
    if rs == [] then 0 else Active(rs[..|rs| - 1]) + B(rs[|rs| - 1].Assigned? || rs[|rs| - 1].Holding?)
  }

  function HeldBy(r: Retriever, bit: nat, section: nat): nat {
    if r.Holding? && r.bit == bit then multiset(r.sections)[section] else 0
  }

  /** How often the section of the bit is held. */
  function Held(rs: seq<Retriever>, bit: nat, section: nat): nat {
    if rs == [] then 0 else Held(rs[..|rs| - 1], bit, section) + HeldBy(rs[|rs| - 1], bit, section)
  }

  lemma {:induction false} UpdateCounts(rs: seq<Retriever>, id: nat, r: Retriever, bit: nat, section: nat)
    requires id < |rs|
    ensures AssignedTo(rs[id := r], bit) + B(rs[id] == Assigned(bit))
         == AssignedTo(rs, bit) + B(r == Assigned(bit))
    ensures Active(rs[id := r]) + B(rs[id].Assigned? || rs[id].Holding?)
         == Active(rs) + B(r.Assigned? || r.Holding?)
    ensures Held(rs[id := r], bit, section) + HeldBy(rs[id], bit, section)
         == Held(rs, bit, section) + HeldBy(r, bit, section)
  {
    hide HeldBy;
    var n := |rs| - 1;
    assert rs[id := r][..n] == if id == n then rs[..n] else rs[..n][id := r];
    if id < n {
      UpdateCounts(rs[..n], id, r, bit, section);
    }
  }

  /** The counts after one retriever changed. */
  lemma RetrieverChanged(rs: seq<Retriever>, id: nat, r: Retriever)
    requires id < |rs|
    ensures forall bit: nat :: AssignedTo(rs[id := r], bit) + B(rs[id] == Assigned(bit))
                            == AssignedTo(rs, bit) + B(r == Assigned(bit))
    ensures Active(rs[id := r]) + B(rs[id].Assigned? || rs[id].Holding?)
         == Active(rs) + B(r.Assigned? || r.Holding?)
    ensures forall bit: nat, section: nat ::
              Held(rs[id := r], bit, section) + HeldBy(rs[id], bit, section)
              == Held(rs, bit, section) + HeldBy(r, bit, section)
  {
    hide AssignedTo, Active, Held, HeldBy;
    forall bit: nat
      ensures AssignedTo(rs[id := r], bit) + B(rs[id] == Assigned(bit))
           == AssignedTo(rs, bit) + B(r == Assigned(bit))
    {
      UpdateCounts(rs, id, r, bit, 0);
    }
    forall bit: nat, section: nat
      ensures Held(rs[id := r], bit, section) + HeldBy(rs[id], bit, section)
           == Held(rs, bit, section) + HeldBy(r, bit, section)
    {
      UpdateCounts(rs, id, r, bit, section);
    }
    UpdateCounts(rs, id, r, 0, 0);
  }

  lemma {:induction false} AssignedCounts(rs: seq<Retriever>, id: nat, bit: nat)
    requires id < |rs| && rs[id] == Assigned(bit)
    ensures AssignedTo(rs, bit) >= 1
  {
    var n := |rs| - 1;
    if id < n {
      AssignedCounts(rs[..n], id, bit);
    }
  }

  // ----- the invariant -----

  /** A bit's queue is non-empty exactly when the bit is unallocated or has exactly one owner, never both. */
  ghost predicate Owned(s: State) {
    forall bit: nat :: B(bit in s.unallocs) + AssignedTo(s.retrievers, bit) == B(bit in s.requests)
  }

  ghost predicate AllBelowMax(q: seq<nat>) {
    forall k :: 0 <= k < |q| ==> q[k] < MAX_UINT64
  }

  ghost predicate QueuesOk(s: State) {
    forall bit :: bit in s.requests ==>
      s.requests[bit] != [] && Sorted(s.requests[bit]) && AllBelowMax(s.requests[bit])
  }

  /** The sections a retriever holds will not break the search for the lowest section when they come back. */
  ghost predicate HoldingsOk(s: State) {
    forall id :: 0 <= id < |s.retrievers| && s.retrievers[id].Holding? ==> AllBelowMax(s.retrievers[id].sections)
  }

  /** Every request is in a queue, in the hands of a retriever or delivered, as often as it was made. */
  ghost predicate Conserved(s: State) {
    forall bit: nat, section: nat ::
      s.requested[(bit, section)]
      == multiset(Queue(s, bit))[section] + Held(s.retrievers, bit, section) + s.delivered[(bit, section)]
  }

  ghost predicate Inv(s: State) {
    && Owned(s)
    && QueuesOk(s)
    && HoldingsOk(s)
    && Conserved(s)
    && s.allocs == Active(s.retrievers)
    && s.listening == (s.unallocs != {})
  }

  lemma InitInv()
    ensures Inv(Init())
  {
  }

  // ----- every step keeps it -----

  lemma JoinKeeps(s: State)
    requires Inv(s)
    ensures Inv(s.(retrievers := s.retrievers + [Idle]))
  {
    var rs := s.retrievers + [Idle];
    assert rs[..|s.retrievers|] == s.retrievers;
    assert forall bit: nat :: AssignedTo(rs, bit) == AssignedTo(s.retrievers, bit);
    assert forall bit: nat, section: nat :: Held(rs, bit, section) == Held(s.retrievers, bit, section);
  }

  lemma OfferKeeps(s: State, id: nat)
    requires Inv(s) && id < |s.retrievers| && s.retrievers[id] == Idle
    ensures Inv(s.(retrievers := s.retrievers[id := Waiting]))
  {
    hide AssignedTo, Active, Held;
    RetrieverChanged(s.retrievers, id, Waiting);
  }

  /** All of the invariant, except that the bit has just got a queue and has no owner yet. */
  ghost predicate Unowned(s: State, bit: nat) {
    && bit in s.requests && bit !in s.unallocs && AssignedTo(s.retrievers, bit) == 0
    && (forall b: nat :: b != bit ==> B(b in s.unallocs) + AssignedTo(s.retrievers, b) == B(b in s.requests))
    && QueuesOk(s)
    && HoldingsOk(s)
    && Conserved(s)
    && s.allocs == Active(s.retrievers)
    && s.listening == (s.unallocs != {})
  }

  lemma AssignCompletes(s: State, bit: nat, to: Option<nat>)
    requires Unowned(s, bit) && Ready(s, to)
    ensures Inv(Assign(s, bit, to))
  {
    hide AssignedTo, Active, Held, QueuesOk, AllBelowMax;
    if to.Some? {
      RetrieverChanged(s.retrievers, to.value, Assigned(bit));
    } else {
      assert bit in Assign(s, bit, to).unallocs;
    }
    assert QueuesOk(Assign(s, bit, to)) by {
      SameQueues(s, Assign(s, bit, to));
    }
  }

  lemma SameQueues(s: State, s': State)
    requires QueuesOk(s) && s'.requests == s.requests
    ensures QueuesOk(s')
  {
  }

  /** A step that changes the queue of one bit keeps the queues in order if the new queue is. */
  lemma QueueReplaced(s: State, s': State, bit: nat, q: seq<nat>)
    requires QueuesOk(s) && s'.requests == s.requests[bit := q]
    requires q != [] && Sorted(q) && AllBelowMax(q)
    ensures QueuesOk(s')
  {
    hide Sorted, AllBelowMax;
  }

  /** Requests stay accounted for if the books of each pair change by the same amount on both sides. */
  lemma Rebalanced(s: State, s': State)
    requires Conserved(s)
    requires forall b: nat, x: nat ::
               s'.requested[(b, x)] + multiset(Queue(s, b))[x] + Held(s.retrievers, b, x) + s.delivered[(b, x)]
               == s.requested[(b, x)] + multiset(Queue(s', b))[x] + Held(s'.retrievers, b, x) + s'.delivered[(b, x)]
    ensures Conserved(s')
  {
    hide Held, Queue;
  }

  lemma RequestBooks(s: State, s': State, bit: nat, section: nat)
    requires Conserved(s) && Sorted(Queue(s, bit))
    requires s' == s.(requests := s.requests[bit := Insert(Queue(s, bit), section)],
                      requested := s.requested + multiset{(bit, section)})
    ensures Conserved(s')
  {
    hide Held, Insert, Sorted;
    InsertSorted(Queue(s, bit), section);
    forall b: nat, x: nat
      ensures s'.requested[(b, x)] + multiset(Queue(s, b))[x] == s.requested[(b, x)] + multiset(Queue(s', b))[x]
    {
    }
    Rebalanced(s, s');
  }

  /** A request adds its section to the queue of its bit, and nothing to the others. */
  lemma RequestKeeps(s: State, bit: nat, section: nat, to: Option<nat>)
    requires Inv(s) && section < MAX_UINT64 && Ready(s, to)
    ensures var s' := RequestStep(s, bit, section, to);
            && Inv(s') && s'.delivered == s.delivered && s'.requested == s.requested + multiset{(bit, section)}
            && multiset(Queue(s', bit)) == multiset(Queue(s, bit)) + multiset{section}
            && (forall b: nat :: b != bit ==> Queue(s', b) == Queue(s, b))
            && (Queue(s, bit) == [] && to.Some? ==> s'.retrievers[to.value] == Assigned(bit))
  {
    hide AssignedTo, Active, Held, Insert, Sorted, QueuesOk, Conserved, AllBelowMax;
    var queue := Queue(s, bit);
    QueueFacts(s, bit);
    InsertSorted(queue, section);
    InsertBelowMax(queue, section);
    var s1 := s.(requests := s.requests[bit := Insert(queue, section)],
                 requested := s.requested + multiset{(bit, section)});
    QueueReplaced(s, s1, bit, Insert(queue, section));
    RequestBooks(s, s1, bit, section);
    assert Owned(s);
    if |queue| == 0 {
      assert Unowned(s1, bit);
      AssignCompletes(s1, bit, to);
    }
  }

  lemma QueueFacts(s: State, bit: nat)
    requires QueuesOk(s)
    ensures Sorted(Queue(s, bit)) && AllBelowMax(Queue(s, bit))
    ensures Queue(s, bit) == [] <==> bit !in s.requests
  {
  }

  lemma NothingSorted()
    ensures Sorted([])
  {
  }

  lemma InsertBelowMax(q: seq<nat>, x: nat)
    requires AllBelowMax(q) && x < MAX_UINT64
    ensures AllBelowMax(Insert(q, x))
  {
  }

  /** A retriever that arrives gets an unallocated bit, one that waits for the lowest section. */
  lemma ArriveKeeps(s: State, id: nat, bit: nat)
    requires Inv(s) && Enabled(s, Arrive(id, bit))
    ensures var s' := ArriveStep(s, id, bit);
            && Inv(s') && s'.retrievers[id] == Assigned(bit) && s'.requests == s.requests
            && bit in s.unallocs && s'.unallocs == s.unallocs - {bit}
            && forall idx: nat :: idx in s.unallocs ==>
                 Queue(s, bit) != [] && Queue(s, idx) != [] && Queue(s, bit)[0] <= Queue(s, idx)[0]
  {
    hide AssignedTo, Active, Held, Sorted;
    RetrieverChanged(s.retrievers, id, Assigned(bit));
    LowestIsUnallocated(s, bit);
    var s' := ArriveStep(s, id, bit);
    assert Owned(s) && Owned(s');
    QueueFacts(s, bit);
  }

  /** While sections stay below the maximum, the search ends with an unallocated bit. */
  lemma LowestIsUnallocated(s: State, bit: nat)
    requires QueuesOk(s) && Owned(s) && s.listening == (s.unallocs != {}) && s.listening && Picked(s, bit)
    ensures bit in s.unallocs
  {
    hide AssignedTo;
    var idx :| idx in s.unallocs;
    assert B(idx in s.unallocs) + AssignedTo(s.retrievers, idx) == B(idx in s.requests);
    assert s.requests[idx][0] < MAX_UINT64;
  }

  lemma CollectBooks(s: State, s': State, id: nat, bit: nat, want: nat)
    requires Conserved(s) && id < |s.retrievers| && s.retrievers[id] == Assigned(bit) && want <= |Queue(s, bit)|
    requires s'.requested == s.requested && s'.delivered == s.delivered
    requires s'.retrievers == s.retrievers[id := Holding(bit, Queue(s, bit)[..want])]
    requires forall b: nat :: Queue(s', b) == if b == bit then Queue(s, bit)[want..] else Queue(s, b)
    ensures Conserved(s')
  {
    hide Held, Queue, AssignedTo, Active;
    var queue := Queue(s, bit);
    RetrieverChanged(s.retrievers, id, Holding(bit, queue[..want]));
    assert queue == queue[..want] + queue[want..];
    Rebalanced(s, s');
  }

  lemma PartsInOrder(q: seq<nat>, want: nat)
    requires Sorted(q) && AllBelowMax(q) && want <= |q|
    ensures Sorted(q[want..]) && AllBelowMax(q[want..]) && AllBelowMax(q[..want])
  {
  }

  /**
    The search for a bit ends with an unallocated one exactly when bit 0 is unallocated or some unallocated bit
    waits for a section below the maximum. Sections are block numbers divided by the section size, so they are.
    */
  lemma SearchFindsUnallocated(s: State)
    requires forall idx :: idx in s.unallocs ==> Queue(s, idx) != []
    ensures (forall bit: nat :: Picked(s, bit) ==> bit in s.unallocs)
       <==> 0 in s.unallocs || exists idx :: idx in s.unallocs && Queue(s, idx)[0] < MAX_UINT64
  {
    if 0 !in s.unallocs && !exists idx :: idx in s.unallocs && Queue(s, idx)[0] < MAX_UINT64 {
      assert Picked(s, 0);
    }
  }

  /** When bit 5 alone waits, for the largest section number, the search ends with bit 0. */
  lemma MaxSectionNotFound(s: State)
    requires s.unallocs == {5} && Queue(s, 5) == [MAX_UINT64]
    ensures Picked(s, 0) && 0 !in s.unallocs
  {
    assert 5 in s.unallocs;
  }

  lemma SectionsBelowMax(block: nat, size: nat)
    requires block <= MAX_UINT64 && size >= 8
    ensures block / size < MAX_UINT64
  {
    assert block / size * size <= block;
  }

  /** The search of the source over the unallocated bits, in any order. */
  method PickBit(s: State) returns (bit: nat)
    requires forall idx :: idx in s.unallocs ==> Queue(s, idx) != []
    ensures Picked(s, bit)
  {
    bit := 0;
    var best := MAX_UINT64;
    var rest := s.unallocs;
    while rest != {}
      invariant rest <= s.unallocs
      invariant forall idx :: idx in s.unallocs - rest ==> best <= Queue(s, idx)[0]
      invariant best < MAX_UINT64 ==> bit in s.unallocs && best == Queue(s, bit)[0]
      invariant best >= MAX_UINT64 ==> bit == 0 && best == MAX_UINT64
    {
      var idx :| idx in rest;
      if Queue(s, idx)[0] < best {
        bit, best := idx, Queue(s, idx)[0];
      }
      rest := rest - {idx};
    }
    assert s.unallocs - rest == s.unallocs;
  }

  /** The retriever holds the first sections of the queue, as many as it wants or all there are. */
  ghost predicate Taken(s: State, s': State, id: nat, bit: nat, want: nat) {
    && id < |s'.retrievers| && s'.retrievers[id].Holding? && s'.retrievers[id].bit == bit
    && s'.retrievers[id].sections + Queue(s', bit) == Queue(s, bit)
    && |s'.retrievers[id].sections| == if want < |Queue(s, bit)| then want else |Queue(s, bit)|
  }

  /** Collecting takes the lowest sections of the bit and leaves the others to be assigned again. */
  lemma CollectKeeps(s: State, id: nat, want: nat, to: Option<nat>)
    requires Inv(s) && Enabled(s, Collect(id, want, to))
    ensures var s', bit := CollectStep(s, id, want, to), s.retrievers[id].bit;
            && Inv(s') && Taken(s, s', id, bit, want) && forall b: nat :: b != bit ==> Queue(s', b) == Queue(s, b)
  {
    if want >= |Queue(s, s.retrievers[id].bit)| {
      CollectAllKeeps(s, id, want, to);
    } else {
      CollectSomeKeeps(s, id, want, to);
    }
  }

  /** The whole queue is collected. */
  lemma CollectAllKeeps(s: State, id: nat, want: nat, to: Option<nat>)
    requires Inv(s) && Enabled(s, Collect(id, want, to)) && want >= |Queue(s, s.retrievers[id].bit)|
    ensures var s', bit := CollectStep(s, id, want, to), s.retrievers[id].bit;
            && Inv(s') && Taken(s, s', id, bit, want) && forall b: nat :: b != bit ==> Queue(s', b) == Queue(s, b)
  {
    hide AssignedTo, Active, Held, Sorted, Conserved, AllBelowMax, QueuesOk;
    var bit := s.retrievers[id].bit;
    var queue := Queue(s, bit);
    QueueFacts(s, bit);
    AssignedCounts(s.retrievers, id, bit);
    assert B(bit in s.unallocs) + AssignedTo(s.retrievers, bit) == B(bit in s.requests);
    var s1 := CollectStep(s, id, want, to);
    RetrieverChanged(s.retrievers, id, Holding(bit, queue));
    assert queue[..|queue|] == queue && queue[|queue|..] == [];
    CollectBooks(s, s1, id, bit, |queue|);
    QueueRemoved(s, s1, bit);
  }

  /** Some of the queue is collected, and the bit is assigned again for the rest. */
  lemma CollectSomeKeeps(s: State, id: nat, want: nat, to: Option<nat>)
    requires Inv(s) && Enabled(s, Collect(id, want, to)) && want < |Queue(s, s.retrievers[id].bit)|
    ensures var s', bit := CollectStep(s, id, want, to), s.retrievers[id].bit;
            && Inv(s') && Taken(s, s', id, bit, want) && forall b: nat :: b != bit ==> Queue(s', b) == Queue(s, b)
  {
    hide AssignedTo, Active, Held, Sorted, Conserved, AllBelowMax, QueuesOk;
    var bit := s.retrievers[id].bit;
    var queue := Queue(s, bit);
    QueueFacts(s, bit);
    AssignedCounts(s.retrievers, id, bit);
    assert B(bit in s.unallocs) + AssignedTo(s.retrievers, bit) == B(bit in s.requests);
    RetrieverChanged(s.retrievers, id, Holding(bit, queue[..want]));
    PartsInOrder(queue, want);
    var s1 := s.(requests := s.requests[bit := queue[want..]],
                 retrievers := s.retrievers[id := Holding(bit, queue[..want])]);
    QueueReplaced(s, s1, bit, queue[want..]);
    CollectBooks(s, s1, id, bit, want);
    assert queue[..want] + queue[want..] == queue;
    assert Unowned(s1, bit);
    AssignCompletes(s1, bit, to);
  }

  lemma QueueRemoved(s: State, s': State, bit: nat)
    requires QueuesOk(s) && s'.requests == s.requests - {bit}
    ensures QueuesOk(s')
  {
  }

  lemma {:induction false} SplitMultisets(sections: seq<nat>, present: seq<bool>)
    requires |sections| == |present|
    ensures multiset(Split(sections, present, true)) + multiset(Split(sections, present, false)) == multiset(sections)
  {
    if sections != [] {
      var n := |sections| - 1;
      SplitMultisets(sections[..n], present[..n]);
      assert sections == sections[..n] + [sections[n]];
    }
  }

  /** The places at which a section comes with its bitset, and those at which the bitset is missing. */
  ghost function Came(sections: seq<nat>, present: seq<bool>, section: nat): set<nat>
    requires |sections| == |present|
  {
    set k: nat | k < |sections| && sections[k] == section && present[k]
  }

  ghost function Missed(sections: seq<nat>, present: seq<bool>, section: nat): set<nat>
    requires |sections| == |present|
  {
    set k: nat | k < |sections| && sections[k] == section && !present[k]
  }

  lemma {:induction false} SplitCounts(sections: seq<nat>, present: seq<bool>, section: nat)
    requires |sections| == |present|
    ensures multiset(Split(sections, present, true))[section] == |Came(sections, present, section)|
    ensures multiset(Split(sections, present, false))[section] == |Missed(sections, present, section)|
  {
    if sections != [] {
      var n := |sections| - 1;
      SplitCounts(sections[..n], present[..n], section);
      CameGrows(sections, present, section, n);
      MissedGrows(sections, present, section, n);
    }
  }

  lemma CameGrows(sections: seq<nat>, present: seq<bool>, section: nat, n: nat)
    requires |sections| == |present| == n + 1
    ensures |Came(sections, present, section)|
         == |Came(sections[..n], present[..n], section)| + B(sections[n] == section && present[n])
  {
    var came := Came(sections[..n], present[..n], section);
    assert Came(sections, present, section)
        == if sections[n] == section && present[n] then came + {n} else came;
  }

  lemma MissedGrows(sections: seq<nat>, present: seq<bool>, section: nat, n: nat)
    requires |sections| == |present| == n + 1
    ensures |Missed(sections, present, section)|
         == |Missed(sections[..n], present[..n], section)| + B(sections[n] == section && !present[n])
  {
    var missed := Missed(sections[..n], present[..n], section);
    assert Missed(sections, present, section)
        == if sections[n] == section && !present[n] then missed + {n} else missed;
  }

  lemma {:induction false} PairsCount(bit: nat, sections: seq<nat>, b: nat, section: nat)
    ensures Pairs(bit, sections)[(b, section)] == if b == bit then multiset(sections)[section] else 0
  {
    if sections != [] {
      var n := |sections| - 1;
      PairsCount(bit, sections[..n], b, section);
      assert sections == sections[..n] + [sections[n]];
    }
  }

  lemma DeliverBooks(s: State, s': State, id: nat, present: seq<bool>)
    requires Conserved(s) && id < |s.retrievers| && s.retrievers[id].Holding?
    requires |present| == |s.retrievers[id].sections|
    requires s'.requested == s.requested && s'.retrievers == s.retrievers[id := Idle]
    requires forall b: nat, x: nat :: Booked(s, s', id, present, b, x)
    ensures Conserved(s')
  {
    hide Held, Queue, AssignedTo, Active, Split, Came, Missed;
    var bit, sections := s.retrievers[id].bit, s.retrievers[id].sections;
    RetrieverChanged(s.retrievers, id, Idle);
    SplitMultisets(sections, present);
    forall b: nat, x: nat
      ensures s'.requested[(b, x)] + multiset(Queue(s, b))[x] + Held(s.retrievers, b, x) + s.delivered[(b, x)]
           == s.requested[(b, x)] + multiset(Queue(s', b))[x] + Held(s'.retrievers, b, x) + s'.delivered[(b, x)]
    {
      assert Booked(s, s', id, present, b, x);
      SplitCounts(sections, present, x);
    }
    Rebalanced(s, s');
  }

  /**
    What a delivery does to the books of a section of a bit: it is delivered as often as it came with a bitset and
    queued again as often as its bitset was missing.
    */
  ghost predicate Booked(s: State, s': State, id: nat, present: seq<bool>, b: nat, x: nat)
    requires id < |s.retrievers| && s.retrievers[id].Holding? && |present| == |s.retrievers[id].sections|
  {
    var r := s.retrievers[id];
    && s'.delivered[(b, x)] == s.delivered[(b, x)] + (if b == r.bit then |Came(r.sections, present, x)| else 0)
    && multiset(Queue(s', b))[x]
       == multiset(Queue(s, b))[x] + (if b == r.bit then |Missed(r.sections, present, x)| else 0)
  }

  lemma SplitBooked(s: State, s': State, id: nat, present: seq<bool>)
    requires id < |s.retrievers| && s.retrievers[id].Holding? && |present| == |s.retrievers[id].sections|
    requires var r := s.retrievers[id];
             && s'.delivered == s.delivered + Pairs(r.bit, Split(r.sections, present, true))
             && (forall b: nat :: b != r.bit ==> Queue(s', b) == Queue(s, b))
             && multiset(Queue(s', r.bit))
                == multiset(Queue(s, r.bit)) + multiset(Split(r.sections, present, false))
    ensures forall b: nat, x: nat :: Booked(s, s', id, present, b, x)
  {
    hide Split, Pairs, Queue, Came, Missed;
    var bit, sections := s.retrievers[id].bit, s.retrievers[id].sections;
    forall b: nat, x: nat
      ensures Booked(s, s', id, present, b, x)
    {
      PairsCount(bit, Split(sections, present, true), b, x);
      SplitCounts(sections, present, x);
    }
  }

  /** A delivery keeps the invariant and books every section of every bit by the places at which it comes. */
  lemma DeliverKeeps(s: State, id: nat, present: seq<bool>, to: Option<nat>)
    requires Inv(s) && Enabled(s, Deliver(id, present, to))
    ensures Inv(DeliverStep(s, id, present, to))
    ensures forall b: nat, x: nat :: Booked(s, DeliverStep(s, id, present, to), id, present, b, x)
  {
    hide AssignedTo, Active, Held, Split, Pairs, InsertAll, Sorted, Conserved, AllBelowMax, QueuesOk, Booked;
    var bit, sections := s.retrievers[id].bit, s.retrievers[id].sections;
    if |Split(sections, present, false)| == 0 {
      var s1 := DeliverStep(s, id, present, to);
      RetrieverChanged(s.retrievers, id, Idle);
      SameQueues(s, s1);
      SplitBooked(s, s1, id, present);
      DeliverBooks(s, s1, id, present);
    } else {
      MissingKeeps(s, id, present, to);
    }
  }

  lemma MissingKeeps(s: State, id: nat, present: seq<bool>, to: Option<nat>)
    requires Inv(s) && Enabled(s, Deliver(id, present, to))
    requires |Split(s.retrievers[id].sections, present, false)| > 0
    ensures Inv(DeliverStep(s, id, present, to))
    ensures forall b: nat, x: nat :: Booked(s, DeliverStep(s, id, present, to), id, present, b, x)
  {
    hide AssignedTo, Active, Held, Split, Pairs, InsertAll, Sorted, Conserved, AllBelowMax, QueuesOk, Booked;
    var bit, sections := s.retrievers[id].bit, s.retrievers[id].sections;
    var missing := Split(sections, present, false);
    var queue := InsertAll(Queue(s, bit), missing);
    var s2 := s.(allocs := s.allocs - 1, retrievers := s.retrievers[id := Idle],
                 delivered := s.delivered + Pairs(bit, Split(sections, present, true)),
                 requests := s.requests[bit := queue]);
    QueueFacts(s, bit);
    assert |queue| == |Queue(s, bit)| + |missing| && forall b: nat, x: nat :: Booked(s, s2, id, present, b, x) by {
      InsertAllSorted(Queue(s, bit), missing);
      SplitBooked(s, s2, id, present);
    }
    assert QueuesOk(s2) && Conserved(s2) by {
      InsertAllSorted(Queue(s, bit), missing);
      SplitBelowMax(sections, present, false);
      InsertAllBelowMax(Queue(s, bit), missing);
      QueueReplaced(s, s2, bit, queue);
      DeliverBooks(s, s2, id, present);
    }
    RetrieverChanged(s.retrievers, id, Idle);
    assert Owned(s);
    if |queue| == |missing| {
      assert Unowned(s2, bit);
      AssignCompletes(s2, bit, to);
      SameBooks(s, s2, Assign(s2, bit, to), id, present);
    }
  }

  lemma SameBooks(s: State, s1: State, s2: State, id: nat, present: seq<bool>)
    requires id < |s.retrievers| && s.retrievers[id].Holding? && |present| == |s.retrievers[id].sections|
    requires forall b: nat, x: nat :: Booked(s, s1, id, present, b, x)
    requires s2.delivered == s1.delivered && s2.requests == s1.requests
    ensures forall b: nat, x: nat :: Booked(s, s2, id, present, b, x)
  {
    hide Came, Missed;
    forall b: nat, x: nat
      ensures Booked(s, s2, id, present, b, x)
    {
      assert Booked(s, s1, id, present, b, x);
    }
  }

  /**
    The loop of the source that splits a delivery. What goes to the scheduler are the sections whose bitset is not
    empty, in order, each with its own bitset; the others are missing.
    */
  method SplitDelivery(sections: seq<nat>, bitsets: seq<seq<bv8>>)
    returns (found: seq<nat>, vectors: seq<seq<bv8>>, missing: seq<nat>, ghost places: seq<nat>)
    requires |sections| == |bitsets|
    ensures var present := seq(|bitsets|, i requires 0 <= i < |bitsets| => bitsets[i] != []);
            found == Split(sections, present, true) && missing == Split(sections, present, false)
    ensures |found| == |vectors| == |places|
    ensures forall j :: 0 <= j < |places| ==>
              && places[j] < |sections| && bitsets[places[j]] != []
              && found[j] == sections[places[j]] && vectors[j] == bitsets[places[j]]
    ensures forall j, l :: 0 <= j < l < |places| ==> places[j] < places[l]
    ensures forall k :: 0 <= k < |bitsets| && bitsets[k] != [] ==> k in places
  {
    found, vectors, missing, places := [], [], [], [];
    ghost var present := seq(|bitsets|, i requires 0 <= i < |bitsets| => bitsets[i] != []);
    for i := 0 to |bitsets|
      invariant found == Split(sections[..i], present[..i], true)
      invariant missing == Split(sections[..i], present[..i], false)
      invariant |found| == |vectors| == |places|
      invariant forall j :: 0 <= j < |places| ==>
                  && places[j] < i && bitsets[places[j]] != []
                  && found[j] == sections[places[j]] && vectors[j] == bitsets[places[j]]
      invariant forall j, l :: 0 <= j < l < |places| ==> places[j] < places[l]
      invariant forall k :: 0 <= k < i && bitsets[k] != [] ==> k in places
    {
      assert sections[..i + 1][..i] == sections[..i] && present[..i + 1][..i] == present[..i];
      if bitsets[i] == [] {
        missing := missing + [sections[i]];
      } else {
        found, vectors, places := found + [sections[i]], vectors + [bitsets[i]], places + [i];
      }
    }
    assert sections[..|bitsets|] == sections && present[..|bitsets|] == present;
  }

  lemma {:induction false} SplitBelowMax(sections: seq<nat>, present: seq<bool>, which: bool)
    requires |sections| == |present| && AllBelowMax(sections)
    ensures AllBelowMax(Split(sections, present, which))
  {
    if sections != [] {
      var n := |sections| - 1;
      SplitBelowMax(sections[..n], present[..n], which);
    }
  }

  lemma {:induction false} InsertAllBelowMax(queue: seq<nat>, xs: seq<nat>)
    requires AllBelowMax(queue) && AllBelowMax(xs)
    ensures AllBelowMax(InsertAll(queue, xs))
  {
    if xs != [] {
      InsertAllBelowMax(queue, xs[..|xs| - 1]);
      InsertBelowMax(InsertAll(queue, xs[..|xs| - 1]), xs[|xs| - 1]);
    }
  }

  /** Every step of the machine keeps the invariant. */
  lemma StepKeeps(s: State, a: Action)
    requires Inv(s) && Enabled(s, a)
    ensures Inv(Apply(s, a))
  {
    hide Inv;
    match a
    case Join => JoinKeeps(s);
    case Offer(id) => OfferKeeps(s, id);
    case Request(bit, section, to) => RequestKeeps(s, bit, section, to);
    case Arrive(id, bit) => ArriveKeeps(s, id, bit);
    case Collect(id, want, to) => CollectKeeps(s, id, want, to);
    case Deliver(id, present, to) => DeliverKeeps(s, id, present, to);
  }

  // ----- runs -----

  /** The states that runs of enabled actions lead to. */
  ghost predicate Run(actions: seq<Action>, s: State) {
    if actions == [] then s == Init()
    else
      var n := |actions| - 1;
      exists s0 :: Run(actions[..n], s0) && Enabled(s0, actions[n]) && s == Apply(s0, actions[n])
  }

  /** How many of the actions request the section of the bit. */
  function Requests(actions: seq<Action>, bit: nat, section: nat): nat {
    if actions == [] then 0
    else
      var last := actions[|actions| - 1];
      Requests(actions[..|actions| - 1], bit, section)
      + B(last.Request? && last.bit == bit && last.section == section)
  }

  lemma {:induction false} RunRequested(actions: seq<Action>, s: State, bit: nat, section: nat)
    requires Run(actions, s)
    ensures s.requested[(bit, section)] == Requests(actions, bit, section)
  {
    hide Enabled, Insert, InsertAll, Split, Pairs;
    if actions != [] {
      var n := |actions| - 1;
      var s0 :| Run(actions[..n], s0) && Enabled(s0, actions[n]) && s == Apply(s0, actions[n]);
      RunRequested(actions[..n], s0, bit, section);
      RequestedStep(s0, actions[n]);
    }
  }

  lemma RequestedStep(s: State, a: Action)
    requires Enabled(s, a)
    ensures Apply(s, a).requested
         == s.requested + if a.Request? then multiset{(a.bit, a.section)} else multiset{}
  {
    hide Insert, InsertAll, Split, Pairs, Queue;
  }

  lemma {:induction false} RunInv(actions: seq<Action>, s: State)
    requires Run(actions, s)
    ensures Inv(s)
  {
    hide Inv;
    if actions == [] {
      InitInv();
    } else {
      var n := |actions| - 1;
      var s0 :| Run(actions[..n], s0) && Enabled(s0, actions[n]) && s == Apply(s0, actions[n]);
      RunInv(actions[..n], s0);
      StepKeeps(s0, actions[n]);
    }
  }

  /**
    In every run: a bit has a pending queue exactly when it is listed as unallocated or exactly one retriever has
    it and has not collected, never both; queues are sorted; and as often as a pair was requested, it is in its queue,
    in the hands of a retriever or among the delivered pairs, each request in exactly one of them.
    */
  lemma RunSafety(actions: seq<Action>, s: State, bit: nat, section: nat)
    requires Run(actions, s)
    ensures Queue(s, bit) != [] <==> bit in s.unallocs || AssignedTo(s.retrievers, bit) == 1
    ensures AssignedTo(s.retrievers, bit) <= 1
    ensures !(bit in s.unallocs && AssignedTo(s.retrievers, bit) > 0)
    ensures Sorted(Queue(s, bit))
    ensures s.allocs == Active(s.retrievers)
    ensures Requests(actions, bit, section)
         == multiset(Queue(s, bit))[section] + Held(s.retrievers, bit, section) + s.delivered[(bit, section)]
  {
    hide AssignedTo, Active, Held, Requests;
    RunInv(actions, s);
    RunRequested(actions, s, bit, section);
    NothingSorted();
    assert B(bit in s.unallocs) + AssignedTo(s.retrievers, bit) == B(bit in s.requests);
  }
}
