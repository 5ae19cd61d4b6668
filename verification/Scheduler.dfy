/**
  The retrieval scheduler of one bloom bit: concurrent runs share a map of responses, so that each section is
  requested once and every run hands out vectors in the order in which its sections arrived.
  */
module Scheduler {
  import opened Wrappers

  type Vector = seq<bv8>

  /** A response: the cached vector, and how often its done channel has been closed. Closing twice panics. */
  datatype Response = Response(cached: Option<Vector>, closed: nat)

  /** The requesting goroutine of a run. */
  datatype Requester =
    | Receiving
    | Requesting(section: nat)   // has registered the section and must push it to the distributor
    | Announcing(section: nat)   // must notify the deliverer

  /** The delivering goroutine of a run. */
  datatype Deliverer =
    | Taking
    | Awaiting(section: nat)     // waits for the section's done channel
    | Sending(section: nat)      // is about to hand out the section's vector

  datatype RunState = RunState(
    input: seq<nat>,       // sections received so far, in order
    requester: Requester,
    pend: seq<nat>,        // channel between the two goroutines
    deliverer: Deliverer,
    output: seq<Vector>)   // vectors handed out so far

  datatype State = State(
    responses: map<nat, Response>,
    requested: multiset<nat>,   // sections pushed to the distributor in this session
    initial: set<nat>,          // sections cached by earlier sessions
    runs: seq<RunState>)

  datatype Action =
    | Start                                   // a new concurrent run
    | Receive(run: nat, section: nat)         // takes a section and deduplicates it under the lock
    | PushRequest(run: nat)                   // pushes the request to the distributor
    | Announce(run: nat)                      // notifies the deliverer
    | Take(run: nat)                          // takes a notification and looks the response up
    | Wake(run: nat)                          // the done channel is closed
    | HandOut(run: nat)                       // hands the cached vector out
    | Deliver(sections: seq<nat>, data: seq<Option<Vector>>)  // the distributor delivers

  ghost predicate Enabled(s: State, a: Action) {
    match a
    case Start => true
    case Receive(r, _) => r < |s.runs| && s.runs[r].requester == Receiving
    case PushRequest(r) => r < |s.runs| && s.runs[r].requester.Requesting?
    case Announce(r) => r < |s.runs| && s.runs[r].requester.Announcing?
    case Take(r) => r < |s.runs| && s.runs[r].deliverer == Taking && s.runs[r].pend != []
    case Wake(r) =>
      && r < |s.runs| && s.runs[r].deliverer.Awaiting?
      && s.runs[r].deliverer.section in s.responses && s.responses[s.runs[r].deliverer.section].closed > 0
    case HandOut(r) =>
      r < |s.runs| && s.runs[r].deliverer.Sending? && s.runs[r].deliverer.section in s.responses
    case Deliver(sections, data) => |data| == |sections|
  }

  /** The distributor only passes bitsets on that are not empty. */
  ghost predicate Filtered(a: Action) {
    a.Deliver? ==> forall k :: 0 <= k < |a.data| ==> a.data[k].Some?
  }

  /** One delivery: non-requests and double deliveries are ignored. */
  function DeliverOne(responses: map<nat, Response>, section: nat, data: Option<Vector>): map<nat, Response> {
    if section in responses && responses[section].cached.None?
    then responses[section := Response(data, responses[section].closed + 1)]
    else responses
  }

  function DeliverAll(responses: map<nat, Response>, sections: seq<nat>, data: seq<Option<Vector>>)
    : map<nat, Response>
    requires |sections| == |data|
  {
    if sections == [] then responses
    else DeliverAll(DeliverOne(responses, sections[0], data[0]), sections[1..], data[1..])
  }

  /** What is handed out for a section. A response that was closed without a vector hands out an empty one. */
  function VectorOf(responses: map<nat, Response>, section: nat): Vector {
    if section in responses && responses[section].cached.Some? then responses[section].cached.value else []
  }

  function Apply(s: State, a: Action): State
    requires Enabled(s, a)
  {
    match a
    case Start => s.(runs := s.runs + [RunState([], Receiving, [], Taking, [])])
    case Receive(r, section) =>
      var unique := section !in s.responses;
      var run := s.runs[r].(input := s.runs[r].input + [section],
                            requester := if unique then Requesting(section) else Announcing(section));
      s.(responses := if unique then s.responses[section := Response(None, 0)] else s.responses,
         runs := s.runs[r := run])
    case PushRequest(r) =>
      var section := s.runs[r].requester.section;
      s.(requested := s.requested + multiset{section},
         runs := s.runs[r := s.runs[r].(requester := Announcing(section))])
    case Announce(r) =>
      var section := s.runs[r].requester.section;
      s.(runs := s.runs[r := s.runs[r].(requester := Receiving, pend := s.runs[r].pend + [section])])
    case Take(r) =>
      s.(runs := s.runs[r := s.runs[r].(deliverer := Awaiting(s.runs[r].pend[0]), pend := s.runs[r].pend[1..])])
    case Wake(r) =>
      s.(runs := s.runs[r := s.runs[r].(deliverer := Sending(s.runs[r].deliverer.section))])
    case HandOut(r) =>
      var vector := VectorOf(s.responses, s.runs[r].deliverer.section);
      s.(runs := s.runs[r := s.runs[r].(deliverer := Taking, output := s.runs[r].output + [vector])])
    case Deliver(sections, data) => s.(responses := DeliverAll(s.responses, sections, data))
  }

  // ----- starting a session -----

  /** `reset`: forgets what was requested and never delivered. */
  function Reset(responses: map<nat, Response>): map<nat, Response> {
    map section | section in responses && responses[section].cached.Some? :: responses[section]
  }

  function Init(leftover: map<nat, Response>): State {
    var kept := Reset(leftover);
    State(kept, multiset{}, kept.Keys, [])
  }

  // ----- the invariant -----

  function InRequester(q: Requester): seq<nat> {
    if q.Receiving? then [] else [q.section]
  }

  function InDeliverer(d: Deliverer): seq<nat> {
    if d.Taking? then [] else [d.section]
  }

  /** How many runs are about to push a request for the section. */
  function Pushing(runs: seq<RunState>, section: nat): nat {
    if runs == [] then 0
    else Pushing(runs[..|runs| - 1], section) + B(runs[|runs| - 1].requester == Requesting(section))
  }

  /** Everything received is handed out, with the deliverer, in the channel or with the requester, in that order. */
  ghost predicate InOrder(s: State, r: RunState) {
    && |r.output| <= |r.input|
    && r.input[|r.output|..] == InDeliverer(r.deliverer) + r.pend + InRequester(r.requester)
    && (forall k :: 0 <= k < |r.input| ==> r.input[k] in s.responses)
    && (forall k :: 0 <= k < |r.output| ==> s.responses[r.input[k]].cached == Some(r.output[k]))
    && (r.deliverer.Sending? ==>
          r.deliverer.section in s.responses && s.responses[r.deliverer.section].cached.Some?)
  }

  ghost predicate RunsInOrder(s: State) {
    forall r :: 0 <= r < |s.runs| ==> InOrder(s, s.runs[r])
  }

  /** A done channel is closed exactly when a vector is cached, and once. */
  ghost predicate ClosedOnce(s: State) {
    forall section :: section in s.responses ==>
      s.responses[section].closed == B(s.responses[section].cached.Some?)
  }

  /** A section is registered exactly when it was requested once, is about to be, or was cached before. */
  ghost predicate RequestedOnce(s: State) {
    && s.initial <= s.responses.Keys
    && forall section: nat ::
         s.requested[section] + Pushing(s.runs, section) == B(section in s.responses && section !in s.initial)
  }

  ghost predicate Inv(s: State) {
    ClosedOnce(s) && RequestedOnce(s) && RunsInOrder(s)
  }

  /** Leftovers of earlier sessions are responses that were completed at most once. */
  lemma InitInv(leftover: map<nat, Response>)
    requires forall section :: section in leftover ==>
               leftover[section].closed == B(leftover[section].cached.Some?)
    ensures Inv(Init(leftover))
  {
  }

  // ----- every step keeps it -----

  lemma {:induction false} RunChanged(runs: seq<RunState>, r: nat, run: RunState, section: nat)
    requires r < |runs|
    ensures Pushing(runs[r := run], section) + B(runs[r].requester == Requesting(section))
         == Pushing(runs, section) + B(run.requester == Requesting(section))
  {
    var n := |runs| - 1;
    assert runs[r := run][..n] == if r == n then runs[..n] else runs[..n][r := run];
    if r < n {
      RunChanged(runs[..n], r, run, section);
    }
  }

  lemma AllRunsChanged(runs: seq<RunState>, r: nat, run: RunState)
    requires r < |runs|
    ensures forall section: nat :: Pushing(runs[r := run], section) + B(runs[r].requester == Requesting(section))
                                == Pushing(runs, section) + B(run.requester == Requesting(section))
  {
    hide Pushing;
    forall section: nat
      ensures Pushing(runs[r := run], section) + B(runs[r].requester == Requesting(section))
           == Pushing(runs, section) + B(run.requester == Requesting(section))
    {
      RunChanged(runs, r, run, section);
    }
  }

  /** Responses only grow: sections stay registered and cached vectors stay what they are. */
  ghost predicate Grows(a: map<nat, Response>, b: map<nat, Response>) {
    forall section :: section in a ==>
      section in b && (a[section].cached.Some? ==> b[section].cached == a[section].cached)
  }

  lemma StaysInOrder(s: State, s': State, r: RunState)
    requires InOrder(s, r) && Grows(s.responses, s'.responses)
    ensures InOrder(s', r)
  {
  }

  lemma StartKeeps(s: State)
    requires Inv(s)
    ensures Inv(Apply(s, Start))
  {
    var s' := Apply(s, Start);
    assert s'.runs[..|s.runs|] == s.runs;
    assert forall section: nat :: Pushing(s'.runs, section) == Pushing(s.runs, section);
    forall r | 0 <= r < |s'.runs|
      ensures InOrder(s', s'.runs[r])
    {
      if r < |s.runs| {
        StaysInOrder(s, s', s.runs[r]);
      }
    }
  }

  /** A step of one run that leaves the others alone keeps all runs in order if it keeps this one. */
  lemma OtherRuns(s: State, s': State, r: nat, run: RunState)
    requires RunsInOrder(s) && r < |s.runs| && s'.runs == s.runs[r := run]
    requires Grows(s.responses, s'.responses) && InOrder(s', run)
    ensures RunsInOrder(s')
  {
    hide InOrder;
    forall k | 0 <= k < |s'.runs|
      ensures InOrder(s', s'.runs[k])
    {
      if k != r {
        StaysInOrder(s, s', s.runs[k]);
      }
    }
  }

  lemma ReceiveKeeps(s: State, r: nat, section: nat)
    requires Inv(s) && Enabled(s, Receive(r, section))
    ensures Inv(Apply(s, Receive(r, section)))
  {
    hide Pushing;
    var s' := Apply(s, Receive(r, section));
    AllRunsChanged(s.runs, r, s'.runs[r]);
    ReceiveInOrder(s, s', r, section);
    OtherRuns(s, s', r, s'.runs[r]);
  }

  lemma ReceiveInOrder(s: State, s': State, r: nat, section: nat)
    requires Inv(s) && Enabled(s, Receive(r, section)) && s' == Apply(s, Receive(r, section))
    ensures InOrder(s', s'.runs[r]) && Grows(s.responses, s'.responses)
  {
    hide Pushing;
    var run := s.runs[r];
    assert InOrder(s, run);
    var n := |run.output|;
    assert (run.input + [section])[n..] == run.input[n..] + [section];
    assert InDeliverer(run.deliverer) + run.pend + [] == InDeliverer(run.deliverer) + run.pend;
  }

  lemma PushKeeps(s: State, r: nat)
    requires Inv(s) && Enabled(s, PushRequest(r))
    ensures Inv(Apply(s, PushRequest(r)))
  {
    hide Pushing;
    var s' := Apply(s, PushRequest(r));
    AllRunsChanged(s.runs, r, s'.runs[r]);
    assert InOrder(s, s.runs[r]);
    OtherRuns(s, s', r, s'.runs[r]);
  }

  lemma AnnounceKeeps(s: State, r: nat)
    requires Inv(s) && Enabled(s, Announce(r))
    ensures Inv(Apply(s, Announce(r)))
  {
    hide Pushing;
    var s' := Apply(s, Announce(r));
    AllRunsChanged(s.runs, r, s'.runs[r]);
    var run := s.runs[r];
    assert InOrder(s, run);
    assert InDeliverer(run.deliverer) + run.pend + [run.requester.section]
        == InDeliverer(run.deliverer) + (run.pend + [run.requester.section]) + [];
    OtherRuns(s, s', r, s'.runs[r]);
  }

  lemma TakeKeeps(s: State, r: nat)
    requires Inv(s) && Enabled(s, Take(r))
    ensures Inv(Apply(s, Take(r)))
  {
    hide Pushing;
    var s' := Apply(s, Take(r));
    AllRunsChanged(s.runs, r, s'.runs[r]);
    var run := s.runs[r];
    assert InOrder(s, run);
    assert [] + run.pend == [run.pend[0]] + run.pend[1..];
    OtherRuns(s, s', r, s'.runs[r]);
  }

  lemma WakeKeeps(s: State, r: nat)
    requires Inv(s) && Enabled(s, Wake(r))
    ensures Inv(Apply(s, Wake(r)))
  {
    hide Pushing;
    var s' := Apply(s, Wake(r));
    AllRunsChanged(s.runs, r, s'.runs[r]);
    assert InOrder(s, s.runs[r]);
    OtherRuns(s, s', r, s'.runs[r]);
  }

  lemma HandOutKeeps(s: State, r: nat)
    requires Inv(s) && Enabled(s, HandOut(r))
    ensures Inv(Apply(s, HandOut(r)))
  {
    hide Pushing;
    var s' := Apply(s, HandOut(r));
    AllRunsChanged(s.runs, r, s'.runs[r]);
    var run := s.runs[r];
    assert InOrder(s, run);
    var n := |run.output|;
    assert run.input[n..] == [run.input[n]] + run.input[n + 1..];
    assert run.input[n] == run.deliverer.section;
    assert [run.deliverer.section] + run.pend + InRequester(run.requester)
        == [run.deliverer.section] + (run.pend + InRequester(run.requester));
    assert run.input[n + 1..] == [] + run.pend + InRequester(run.requester);
    OtherRuns(s, s', r, s'.runs[r]);
  }

  lemma {:induction false} DeliverAllKeeps(responses: map<nat, Response>, sections: seq<nat>, data: seq<Option<Vector>>)
    requires |sections| == |data|
    requires forall section :: section in responses ==>
               responses[section].closed == B(responses[section].cached.Some?)
    requires forall k :: 0 <= k < |data| ==> data[k].Some?
    ensures var after := DeliverAll(responses, sections, data);
            && after.Keys == responses.Keys && Grows(responses, after)
            && forall section :: section in after ==> after[section].closed == B(after[section].cached.Some?)
  {
    if sections != [] {
      var next := DeliverOne(responses, sections[0], data[0]);
      assert next.Keys == responses.Keys;
      DeliverAllKeeps(next, sections[1..], data[1..]);
    }
  }

  /** The first place of a section in a delivery. */
  ghost predicate FirstAt(sections: seq<nat>, section: nat, k: nat) {
    k < |sections| && sections[k] == section && section !in sections[..k]
  }

  /** What one section has after a delivery: the data at its first place if it was open, else what it had. */
  lemma {:induction false} DeliverAllAt(
    responses: map<nat, Response>, sections: seq<nat>, data: seq<Option<Vector>>, section: nat)
    requires |sections| == |data| && forall k :: 0 <= k < |data| ==> data[k].Some?
    requires section in responses
    ensures var after := DeliverAll(responses, sections, data);
            && section in after
            && (responses[section].cached.Some? || section !in sections ==> after[section] == responses[section])
            && (responses[section].cached.None? ==> forall k: nat :: FirstAt(sections, section, k) ==>
                  after[section] == Response(data[k], responses[section].closed + 1))
  {
    if sections != [] {
      var next := DeliverOne(responses, sections[0], data[0]);
      DeliverAllAt(next, sections[1..], data[1..], section);
      if responses[section].cached.None? {
        forall k: nat | FirstAt(sections, section, k)
          ensures DeliverAll(responses, sections, data)[section] == Response(data[k], responses[section].closed + 1)
        {
          if k > 0 {
            assert sections[..k][0] == sections[0] && sections[1..][..k - 1] == sections[..k][1..];
            assert FirstAt(sections[1..], section, k - 1);
          }
        }
      }
    }
  }

  /**
    A delivery keeps the invariant, registers nothing, sets every open section that it brings to the data at the
    first place of the section and closes it, and leaves all others as they are.
    */
  lemma DeliverKeeps(s: State, sections: seq<nat>, data: seq<Option<Vector>>)
    requires Inv(s) && |sections| == |data| && forall k :: 0 <= k < |data| ==> data[k].Some?
    ensures var s' := Apply(s, Deliver(sections, data));
            && Inv(s') && s'.responses.Keys == s.responses.Keys
            && (forall section: nat, k: nat ::
                  section in s.responses && s.responses[section].cached.None? && FirstAt(sections, section, k) ==>
                    s'.responses[section] == Response(data[k], 1))
            && (forall section: nat ::
                  section in s.responses && (s.responses[section].cached.Some? || section !in sections) ==>
                    s'.responses[section] == s.responses[section])
  {
    hide Pushing, DeliverAll, InOrder;
    forall section: nat | section in s.responses
      ensures var after := DeliverAll(s.responses, sections, data);
              && section in after
              && (s.responses[section].cached.Some? || section !in sections ==>
                    after[section] == s.responses[section])
              && (s.responses[section].cached.None? ==> forall k: nat :: FirstAt(sections, section, k) ==>
                    after[section] == Response(data[k], 1))
    {
      DeliverAllAt(s.responses, sections, data, section);
    }
    DeliverAllKeeps(s.responses, sections, data);
    var s' := Apply(s, Deliver(sections, data));
    forall r | 0 <= r < |s'.runs|
      ensures InOrder(s', s'.runs[r])
    {
      StaysInOrder(s, s', s.runs[r]);
    }
  }

  lemma StepKeeps(s: State, a: Action)
    requires Inv(s) && Enabled(s, a) && Filtered(a)
    ensures Inv(Apply(s, a))
  {
    hide Inv;
    match a
    case Start => StartKeeps(s);
    case Receive(r, section) => ReceiveKeeps(s, r, section);
    case PushRequest(r) => PushKeeps(s, r);
    case Announce(r) => AnnounceKeeps(s, r);
    case Take(r) => TakeKeeps(s, r);
    case Wake(r) => WakeKeeps(s, r);
    case HandOut(r) => HandOutKeeps(s, r);
    case Deliver(sections, data) => DeliverKeeps(s, sections, data);
  }

  // ----- sessions -----

  ghost predicate Session(leftover: map<nat, Response>, actions: seq<Action>, s: State) {
    if actions == [] then s == Init(leftover)
    else
      var n := |actions| - 1;
      exists s0 :: Session(leftover, actions[..n], s0) && Enabled(s0, actions[n]) && Filtered(actions[n])
                   && s == Apply(s0, actions[n])
  }

  // ----- where a vector comes from -----

  ghost predicate Receives(a: Action, section: nat) {
    a.Receive? && a.section == section
  }

  ghost predicate Brings(a: Action, section: nat) {
    a.Deliver? && section in a.sections
  }

  /** The first of the actions that receives the section. */
  ghost predicate FirstReceived(actions: seq<Action>, section: nat, c: nat) {
    && c < |actions| && Receives(actions[c], section)
    && forall e :: 0 <= e < c ==> !Receives(actions[e], section)
  }

  /** No delivery from c to d brings the section. */
  ghost predicate NotBrought(actions: seq<Action>, section: nat, c: nat, d: nat) {
    forall e :: c < e < d && e < |actions| ==> !Brings(actions[e], section)
  }

  /** The first delivery of the section after it was received is action d, and has the vector at place k. */
  ghost predicate Delivered(actions: seq<Action>, section: nat, vector: Vector, c: nat, d: nat, k: nat) {
    && FirstReceived(actions, section, c) && c < d < |actions| && NotBrought(actions, section, c, d)
    && actions[d].Deliver? && FirstAt(actions[d].sections, section, k)
    && k < |actions[d].data| && actions[d].data[k] == Some(vector)
  }

  ghost predicate LeftOver(leftover: map<nat, Response>, section: nat) {
    section in leftover && leftover[section].cached.Some?
  }

  /** The vector of a section, as the actions of the session alone give it. */
  ghost predicate Origin(leftover: map<nat, Response>, actions: seq<Action>, section: nat, vector: Vector) {
    if LeftOver(leftover, section) then leftover[section].cached == Some(vector)
    else exists c: nat, d: nat, k: nat :: Delivered(actions, section, vector, c, d, k)
  }

  /** What a session knows of a section is what its actions say. */
  ghost predicate Traced(leftover: map<nat, Response>, actions: seq<Action>, s: State, section: nat) {
    if section !in s.responses then
      !LeftOver(leftover, section) && forall e :: 0 <= e < |actions| ==> !Receives(actions[e], section)
    else if s.responses[section].cached.Some? then
      Origin(leftover, actions, section, s.responses[section].cached.value)
    else
      && !LeftOver(leftover, section)
      && exists c: nat :: FirstReceived(actions, section, c) && NotBrought(actions, section, c, |actions|)
  }

  lemma DeliveredMore(actions: seq<Action>, a: Action, section: nat, vector: Vector, c: nat, d: nat, k: nat)
    requires Delivered(actions, section, vector, c, d, k)
    ensures Delivered(actions + [a], section, vector, c, d, k)
  {
    var more := actions + [a];
    assert forall e :: 0 <= e < |actions| ==> more[e] == actions[e];
  }

  lemma OriginMore(leftover: map<nat, Response>, actions: seq<Action>, a: Action, section: nat, vector: Vector)
    requires Origin(leftover, actions, section, vector)
    ensures Origin(leftover, actions + [a], section, vector)
  {
    hide Delivered;
    if !LeftOver(leftover, section) {
      var c: nat, d: nat, k: nat :| Delivered(actions, section, vector, c, d, k);
      DeliveredMore(actions, a, section, vector, c, d, k);
    }
  }

  lemma WaitingMore(actions: seq<Action>, a: Action, section: nat, c: nat)
    requires FirstReceived(actions, section, c) && NotBrought(actions, section, c, |actions|)
    requires !Brings(a, section)
    ensures FirstReceived(actions + [a], section, c) && NotBrought(actions + [a], section, c, |actions + [a]|)
  {
    var more := actions + [a];
    assert forall e :: 0 <= e < |actions| ==> more[e] == actions[e];
    assert more[|actions|] == a;
  }

  lemma FirstPlace(sections: seq<nat>, section: nat) returns (k: nat)
    requires section in sections
    ensures FirstAt(sections, section, k)
  {
    k := 0;
    while sections[k] != section
      invariant k < |sections| && section !in sections[..k]
      decreases |sections| - k
    {
      assert sections[..k + 1] == sections[..k] + [sections[k]];
      assert section in sections[k + 1..] by {
        assert sections == sections[..k + 1] + sections[k + 1..];
      }
      k := k + 1;
    }
  }

  /** A delivery to an open section is its first one. */
  lemma DeliveredNow(actions: seq<Action>, a: Action, section: nat, vector: Vector, c: nat, k: nat)
    requires FirstReceived(actions, section, c) && NotBrought(actions, section, c, |actions|)
    requires a.Deliver? && FirstAt(a.sections, section, k) && k < |a.data| && a.data[k] == Some(vector)
    ensures Delivered(actions + [a], section, vector, c, |actions|, k)
  {
    var more := actions + [a];
    assert forall e :: 0 <= e < |actions| ==> more[e] == actions[e];
    assert more[|actions|] == a;
  }

  lemma DeliverTraced(leftover: map<nat, Response>, actions: seq<Action>, s: State, a: Action, section: nat)
    requires Inv(s) && Enabled(s, a) && Filtered(a) && a.Deliver?
    requires Traced(leftover, actions, s, section)
    ensures Traced(leftover, actions + [a], Apply(s, a), section)
  {
    hide Inv, FirstAt, Delivered, FirstReceived, NotBrought, DeliverAll, LeftOver;
    var s' := Apply(s, a);
    DeliverKeeps(s, a.sections, a.data);
    assert section in s'.responses <==> section in s.responses;
    if section in s.responses {
      if s.responses[section].cached.Some? {
        OriginMore(leftover, actions, a, section, s.responses[section].cached.value);
      } else {
        var c: nat :| FirstReceived(actions, section, c) && NotBrought(actions, section, c, |actions|);
        if section in a.sections {
          var k := FirstPlace(a.sections, section);
          assert k < |a.data| by { assert FirstAt(a.sections, section, k); PlaceInside(a.sections, section, k); }
          DeliveredNow(actions, a, section, a.data[k].value, c, k);
        } else {
          WaitingMore(actions, a, section, c);
        }
      }
    }
  }

  lemma PlaceInside(sections: seq<nat>, section: nat, k: nat)
    requires FirstAt(sections, section, k)
    ensures k < |sections|
  {
  }

  lemma ReceiveTraced(leftover: map<nat, Response>, actions: seq<Action>, s: State, a: Action, section: nat)
    requires Enabled(s, a) && !a.Deliver?
    requires Traced(leftover, actions, s, section)
    ensures Traced(leftover, actions + [a], Apply(s, a), section)
  {
    hide Delivered, NotBrought, LeftOver;
    var s' := Apply(s, a);
    var more := actions + [a];
    if section in s.responses {
      assert s'.responses[section] == s.responses[section];
      if s.responses[section].cached.Some? {
        OriginMore(leftover, actions, a, section, s.responses[section].cached.value);
      } else {
        var c: nat :| FirstReceived(actions, section, c) && NotBrought(actions, section, c, |actions|);
        WaitingMore(actions, a, section, c);
      }
    } else if Receives(a, section) {
      assert FirstReceived(more, section, |actions|);
      NothingAfter(more, section, |actions|);
    }
  }

  lemma NothingAfter(actions: seq<Action>, section: nat, c: nat)
    requires |actions| == c + 1
    ensures NotBrought(actions, section, c, |actions|)
  {
  }

  lemma {:induction false} SessionInv(leftover: map<nat, Response>, actions: seq<Action>, s: State)
    requires forall section :: section in leftover ==>
               leftover[section].closed == B(leftover[section].cached.Some?)
    requires Session(leftover, actions, s)
    ensures Inv(s) && s.initial == Reset(leftover).Keys && forall section: nat :: Traced(leftover, actions, s, section)
  {
    hide Inv, Traced, Reset, Apply, Enabled, Filtered;
    if actions == [] {
      InitInv(leftover);
      InitTraced(leftover);
    } else {
      var n := |actions| - 1;
      var s0 :| Session(leftover, actions[..n], s0) && Enabled(s0, actions[n]) && Filtered(actions[n])
                && s == Apply(s0, actions[n]);
      SessionInv(leftover, actions[..n], s0);
      StepKeeps(s0, actions[n]);
      InitialStays(s0, actions[n]);
      assert actions == actions[..n] + [actions[n]];
      AllTraced(leftover, actions[..n], s0, actions[n]);
    }
  }

  lemma InitialStays(s: State, a: Action)
    requires Enabled(s, a)
    ensures Apply(s, a).initial == s.initial
  {
    hide DeliverAll;
  }

  lemma AllTraced(leftover: map<nat, Response>, actions: seq<Action>, s: State, a: Action)
    requires Inv(s) && Enabled(s, a) && Filtered(a)
    requires forall section: nat :: Traced(leftover, actions, s, section)
    ensures forall section: nat :: Traced(leftover, actions + [a], Apply(s, a), section)
  {
    hide Inv, Enabled, Filtered, Traced, Apply;
    forall section: nat
      ensures Traced(leftover, actions + [a], Apply(s, a), section)
    {
      if a.Deliver? {
        DeliverTraced(leftover, actions, s, a, section);
      } else {
        ReceiveTraced(leftover, actions, s, a, section);
      }
    }
  }

  lemma InitTraced(leftover: map<nat, Response>)
    ensures forall section: nat :: Traced(leftover, [], Init(leftover), section)
  {
  }

  /** What a run was asked for: the sections of its own receiving actions. */
  function Received(actions: seq<Action>, r: nat): seq<nat> {
    if actions == [] then []
    else
      var last := actions[|actions| - 1];
      Received(actions[..|actions| - 1], r) + if last.Receive? && last.run == r then [last.section] else []
  }

  lemma InputStep(s: State, a: Action, r: nat)
    requires Enabled(s, a)
    ensures var s' := Apply(s, a);
            && (r < |s.runs| ==>
                  && r < |s'.runs|
                  && s'.runs[r].input == s.runs[r].input + if a.Receive? && a.run == r then [a.section] else [])
            && (|s.runs| <= r ==> !(a.Receive? && a.run == r) && (r < |s'.runs| ==> s'.runs[r].input == []))
  {
    hide DeliverAll;
  }

  /** No action of a session but its own receiving ones changes what a run was asked for. */
  lemma {:induction false} SessionInput(leftover: map<nat, Response>, actions: seq<Action>, s: State, r: nat)
    requires Session(leftover, actions, s)
    ensures if r < |s.runs| then s.runs[r].input == Received(actions, r) else Received(actions, r) == []
  {
    hide Apply, Filtered, Enabled;
    if actions != [] {
      var n := |actions| - 1;
      var s0 :| Session(leftover, actions[..n], s0) && Enabled(s0, actions[n]) && Filtered(actions[n])
                && s == Apply(s0, actions[n]);
      SessionInput(leftover, actions[..n], s0, r);
      InputStep(s0, actions[n], r);
    }
  }

  /**
    In every session, under every interleaving of its runs: a section is requested at most once, and not at all
    if an earlier session left its vector; a done channel is closed at most once; each run hands out, in the order
    in which its sections arrived, for every section the vector that was left over or the one that the first
    delivery after the section was received has at the section's first place; and a response is always there when
    it is looked up.
    */
  lemma SessionSafety(leftover: map<nat, Response>, actions: seq<Action>, s: State, section: nat, r: nat)
    requires forall x :: x in leftover ==> leftover[x].closed == B(leftover[x].cached.Some?)
    requires Session(leftover, actions, s)
    ensures s.requested[section] <= 1
    ensures LeftOver(leftover, section) ==> s.requested[section] == 0
    ensures section in s.responses ==> s.responses[section].closed <= 1
    ensures r < |s.runs| ==>
              && s.runs[r].input == Received(actions, r) && |s.runs[r].output| <= |s.runs[r].input|
              && forall k :: 0 <= k < |s.runs[r].output| ==>
                   Origin(leftover, actions, s.runs[r].input[k], s.runs[r].output[k])
    ensures r < |s.runs| && s.runs[r].deliverer.Awaiting? ==> s.runs[r].deliverer.section in s.responses
  {
    hide Pushing, Origin, Session;
    SessionInv(leftover, actions, s);
    SessionInput(leftover, actions, s, r);
    assert s.requested[section] + Pushing(s.runs, section) == B(section in s.responses && section !in s.initial);
    if r < |s.runs| {
      var run := s.runs[r];
      assert InOrder(s, run);
      forall k | 0 <= k < |run.output|
        ensures Origin(leftover, actions, run.input[k], run.output[k])
      {
        assert Traced(leftover, actions, s, run.input[k]);
      }
      if run.deliverer.Awaiting? {
        assert run.input[|run.output|..][0] == run.deliverer.section;
      }
    }
  }

  /**
    That empty bitsets are filtered out is needed: of two deliveries of a section that has not been completed,
    the second one closes the done channel again exactly when the first one brought nothing.
    */
  lemma ClosedOnceIffFiltered(responses: map<nat, Response>, section: nat, first: Option<Vector>, second: Option<Vector>)
    requires section in responses && responses[section] == Response(None, 0)
    ensures DeliverOne(DeliverOne(responses, section, first), section, second)[section].closed <= 1 <==> first.Some?
  {
  }

  /** Two empty deliveries of section 7. */
  lemma EmptyClosesTwice()
    ensures var open := map[7 := Response(None, 0)];
            DeliverOne(DeliverOne(open, 7, None), 7, None)[7].closed == 2
  {
  }
}
