/**
  The event feed: one-to-many sends over a slice of cases whose prefix holds the cases not sent to yet, while
  subscribers come and go. A step machine over every interleaving of Subscribe, Unsubscribe and Send.
  */
module Feed {
  import opened Wrappers

  /** A select case: the channel that interrupts a send, or a subscription. The tag tells cases apart. */
  datatype Case = RemoveSub | Sub(ch: nat, tag: nat)

  datatype Status =
    | Live
    | Removing   // Unsubscribe found nothing in the inbox and waits for a sender or the send lock
    | Done

  datatype Subscription = Subscription(ch: nat, status: Status)

  /** What the goroutine that holds the send lock is doing. */
  datatype Phase =
    | Locked           // has the send lock and has not emptied the inbox yet
    | Trying(i: nat)   // fast path: about to try case i
    | Selecting        // blocked on all active cases
    | Finished

  /** A send in progress. `active` is the length of the prefix of cases that are still to be sent to. */
  datatype Sender = NoSender | Sender(
    phase: Phase,
    active: nat,
    nsent: nat,
    targets: set<nat>,   // history: tags of the cases this send started with
    sent: seq<nat>,      // history: tags delivered to, in order
    removed: set<nat>)   // history: tags of cases removed during this send

  datatype State = State(
    sendCases: seq<Case>,
    inbox: seq<Case>,
    subs: seq<Subscription>,
    sender: Sender)

  function Init(): State {
    State([RemoveSub], [], [], NoSender)
  }

  // ----- case lists -----

  /** The index of the first case with the channel, or the length if there is none. */
  function Find(cs: seq<Case>, ch: nat): (i: nat)
    ensures i <= |cs|
    ensures i < |cs| ==> cs[i].Sub? && cs[i].ch == ch
    ensures forall j :: 0 <= j < i ==> !(cs[j].Sub? && cs[j].ch == ch)
  {
    if cs == [] then 0
    else if cs[0].Sub? && cs[0].ch == ch then 0
    else 1 + Find(cs[1..], ch)
  }

  function Delete(cs: seq<Case>, i: nat): seq<Case>
    requires i < |cs|
  {
    cs[..i] + cs[i + 1..]
  }

  /** Moves the case at i out of the active prefix of length n. */
  function Deactivate(cs: seq<Case>, n: nat, i: nat): seq<Case>
    requires i < n <= |cs|
  {
    cs[i := cs[n - 1]][n - 1 := cs[i]]
  }

  // ----- the steps -----

  datatype Action =
    | Subscribe(ch: nat)
    | Unsubscribe(sub: nat)              // the part under the mutex: look into the inbox
    | RemoveIdle(sub: nat)               // no send in progress: take the send lock and remove the case
    | SendLock                           // a sender takes the send lock
    | SendInbox(typed: bool)             // it moves the inbox to the cases and checks the value's type
    | TrySend(ok: bool)                  // it tries the next case without blocking
    | SelectSend(chosen: nat)            // a blocked receiver became ready
    | SelectRemove(sub: nat)             // a waiting Unsubscribe interrupts the send
    | SendUnlock

  ghost predicate Enabled(s: State, a: Action) {
    match a
    case Subscribe(_) => true
    case Unsubscribe(sub) => sub < |s.subs| && s.subs[sub].status == Live
    case RemoveIdle(sub) => sub < |s.subs| && s.subs[sub].status == Removing && s.sender == NoSender
    case SendLock => s.sender == NoSender
    case SendInbox(_) => s.sender.Sender? && s.sender.phase == Locked
    case TrySend(_) => s.sender.Sender? && s.sender.phase.Trying?
    case SelectSend(chosen) => s.sender.Sender? && s.sender.phase == Selecting && 1 <= chosen < s.sender.active
    case SelectRemove(sub) =>
      s.sender.Sender? && s.sender.phase == Selecting && sub < |s.subs| && s.subs[sub].status == Removing
    case SendUnlock => s.sender.Sender? && s.sender.phase == Finished
  }

  /** Whether the step would index outside its slice, as `delete` does when the channel is not found. */
  ghost predicate Panics(s: State, a: Action)
    requires Enabled(s, a)
  {
    match a
    case RemoveIdle(sub) => Find(s.sendCases, s.subs[sub].ch) == |s.sendCases|
    case SelectRemove(sub) => Find(s.sendCases, s.subs[sub].ch) == |s.sendCases| || s.sender.active == 0
    case TrySend(_) => !(1 <= s.sender.active <= |s.sendCases|) || s.sender.phase.i < 1
    case SelectSend(_) => s.sender.active > |s.sendCases|
    case _ => false
  }

  function SetStatus(s: State, sub: nat, status: Status): seq<Subscription>
    requires sub < |s.subs|
  {
    s.subs[sub := s.subs[sub].(status := status)]
  }

  function Tags(cs: seq<Case>): set<nat> {
    set k | 0 <= k < |cs| && cs[k].Sub? :: cs[k].tag
  }

  /** A delivery to the active case i. */
  function DeliverTo(s: State, i: nat, phase: Phase): State
    requires s.sender.Sender? && 1 <= i < s.sender.active <= |s.sendCases|
  {
    var n := s.sender.active;
    var tag := if s.sendCases[i].Sub? then [s.sendCases[i].tag] else [];
    s.(sendCases := Deactivate(s.sendCases, n, i),
       sender := s.sender.(phase := phase, active := n - 1, nsent := s.sender.nsent + 1, sent := s.sender.sent + tag))
  }

  function RemoveDuringSend(s: State, sub: nat): State
    requires s.sender.Sender? && sub < |s.subs| && Find(s.sendCases, s.subs[sub].ch) < |s.sendCases|
    requires s.sender.active >= 1
  {
    var index := Find(s.sendCases, s.subs[sub].ch);
    s.(sendCases := Delete(s.sendCases, index),
       subs := SetStatus(s, sub, Done),
       sender := s.sender.(phase := Trying(1),
                           active := if index < s.sender.active then s.sender.active - 1 else s.sender.active,
                           removed := s.sender.removed + {s.sendCases[index].tag}))
  }

  function Apply(s: State, a: Action): State
    requires Enabled(s, a) && !Panics(s, a)
  {
    match a
    case Subscribe(ch) =>
      s.(inbox := s.inbox + [Sub(ch, |s.subs|)], subs := s.subs + [Subscription(ch, Live)])
    case Unsubscribe(sub) =>
      var index := Find(s.inbox, s.subs[sub].ch);
      if index < |s.inbox| then s.(inbox := Delete(s.inbox, index), subs := SetStatus(s, sub, Done))
      else s.(subs := SetStatus(s, sub, Removing))
    case RemoveIdle(sub) =>
      s.(sendCases := Delete(s.sendCases, Find(s.sendCases, s.subs[sub].ch)), subs := SetStatus(s, sub, Done))
    case SendLock => s.(sender := Sender(Locked, 0, 0, {}, [], {}))
    case SendInbox(typed) =>
      var cases := s.sendCases + s.inbox;
      s.(sendCases := cases, inbox := [],
         sender := if typed then Sender(Trying(1), |cases|, 0, Tags(cases), [], {}) else NoSender)
    case TrySend(ok) =>
      var i, n := s.sender.phase.i, s.sender.active;
      if i < n then
        if ok then DeliverTo(s, i, Trying(i))
        else s.(sender := s.sender.(phase := Trying(i + 1)))
      else s.(sender := s.sender.(phase := if n == 1 then Finished else Selecting))
    case SelectSend(chosen) => DeliverTo(s, chosen, Trying(1))
    case SelectRemove(sub) => RemoveDuringSend(s, sub)
    case SendUnlock => s.(sender := NoSender)
  }

  // ----- counting -----

  function OnChannel(c: Case, ch: nat): bool {
    c.Sub? && c.ch == ch
  }

  /** Occurrences of a channel in a case list. */
  function Count(cs: seq<Case>, ch: nat): nat {
    if cs == [] then 0 else Count(cs[..|cs| - 1], ch) + B(OnChannel(cs[|cs| - 1], ch))
  }

  /** Subscriptions of the channel that are live, and those whose removal is past the inbox. */
  function LiveSubs(subs: seq<Subscription>, ch: nat): nat {
    if subs == [] then 0
    else LiveSubs(subs[..|subs| - 1], ch) + B(subs[|subs| - 1].ch == ch && subs[|subs| - 1].status != Done)
  }

  function RemovingSubs(subs: seq<Subscription>, ch: nat): nat {
    if subs == [] then 0
    else RemovingSubs(subs[..|subs| - 1], ch) + B(subs[|subs| - 1].ch == ch && subs[|subs| - 1].status == Removing)
  }

  lemma {:induction false} CountAppend(a: seq<Case>, b: seq<Case>, ch: nat)
    ensures Count(a + b, ch) == Count(a, ch) + Count(b, ch)
  {
    if b == [] {
      assert a + b == a;
    } else {
      assert (a + b)[..|a + b| - 1] == a + b[..|b| - 1];
      CountAppend(a, b[..|b| - 1], ch);
    }
  }

  lemma {:induction false} CountUpdate(cs: seq<Case>, i: nat, c: Case, ch: nat)
    requires i < |cs|
    ensures Count(cs[i := c], ch) + B(OnChannel(cs[i], ch)) == Count(cs, ch) + B(OnChannel(c, ch))
  {
    var n := |cs| - 1;
    assert cs[i := c][..n] == if i == n then cs[..n] else cs[..n][i := c];
    if i < n {
      CountUpdate(cs[..n], i, c, ch);
    }
  }

  lemma CountDeactivate(cs: seq<Case>, n: nat, i: nat, ch: nat)
    requires i < n <= |cs|
    ensures Count(Deactivate(cs, n, i), ch) == Count(cs, ch)
  {
    hide Count;
    CountUpdate(cs, i, cs[n - 1], ch);
    CountUpdate(cs[i := cs[n - 1]], n - 1, cs[i], ch);
  }

  lemma CountDelete(cs: seq<Case>, i: nat, ch: nat)
    requires i < |cs|
    ensures Count(Delete(cs, i), ch) + B(OnChannel(cs[i], ch)) == Count(cs, ch)
  {
    assert cs == cs[..i] + [cs[i]] + cs[i + 1..];
    CountAppend(cs[..i] + [cs[i]], cs[i + 1..], ch);
    CountAppend(cs[..i], [cs[i]], ch);
    CountAppend(cs[..i], cs[i + 1..], ch);
    assert [cs[i]][..0] == [];
  }

  /** A channel that occurs is found. */
  lemma {:induction false} FindCounts(cs: seq<Case>, ch: nat)
    ensures Find(cs, ch) < |cs| <==> Count(cs, ch) > 0
  {
    if cs != [] {
      FindCounts(cs[1..], ch);
      assert cs == [cs[0]] + cs[1..];
      CountAppend([cs[0]], cs[1..], ch);
      assert [cs[0]][..0] == [];
    }
  }

  lemma {:induction false} SubsUpdate(subs: seq<Subscription>, i: nat, t: Subscription, ch: nat)
    requires i < |subs|
    ensures LiveSubs(subs[i := t], ch) + B(subs[i].ch == ch && subs[i].status != Done)
         == LiveSubs(subs, ch) + B(t.ch == ch && t.status != Done)
    ensures RemovingSubs(subs[i := t], ch) + B(subs[i].ch == ch && subs[i].status == Removing)
         == RemovingSubs(subs, ch) + B(t.ch == ch && t.status == Removing)
  {
    var n := |subs| - 1;
    assert subs[i := t][..n] == if i == n then subs[..n] else subs[..n][i := t];
    if i < n {
      SubsUpdate(subs[..n], i, t, ch);
    }
  }

  lemma {:induction false} RemovingAreLive(subs: seq<Subscription>, ch: nat)
    ensures RemovingSubs(subs, ch) <= LiveSubs(subs, ch)
  {
    if subs != [] {
      RemovingAreLive(subs[..|subs| - 1], ch);
    }
  }

  lemma {:induction false} RemovingCounts(subs: seq<Subscription>, i: nat)
    requires i < |subs| && subs[i].status == Removing
    ensures RemovingSubs(subs, subs[i].ch) >= 1
  {
    if i < |subs| - 1 {
      RemovingCounts(subs[..|subs| - 1], i);
    }
  }

  // ----- the invariant -----

  /** The interrupt case comes first; everything else is a subscription. */
  ghost predicate Shape(cs: seq<Case>) {
    && |cs| >= 1
    && cs[0] == RemoveSub
    && forall k :: 1 <= k < |cs| ==> cs[k].Sub?
  }

  /** Every case has a tag of its own, drawn from the subscriptions made so far. */
  ghost predicate Distinct(cs: seq<Case>, limit: nat) {
    && (forall k :: 0 <= k < |cs| && cs[k].Sub? ==> cs[k].tag < limit)
    && (forall k, l :: 0 <= k < l < |cs| && cs[k].Sub? && cs[l].Sub? ==> cs[k].tag != cs[l].tag)
  }

  ghost predicate Counted(s: State, ch: nat) {
    && Count(s.sendCases, ch) + Count(s.inbox, ch) == LiveSubs(s.subs, ch)
    && RemovingSubs(s.subs, ch) <= Count(s.sendCases, ch)
  }

  ghost predicate NoRepeats(tags: seq<nat>) {
    forall k, l :: 0 <= k < l < |tags| ==> tags[k] != tags[l]
  }

  /** The active cases are exactly those not delivered to. */
  ghost predicate Split(cs: seq<Case>, n: nat, sent: seq<nat>) {
    && (forall k :: 0 <= k < n && k < |cs| && cs[k].Sub? ==> cs[k].tag !in sent)
    && (forall k :: n <= k < |cs| && cs[k].Sub? ==> cs[k].tag in sent)
  }

  ghost predicate PhaseOk(p: Phase, n: nat) {
    match p
    case Trying(i) => 1 <= i <= n
    case Selecting => n > 1
    case Finished => n == 1
    case Locked => false
  }

  /** A send past its start: what it was to reach is what it has left, what it reached and what was removed. */
  ghost predicate SendOk(cs: seq<Case>, d: Sender)
    requires d.Sender?
  {
    && 1 <= d.active <= |cs|
    && PhaseOk(d.phase, d.active)
    && d.nsent == |d.sent|
    && NoRepeats(d.sent)
    && (forall t :: t in d.sent ==> t in d.targets)
    && Split(cs, d.active, d.sent)
    && d.targets == Tags(cs) + d.removed
    && Tags(cs) !! d.removed
  }

  ghost predicate Inv(s: State) {
    && Shape(s.sendCases)
    && (forall k :: 0 <= k < |s.inbox| ==> s.inbox[k].Sub?)
    && Distinct(s.sendCases + s.inbox, |s.subs|)
    && (forall ch :: Counted(s, ch))
    && (s.sender.Sender? && s.sender.phase != Locked ==> SendOk(s.sendCases, s.sender))
  }

  lemma InitInv()
    ensures Inv(Init())
  {
  }

  // ----- what the list operations do to the invariant -----

  lemma DistinctDelete(cs: seq<Case>, i: nat, limit: nat)
    requires i < |cs| && Distinct(cs, limit)
    ensures Distinct(Delete(cs, i), limit)
  {
    var d := Delete(cs, i);
    forall k | 0 <= k < |d|
      ensures d[k] == cs[if k < i then k else k + 1]
    {
    }
  }

  lemma DistinctDeactivate(cs: seq<Case>, n: nat, i: nat, limit: nat)
    requires i < n <= |cs| && Distinct(cs, limit)
    ensures Distinct(Deactivate(cs, n, i), limit)
  {
  }

  lemma TagsDelete(cs: seq<Case>, i: nat, limit: nat)
    requires i < |cs| && Distinct(cs, limit) && cs[i].Sub?
    ensures Tags(Delete(cs, i)) == Tags(cs) - {cs[i].tag}
  {
    var d := Delete(cs, i);
    forall t | t in Tags(cs) - {cs[i].tag}
      ensures t in Tags(d)
    {
      var k :| 0 <= k < |cs| && cs[k].Sub? && cs[k].tag == t;
      assert d[if k < i then k else k - 1] == cs[k];
    }
    forall t | t in Tags(d)
      ensures t in Tags(cs) - {cs[i].tag}
    {
      var k :| 0 <= k < |d| && d[k].Sub? && d[k].tag == t;
      assert cs[if k < i then k else k + 1] == d[k];
    }
  }

  lemma TagsDeactivate(cs: seq<Case>, n: nat, i: nat)
    requires i < n <= |cs|
    ensures Tags(Deactivate(cs, n, i)) == Tags(cs)
  {
    var d := Deactivate(cs, n, i);
    forall t | t in Tags(cs)
      ensures t in Tags(d)
    {
      var k :| 0 <= k < |cs| && cs[k].Sub? && cs[k].tag == t;
      assert d[if k == i then n - 1 else if k == n - 1 then i else k] == cs[k];
    }
    forall t | t in Tags(d)
      ensures t in Tags(cs)
    {
      var k :| 0 <= k < |d| && d[k].Sub? && d[k].tag == t;
      assert cs[if k == i then n - 1 else if k == n - 1 then i else k] == d[k];
    }
  }

  lemma SplitDeactivate(cs: seq<Case>, n: nat, i: nat, sent: seq<nat>, limit: nat)
    requires 1 <= i < n <= |cs| && Shape(cs) && Distinct(cs, limit) && Split(cs, n, sent)
    ensures Split(Deactivate(cs, n, i), n - 1, sent + [cs[i].tag])
    ensures cs[i].tag !in sent && cs[i].tag in Tags(cs)
    ensures Shape(Deactivate(cs, n, i))
  {
    var d := Deactivate(cs, n, i);
    forall k | 0 <= k < n - 1 && d[k].Sub?
      ensures d[k].tag !in sent + [cs[i].tag]
    {
      assert d[k] == cs[if k == i then n - 1 else k];
    }
  }

  lemma SplitDelete(cs: seq<Case>, n: nat, i: nat, sent: seq<nat>)
    requires 1 <= i < |cs| && 1 <= n <= |cs| && Shape(cs) && Split(cs, n, sent)
    ensures Split(Delete(cs, i), if i < n then n - 1 else n, sent)
    ensures Shape(Delete(cs, i))
    ensures 1 <= (if i < n then n - 1 else n) <= |Delete(cs, i)|
  {
    var d, m := Delete(cs, i), if i < n then n - 1 else n;
    forall k | 0 <= k < |d|
      ensures d[k] == cs[if k < i then k else k + 1]
    {
    }
  }

  /** A delivery keeps what a send in progress promises. */
  lemma DeliverKeeps(cs: seq<Case>, d: Sender, i: nat, limit: nat, p: Phase)
    requires Shape(cs) && Distinct(cs, limit)
    requires d.Sender? && SendOk(cs, d) && 1 <= i < d.active && PhaseOk(p, d.active - 1)
    ensures SendOk(Deactivate(cs, d.active, i),
                   d.(phase := p, active := d.active - 1, nsent := d.nsent + 1, sent := d.sent + [cs[i].tag]))
  {
    hide Deactivate, Shape, Distinct, Split, Tags, PhaseOk;
    assert cs[i].Sub? by { ShapeAt(cs, i); }
    SplitDeactivate(cs, d.active, i, d.sent, limit);
    TagsDeactivate(cs, d.active, i);
    DeactivateLength(cs, d.active, i);
  }

  lemma ShapeAt(cs: seq<Case>, i: nat)
    requires Shape(cs) && 1 <= i < |cs|
    ensures cs[i].Sub?
  {
  }

  lemma DeactivateLength(cs: seq<Case>, n: nat, i: nat)
    requires i < n <= |cs|
    ensures |Deactivate(cs, n, i)| == |cs|
  {
  }

  /** So does a removal, of a case still active or of one already delivered to. */
  lemma RemoveKeeps(cs: seq<Case>, d: Sender, i: nat, limit: nat)
    requires Shape(cs) && Distinct(cs, limit)
    requires d.Sender? && SendOk(cs, d) && 1 <= i < |cs| && cs[i].Sub?
    ensures SendOk(Delete(cs, i),
                   d.(phase := Trying(1), active := if i < d.active then d.active - 1 else d.active,
                      removed := d.removed + {cs[i].tag}))
  {
    hide Delete, Shape, Distinct, Split, Tags, NoRepeats;
    SplitDelete(cs, d.active, i, d.sent);
    TagsDelete(cs, i, limit);
    assert cs[i].tag in Tags(cs) by { TagIn(cs, i); }
  }

  lemma TagIn(cs: seq<Case>, i: nat)
    requires i < |cs| && cs[i].Sub?
    ensures cs[i].tag in Tags(cs)
  {
  }

  // ----- every step keeps the invariant -----

  lemma FoundCase(s: State, sub: nat)
    requires Inv(s) && sub < |s.subs| && s.subs[sub].status == Removing
    ensures 1 <= Find(s.sendCases, s.subs[sub].ch) < |s.sendCases|
  {
    hide SendOk, Distinct, Count, LiveSubs, RemovingSubs, Find;
    var ch := s.subs[sub].ch;
    RemovingCounts(s.subs, sub);
    assert Counted(s, ch);
    FindCounts(s.sendCases, ch);
  }

  /** No step of a reachable state indexes outside a slice; in particular `find` never misses. */
  lemma NeverPanics(s: State, a: Action)
    requires Inv(s) && Enabled(s, a)
    ensures !Panics(s, a)
  {
    hide Distinct, Counted, Count, Find, Split, Tags, NoRepeats;
    if a.RemoveIdle? || a.SelectRemove? {
      FoundCase(s, a.sub);
    }
  }

  lemma DistinctSplit(a: seq<Case>, b: seq<Case>, limit: nat)
    requires Distinct(a + b, limit)
    ensures Distinct(a, limit)
  {
    forall k | 0 <= k < |a|
      ensures (a + b)[k] == a[k]
    {
    }
  }

  /** A new subscription waits in the inbox; the cases that a send in progress works on stay as they are. */
  lemma SubscribeKeeps(s: State, ch: nat)
    requires Inv(s)
    ensures Inv(Apply(s, Subscribe(ch)))
    ensures var t := Apply(s, Subscribe(ch));
            && t.sendCases == s.sendCases && t.sender == s.sender
            && |t.inbox| == |s.inbox| + 1 && t.inbox[..|s.inbox|] == s.inbox
            && t.inbox[|s.inbox|].Sub? && t.inbox[|s.inbox|].ch == ch
  {
    hide SendOk, Count, LiveSubs, RemovingSubs, Find;
    var t := Apply(s, Subscribe(ch));
    var c := Sub(ch, |s.subs|);
    assert t.sendCases + t.inbox == (s.sendCases + s.inbox) + [c];
    forall x
      ensures Counted(t, x)
    {
      assert Counted(s, x);
      AppendCounts(s, c, x);
    }
  }

  lemma AppendCounts(s: State, c: Case, x: nat)
    requires c.Sub?
    ensures Count(s.inbox + [c], x) == Count(s.inbox, x) + B(c.ch == x)
    ensures LiveSubs(s.subs + [Subscription(c.ch, Live)], x) == LiveSubs(s.subs, x) + B(c.ch == x)
    ensures RemovingSubs(s.subs + [Subscription(c.ch, Live)], x) == RemovingSubs(s.subs, x)
  {
    assert (s.inbox + [c])[..|s.inbox|] == s.inbox;
    var u := s.subs + [Subscription(c.ch, Live)];
    assert u[..|s.subs|] == s.subs;
  }

  /** One list is the other without its first case of the channel. */
  ghost predicate FirstGone(before: seq<Case>, after: seq<Case>, ch: nat) {
    exists i ::
      && 0 <= i < |before| && before[i].Sub? && before[i].ch == ch
      && (forall j :: 0 <= j < i ==> !OnChannel(before[j], ch))
      && after == before[..i] + before[i + 1..]
  }

  lemma FindGone(cs: seq<Case>, ch: nat)
    requires Find(cs, ch) < |cs|
    ensures FirstGone(cs, Delete(cs, Find(cs, ch)), ch)
  {
    var i := Find(cs, ch);
    assert cs[i].Sub? && cs[i].ch == ch;
  }

  lemma UnsubscribeKeeps(s: State, sub: nat)
    requires Inv(s) && Enabled(s, Unsubscribe(sub))
    ensures Inv(Apply(s, Unsubscribe(sub)))
    ensures var t, ch := Apply(s, Unsubscribe(sub)), s.subs[sub].ch;
            && t.sendCases == s.sendCases
            && if exists k :: 0 <= k < |s.inbox| && OnChannel(s.inbox[k], ch)
               then FirstGone(s.inbox, t.inbox, ch) && t.subs[sub].status == Done
               else t.inbox == s.inbox && t.subs[sub].status == Removing
  {
    hide SendOk, Count, LiveSubs, RemovingSubs, Find, Distinct, Delete, FirstGone;
    var t := Apply(s, Unsubscribe(sub));
    var ch := s.subs[sub].ch;
    var index := Find(s.inbox, ch);
    if index < |s.inbox| {
      FindGone(s.inbox, ch);
      DeleteFromInbox(s.sendCases, s.inbox, index, |s.subs|);
      forall x
        ensures Counted(t, x)
      {
        assert Counted(s, x);
        CountDelete(s.inbox, index, x);
        SubsUpdate(s.subs, sub, s.subs[sub].(status := Done), x);
      }
    } else {
      FindCounts(s.inbox, ch);
      forall x
        ensures Counted(t, x)
      {
        assert Counted(s, x);
        SubsUpdate(s.subs, sub, s.subs[sub].(status := Removing), x);
        RemovingAreLive(t.subs, x);
      }
    }
  }

  lemma DeleteFromInbox(a: seq<Case>, b: seq<Case>, i: nat, limit: nat)
    requires i < |b| && Distinct(a + b, limit)
    requires forall k :: 0 <= k < |b| ==> b[k].Sub?
    ensures Distinct(a + Delete(b, i), limit)
    ensures forall k :: 0 <= k < |Delete(b, i)| ==> Delete(b, i)[k].Sub?
  {
    assert a + Delete(b, i) == Delete(a + b, |a| + i);
    DistinctDelete(a + b, |a| + i, limit);
  }

  lemma DeleteFromCases(a: seq<Case>, b: seq<Case>, i: nat, limit: nat)
    requires 1 <= i < |a| && Distinct(a + b, limit) && Shape(a)
    ensures Distinct(Delete(a, i) + b, limit)
    ensures Shape(Delete(a, i))
  {
    assert Delete(a, i) + b == Delete(a + b, i);
    DistinctDelete(a + b, i, limit);
  }

  lemma RemovalCounts(s: State, t: State, sub: nat, x: nat)
    requires Inv(s) && sub < |s.subs| && s.subs[sub].status == Removing
    requires Find(s.sendCases, s.subs[sub].ch) < |s.sendCases|
    requires t.sendCases == Delete(s.sendCases, Find(s.sendCases, s.subs[sub].ch))
    requires t.subs == SetStatus(s, sub, Done) && t.inbox == s.inbox
    ensures Counted(t, x)
  {
    hide SendOk, Count, LiveSubs, RemovingSubs, Find, Distinct, Delete;
    assert Counted(s, x);
    CountDelete(s.sendCases, Find(s.sendCases, s.subs[sub].ch), x);
    SubsUpdate(s.subs, sub, s.subs[sub].(status := Done), x);
  }

  lemma RemoveIdleKeeps(s: State, sub: nat)
    requires Inv(s) && Enabled(s, RemoveIdle(sub)) && !Panics(s, RemoveIdle(sub))
    ensures Inv(Apply(s, RemoveIdle(sub)))
    ensures FirstGone(s.sendCases, Apply(s, RemoveIdle(sub)).sendCases, s.subs[sub].ch)
  {
    hide SendOk, Counted, Find, Distinct, Delete, FirstGone;
    FoundCase(s, sub);
    FindGone(s.sendCases, s.subs[sub].ch);
    DeleteFromCases(s.sendCases, s.inbox, Find(s.sendCases, s.subs[sub].ch), |s.subs|);
    forall x
      ensures Counted(Apply(s, RemoveIdle(sub)), x)
    {
      RemovalCounts(s, Apply(s, RemoveIdle(sub)), sub, x);
    }
  }

  lemma SelectRemoveKeeps(s: State, sub: nat)
    requires Inv(s) && Enabled(s, SelectRemove(sub)) && !Panics(s, SelectRemove(sub))
    ensures Inv(Apply(s, SelectRemove(sub)))
    ensures FirstGone(s.sendCases, Apply(s, SelectRemove(sub)).sendCases, s.subs[sub].ch)
  {
    hide SendOk, Counted, Find, Distinct, Delete, Tags, FirstGone;
    FoundCase(s, sub);
    FindGone(s.sendCases, s.subs[sub].ch);
    var index := Find(s.sendCases, s.subs[sub].ch);
    DeleteFromCases(s.sendCases, s.inbox, index, |s.subs|);
    DistinctSplit(s.sendCases, s.inbox, |s.subs|);
    RemoveKeeps(s.sendCases, s.sender, index, |s.subs|);
    forall x
      ensures Counted(Apply(s, SelectRemove(sub)), x)
    {
      RemovalCounts(s, Apply(s, SelectRemove(sub)), sub, x);
    }
  }

  lemma DeliveryKeeps(s: State, i: nat, p: Phase)
    requires Inv(s) && s.sender.Sender? && s.sender.phase != Locked && 1 <= i < s.sender.active
    requires PhaseOk(p, s.sender.active - 1) && s.sender.active <= |s.sendCases|
    ensures Inv(DeliverTo(s, i, p))
  {
    hide SendOk, Count, LiveSubs, RemovingSubs, Distinct, Deactivate, PhaseOk;
    var n := s.sender.active;
    DistinctSplit(s.sendCases, s.inbox, |s.subs|);
    DeliverKeeps(s.sendCases, s.sender, i, |s.subs|, p);
    DeactivateAll(s.sendCases, s.inbox, n, i, |s.subs|);
    var t := DeliverTo(s, i, p);
    forall x
      ensures Counted(t, x)
    {
      assert Counted(s, x);
      CountDeactivate(s.sendCases, n, i, x);
    }
  }

  lemma DeactivateAll(a: seq<Case>, b: seq<Case>, n: nat, i: nat, limit: nat)
    requires 1 <= i < n <= |a| && Distinct(a + b, limit) && Shape(a)
    ensures Distinct(Deactivate(a, n, i) + b, limit)
    ensures Shape(Deactivate(a, n, i))
  {
    assert Deactivate(a, n, i) + b == Deactivate(a + b, n, i);
    DistinctDeactivate(a + b, n, i, limit);
  }

  lemma SendInboxKeeps(s: State, typed: bool)
    requires Inv(s) && Enabled(s, SendInbox(typed))
    ensures Inv(Apply(s, SendInbox(typed)))
    ensures var t := Apply(s, SendInbox(typed));
            && t.sendCases == s.sendCases + s.inbox && t.inbox == [] && t.subs == s.subs
            && (t.sender.Sender? <==> typed)
  {
    hide Count, LiveSubs, RemovingSubs, Distinct, Find, Tags;
    var t := Apply(s, SendInbox(typed));
    assert t.sendCases + t.inbox == s.sendCases + s.inbox;
    forall x
      ensures Counted(t, x)
    {
      assert Counted(s, x);
      CountAppend(s.sendCases, s.inbox, x);
      assert Count([], x) == 0 by { CountNone(x); }
    }
  }

  lemma CountNone(x: nat)
    ensures Count([], x) == 0
  {
  }

  /** Every step of every goroutine keeps the invariant. */
  lemma StepKeeps(s: State, a: Action)
    requires Inv(s) && Enabled(s, a)
    ensures !Panics(s, a) && Inv(Apply(s, a))
  {
    hide Distinct, Counted, Find, Split, Tags, NoRepeats, Shape;
    NeverPanics(s, a);
    match a
    case Subscribe(ch) => SubscribeKeeps(s, ch);
    case Unsubscribe(sub) => UnsubscribeKeeps(s, sub);
    case RemoveIdle(sub) => RemoveIdleKeeps(s, sub);
    case SendLock => CountedSame(s, Apply(s, a));
    case SendInbox(typed) => SendInboxKeeps(s, typed);
    case TrySend(ok) =>
      if s.sender.phase.i < s.sender.active && ok {
        DeliveryKeeps(s, s.sender.phase.i, Trying(s.sender.phase.i));
      } else {
        CountedSame(s, Apply(s, a));
      }
    case SelectSend(chosen) => DeliveryKeeps(s, chosen, Trying(1));
    case SelectRemove(sub) => SelectRemoveKeeps(s, sub);
    case SendUnlock => CountedSame(s, Apply(s, a));
  }

  lemma CountedSame(s: State, t: State)
    requires forall x :: Counted(s, x)
    requires t.sendCases == s.sendCases && t.inbox == s.inbox && t.subs == s.subs
    ensures forall x :: Counted(t, x)
  {
    forall x
      ensures Counted(t, x)
    {
      assert Counted(s, x);
    }
  }

  // ----- whole runs -----

  /** A run: each action is enabled and leads to the next state. */
  ghost predicate Run(states: seq<State>, actions: seq<Action>) {
    && |states| == |actions| + 1
    && states[0] == Init()
    && forall k :: 0 <= k < |actions| ==>
         && Enabled(states[k], actions[k])
         && (!Panics(states[k], actions[k]) ==> states[k + 1] == Apply(states[k], actions[k]))
  }

  lemma {:induction false} RunInv(states: seq<State>, actions: seq<Action>, k: nat)
    requires Run(states, actions) && k < |states|
    ensures Inv(states[k])
  {
    hide Inv, Enabled, Panics, Apply;
    if k == 0 {
      InitInv();
    } else {
      RunInv(states, actions, k - 1);
      StepKeeps(states[k - 1], actions[k - 1]);
    }
  }

  /**
    In every interleaving: a channel occurs in the inbox and the cases as often as it has live subscriptions; removals
    past the inbox never outnumber its cases, so no step deletes a case that is not there; at any moment a send has
    delivered at most once to each case it started with, to nothing else, and counted the deliveries, and every case it
    started with has been reached, was removed on the way or is among those still to be sent to. When it has finished
    there are none of those.
    */
  lemma RunSafety(states: seq<State>, actions: seq<Action>, k: nat)
    requires Run(states, actions) && k < |states|
    ensures forall ch :: Count(states[k].sendCases, ch) + Count(states[k].inbox, ch) == LiveSubs(states[k].subs, ch)
    ensures forall ch :: RemovingSubs(states[k].subs, ch) <= Count(states[k].sendCases, ch)
    ensures k < |actions| ==> !Panics(states[k], actions[k])
    ensures states[k].sender.Sender? && states[k].sender.phase != Locked ==>
              && NoRepeats(states[k].sender.sent)
              && states[k].sender.nsent == |states[k].sender.sent|
              && (forall t :: t in states[k].sender.sent ==> t in states[k].sender.targets)
              && (forall t :: t in states[k].sender.targets && t !in states[k].sender.removed ==>
                    t in states[k].sender.sent || Pending(states[k], t))
    ensures states[k].sender.Sender? && states[k].sender.phase == Finished ==> forall t :: !Pending(states[k], t)
  {
    hide Run, Enabled, Apply, Count, LiveSubs, RemovingSubs, Panics;
    RunInv(states, actions, k);
    forall ch
      ensures Count(states[k].sendCases, ch) + Count(states[k].inbox, ch) == LiveSubs(states[k].subs, ch)
      ensures RemovingSubs(states[k].subs, ch) <= Count(states[k].sendCases, ch)
    {
      assert Counted(states[k], ch);
    }
    if k < |actions| {
      RunEnabled(states, actions, k);
      StepKeeps(states[k], actions[k]);
    }
    if states[k].sender.Sender? && states[k].sender.phase != Locked {
      StillPending(states[k]);
    }
  }

  /** The case with the tag is among the active ones. */
  ghost predicate Pending(s: State, t: nat)
    requires s.sender.Sender?
  {
    exists j :: 1 <= j < s.sender.active && j < |s.sendCases| && s.sendCases[j].Sub? && s.sendCases[j].tag == t
  }

  lemma StillPending(s: State)
    requires Inv(s) && s.sender.Sender? && s.sender.phase != Locked
    ensures forall t :: t in s.sender.targets && t !in s.sender.removed ==> t in s.sender.sent || Pending(s, t)
  {
    hide Distinct, Counted, NoRepeats;
    forall t | t in s.sender.targets && t !in s.sender.removed && t !in s.sender.sent
      ensures Pending(s, t)
    {
      assert t in Tags(s.sendCases);
      var j :| 0 <= j < |s.sendCases| && s.sendCases[j].Sub? && s.sendCases[j].tag == t;
      assert j < s.sender.active;
    }
  }

  lemma RunEnabled(states: seq<State>, actions: seq<Action>, k: nat)
    requires Run(states, actions) && k < |actions|
    ensures Enabled(states[k], actions[k])
  {
  }

  /** What a send set out to reach is fixed when it starts: the cases at that time, new subscriptions included. */
  lemma TargetsFixed(s: State, a: Action)
    requires Inv(s) && Enabled(s, a) && !Panics(s, a)
    requires Apply(s, a).sender.Sender? && Apply(s, a).sender.phase != Locked
    ensures a.SendInbox? ==>
              a.typed && Apply(s, a).sender.targets == Tags(s.sendCases + s.inbox) && Apply(s, a).sender.removed == {}
    ensures !a.SendInbox? ==>
              && !a.SendUnlock? && s.sender.Sender? && s.sender.phase != Locked
              && Apply(s, a).sender.targets == s.sender.targets
              && s.sender.sent <= Apply(s, a).sender.sent
              && (Apply(s, a).sender.removed != s.sender.removed ==> a.SelectRemove?)
  {
    hide Distinct, Counted, Find, Split, Tags, NoRepeats, SendOk;
  }

  // ----- what a send has done so far -----

  /** The case that accepts the value in a step, if one does. */
  ghost function Accepted(s: State, a: Action): seq<Case> {
    if !s.sender.Sender? then []
    else match a
      case TrySend(ok) =>
        if ok && s.sender.phase.Trying? && s.sender.phase.i < s.sender.active && s.sender.phase.i < |s.sendCases|
        then [s.sendCases[s.sender.phase.i]] else []
      case SelectSend(chosen) => if chosen < |s.sendCases| then [s.sendCases[chosen]] else []
      case _ => []
  }

  /** The case that refuses the value in a step of the fast path, if one does. */
  ghost function Refused(s: State, a: Action): seq<Case> {
    if s.sender.Sender? && a == TrySend(false) && s.sender.phase.Trying? && s.sender.phase.i < s.sender.active
       && s.sender.phase.i < |s.sendCases|
    then [s.sendCases[s.sender.phase.i]] else []
  }

  ghost function TagsOf(cs: seq<Case>): seq<nat> {
    if cs == [] then []
    else
      var last := cs[|cs| - 1];
      TagsOf(cs[..|cs| - 1]) + if last.Sub? then [last.tag] else []
  }

  /** The cases that accepted, and those that refused, in the steps from j to k. */
  ghost function AcceptedIn(states: seq<State>, actions: seq<Action>, j: nat, k: nat): seq<Case>
    requires j <= k <= |actions| < |states|
  {
    if j == k then [] else AcceptedIn(states, actions, j, k - 1) + Accepted(states[k - 1], actions[k - 1])
  }

  ghost function RefusedIn(states: seq<State>, actions: seq<Action>, j: nat, k: nat): seq<Case>
    requires j <= k <= |actions| < |states|
  {
    if j == k then [] else RefusedIn(states, actions, j, k - 1) + Refused(states[k - 1], actions[k - 1])
  }

  lemma TagsOfAppend(cs: seq<Case>, c: Case)
    ensures TagsOf(cs + [c]) == TagsOf(cs) + if c.Sub? then [c.tag] else []
  {
    assert (cs + [c])[..|cs|] == cs;
  }

  lemma AcceptStep(s: State, a: Action)
    requires Inv(s) && Enabled(s, a) && !Panics(s, a) && !a.SendUnlock?
    requires s.sender.Sender? && s.sender.phase != Locked
    ensures var t := Apply(s, a);
            && t.sender.Sender? && t.sender.phase != Locked
            && |Accepted(s, a)| <= 1 && (forall c :: c in Accepted(s, a) ==> c.Sub?)
            && t.sender.sent == s.sender.sent + TagsOf(Accepted(s, a))
            && t.sender.nsent == s.sender.nsent + |Accepted(s, a)|
  {
    hide Distinct, Counted, Find, Split, Tags, NoRepeats, Delete, Deactivate;
    assert Accepted(s, a) != [] ==> Accepted(s, a) == [] + Accepted(s, a);
    TagsOfAppend([], if Accepted(s, a) == [] then RemoveSub else Accepted(s, a)[0]);
  }

  lemma {:induction false} TagsOfConcat(a: seq<Case>, b: seq<Case>)
    requires |b| <= 1
    ensures TagsOf(a + b) == TagsOf(a) + TagsOf(b)
  {
    if b == [] {
      assert a + b == a;
    } else {
      TagsOfAppend(a, b[0]);
      TagsOfAppend([], b[0]);
      assert [] + [b[0]] == b && a + [b[0]] == a + b;
    }
  }

  /** A send that has taken over the inbox in step j and has not ended before step k. */
  ghost predicate Sending(actions: seq<Action>, j: nat, k: nat) {
    j < k <= |actions| && actions[j] == SendInbox(true) && forall e :: j < e < k ==> !actions[e].SendUnlock?
  }

  /**
    In every run, a send has counted and recorded exactly the cases that accepted the value since it took over the
    inbox, in that order.
    */
  lemma {:induction false} SentIsAccepted(states: seq<State>, actions: seq<Action>, j: nat, k: nat)
    requires Run(states, actions) && Sending(actions, j, k)
    ensures states[k].sender.Sender? && states[k].sender.phase != Locked
    ensures var accepted := AcceptedIn(states, actions, j + 1, k);
            && states[k].sender.sent == TagsOf(accepted) && states[k].sender.nsent == |accepted|
  {
    hide Inv, Enabled, Panics, Apply, Run, Accepted, TagsOf;
    RunStep(states, actions, k - 1);
    if k == j + 1 {
      SendStarts(states[j]);
      assert TagsOf([]) == [] by { TagsOfNone(); }
    } else {
      SentIsAccepted(states, actions, j, k - 1);
      AcceptStep(states[k - 1], actions[k - 1]);
      TagsOfConcat(AcceptedIn(states, actions, j + 1, k - 1), Accepted(states[k - 1], actions[k - 1]));
    }
  }

  lemma TagsOfNone()
    ensures TagsOf([]) == []
  {
  }

  lemma SendStarts(s: State)
    requires Enabled(s, SendInbox(true)) && !Panics(s, SendInbox(true))
    ensures var t := Apply(s, SendInbox(true));
            && t.sender.Sender? && t.sender.phase == Trying(1) && t.sender.sent == [] && t.sender.nsent == 0
            && t.sender.active == |t.sendCases| && t.sendCases == s.sendCases + s.inbox
  {
  }

  lemma RunStep(states: seq<State>, actions: seq<Action>, k: nat)
    requires Run(states, actions) && k < |actions|
    ensures |states| == |actions| + 1
    ensures Inv(states[k]) && Enabled(states[k], actions[k]) && !Panics(states[k], actions[k])
    ensures states[k + 1] == Apply(states[k], actions[k])
  {
    hide Inv, Enabled, Panics, Apply;
    RunInv(states, actions, k);
    StepKeeps(states[k], actions[k]);
  }

  /** Every send in progress, past its start, has such a step. */
  lemma {:induction false} SendBegan(states: seq<State>, actions: seq<Action>, k: nat) returns (j: nat)
    requires Run(states, actions) && k < |states|
    requires states[k].sender.Sender? && states[k].sender.phase != Locked
    ensures Sending(actions, j, k)
    ensures states[k].sender.targets == Tags(states[j].sendCases + states[j].inbox)
  {
    hide Inv, Enabled, Panics, Apply, Tags;
    assert k > 0;
    RunStep(states, actions, k - 1);
    TargetsFixed(states[k - 1], actions[k - 1]);
    if actions[k - 1] == SendInbox(true) {
      j := k - 1;
    } else {
      j := SendBegan(states, actions, k - 1);
    }
  }

  // ----- the fast path -----

  /** One pass of the fast path: from the step that starts it, with nothing but tries and the mutex between. */
  ghost predicate Pass(actions: seq<Action>, j: nat, k: nat) {
    && j < k <= |actions| && (actions[j] == SendInbox(true) || actions[j].SelectSend? || actions[j].SelectRemove?)
    && forall e :: j < e < k ==> actions[e].TrySend? || actions[e].Subscribe? || actions[e].Unsubscribe?
  }

  /** What a pass knows: the cases before the one it is at have all refused; it ends when all active ones have. */
  ghost predicate PassOk(s: State, refused: seq<Case>) {
    && s.sender.Sender? && 1 <= s.sender.active <= |s.sendCases|
    && match s.sender.phase
       case Trying(i) => 1 <= i <= s.sender.active && refused == s.sendCases[1..i]
       case Selecting => s.sender.active > 1 && refused == s.sendCases[1..s.sender.active]
       case Finished => s.sender.active == 1 && refused == []
       case Locked => false
  }

  lemma PassStep(s: State, a: Action, refused: seq<Case>)
    requires Inv(s) && Enabled(s, a) && !Panics(s, a) && PassOk(s, refused)
    requires a.TrySend? || a.Subscribe? || a.Unsubscribe?
    ensures PassOk(Apply(s, a), refused + Refused(s, a))
  {
    hide Inv, Find, Delete;
    if a.TrySend? {
      var i, n := s.sender.phase.i, s.sender.active;
      if i < n {
        if a.ok {
          var cs := Deactivate(s.sendCases, n, i);
          assert cs[1..i] == s.sendCases[1..i];
          assert refused + [] == refused;
        } else {
          assert s.sendCases[1..i + 1] == s.sendCases[1..i] + [s.sendCases[i]];
        }
      } else {
        assert refused + [] == refused;
      }
    } else {
      assert refused + [] == refused;
    }
  }

  lemma PassStarts(s: State, a: Action)
    requires Inv(s) && Enabled(s, a) && !Panics(s, a)
    requires a == SendInbox(true) || a.SelectSend? || a.SelectRemove?
    ensures PassOk(Apply(s, a), [])
  {
    hide Distinct, Counted, Find, Split, Tags, NoRepeats;
  }

  /**
    In every run, a pass tries the active cases in order, a case that refuses once per pass: a send blocks in a
    select only when every active case has refused since the last one that was chosen, and it ends exactly when
    none is left.
    */
  lemma {:induction false} SelectsAfterRefusals(states: seq<State>, actions: seq<Action>, j: nat, k: nat)
    requires Run(states, actions) && Pass(actions, j, k)
    ensures PassOk(states[k], RefusedIn(states, actions, j + 1, k))
  {
    hide Inv, Enabled, Panics, Apply, Run, Refused, PassOk;
    RunStep(states, actions, k - 1);
    if k == j + 1 {
      PassStarts(states[j], actions[j]);
    } else {
      SelectsAfterRefusals(states, actions, j, k - 1);
      PassStep(states[k - 1], actions[k - 1], RefusedIn(states, actions, j + 1, k - 1));
    }
  }

  // ----- the slices, in place -----

  method FindCase(cs: array<Case>, n: nat, ch: nat) returns (index: int)
    requires n <= cs.Length
    ensures -1 <= index < n
    ensures index >= 0 ==> cs[index].Sub? && cs[index].ch == ch
    ensures forall k :: 0 <= k < (if index >= 0 then index else n) ==> !(cs[k].Sub? && cs[k].ch == ch)
    ensures index == (if Find(cs[..n], ch) < n then Find(cs[..n], ch) else -1)
  {
    var i := 0;
    while i < n
      invariant 0 <= i <= n
      invariant Find(cs[..n], ch) == i + Find(cs[i..n], ch)
    {
      assert cs[i..n][1..] == cs[i + 1..n];
      if cs[i].Sub? && cs[i].ch == ch {
        return i;
      }
      i := i + 1;
    }
    index := -1;
  }

  /** Shifts the cases after the index down by one within the shared backing array. */
  method DeleteCase(cs: array<Case>, n: nat, index: nat)
    requires index < n <= cs.Length
    modifies cs
    ensures cs[..n - 1] == Delete(old(cs[..n]), index)
    ensures forall k :: 0 <= k < n - 1 ==> cs[k] == if k < index then old(cs[k]) else old(cs[k + 1])
    ensures cs[n - 1..] == old(cs[n - 1..])
  {
    var i := index;
    while i + 1 < n
      invariant index <= i < n
      invariant forall k :: 0 <= k < index ==> cs[k] == old(cs[k])
      invariant forall k :: index <= k < i ==> cs[k] == old(cs[k + 1])
      invariant forall k :: i <= k < cs.Length ==> cs[k] == old(cs[k])
    {
      cs[i] := cs[i + 1];
      i := i + 1;
    }
  }

  /** Swaps a case out of the active prefix; the prefix and the whole list share the backing array. */
  method DeactivateCase(cs: array<Case>, n: nat, index: nat) returns (active: nat)
    requires index < n <= cs.Length
    modifies cs
    ensures active == n - 1
    ensures cs[..] == Deactivate(old(cs[..]), n, index)
    ensures cs[index] == old(cs[n - 1]) && cs[n - 1] == old(cs[index])
    ensures forall k :: 0 <= k < cs.Length && k != index && k != n - 1 ==> cs[k] == old(cs[k])
  {
    active := n - 1;
    cs[index], cs[active] := cs[active], cs[index];
  }
}
