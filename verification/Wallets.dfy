/**
  Wallet lists: the keystore compares its wallets with the accounts on disk and emits events, and the account manager
  replays them on a list kept sorted by URL.
  */
module Wallets {
  import SortSearch

  // ----- URLs -----

  datatype URL = URL(scheme: string, path: string)

  /** Byte-wise comparison of strings. */
  function Compare(a: string, b: string): (r: int)
    ensures -1 <= r <= 1
  {
    if a == [] then (if b == [] then 0 else -1)
    else if b == [] then 1
    else if a[0] < b[0] then -1
    else if a[0] > b[0] then 1
    else Compare(a[1..], b[1..])
  }

  function Cmp(u: URL, v: URL): int {
    if u.scheme == v.scheme then Compare(u.path, v.path) else Compare(u.scheme, v.scheme)
  }

  lemma {:induction false} CompareEqual(a: string, b: string)
    ensures Compare(a, b) == 0 <==> a == b
    ensures Compare(a, b) == -Compare(b, a)
  {
    if a != [] && b != [] && a[0] == b[0] {
      CompareEqual(a[1..], b[1..]);
      assert a == [a[0]] + a[1..] && b == [b[0]] + b[1..];
    }
  }

  lemma {:induction false} CompareTransitive(a: string, b: string, c: string)
    requires Compare(a, b) < 0 && Compare(b, c) < 0
    ensures Compare(a, c) < 0
  {
    if a != [] && b != [] && c != [] && a[0] == b[0] == c[0] {
      CompareTransitive(a[1..], b[1..], c[1..]);
    }
  }

  /** The order of URLs is total: schemes first, then paths. */
  lemma CmpEqual(u: URL, v: URL)
    ensures Cmp(u, v) == 0 <==> u == v
    ensures Cmp(u, v) == -Cmp(v, u)
  {
    CompareEqual(u.path, v.path);
    CompareEqual(u.scheme, v.scheme);
  }

  lemma CmpTransitive(u: URL, v: URL, w: URL)
    requires Cmp(u, v) < 0 && Cmp(v, w) < 0
    ensures Cmp(u, w) < 0
  {
    hide Compare;
    CompareEqual(u.scheme, v.scheme);
    CompareEqual(v.scheme, w.scheme);
    CompareEqual(u.scheme, w.scheme);
    if u.scheme == v.scheme == w.scheme {
      CompareTransitive(u.path, v.path, w.path);
    } else if u.scheme != v.scheme && v.scheme != w.scheme {
      CompareTransitive(u.scheme, v.scheme, w.scheme);
    }
  }

  /** One string comes before another in a dictionary: it is a proper prefix, or lower where they first differ. */
  ghost predicate Below(a: string, b: string) {
    exists k :: 0 <= k <= |a| && BelowAt(a, b, k)
  }

  ghost predicate BelowAt(a: string, b: string, k: nat)
    requires k <= |a|
  {
    k < |b| && a[..k] == b[..k] && (k == |a| || a[k] < b[k])
  }

  lemma {:induction false} CompareIsBelow(a: string, b: string)
    ensures Compare(a, b) < 0 <==> Below(a, b)
  {
    if a == [] {
      assert b != [] ==> BelowAt(a, b, 0);
    } else if b != [] && a[0] == b[0] {
      CompareIsBelow(a[1..], b[1..]);
      if Below(a[1..], b[1..]) {
        var k :| 0 <= k <= |a[1..]| && BelowAt(a[1..], b[1..], k);
        assert a[..k + 1] == [a[0]] + a[1..][..k] && b[..k + 1] == [b[0]] + b[1..][..k];
        assert BelowAt(a, b, k + 1);
      }
      if Below(a, b) {
        var k :| 0 <= k <= |a| && BelowAt(a, b, k);
        assert k > 0;
        assert a[1..][..k - 1] == a[..k][1..] && b[1..][..k - 1] == b[..k][1..];
        assert BelowAt(a[1..], b[1..], k - 1);
      }
    } else if b != [] {
      assert a[0] < b[0] ==> BelowAt(a, b, 0);
      forall k | 0 < k <= |a|
        ensures !BelowAt(a, b, k)
      {
        assert k < |b| ==> a[..k][0] == a[0] && b[..k][0] == b[0];
      }
    }
  }

  /** A URL of a lower scheme comes first, whatever the paths are; within a scheme the paths decide. */
  lemma CmpIsBelow(u: URL, v: URL)
    ensures Cmp(u, v) < 0 <==> Below(u.scheme, v.scheme) || (u.scheme == v.scheme && Below(u.path, v.path))
  {
    hide Below, Compare;
    CompareIsBelow(u.scheme, v.scheme);
    CompareIsBelow(u.path, v.path);
    CompareEqual(u.scheme, v.scheme);
  }

  // ----- sorted lists -----

  /** A keystore account, and the wallet that wraps it. */
  datatype Account = Account(address: nat, url: URL)

  ghost predicate Sorted(s: seq<Account>) {
    forall i, j :: 0 <= i < j < |s| ==> Cmp(s[i].url, s[j].url) < 0
  }

  ghost function Elements(s: seq<Account>): set<Account> {
    set k | 0 <= k < |s| :: s[k]
  }

  /** No wallet of the set has the URL. */
  ghost predicate Absent(ws: set<Account>, u: URL) {
    forall w :: w in ws ==> w.url != u
  }

  /** In a sorted list the elements from the first one not below the URL are not below it. */
  lemma SortedMonotone(s: seq<Account>, u: URL, i: nat, j: nat)
    requires Sorted(s) && i <= j < |s| && Cmp(s[i].url, u) >= 0
    ensures Cmp(s[j].url, u) >= 0
  {
    hide Cmp;
    if i < j {
      CmpEqual(s[i].url, u);
      CmpEqual(s[j].url, u);
      if Cmp(s[j].url, u) < 0 {
        CmpTransitive(s[i].url, s[j].url, u);
      }
    }
  }

  /** The first place not below the URL. */
  function Position(s: seq<Account>, u: URL): (n: nat)
    ensures n <= |s|
    ensures forall k :: 0 <= k < n ==> Cmp(s[k].url, u) < 0
    ensures n < |s| ==> Cmp(s[n].url, u) >= 0
  {
    if s == [] || Cmp(s[0].url, u) >= 0 then 0 else 1 + Position(s[1..], u)
  }

  /** The binary search of the source finds it. */
  method FindPosition(s: seq<Account>, u: URL) returns (n: nat)
    requires Sorted(s)
    ensures n == Position(s, u)
  {
    hide Cmp;
    var f := (i: nat) => i < |s| && Cmp(s[i].url, u) >= 0;
    forall i, j | 0 <= i <= j < |s| && f(i)
      ensures f(j)
    {
      SortedMonotone(s, u, i, j);
    }
    n := SortSearch.Search(|s|, f);
    assert n < |s| ==> f(n);
    assert Position(s, u) < n ==> !f(Position(s, u));
  }

  function Merged(s: seq<Account>, w: Account): seq<Account> {
    var n := Position(s, w.url);
    s[..n] + [w] + s[n..]
  }

  function Dropped(s: seq<Account>, w: Account): seq<Account> {
    var n := Position(s, w.url);
    if n == |s| then s else s[..n] + s[n + 1..]
  }

  lemma MergedSorted(s: seq<Account>, w: Account)
    requires Sorted(s) && Absent(Elements(s), w.url)
    ensures Sorted(Merged(s, w)) && Elements(Merged(s, w)) == Elements(s) + {w}
  {
    hide Cmp, Sorted;
    var n := Position(s, w.url);
    forall k | n <= k < |s|
      ensures Cmp(w.url, s[k].url) < 0
    {
      SortedMonotone(s, w.url, n, k);
      assert s[k] in Elements(s);
      CmpEqual(s[k].url, w.url);
    }
    SortedInsert(s, w, n);
    MergedElements(s, w);
  }

  lemma SortedInsert(s: seq<Account>, w: Account, n: nat)
    requires Sorted(s) && n <= |s|
    requires forall k :: 0 <= k < n ==> Cmp(s[k].url, w.url) < 0
    requires forall k :: n <= k < |s| ==> Cmp(w.url, s[k].url) < 0
    ensures Sorted(s[..n] + [w] + s[n..])
  {
    hide Cmp;
    var m := s[..n] + [w] + s[n..];
    forall i, j | 0 <= i < j < |m|
      ensures Cmp(m[i].url, m[j].url) < 0
    {
      if j < n {
        assert m[i] == s[i] && m[j] == s[j];
      } else if j == n {
        assert m[i] == s[i] && m[j] == w;
      } else if i == n {
        assert m[i] == w && m[j] == s[j - 1];
      } else {
        assert m[i] == (if i < n then s[i] else s[i - 1]) && m[j] == s[j - 1];
      }
    }
  }

  lemma MergedElements(s: seq<Account>, w: Account)
    ensures Elements(Merged(s, w)) == Elements(s) + {w}
  {
    hide Position;
    var n, m := Position(s, w.url), Merged(s, w);
    forall x | x in Elements(s) + {w}
      ensures x in Elements(m)
    {
      if x == w {
        assert m[n] == w;
      } else {
        var k :| 0 <= k < |s| && s[k] == x;
        assert m[if k < n then k else k + 1] == x;
      }
    }
  }

  /** Where a wallet of a sorted list is found. */
  lemma PositionOf(s: seq<Account>, k: nat)
    requires Sorted(s) && k < |s|
    ensures Position(s, s[k].url) == k
  {
    hide Cmp;
    var n := Position(s, s[k].url);
    CmpEqual(s[k].url, s[k].url);
    forall i | 0 <= i < k
      ensures Cmp(s[i].url, s[k].url) < 0
    {
    }
  }

  /** A drop removes the wallet, if the list has it. */
  lemma DroppedSorted(s: seq<Account>, w: Account)
    requires Sorted(s) && w in s
    ensures Sorted(Dropped(s, w)) && Elements(Dropped(s, w)) == Elements(s) - {w}
  {
    hide Position, Cmp;
    var k: nat :| k < |s| && s[k] == w;
    PositionOf(s, k);
    var d := s[..k] + s[k + 1..];
    forall l | 0 <= l < |d|
      ensures d[l] == s[if l < k then l else l + 1]
    {
    }
    forall x | x in Elements(s) - {w}
      ensures x in Elements(d)
    {
      var l :| 0 <= l < |s| && s[l] == x;
      assert d[if l < k then l else l - 1] == x;
    }
    forall x | x in Elements(d)
      ensures x in Elements(s) - {w}
    {
      var l :| 0 <= l < |d| && d[l] == x;
      SortedApart(s, k, if l < k then l else l + 1);
    }
  }

  lemma SortedApart(s: seq<Account>, k: nat, l: nat)
    requires Sorted(s) && k < |s| && l < |s| && k != l
    ensures s[k].url != s[l].url
  {
    hide Cmp;
    CmpEqual(s[k].url, s[l].url);
  }

  /** The first wallet above the URL. */
  ghost predicate FirstAbove(s: seq<Account>, u: URL, k: nat) {
    k < |s| && Cmp(s[k].url, u) > 0 && forall i :: 0 <= i < k ==> Cmp(s[i].url, u) < 0
  }

  /** A drop of a URL the list does not have removes another wallet, the first one above it; with none above, nothing. */
  lemma DroppedAbsent(s: seq<Account>, w: Account)
    requires Sorted(s) && Absent(Elements(s), w.url)
    ensures Dropped(s, w) == s <==> forall k :: 0 <= k < |s| ==> Cmp(s[k].url, w.url) < 0
    ensures forall k: nat :: FirstAbove(s, w.url, k) ==>
              Sorted(Dropped(s, w)) && Elements(Dropped(s, w)) == Elements(s) - {s[k]}
  {
    hide Cmp;
    var n := Position(s, w.url);
    if n < |s| {
      assert s[n] in Elements(s);
      CmpEqual(s[n].url, w.url);
      assert |Dropped(s, w)| == |s| - 1;
      PositionOf(s, n);
      DroppedSorted(s, s[n]);
      assert forall k: nat :: FirstAbove(s, w.url, k) ==> k == n;
    }
  }

  /** The only wallet goes when one with a lower URL is dropped that is not there. */
  lemma DropsAnother()
    ensures var kept, absent := Account(1, URL("keystore", "b")), Account(2, URL("keystore", "a"));
            Sorted([kept]) && Absent(Elements([kept]), absent.url) && Dropped([kept], absent) == []
  {
    var kept, absent := Account(1, URL("keystore", "b")), Account(2, URL("keystore", "a"));
    assert "b"[0] > "a"[0] && Cmp(kept.url, absent.url) == 1;
    assert Position([kept], absent.url) == 0;
  }

  /** A sorted list is determined by its elements. */
  lemma {:induction false} SortedUnique(s: seq<Account>, t: seq<Account>)
    requires Sorted(s) && Sorted(t) && Elements(s) == Elements(t)
    ensures s == t
  {
    hide Cmp;
    NoElements(s);
    NoElements(t);
    if s != [] && t != [] {
      Lowest(s, t[0]);
      Lowest(t, s[0]);
      CmpEqual(s[0].url, t[0].url);
      RestElements(s);
      RestElements(t);
      SortedUnique(s[1..], t[1..]);
      assert s == [s[0]] + s[1..] && t == [t[0]] + t[1..];
    }
  }

  lemma ElementsAre(s: seq<Account>)
    ensures forall x :: x in Elements(s) <==> x in s
  {
  }

  lemma NoElements(s: seq<Account>)
    ensures s == [] <==> Elements(s) == {}
  {
    if s != [] {
      assert s[0] in Elements(s);
    }
  }

  lemma Lowest(s: seq<Account>, x: Account)
    requires Sorted(s) && s != []
    ensures s[0] in Elements(s)
    ensures x in Elements(s) ==> x == s[0] || Cmp(s[0].url, x.url) < 0
  {
    hide Cmp;
  }

  lemma RestElements(s: seq<Account>)
    requires Sorted(s) && s != []
    ensures Elements(s[1..]) == Elements(s) - {s[0]}
  {
    hide Cmp;
    forall x | x in Elements(s[1..])
      ensures x in Elements(s) - {s[0]}
    {
      var k :| 0 <= k < |s[1..]| && s[1..][k] == x;
      SortedApart(s, 0, k + 1);
      assert s[k + 1] == x;
    }
    forall x | x in Elements(s) - {s[0]}
      ensures x in Elements(s[1..])
    {
      var k :| 0 <= k < |s| && s[k] == x;
      assert s[1..][k - 1] == x;
    }
  }

  // ----- events -----

  datatype Event = Arrived(wallet: Account) | Gone(wallet: Account)

  /** What a set of wallets becomes. */
  ghost function After(ws: set<Account>, events: seq<Event>): set<Account> {
    if events == [] then ws
    else
      var before := After(ws, events[..|events| - 1]);
      match events[|events| - 1]
      case Arrived(w) => before + {w}
      case Gone(w) => before - {w}
  }

  /** Only wallets with a new URL arrive, and only wallets that are there go. */
  ghost predicate Proper(ws: set<Account>, events: seq<Event>) {
    events != [] ==>
      && Proper(ws, events[..|events| - 1])
      && var before := After(ws, events[..|events| - 1]);
         match events[|events| - 1]
         case Arrived(w) => Absent(before, w.url)
         case Gone(w) => w in before
  }

  lemma NextEvent(ws: set<Account>, events: seq<Event>, e: Event)
    ensures After(ws, events + [e]) == if e.Arrived? then After(ws, events) + {e.wallet} else After(ws, events) - {e.wallet}
    ensures Proper(ws, events + [e]) <==>
              && Proper(ws, events)
              && if e.Arrived? then Absent(After(ws, events), e.wallet.url) else e.wallet in After(ws, events)
  {
    assert (events + [e])[..|events|] == events;
  }

  /** The account manager's cache of all wallets. */
  class Manager {
    var wallets: seq<Account>

    constructor ()
      ensures wallets == []
    {
      wallets := [];
    }

    method Update(event: Event)
      requires Sorted(wallets)
      modifies this
      ensures wallets == Updated(old(wallets), event)
    {
      match event
      case Arrived(w) =>
        var n := FindPosition(wallets, w.url);
        if n == |wallets| {
          wallets := wallets + [w];
        } else {
          wallets := wallets[..n] + [w] + wallets[n..];
        }
      case Gone(w) =>
        var n := FindPosition(wallets, w.url);
        if n != |wallets| {
          wallets := wallets[..n] + wallets[n + 1..];
        }
    }
  }

  function Updated(s: seq<Account>, event: Event): seq<Account> {
    match event
    case Arrived(w) => Merged(s, w)
    case Gone(w) => Dropped(s, w)
  }

  function Replayed(s: seq<Account>, events: seq<Event>): seq<Account> {
    if events == [] then s else Updated(Replayed(s, events[..|events| - 1]), events[|events| - 1])
  }

  /**
    Replaying proper events of one backend on a cache that also holds other wallets: it stays sorted, and holds the
    others and what the events make of the backend's own.
    */
  lemma {:induction false} ReplayTracks(s: seq<Account>, others: set<Account>, own: set<Account>, events: seq<Event>)
    requires Sorted(s) && Elements(s) == others + own && Proper(own, events)
    requires forall k :: 0 <= k < |events| ==> Absent(others, events[k].wallet.url)
    ensures Sorted(Replayed(s, events)) && Elements(Replayed(s, events)) == others + After(own, events)
  {
    if events != [] {
      var n := |events| - 1;
      ReplayTracks(s, others, own, events[..n]);
      ReplayStep(Replayed(s, events[..n]), others, After(own, events[..n]), events[n]);
    }
  }

  lemma ReplayStep(t: seq<Account>, others: set<Account>, own: set<Account>, e: Event)
    requires Sorted(t) && Elements(t) == others + own && Absent(others, e.wallet.url)
    requires e.Arrived? ==> Absent(own, e.wallet.url)
    requires e.Gone? ==> e.wallet in own
    ensures Sorted(Updated(t, e))
    ensures Elements(Updated(t, e)) == others + if e.Arrived? then own + {e.wallet} else own - {e.wallet}
  {
    hide Sorted, Merged, Dropped;
    if e.Arrived? {
      MergedSorted(t, e.wallet);
    } else {
      assert e.wallet in Elements(t);
      DroppedSorted(t, e.wallet);
      assert e.wallet !in others;
    }
  }

  /** The manager's loop over the events it receives. */
  method Replay(m: Manager, others: seq<Account>, own: seq<Account>, events: seq<Event>)
    requires Sorted(m.wallets) && Elements(m.wallets) == Elements(others) + Elements(own) && Proper(Elements(own), events)
    requires forall k :: 0 <= k < |events| ==> Absent(Elements(others), events[k].wallet.url)
    modifies m
    ensures m.wallets == Replayed(old(m.wallets), events)
    ensures Sorted(m.wallets) && Elements(m.wallets) == Elements(others) + After(Elements(own), events)
  {
    hide Sorted, Updated, Elements, After, Proper;
    var k := 0;
    ghost var start := m.wallets;
    assert events[..0] == [];
    while k < |events|
      invariant 0 <= k <= |events|
      invariant m.wallets == Replayed(start, events[..k]) && Sorted(m.wallets)
    {
      assert events[..k + 1][..k] == events[..k];
      PrefixProper(Elements(own), events, k + 1);
      m.Update(events[k]);
      k := k + 1;
      ReplayTracks(start, Elements(others), Elements(own), events[..k]);
    }
    assert events[..k] == events;
    ReplayTracks(start, Elements(others), Elements(own), events);
  }

  lemma {:induction false} PrefixProper(ws: set<Account>, events: seq<Event>, k: nat)
    requires Proper(ws, events) && k <= |events|
    ensures Proper(ws, events[..k])
    decreases |events|
  {
    if k < |events| {
      PrefixProper(ws, events[..|events| - 1], k);
      assert events[..|events| - 1][..k] == events[..k];
    } else {
      assert events[..k] == events;
    }
  }

  // ----- the keystore -----

  /** The URL of the account belonged to another account before. */
  ghost predicate Changed(was: seq<Account>, a: Account) {
    exists k :: 0 <= k < |was| && was[k].url == a.url && was[k] != a
  }

  /** The merge of the old wallets from d on with the accounts from k on has got this far. */
  ghost predicate Order(was: seq<Account>, accs: seq<Account>, k: nat, d: nat, now: seq<Account>) {
    && k <= |accs| && d <= |was| && Sorted(now)
    && (forall i, j :: 0 <= i < d && k <= j < |accs| ==> Cmp(was[i].url, accs[j].url) < 0)
    && (forall i, j :: 0 <= i < |now| && d <= j < |was| ==> Cmp(now[i].url, was[j].url) < 0)
    && (forall i, j :: 0 <= i < |now| && k <= j < |accs| ==> Cmp(now[i].url, accs[j].url) < 0)
  }

  /** The accounts so far are wrapped, except where the URL changed hands. */
  ghost predicate Wrapped(was: seq<Account>, accs: seq<Account>, k: nat, now: seq<Account>) {
    && k <= |accs|
    && (forall i :: 0 <= i < |now| ==> now[i] in accs)
    && (forall j :: 0 <= j < k ==> (accs[j] in now <==> !Changed(was, accs[j])))
    && (forall j :: k <= j < |accs| ==> accs[j] !in now)
  }

  ghost predicate Told(was: seq<Account>, accs: seq<Account>, d: nat, now: seq<Account>, events: seq<Event>) {
    && d <= |was|
    && Proper(Elements(was), events) && After(Elements(was), events) == Elements(now) + Elements(was[d..])
    && forall k :: 0 <= k < |events| ==> Differs(was, accs, events[k])
  }

  /** Only accounts that had no wallet arrive, and only wallets without an account go. */
  ghost predicate Differs(was: seq<Account>, accs: seq<Account>, e: Event) {
    match e
    case Arrived(w) => w in accs && w !in was
    case Gone(w) => w in was && w !in accs
  }

  /** The accounts before k have no wallet from d on. */
  ghost predicate Ahead(was: seq<Account>, accs: seq<Account>, k: nat, d: nat) {
    forall i, j :: d <= i < |was| && 0 <= j < k && j < |accs| ==> was[i] != accs[j]
  }

  lemma AheadNext(was: seq<Account>, accs: seq<Account>, k: nat, d: nat, e: nat)
    requires Sorted(was) && Ahead(was, accs, k, d) && k < |accs| && d <= e
    requires e < |was| ==> was[e] != accs[k] && Cmp(accs[k].url, was[e].url) <= 0
    ensures Ahead(was, accs, k + 1, e)
  {
    hide Cmp;
    forall i | e < i < |was|
      ensures was[i] != accs[k]
    {
      CmpEqual(was[e].url, accs[k].url);
      CmpEqual(was[i].url, accs[k].url);
      assert Cmp(was[e].url, was[i].url) < 0;
    }
  }

  /** A wallet that is in front of all accounts to come has no account. */
  lemma NotListed(was: seq<Account>, accs: seq<Account>, k: nat, d: nat)
    requires Sorted(accs) && Ahead(was, accs, k, d) && d < |was| && k <= |accs|
    requires k < |accs| ==> Cmp(was[d].url, accs[k].url) < 0
    ensures was[d] !in accs
  {
    hide Cmp;
    forall j | k <= j < |accs|
      ensures was[d] != accs[j]
    {
      CmpEqual(was[d].url, accs[j].url);
      if k < j {
        CmpTransitive(was[d].url, accs[k].url, accs[j].url);
      }
    }
  }

  /** An account between the wallets has none. */
  lemma NotThere(was: seq<Account>, accs: seq<Account>, k: nat, d: nat, now: seq<Account>)
    requires Sorted(was) && Order(was, accs, k, d, now) && k < |accs|
    requires d < |was| ==> Cmp(accs[k].url, was[d].url) < 0
    ensures accs[k] !in was
  {
    hide Cmp;
    forall i | 0 <= i < |was|
      ensures was[i] != accs[k]
    {
      CmpEqual(was[i].url, accs[k].url);
      if d < i {
        CmpTransitive(accs[k].url, was[d].url, was[i].url);
      }
      if d <= i {
        CmpEqual(accs[k].url, was[i].url);
      }
    }
  }

  lemma OrderDrop(was: seq<Account>, accs: seq<Account>, k: nat, d: nat, now: seq<Account>)
    requires Sorted(accs) && Order(was, accs, k, d, now) && k < |accs| && d < |was| && Cmp(was[d].url, accs[k].url) < 0
    ensures Order(was, accs, k, d + 1, now)
  {
    hide Cmp;
    forall j | k <= j < |accs|
      ensures Cmp(was[d].url, accs[j].url) < 0
    {
      if k < j {
        CmpTransitive(was[d].url, accs[k].url, accs[j].url);
      }
    }
  }

  lemma OrderWrap(was: seq<Account>, accs: seq<Account>, k: nat, d: nat, e: nat, now: seq<Account>)
    requires Sorted(accs) && Sorted(was) && Order(was, accs, k, d, now) && k < |accs| && d <= e <= |was|
    requires e == d || (e == d + 1 && was[d] == accs[k])
    requires e == d && d < |was| ==> Cmp(accs[k].url, was[d].url) < 0
    ensures Order(was, accs, k + 1, e, now + [accs[k]])
  {
    hide Cmp;
    var a := accs[k];
    forall j | e <= j < |was|
      ensures Cmp(a.url, was[j].url) < 0
    {
      if e == d && d < j {
        CmpTransitive(a.url, was[d].url, was[j].url);
      }
    }
  }

  lemma OrderSkip(was: seq<Account>, accs: seq<Account>, k: nat, d: nat, now: seq<Account>)
    requires Order(was, accs, k, d, now) && k < |accs|
    ensures Order(was, accs, k + 1, d, now)
  {
    hide Cmp;
  }

  /** An account whose URL the old wallets do not have, or have for the same account, is not changed. */
  lemma NotChanged(was: seq<Account>, accs: seq<Account>, k: nat, d: nat, now: seq<Account>)
    requires Sorted(was) && Order(was, accs, k, d, now) && k < |accs|
    requires d < |was| ==> was[d] == accs[k] || Cmp(accs[k].url, was[d].url) < 0
    ensures !Changed(was, accs[k])
  {
    hide Cmp;
    forall i | 0 <= i < |was|
      ensures was[i].url == accs[k].url ==> was[i] == accs[k]
    {
      CmpEqual(was[i].url, accs[k].url);
      if d < i {
        if was[d] != accs[k] {
          CmpTransitive(accs[k].url, was[d].url, was[i].url);
        }
        CmpEqual(accs[k].url, was[i].url);
      }
      if d == i {
        CmpEqual(accs[k].url, was[i].url);
      }
    }
  }

  lemma WrappedNext(was: seq<Account>, accs: seq<Account>, k: nat, now: seq<Account>, next: seq<Account>)
    requires Sorted(accs) && k < |accs| && Wrapped(was, accs, k, now)
    requires next == if Changed(was, accs[k]) then now else now + [accs[k]]
    ensures Wrapped(was, accs, k + 1, next)
  {
    hide Changed, Sorted;
    forall j | 0 <= j < |accs| && j != k
      ensures accs[j] != accs[k]
    {
      SortedApart(accs, j, k);
    }
  }

  lemma TakeElements(s: seq<Account>, d: nat)
    requires Sorted(s) && d < |s|
    ensures Elements(s[d..]) == Elements(s[d + 1..]) + {s[d]} && s[d] !in Elements(s[d + 1..])
  {
    hide Cmp;
    assert s[d..][1..] == s[d + 1..];
    RestElements(s[d..]);
    assert s[d..][0] in Elements(s[d..]);
  }

  lemma MoreElements(s: seq<Account>, a: Account)
    ensures Elements(s + [a]) == Elements(s) + {a}
  {
    var t := s + [a];
    forall x | x in Elements(s) + {a}
      ensures x in Elements(t)
    {
      if x == a {
        assert t[|s|] == a;
      } else {
        var k :| 0 <= k < |s| && s[k] == x;
        assert t[k] == x;
      }
    }
  }

  lemma TellGone(was: seq<Account>, accs: seq<Account>, d: nat, now: seq<Account>, events: seq<Event>)
    requires Sorted(was) && d < |was| && Told(was, accs, d, now, events) && was[d] !in now && was[d] !in accs
    ensures Told(was, accs, d + 1, now, events + [Gone(was[d])])
  {
    hide Sorted, Proper, After;
    NextEvent(Elements(was), events, Gone(was[d]));
    TakeElements(was, d);
  }

  lemma TellArrived(was: seq<Account>, accs: seq<Account>, d: nat, now: seq<Account>, events: seq<Event>, a: Account)
    requires d <= |was| && Told(was, accs, d, now, events) && a in accs && a !in was
    requires Absent(Elements(now) + Elements(was[d..]), a.url)
    ensures Told(was, accs, d, now + [a], events + [Arrived(a)])
  {
    hide Proper, After;
    NextEvent(Elements(was), events, Arrived(a));
    MoreElements(now, a);
  }

  lemma TellKept(was: seq<Account>, accs: seq<Account>, d: nat, now: seq<Account>, events: seq<Event>)
    requires Sorted(was) && d < |was| && Told(was, accs, d, now, events)
    ensures Told(was, accs, d + 1, now + [was[d]], events)
  {
    hide Sorted, Proper, After;
    MoreElements(now, was[d]);
    TakeElements(was, d);
  }

  /** What is left and what is wrapped all lie off the account's URL. */
  lemma OffUrl(was: seq<Account>, accs: seq<Account>, k: nat, d: nat, now: seq<Account>)
    requires Sorted(was) && Order(was, accs, k, d, now) && k < |accs|
    requires d < |was| ==> Cmp(accs[k].url, was[d].url) < 0
    ensures Absent(Elements(now) + Elements(was[d..]), accs[k].url)
  {
    hide Cmp;
    forall w | w in Elements(now) + Elements(was[d..])
      ensures w.url != accs[k].url
    {
      CmpEqual(w.url, accs[k].url);
      if w in Elements(was[d..]) {
        var j :| 0 <= j < |was[d..]| && was[d..][j] == w;
        assert was[d + j] == w;
        if 0 < j {
          CmpTransitive(accs[k].url, was[d].url, was[d + j].url);
        }
      }
    }
  }

  lemma NotWrapped(was: seq<Account>, accs: seq<Account>, k: nat, d: nat, now: seq<Account>)
    requires Order(was, accs, k, d, now) && d < |was|
    ensures was[d] !in now
  {
    hide Cmp;
    CmpEqual(was[d].url, was[d].url);
  }

  /** Drops wallets while they are in front of the account. */
  method DropInFront(wallets: seq<Account>, told: seq<Event>, accs: seq<Account>, k: nat,
                     ghost was: seq<Account>, ghost d: nat, ghost now: seq<Account>)
    returns (rest: seq<Account>, events: seq<Event>, ghost e: nat)
    requires Sorted(was) && Sorted(accs) && k < |accs| && d <= |was| && wallets == was[d..]
    requires Order(was, accs, k, d, now) && Told(was, accs, d, now, told) && Ahead(was, accs, k, d)
    ensures d <= e <= |was| && rest == was[e..]
    ensures Order(was, accs, k, e, now) && Told(was, accs, e, now, events) && Ahead(was, accs, k, e)
    ensures rest != [] ==> Cmp(rest[0].url, accs[k].url) >= 0
  {
    hide Cmp, Sorted, Order, Told;
    rest, events, e := wallets, told, d;
    while |rest| > 0 && Cmp(rest[0].url, accs[k].url) < 0
      invariant d <= e <= |was| && rest == was[e..]
      invariant Order(was, accs, k, e, now) && Told(was, accs, e, now, events) && Ahead(was, accs, k, e)
      decreases |rest|
    {
      NotListed(was, accs, k, e);
      NotWrapped(was, accs, k, e, now);
      TellGone(was, accs, e, now, events);
      OrderDrop(was, accs, k, e, now);
      events := events + [Gone(rest[0])];
      rest := rest[1..];
      e := e + 1;
    }
  }

  class KeyStore {
    var wallets: seq<Account>

    constructor ()
      ensures wallets == []
    {
      wallets := [];
    }

    /**
      Turns the wallets into those of the current accounts and says how. An account whose URL belonged to another one
      is left out until the next refresh.
      */
    method RefreshWallets(accs: seq<Account>) returns (events: seq<Event>)
      requires Sorted(wallets) && Sorted(accs)
      modifies this
      ensures Sorted(wallets)
      ensures forall a :: a in wallets <==> a in accs && !Changed(old(wallets), a)
      ensures Proper(Elements(old(wallets)), events) && After(Elements(old(wallets)), events) == Elements(wallets)
      ensures forall k :: 0 <= k < |events| ==> Differs(old(wallets), accs, events[k])
    {
      hide Cmp, Sorted, Order, Told, Wrapped, Changed, Differs, Ahead;
      ghost var was, d := wallets, 0;
      var now: seq<Account> := [];
      events := [];
      RefreshStart(was, accs);
      var k := 0;
      while k < |accs|
        invariant 0 <= k <= |accs| && 0 <= d <= |was| && wallets == was[d..]
        invariant Order(was, accs, k, d, now) && Told(was, accs, d, now, events) && Wrapped(was, accs, k, now)
        invariant Ahead(was, accs, k, d)
      {
        var account := accs[k];
        ghost var e;
        wallets, events, e := DropInFront(wallets, events, accs, k, was, d, now);
        d := e;
        if |wallets| == 0 || Cmp(wallets[0].url, account.url) > 0 {
          assert wallets != [] ==> Cmp(account.url, was[d].url) < 0 by { Flip(wallets, account.url); }
          NotChanged(was, accs, k, d, now);
          OffUrl(was, accs, k, d, now);
          NotThere(was, accs, k, d, now);
          AheadNext(was, accs, k, d, d);
          TellArrived(was, accs, d, now, events, account);
          OrderWrap(was, accs, k, d, d, now);
          WrappedNext(was, accs, k, now, now + [account]);
          events := events + [Arrived(account)];
          now := now + [account];
        } else if wallets[0] == account {
          NotChanged(was, accs, k, d, now);
          NextIsHigher(was, d);
          AheadNext(was, accs, k, d, d + 1);
          TellKept(was, accs, d, now, events);
          OrderWrap(was, accs, k, d, d + 1, now);
          WrappedNext(was, accs, k, now, now + [account]);
          now := now + [wallets[0]];
          wallets := wallets[1..];
          d := d + 1;
        } else {
          ChangedHere(was, d, account);
          AheadNext(was, accs, k, d, d);
          OrderSkip(was, accs, k, d, now);
          WrappedNext(was, accs, k, now, now);
        }
        k := k + 1;
      }
      events := DropRest(wallets, events, accs, was, d, now);
      RefreshEnd(was, accs, d, now, events);
      wallets := now;
    }
  }

  lemma NextIsHigher(s: seq<Account>, d: nat)
    requires Sorted(s)
    ensures d + 1 < |s| ==> s[d + 1] != s[d] && Cmp(s[d].url, s[d + 1].url) < 0
  {
    hide Cmp;
    if d + 1 < |s| {
      CmpEqual(s[d].url, s[d + 1].url);
    }
  }

  lemma Flip(s: seq<Account>, u: URL)
    ensures s != [] && Cmp(s[0].url, u) > 0 ==> Cmp(u, s[0].url) < 0
  {
    hide Cmp;
    if s != [] {
      CmpEqual(s[0].url, u);
    }
  }

  lemma ChangedHere(was: seq<Account>, d: nat, a: Account)
    requires d < |was| && was[d] != a && Cmp(was[d].url, a.url) == 0
    ensures Changed(was, a) && Cmp(a.url, was[d].url) == 0
  {
    CmpEqual(was[d].url, a.url);
  }

  lemma RefreshStart(was: seq<Account>, accs: seq<Account>)
    requires Sorted(was) && Sorted(accs)
    ensures Order(was, accs, 0, 0, []) && Told(was, accs, 0, [], []) && Wrapped(was, accs, 0, [])
    ensures Ahead(was, accs, 0, 0)
  {
    assert was[0..] == was;
    assert Elements([]) == {};
  }

  method DropRest(wallets: seq<Account>, told: seq<Event>, accs: seq<Account>, ghost was: seq<Account>, ghost d: nat,
                  ghost now: seq<Account>)
    returns (events: seq<Event>)
    requires Sorted(was) && d <= |was| && wallets == was[d..]
    requires Order(was, accs, |accs|, d, now) && Told(was, accs, d, now, told) && Ahead(was, accs, |accs|, d)
    requires Sorted(accs)
    ensures Told(was, accs, |was|, now, events)
  {
    hide Cmp, Sorted, Order, Told;
    events := told;
    for i := 0 to |wallets|
      invariant Told(was, accs, d + i, now, events)
    {
      assert wallets[i] == was[d + i];
      RestNotWrapped(was, accs, |accs|, d, now, d + i);
      NotListed(was, accs, |accs|, d + i);
      TellGone(was, accs, d + i, now, events);
      events := events + [Gone(wallets[i])];
    }
  }

  lemma RestNotWrapped(was: seq<Account>, accs: seq<Account>, k: nat, d: nat, now: seq<Account>, j: nat)
    requires Order(was, accs, k, d, now) && d <= j < |was|
    ensures was[j] !in now
  {
    hide Cmp;
    CmpEqual(was[j].url, was[j].url);
  }

  lemma RefreshEnd(was: seq<Account>, accs: seq<Account>, d: nat, now: seq<Account>, events: seq<Event>)
    requires Told(was, accs, |was|, now, events) && Wrapped(was, accs, |accs|, now) && Order(was, accs, |accs|, d, now)
    ensures Sorted(now)
    ensures forall k :: 0 <= k < |events| ==> Differs(was, accs, events[k])
    ensures Proper(Elements(was), events) && After(Elements(was), events) == Elements(now)
    ensures forall a :: a in now <==> a in accs && !Changed(was, a)
  {
    hide Changed, Proper, After, Cmp;
    assert was[|was|..] == [];
    assert Elements([]) == {};
  }

  /** Every account has its wallet exactly when no URL changed hands. */
  lemma RefreshComplete(was: seq<Account>, accs: seq<Account>, now: seq<Account>)
    requires Sorted(accs) && Sorted(now) && forall a :: a in now <==> a in accs && !Changed(was, a)
    ensures now == accs <==> forall a :: a in accs ==> !Changed(was, a)
  {
    hide Sorted, Changed;
    if forall a :: a in accs ==> !Changed(was, a) {
      assert Elements(now) == Elements(accs) by {
        ElementsAre(now);
        ElementsAre(accs);
      }
      SortedUnique(now, accs);
    }
  }

  /** A path that keeps its URL and gets another address: the account that is there now has no wallet. */
  method LosesChanged() returns (ks: KeyStore, accs: seq<Account>)
    ensures accs == [Account(2, URL("keystore", "k"))] && ks.wallets == []
  {
    var u := URL("keystore", "k");
    ks := new KeyStore();
    var events := ks.RefreshWallets([Account(1, u)]);
    ElementsAre(ks.wallets);
    assert forall a :: a in ks.wallets <==> a == Account(1, u);
    accs := [Account(2, u)];
    ghost var was := ks.wallets;
    assert Changed(was, Account(2, u)) by {
      assert Account(1, u) in was;
    }
    events := ks.RefreshWallets(accs);
    ElementsAre(ks.wallets);
    assert Elements(ks.wallets) == {};
    NoElements(ks.wallets);
  }

  /**
    A refresh followed by the replay of its events: the manager holds the other backends' wallets and exactly the
    keystore's new ones, in order. With no other backend and no URL changing hands it holds the account list itself.
    */
  method Sync(ks: KeyStore, m: Manager, accs: seq<Account>, others: seq<Account>)
    requires Sorted(ks.wallets) && Sorted(accs)
    requires Sorted(m.wallets) && Elements(m.wallets) == Elements(others) + Elements(ks.wallets)
    requires forall a :: a in ks.wallets || a in accs ==> Absent(Elements(others), a.url)
    modifies ks, m
    ensures Sorted(ks.wallets) && forall a :: a in ks.wallets <==> a in accs && !Changed(old(ks.wallets), a)
    ensures Sorted(m.wallets) && Elements(m.wallets) == Elements(others) + Elements(ks.wallets)
    ensures others == [] ==> m.wallets == ks.wallets
    ensures ks.wallets == accs <==> forall a :: a in accs ==> !Changed(old(ks.wallets), a)
  {
    hide Sorted, Elements, After, Proper, Changed, Absent;
    var was := ks.wallets;
    var events := ks.RefreshWallets(accs);
    Replay(m, others, was, events);
    RefreshComplete(was, accs, ks.wallets);
    if others == [] {
      assert Elements(others) == {} by { NoElements(others); }
      SortedUnique(m.wallets, ks.wallets);
    }
  }
}
