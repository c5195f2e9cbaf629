/** The validator schedule: choosing top and support validators, interleaving them, the
    emergency override, and vote changes on the virtual clock. */
module Scheduler {
  import opened Config
  import opened VirtualTime
  import opened Division

  // ---------------------------------------------------------------------------
  // Selection
  // ---------------------------------------------------------------------------

  /** `order` lists everyone once, the most votes first. */
  ghost predicate VoteOrder(r: Roster, order: seq<nat>) {
    && (forall i :: 0 <= i < |order| ==> order[i] in r)
    && (forall id :: id in r ==> id in order)
    && (forall i, j :: 0 <= i < j < |order| ==> order[i] != order[j] && r[order[i]].counted >= r[order[j]].counted)
  }

  /** The first `n` eligible validators of an order. */
  function Leaders(r: Roster, order: seq<nat>, hardfork12: bool, n: nat): (top: seq<nat>)
    requires forall i :: 0 <= i < |order| ==> order[i] in r
    ensures |top| <= n
    ensures forall i :: 0 <= i < |top| ==> top[i] in order && top[i] in r && Eligible(r, top[i], hardfork12)
  {
    if n == 0 || order == [] then []
    else if Eligible(r, order[0], hardfork12) then [order[0]] + Leaders(r, order[1..], hardfork12, n - 1)
    else Leaders(r, order[1..], hardfork12, n)
  }

  lemma LeadersNone(r: Roster, hardfork12: bool, n: nat)
    ensures Leaders(r, [], hardfork12, n) == []
  {
  }

  lemma {:induction false} LeadersMore(r: Roster, ids: seq<nat>, id: nat, hardfork12: bool, n: nat)
    requires (forall i :: 0 <= i < |ids| ==> ids[i] in r) && id in r
    ensures
      var top := Leaders(r, ids, hardfork12, n);
      Leaders(r, ids + [id], hardfork12, n) == if |top| < n && Eligible(r, id, hardfork12) then top + [id] else top
  {
    if ids == [] {
      assert ids + [id] == [id];
    } else if n > 0 {
      assert (ids + [id])[1..] == ids[1..] + [id];
      LeadersMore(r, ids[1..], id, hardfork12, if Eligible(r, ids[0], hardfork12) then n - 1 else n);
    }
  }

  lemma {:induction false} LeadersFull(r: Roster, ids: seq<nat>, rest: seq<nat>, hardfork12: bool, n: nat)
    requires forall i :: 0 <= i < |ids + rest| ==> (ids + rest)[i] in r
    requires forall i :: 0 <= i < |ids| ==> ids[i] in r
    requires |Leaders(r, ids, hardfork12, n)| == n
    ensures Leaders(r, ids + rest, hardfork12, n) == Leaders(r, ids, hardfork12, n)
  {
    if n > 0 {
      assert (ids + rest)[0] == ids[0] && (ids + rest)[1..] == ids[1..] + rest;
      LeadersFull(r, ids[1..], rest, hardfork12, if Eligible(r, ids[0], hardfork12) then n - 1 else n);
    }
  }

  ghost predicate Distinct(ids: seq<nat>) {
    forall i, j :: 0 <= i < j < |ids| ==> ids[i] != ids[j]
  }

  lemma {:induction false} LeadersDistinct(r: Roster, order: seq<nat>, hardfork12: bool, n: nat)
    requires (forall i :: 0 <= i < |order| ==> order[i] in r) && Distinct(order)
    ensures Distinct(Leaders(r, order, hardfork12, n))
  {
    if n > 0 && order != [] {
      assert forall i :: 1 <= i < |order| ==> order[i] == order[1..][i - 1];
      LeadersDistinct(r, order[1..], hardfork12, if Eligible(r, order[0], hardfork12) then n - 1 else n);
    }
  }

  /** An eligible validator that is not among the leaders has no more votes than any of
      them, and there are as many leaders as can be. */
  lemma {:induction false} LeadersHaveMostVotes(r: Roster, order: seq<nat>, hardfork12: bool, n: nat, id: nat)
    requires forall i :: 0 <= i < |order| ==> order[i] in r
    requires forall i, j :: 0 <= i < j < |order| ==> r[order[i]].counted >= r[order[j]].counted
    requires id in order && id in r && r[id].keyed && !(hardfork12 && r[id].owner == COMMITTEE)
    requires id !in Leaders(r, order, hardfork12, n)
    ensures |Leaders(r, order, hardfork12, n)| == n
    ensures forall k :: k in Leaders(r, order, hardfork12, n) ==> r[k].counted >= r[id].counted
  {
    if n > 0 {
      assert id == order[0] || id in order[1..];
      LeadersHaveMostVotes(r, order[1..], hardfork12, if Eligible(r, order[0], hardfork12) then n - 1 else n, id);
    }
  }

  predicate Supports(r: Roster, id: nat, top: set<nat>, hardfork12: bool)
    requires id in r
  {
    Eligible(r, id, hardfork12) && id !in top
  }

  /** How much of the time order is gone through to fill `room` support slots. */
  function ServedCount(r: Roster, order: seq<nat>, top: set<nat>, hardfork12: bool, room: nat): (p: nat)
    requires forall i :: 0 <= i < |order| ==> order[i] in r
    ensures p <= |order| && (room > 0 && order != [] ==> p > 0)
    decreases |order|
  {
    if room == 0 || order == [] then 0
    else
      var left := if Supports(r, order[0], top, hardfork12) then room - 1 else room;
      1 + ServedCount(r, order[1..], top, hardfork12, left)
  }

  /** The support validators among the given ones. */
  function SupportOf(r: Roster, ids: seq<nat>, top: set<nat>, hardfork12: bool): (s: seq<nat>)
    requires forall i :: 0 <= i < |ids| ==> ids[i] in r
    ensures forall i :: 0 <= i < |s| ==> s[i] in ids && s[i] in r && Supports(r, s[i], top, hardfork12)
    ensures forall i :: 0 <= i < |ids| && Supports(r, ids[i], top, hardfork12) ==> ids[i] in s
  {
    if ids == [] then []
    else
      var rest := SupportOf(r, ids[1..], top, hardfork12);
      assert forall i :: 1 <= i < |ids| ==> ids[i] == ids[1..][i - 1];
      if Supports(r, ids[0], top, hardfork12) then [ids[0]] + rest else rest
  }

  lemma {:induction false} SupportMore(r: Roster, ids: seq<nat>, id: nat, top: set<nat>, hardfork12: bool)
    requires (forall i :: 0 <= i < |ids| ==> ids[i] in r) && id in r
    ensures SupportOf(r, ids + [id], top, hardfork12)
         == SupportOf(r, ids, top, hardfork12) + (if Supports(r, id, top, hardfork12) then [id] else [])
  {
    if ids == [] {
      assert ids + [id] == [id];
    } else {
      assert (ids + [id])[1..] == ids[1..] + [id];
      SupportMore(r, ids[1..], id, top, hardfork12);
    }
  }

  lemma SelectStart(r: Roster, order: seq<nat>, top: set<nat>, hardfork12: bool, room: nat)
    requires forall i :: 0 <= i < |order| ==> order[i] in r
    ensures SupportOf(r, order[..0], top, hardfork12) == [] && order[0..] == order
  {
  }

  lemma SelectStep(r: Roster, order: seq<nat>, top: set<nat>, hardfork12: bool, p: nat, left: nat)
    requires (forall i :: 0 <= i < |order| ==> order[i] in r) && p < |order| && left > 0
    ensures
      var takes := Supports(r, order[p], top, hardfork12);
      && SupportOf(r, order[..p + 1], top, hardfork12)
           == SupportOf(r, order[..p], top, hardfork12) + (if takes then [order[p]] else [])
      && ServedCount(r, order[p..], top, hardfork12, left)
           == 1 + ServedCount(r, order[p + 1..], top, hardfork12, if takes then left - 1 else left)
  {
    assert order[p..][1..] == order[p + 1..];
    assert order[..p + 1] == order[..p] + [order[p]];
    SupportMore(r, order[..p], order[p], top, hardfork12);
  }

  lemma SelectEnd(r: Roster, order: seq<nat>, top: set<nat>, hardfork12: bool, p: nat, left: nat)
    requires (forall i :: 0 <= i < |order| ==> order[i] in r) && p <= |order| && (p == |order| || left == 0)
    ensures ServedCount(r, order[p..], top, hardfork12, left) == 0
  {
  }

  lemma {:induction false} SupportDistinct(r: Roster, ids: seq<nat>, top: set<nat>, hardfork12: bool)
    requires (forall i :: 0 <= i < |ids| ==> ids[i] in r) && Distinct(ids)
    ensures Distinct(SupportOf(r, ids, top, hardfork12))
  {
    if ids != [] {
      assert forall i :: 1 <= i < |ids| ==> ids[i] == ids[1..][i - 1];
      SupportDistinct(r, ids[1..], top, hardfork12);
    }
  }

  /** The support slots are filled exactly, unless everyone was gone through. */
  lemma {:induction false} SupportFillsRoom(r: Roster, order: seq<nat>, top: set<nat>, hardfork12: bool, room: nat)
    requires forall i :: 0 <= i < |order| ==> order[i] in r
    ensures
      var p := ServedCount(r, order, top, hardfork12, room);
      var s := SupportOf(r, order[..p], top, hardfork12);
      |s| <= room && (p < |order| ==> |s| == room)
    decreases |order|
  {
    if room > 0 && order != [] {
      var room' := if Supports(r, order[0], top, hardfork12) then room - 1 else room;
      SupportFillsRoom(r, order[1..], top, hardfork12, room');
      var p := ServedCount(r, order, top, hardfork12, room);
      assert order[..p][1..] == order[1..][..p - 1];
    }
  }

  /** The support slots go to those due first: whoever could have one and has none is due no earlier than all who
      have one, and there is no room left. */
  lemma SupportDueFirst(r: Roster, order: seq<nat>, top: set<nat>, hardfork12: bool, room: nat, id: nat)
    requires TimeOrder(r, order) && id in r && r[id].keyed && !(hardfork12 && r[id].owner == COMMITTEE) && id !in top
    ensures
      var p := ServedCount(r, order, top, hardfork12, room);
      var s := SupportOf(r, order[..p], top, hardfork12);
      id in s || (|s| == room && forall k :: k in s ==> r[k].time <= r[id].time)
  {
    hide ServedCount, SupportOf;
    SupportFillsRoom(r, order, top, hardfork12, room);
    var p := ServedCount(r, order, top, hardfork12, room);
    var s := SupportOf(r, order[..p], top, hardfork12);
    var i :| 0 <= i < |order| && order[i] == id;
    if i < p {
      assert order[..p][i] == id;
    } else {
      forall k | k in s
        ensures r[k].time <= r[id].time
      {
        var j :| 0 <= j < p && order[..p][j] == k;
      }
    }
  }

  // ---------------------------------------------------------------------------
  // Interleaving
  // ---------------------------------------------------------------------------

  /** Top and support validators in turn, and then what is left of the longer list. */
  function Interleave<T>(a: seq<T>, s: seq<T>): (r: seq<T>)
    ensures |r| == |a| + |s|
  {
    if a == [] then s else if s == [] then a else [a[0], s[0]] + Interleave(a[1..], s[1..])
  }

  lemma InterleaveNone<T>()
    ensures Interleave<T>([], []) == []
  {
  }

  lemma {:induction false} InterleaveTop<T>(a: seq<T>, s: seq<T>, x: T)
    requires |s| <= |a|
    ensures Interleave(a + [x], s) == Interleave(a, s) + [x]
  {
    if s == [] {
      assert Interleave(a, s) == a;
    } else {
      assert (a + [x])[1..] == a[1..] + [x];
      InterleaveTop(a[1..], s[1..], x);
    }
  }

  lemma {:induction false} InterleaveSupport<T>(a: seq<T>, s: seq<T>, y: T)
    requires |a| <= |s| + 1
    ensures Interleave(a, s + [y]) == Interleave(a, s) + [y]
  {
    if a == [] {
    } else if s == [] {
      assert a == [a[0]] && a[1..] == [] && (s + [y])[1..] == [];
    } else {
      assert (s + [y])[1..] == s[1..] + [y];
      InterleaveSupport(a[1..], s[1..], y);
    }
  }

  lemma Uncons<T>(s: seq<T>)
    requires s != []
    ensures multiset(s) == multiset{s[0]} + multiset(s[1..])
  {
    assert s == [s[0]] + s[1..];
  }

  /** Interleaving keeps every entry exactly as often as it was in the two lists. */
  lemma {:induction false} InterleaveKeepsAll<T>(a: seq<T>, s: seq<T>)
    ensures multiset(Interleave(a, s)) == multiset(a) + multiset(s)
  {
    if a == [] {
      assert Interleave(a, s) == s;
    } else if s == [] {
      assert Interleave(a, s) == a;
    } else {
      InterleaveKeepsAll(a[1..], s[1..]);
      Uncons(a);
      Uncons(s);
      var rest := Interleave(a[1..], s[1..]);
      assert multiset([a[0], s[0]] + rest) == multiset([a[0], s[0]]) + multiset(rest);
    }
  }

  /** Until one list ends, top validators hold the even slots and support the odd ones. */
  lemma {:induction false} InterleaveAlternates<T>(a: seq<T>, s: seq<T>, i: nat)
    requires i < |a| && i < |s|
    ensures Interleave(a, s)[2 * i] == a[i] && Interleave(a, s)[2 * i + 1] == s[i]
  {
    if i > 0 {
      InterleaveAlternates(a[1..], s[1..], i - 1);
    }
  }

  /** What is left of the longer list follows in its own order. */
  lemma {:induction false} InterleaveTail<T>(a: seq<T>, s: seq<T>, i: nat)
    ensures |s| <= i < |a| ==> Interleave(a, s)[|s| + i] == a[i]
    ensures |a| <= i < |s| ==> Interleave(a, s)[|a| + i] == s[i]
  {
    if a != [] && s != [] && i > 0 {
      InterleaveTail(a[1..], s[1..], i - 1);
    }
  }

  // ---------------------------------------------------------------------------
  // The clock
  // ---------------------------------------------------------------------------

  /** Addition on the 128-bit clock. */
  function ClockAdd(a: nat, b: nat): (c: nat)
    requires a <= LAP && b <= LAP
    ensures c <= LAP
  {
    (a + b) % (LAP + 1)
  }

  /** The wrapped sum is smaller than a summand exactly when the clock overflowed. */
  lemma OverflowShows(a: nat, b: nat)
    requires a <= LAP && b <= LAP
    ensures ClockAdd(a, b) < a <==> a + b > LAP
    ensures a + b <= LAP ==> ClockAdd(a, b) == a + b
  {
  }

  /** Only clock values differ. */
  ghost predicate SameVotes(r: Roster, s: Roster) {
    s.Keys == r.Keys && forall id :: id in r ==>
      s[id] == r[id].(position := s[id].position, lastUpdate := s[id].lastUpdate, time := s[id].time)
  }

  lemma ResetForgets(r: Roster, s: Roster)
    requires SameVotes(r, s)
    ensures ResetOf(s) == ResetOf(r)
  {
  }

  function ResetOf(r: Roster): Roster {
    map id | id in r :: r[id].(position := 0, lastUpdate := 0, time := LapOf(r[id].counted))
  }

  lemma LapFits(counted: nat)
    ensures LapOf(counted) <= LAP
  {
    DivMonotone(LAP / (counted + 1), LAP, 1);
    DivAtLeast(LAP, counted + 1, LAP / (counted + 1));
    MulMonotone(1, counted + 1, LAP / (counted + 1));
  }

  lemma ResetOnTime(r: Roster, now: nat)
    requires OnTime(r, now)
    ensures OnTime(ResetOf(r), 0)
  {
    forall id | id in r
      ensures LapOf(r[id].counted) <= LAP
    {
      LapFits(r[id].counted);
    }
  }

  /** Votes that count after penalties. */
  function Counted(votes: nat, penalty: nat): (c: nat)
    ensures c <= votes
  {
    var cut := votes * (if penalty < FULL then penalty else FULL) / FULL;
    CutFits(votes, if penalty < FULL then penalty else FULL);
    votes - cut
  }

  /** The penalty takes its percentage of the votes, rounded down, and at most all of them. */
  lemma CountedMeans(votes: nat, penalty: nat)
    ensures
      var cut := votes - Counted(votes, penalty);
      && (penalty >= FULL ==> cut == votes)
      && (penalty < FULL ==> cut * FULL <= votes * penalty < (cut + 1) * FULL)
  {
    if penalty < FULL {
      DivAtLeast(votes * penalty, FULL, votes * penalty / FULL);
      DivAtLeast(votes * penalty, FULL, votes * penalty / FULL + 1);
    } else {
      DivAtLeast(votes * FULL, FULL, votes);
      DivAtLeast(votes * FULL, FULL, votes + 1);
    }
  }

  lemma CutFits(votes: nat, penalty: nat)
    requires penalty <= FULL
    ensures votes * penalty / FULL <= votes
  {
    MulMonotone(penalty, FULL, votes);
    DivMonotone(votes * penalty, votes * FULL, FULL);
  }

  /** Serving this validator at virtual time `now` overflows the clock. */
  predicate Overflows(v: Validator, now: nat) {
    now + LapOf(v.counted) > LAP
  }

  lemma ServedSameVotes(r: Roster, served: set<nat>, now: nat)
    ensures SameVotes(r, Advance(r, served, now))
  {
  }

  lemma AdvanceMore(r: Roster, order: seq<nat>, k: nat, now: nat)
    requires k < |order| && order[k] in r
    ensures Advance(r, SetOf(order[..k + 1]), now)
         == Advance(r, SetOf(order[..k]), now)[order[k] := Served(r[order[k]], now)]
  {
    assert order[..k + 1] == order[..k] + [order[k]];
    assert SetOf(order[..k + 1]) == SetOf(order[..k]) + {order[k]};
  }

  /** Votes never fall below zero. */
  function NewVotes(v: Validator, delta: int): nat {
    if v.votes + delta < 0 then 0 else v.votes + delta
  }

  /** How far a validator has come on its lap, at the speed of its counted votes. */
  function Travelled(v: Validator, now: nat): int {
    v.position + v.counted * (now - v.lastUpdate)
  }

  /** The same in 128 bits. */
  function WrappedPosition(v: Validator, now: nat): (p: nat)
    ensures p <= LAP
  {
    (v.position + v.counted * ((now - v.lastUpdate) % (LAP + 1))) % (LAP + 1)
  }

  lemma Fits(x: int)
    requires 0 <= x <= LAP
    ensures x % (LAP + 1) == x
  {
  }

  lemma TravelledExact(v: Validator, now: nat)
    requires v.lastUpdate <= now <= LAP && Travelled(v, now) <= LAP
    ensures WrappedPosition(v, now) == Travelled(v, now)
  {
    Fits(now - v.lastUpdate);
    Product(v.counted, now - v.lastUpdate);
    Fits(Travelled(v, now));
  }

  lemma Product(a: nat, b: nat)
    ensures a * b >= 0
  {
  }

  /** The due time in 128 bits; one that wrapped into the past becomes the latest possible one. */
  function WrappedDue(now: nat, position: nat, counted: nat): nat
    requires position <= LAP
  {
    var time := (now + ((LAP - position) % (LAP + 1)) / (counted + 1)) % (LAP + 1);
    if time < now then LAP else time
  }

  lemma DueExact(now: nat, position: nat, counted: nat)
    requires position <= LAP && now <= LAP
    ensures WrappedDue(now, position, counted) == DueTime(now, LAP - position, counted)
    ensures now <= WrappedDue(now, position, counted) <= LAP
  {
    Fits(LAP - position);
    var step := (LAP - position) / (counted + 1);
    assert 0 <= step <= LAP by { Quotient(LAP - position, counted + 1); }
    WrapOnce(now, step);
  }

  lemma Quotient(a: nat, b: nat)
    requires b > 0
    ensures 0 <= a / b <= a
  {
    DivAtLeast(a, b, 0);
    DivAtLeast(a, b, a + 1);
    MulMonotone(1, b, a + 1);
  }

  lemma WrapOnce(now: nat, step: nat)
    requires now <= LAP && step <= LAP
    ensures var time := (now + step) % (LAP + 1);
      if now + step <= LAP then time == now + step else time < now
  {
  }

  /** When the rest of a lap is done at the new speed, at the latest at the end of the clock. */
  function DueTime(now: nat, rest: nat, counted: nat): nat {
    var time := now + rest / (counted + 1);
    if time > LAP then LAP else time
  }

  /** The rest of a lap is done at a speed of the counted votes plus one. */
  lemma DueMeans(now: nat, rest: nat, counted: nat)
    ensures
      var due := DueTime(now, rest, counted);
      && due <= LAP
      && (due < LAP ==> now <= due && (due - now) * (counted + 1) <= rest < (due - now + 1) * (counted + 1))
      && (due == LAP ==> now > LAP || rest >= (LAP - now) * (counted + 1))
  {
    DivAtLeast(rest, counted + 1, rest / (counted + 1));
    DivAtLeast(rest, counted + 1, rest / (counted + 1) + 1);
    if now <= LAP {
      DivAtLeast(rest, counted + 1, LAP - now);
    }
  }

  /** A vote change of nothing, `e` after a service, does not keep the due time: the position is counted at the
      speed of the votes, the rest of the lap at that of the votes plus one, so the lap becomes longer by `e`. */
  lemma RevoteDelays(v: Validator, served: nat, e: nat)
    requires v.position == 0 && v.lastUpdate == served && v.counted * e <= LAP
    requires served + (LAP + e) / (v.counted + 1) <= LAP
    ensures Travelled(v, served + e) == v.counted * e
    ensures DueTime(served + e, LAP - Travelled(v, served + e), v.counted) == served + (LAP + e) / (v.counted + 1)
  {
    var c := v.counted + 1;
    assert LAP + e == (LAP - v.counted * e) + e * c;
    DivShifted(LAP - v.counted * e, e, c);
  }

  lemma DivShifted(a: nat, e: nat, c: nat)
    requires c > 0
    ensures (a + e * c) / c == a / c + e
  {
    DivAtLeast(a, c, a / c);
    DivAtLeast(a, c, a / c + 1);
    assert (a / c + e) * c == a / c * c + e * c && (a / c + e + 1) * c == (a / c + 1) * c + e * c;
    DivAtLeast(a + e * c, c, a / c + e);
    DivAtLeast(a + e * c, c, a / c + e + 1);
  }

  function Owners(r: Roster, ids: seq<nat>): (names: seq<string>)
    requires forall i :: 0 <= i < |ids| ==> ids[i] in r
    ensures |names| == |ids|
  {
    seq(|ids|, i requires 0 <= i < |ids| => r[ids[i]].owner)
  }

  lemma OwnersMore(r: Roster, ids: seq<nat>, id: nat)
    requires (forall i :: 0 <= i < |ids| ==> ids[i] in r) && id in r
    ensures Owners(r, ids + [id]) == Owners(r, ids) + [r[id].owner]
  {
  }

  class Schedule {
    var roster: Roster
    /** The current virtual time. */
    var now: nat
    /** The producers of a round; only the first `scheduled` slots are used. */
    const shuffled: array<string>
    var scheduled: nat
    var emergency: bool
    var hardfork12: bool

    ghost predicate Valid()
      reads this
    {
      shuffled.Length == MAX_VALIDATORS && now <= LAP && OnTime(roster, now)
    }

    /** Takes the most voted eligible validators. */
    method SelectTop(byVotes: seq<nat>) returns (top: seq<nat>)
      requires VoteOrder(roster, byVotes)
      ensures top == Leaders(roster, byVotes, hardfork12, MAX_TOP)
    {
      hide Leaders;
      LeadersNone(roster, hardfork12, MAX_TOP);
      top := [];
      var k := 0;
      assert byVotes[..0] == [];
      while k < |byVotes| && |top| < MAX_TOP
        invariant k <= |byVotes|
        invariant top == Leaders(roster, byVotes[..k], hardfork12, MAX_TOP)
      {
        assert byVotes[..k + 1] == byVotes[..k] + [byVotes[k]];
        LeadersMore(roster, byVotes[..k], byVotes[k], hardfork12, MAX_TOP);
        if Eligible(roster, byVotes[k], hardfork12) {
          top := top + [byVotes[k]];
        }
        k := k + 1;
      }
      assert byVotes == byVotes[..k] + byVotes[k..];
      if k == |byVotes| {
        assert byVotes[..k] == byVotes;
      } else {
        LeadersFull(roster, byVotes[..k], byVotes[k..], hardfork12, MAX_TOP);
      }
    }

    /** Goes through the validators by due time until the support slots are filled. */
    method SelectSupport(byTime: seq<nat>, top: set<nat>, room: nat) returns (p: nat, support: seq<nat>)
      requires TimeOrder(roster, byTime)
      ensures p == ServedCount(roster, byTime, top, hardfork12, room)
      ensures support == SupportOf(roster, byTime[..p], top, hardfork12)
    {
      hide ServedCount, SupportOf, Supports;
      p, support := 0, [];
      var left := room;
      SelectStart(roster, byTime, top, hardfork12, room);
      while p < |byTime| && left > 0
        invariant p <= |byTime|
        invariant support == SupportOf(roster, byTime[..p], top, hardfork12)
        invariant p + ServedCount(roster, byTime[p..], top, hardfork12, left)
               == ServedCount(roster, byTime, top, hardfork12, room)
      {
        SelectStep(roster, byTime, top, hardfork12, p, left);
        assert support + [] == support;
        if Supports(roster, byTime[p], top, hardfork12) {
          support := support + [byTime[p]];
          left := left - 1;
        }
        p := p + 1;
      }
      SelectEnd(roster, byTime, top, hardfork12, p, left);
    }

    /** Moves everyone served a lap ahead of the new virtual time; an overflow of the
        clock resets it for everyone. */
    method Serve(byTime: seq<nat>, p: nat)
      requires Valid() && TimeOrder(roster, byTime) && p <= |byTime|
      modifies `roster, `now
      ensures Valid()
      ensures
        var now' := NewTime(old(roster), byTime, p, old(now));
        if forall i :: 0 <= i < p ==> !Overflows(old(roster)[byTime[i]], now')
        then Updates(old(roster), old(now), byTime, p, roster, now) && old(now) <= now
        else roster == ResetOf(old(roster)) && now == 0
    {
      ghost var r := roster;
      var now' := NewTime(roster, byTime, p, now);
      var overflow := ServeLoop(byTime, p, now');
      if overflow {
        ResetOnTime(r, now);
        ResetForgets(r, roster);
        Reset();
      } else {
        AdvanceOnTime(r, now, byTime, p);
        now := now';
      }
    }

    /** Sets the new due times until the clock overflows. */
    method ServeLoop(byTime: seq<nat>, p: nat, now': nat) returns (overflow: bool)
      requires TimeOrder(roster, byTime) && p <= |byTime| && now' <= LAP
      modifies `roster
      ensures SameVotes(old(roster), roster)
      ensures overflow <==> exists i :: 0 <= i < p && Overflows(old(roster)[byTime[i]], now')
      ensures !overflow ==> roster == Advance(old(roster), SetOf(byTime[..p]), now')
    {
      hide Overflows; hide Served;
      ghost var r := roster;
      assert roster == Advance(r, SetOf(byTime[..0]), now');
      ServedSameVotes(r, SetOf(byTime[..0]), now');
      for k := 0 to p
        invariant roster == Advance(r, SetOf(byTime[..k]), now') && SameVotes(r, roster)
        invariant forall i :: 0 <= i < k ==> !Overflows(r[byTime[i]], now')
      {
        var id := byTime[k];
        assert id !in SetOf(byTime[..k]) && roster[id] == r[id];
        overflow := ServeOne(id, now');
        if overflow {
          return;
        }
        AdvanceMore(r, byTime, k, now');
        ServedSameVotes(r, SetOf(byTime[..k + 1]), now');
      }
      overflow := false;
    }

    /** Sets one new due time unless the clock overflows. */
    method ServeOne(id: nat, now': nat) returns (overflow: bool)
      requires id in roster && now' <= LAP
      modifies `roster
      ensures overflow <==> Overflows(old(roster)[id], now')
      ensures roster == if overflow then old(roster) else old(roster)[id := Served(old(roster)[id], now')]
      ensures !overflow ==>
        var lap, votes := roster[id].time - now', old(roster)[id].counted + 1;
        lap * votes <= LAP < (lap + 1) * votes
    {
      hide ClockAdd; hide LapOf;
      LapFits(roster[id].counted);
      LapMeans(roster[id].counted);
      OverflowShows(now', LapOf(roster[id].counted));
      var time := ClockAdd(now', LapOf(roster[id].counted));
      overflow := time < now';
      if !overflow {
        roster := roster[id := roster[id].(position := 0, lastUpdate := now', time := time)];
      }
    }

    /** Restarts the clock for everyone. */
    method Reset()
      modifies `roster, `now
      ensures roster == ResetOf(old(roster)) && now == 0
    {
      now := 0;
      var todo := roster.Keys;
      ghost var r := roster;
      while todo != {}
        invariant now == 0 && roster.Keys == r.Keys && todo <= r.Keys
        invariant forall id :: id in r ==> roster[id] == if id in todo then r[id] else ResetOf(r)[id]
        decreases todo
      {
        var id :| id in todo;
        todo := todo - {id};
        roster := roster[id := roster[id].(position := 0, lastUpdate := 0, time := LapOf(roster[id].counted))];
      }
    }

    /** Writes slot `j`. */
    method Put(j: nat, name: string)
      requires j < shuffled.Length
      modifies shuffled
      ensures shuffled[..j + 1] == old(shuffled[..j]) + [name]
      ensures forall k :: 0 <= k < shuffled.Length && k != j ==> shuffled[k] == old(shuffled[k])
    {
      shuffled[j] := name;
    }

    /** Fills the slots with top and support validators in turn. */
    method Build(active: seq<string>, support: seq<string>)
      requires shuffled.Length == MAX_VALIDATORS && |active| + |support| <= MAX_VALIDATORS
      modifies `scheduled, shuffled
      ensures scheduled == if |active| + |support| > 0 then |active| + |support| else 1
      ensures shuffled[..|active| + |support|] == Interleave(active, support)
      ensures forall i :: |active| + |support| <= i < MAX_VALIDATORS ==> shuffled[i] == ""
    {
      hide Interleave;
      var sum := |active| + |support|;
      var j := 0;
      InterleaveNone<string>();
      for i := 0 to sum
        invariant j == |Upto(active, i)| + |Upto(support, i)| && j <= sum
        invariant shuffled[..j] == Interleave(Upto(active, i), Upto(support, i))
      {
        ghost var a, s := Upto(active, i), Upto(support, i);
        if i < |active| {
          InterleaveTop(a, s, active[i]);
          assert Upto(active, i + 1) == a + [active[i]];
          Put(j, active[i]);
          j := j + 1;
        }
        if i < |support| {
          InterleaveSupport(Upto(active, i + 1), s, support[i]);
          assert Upto(support, i + 1) == s + [support[i]];
          Put(j, support[i]);
          j := j + 1;
        }
      }
      assert Upto(active, sum) == active && Upto(support, sum) == support;
      for i := sum to MAX_VALIDATORS
        invariant shuffled[..sum] == Interleave(active, support)
        invariant forall k :: sum <= k < i ==> shuffled[k] == ""
      {
        shuffled[i] := "";
      }
      scheduled := if sum > 1 then sum else 1;
    }

    /** In emergency mode every slot without an available validator goes to the committee. */
    method Override() returns (elected: nat, committee: nat)
      requires shuffled.Length == MAX_VALIDATORS && scheduled <= MAX_VALIDATORS
      modifies `scheduled, `emergency, shuffled
      ensures scheduled == MAX_VALIDATORS && elected + committee == MAX_VALIDATORS
      ensures forall i :: 0 <= i < MAX_VALIDATORS ==>
        shuffled[i] == if i < old(scheduled) && Available(roster, old(shuffled[i])) then old(shuffled[i]) else COMMITTEE
      ensures elected == |Filled(roster, old(shuffled[..]), old(scheduled), MAX_VALIDATORS)|
      ensures emergency == (old(emergency) && elected < MAX_VALIDATORS * IRREVERSIBLE_THRESHOLD / FULL)
    {
      hide Filled; hide Available;
      elected, committee := 0, 0;
      ghost var before := shuffled[..];
      FilledStep(roster, before, scheduled, 0);
      for i := 0 to MAX_VALIDATORS
        invariant elected == |Filled(roster, before, scheduled, i)|
        invariant elected + committee == i && scheduled == old(scheduled) && emergency == old(emergency)
        invariant forall k :: i <= k < MAX_VALIDATORS ==> shuffled[k] == old(shuffled[k])
        invariant forall k :: 0 <= k < i ==>
          shuffled[k] == if k < scheduled && Available(roster, old(shuffled[k])) then old(shuffled[k]) else COMMITTEE
      {
        FilledStep(roster, before, scheduled, i);
        var name := if i < scheduled then shuffled[i] else "";
        NamedOnly(roster, name);
        if name == "" || !Available(roster, name) {
          shuffled[i] := COMMITTEE;
          committee := committee + 1;
        } else {
          elected := elected + 1;
        }
      }
      scheduled := MAX_VALIDATORS;
      if elected >= MAX_VALIDATORS * IRREVERSIBLE_THRESHOLD / FULL {
        emergency := false;
      }
    }

    /** Changes a validator's votes and works out anew when it is due. Clock arithmetic
        wraps; a due time that wrapped into the past becomes the latest possible one. */
    method AdjustVote(id: nat, delta: int, total: nat) returns (ok: bool)
      requires Valid() && id in roster && total <= MAX_VOTES
      modifies `roster
      ensures Valid()
      ensures !ok ==> roster == old(roster)
      ensures ok ==>
        roster.Keys == old(roster).Keys && forall k :: k in roster && k != id ==> roster[k] == old(roster)[k]
      ensures ok <==> NewVotes(old(roster)[id], delta) <= total
      ensures ok ==>
        && roster[id].votes == NewVotes(old(roster)[id], delta)
        && roster[id].votes == (if old(roster)[id].votes + delta >= 0 then old(roster)[id].votes + delta else 0)
        && roster[id].counted == Counted(roster[id].votes, roster[id].penalty)
        && roster[id].lastUpdate == now && now <= roster[id].time
      ensures ok && Travelled(old(roster)[id], now) <= LAP && old(roster)[id].lastUpdate <= now ==>
        && roster[id].position == Travelled(old(roster)[id], now)
        && roster[id].time == DueTime(now, LAP - roster[id].position, roster[id].counted)
    {
      hide WrappedPosition; hide WrappedDue; hide DueTime; hide Travelled; hide Counted;
      var w := roster[id];
      var position := WrappedPosition(w, now);
      var votes := NewVotes(w, delta);
      var counted := Counted(votes, w.penalty);
      if votes > total {
        return false;
      }
      var time := WrappedDue(now, position, counted);
      if Travelled(w, now) <= LAP && w.lastUpdate <= now {
        TravelledExact(w, now);
      }
      DueExact(now, position, counted);
      roster := roster[id := w.(votes := votes, counted := counted, position := position, lastUpdate := now,
                                time := time)];
      ok := true;
    }

    /** The schedule update of a round. */
    method Update(byVotes: seq<nat>, byTime: seq<nat>) returns (top: seq<nat>, support: seq<nat>, p: nat)
      requires Valid() && VoteOrder(roster, byVotes) && TimeOrder(roster, byTime)
      modifies `roster, `now, `scheduled, `emergency, shuffled
      ensures Valid() && scheduled <= MAX_VALIDATORS && (emergency ==> old(emergency))
      ensures top == Leaders(old(roster), byVotes, hardfork12, MAX_TOP)
      ensures p == ServedCount(old(roster), byTime, SetOf(top), hardfork12, MAX_VALIDATORS - |top|)
      ensures support == SupportOf(old(roster), byTime[..p], SetOf(top), hardfork12)
      ensures |top| + |support| <= MAX_VALIDATORS
      ensures !(hardfork12 && old(emergency)) ==>
        && scheduled == (if |top| + |support| > 0 then |top| + |support| else 1)
        && shuffled[..|top| + |support|] == Interleave(Owners(old(roster), top), Owners(old(roster), support))
      ensures hardfork12 && old(emergency) ==>
        var slots := Interleave(Owners(old(roster), top), Owners(old(roster), support));
        && scheduled == MAX_VALIDATORS
        && forall i :: 0 <= i < MAX_VALIDATORS ==>
            && shuffled[i] != ""
            && shuffled[i] == if i < |slots| && Available(roster, slots[i]) then slots[i] else COMMITTEE
      ensures
        var now' := NewTime(old(roster), byTime, p, old(now));
        if forall i :: 0 <= i < p ==> !Overflows(old(roster)[byTime[i]], now')
        then Updates(old(roster), old(now), byTime, p, roster, now)
        else roster == ResetOf(old(roster)) && now == 0
    {
      hide OnTime, Leaders, ServedCount, SupportOf, Updates, ResetOf, LapOf, Interleave;
      top := SelectTop(byVotes);
      p, support := SelectSupport(byTime, SetOf(top), MAX_VALIDATORS - |top|);
      SupportFillsRoom(roster, byTime, SetOf(top), hardfork12, MAX_VALIDATORS - |top|);
      var active, others := Owners(roster, top), Owners(roster, support);
      Serve(byTime, p);
      Build(active, others);
      if hardfork12 && emergency {
        var elected, committee := Override();
      }
    }

    /** One update with the validators in the orders of the two indexes: whether `v` got a slot, and whether the
        clock overflowed. */
    method UpdateRound(v: nat) returns (placed: bool, restarted: bool)
      requires Valid() && v in roster && Eligible(roster, v, hardfork12)
      modifies `roster, `now, `scheduled, `emergency, shuffled
      ensures Valid() && Rounds(hardfork12, Moment(old(roster), old(now)), Moment(roster, now), restarted)
      ensures v in roster && Eligible(roster, v, hardfork12) && roster[v].owner == old(roster)[v].owner
      ensures (emergency ==> old(emergency)) && scheduled <= MAX_VALIDATORS
      ensures !placed && !restarted ==> 0 <= Wait(roster, v) < Wait(old(roster), v)
      ensures placed && (hardfork12 && old(emergency) ==> roster[v].owner != "") ==>
        roster[v].owner in shuffled[..scheduled]
    {
      hide Leaders, SupportOf, ServedCount, Interleave, Owners, Overflows, Updates, ResetOf, Wait, OnTime, VoteOrder;
      hide TimeOrder, NewTime, Eligible, Available;
      var byVotes, byTime := Orders(roster);
      var r, t := roster, now;
      OrdersIn(r, byVotes, byTime);
      var top, support, p := Update(byVotes, byTime);
      restarted := exists i :: 0 <= i < p && Overflows(r[byTime[i]], NewTime(r, byTime, p, t));
      placed := v in top || v in support;
      assert RoundBy(hardfork12, Moment(r, t), Moment(roster, now), restarted, byVotes, byTime);
      if restarted {
        KeptByReset(r, v);
      } else {
        Passed(r, t, byTime, p, roster, now, SetOf(top), MAX_VALIDATORS - |top|, hardfork12, v);
      }
      if placed {
        OwnerInterleaved(r, top, support, v);
        KeyedIsAvailable(roster, v, hardfork12);
        ghost var slots := Interleave(Owners(r, top), Owners(r, support));
        if hardfork12 && old(emergency) {
          if roster[v].owner != "" {
            KeptSlot(roster, slots, shuffled[..], roster[v].owner);
          }
        } else {
          assert shuffled[..scheduled] == slots;
        }
      }
    }

    /** Updates the schedule until `v` has a slot or the clock is restarted; `trace` lists the rosters and times
        between the updates. No validator waits for more updates than its wait at the start, and one more. */
    method RunUntilPlaced(v: nat) returns (rounds: nat, placed: bool, restarted: bool, ghost trace: seq<Moment>)
      requires Valid() && v in roster && roster[v].keyed && !(hardfork12 && roster[v].owner == COMMITTEE)
      modifies `roster, `now, `scheduled, `emergency, shuffled
      ensures Valid() && 0 < rounds <= Wait(old(roster), v) + 1 && (placed || restarted)
      ensures |trace| == rounds + 1 && trace[0] == Moment(old(roster), old(now)) && trace[rounds] == Moment(roster, now)
      ensures forall i :: 0 <= i < rounds ==>
        Rounds(hardfork12, trace[i], trace[i + 1], restarted && i == rounds - 1)
      ensures v in roster && roster[v].owner == old(roster)[v].owner && scheduled <= MAX_VALIDATORS
      ensures placed && (hardfork12 && old(emergency) ==> roster[v].owner != "") ==>
        roster[v].owner in shuffled[..scheduled]
    {
      hide Wait, Rounds;
      ghost var start := Wait(roster, v);
      WaitNonNegative(roster, v);
      trace := [Moment(roster, now)];
      placed, restarted := UpdateRound(v);
      rounds, trace := 1, trace + [Moment(roster, now)];
      while !placed && !restarted
        invariant Valid() && v in roster && Eligible(roster, v, hardfork12) && scheduled <= MAX_VALIDATORS
        invariant roster[v].owner == old(roster)[v].owner && (emergency ==> old(emergency))
        invariant 0 < rounds <= start + 1
        invariant placed || restarted || 0 <= Wait(roster, v) <= start - rounds
        invariant |trace| == rounds + 1 && trace[0] == Moment(old(roster), old(now))
        invariant trace[rounds] == Moment(roster, now)
        invariant forall i :: 0 <= i < rounds ==>
          Rounds(hardfork12, trace[i], trace[i + 1], restarted && i == rounds - 1)
        invariant placed && (hardfork12 && old(emergency) ==> roster[v].owner != "") ==>
          roster[v].owner in shuffled[..scheduled]
        decreases start + 1 - rounds
      {
        placed, restarted := UpdateRound(v);
        rounds, trace := rounds + 1, trace + [Moment(roster, now)];
      }
    }
  }

  /** The validators at a virtual time. */
  datatype Moment = Moment(roster: Roster, now: nat)

  /** One schedule update leads from `a` to `b`. */
  ghost predicate Rounds(hardfork12: bool, a: Moment, b: Moment, restarted: bool) {
    exists byVotes, byTime :: RoundBy(hardfork12, a, b, restarted, byVotes, byTime)
  }

  ghost predicate RoundBy(hardfork12: bool, a: Moment, b: Moment, restarted: bool, byVotes: seq<nat>, byTime: seq<nat>)
  {
    && VoteOrder(a.roster, byVotes) && TimeOrder(a.roster, byTime)
    && var top := Leaders(a.roster, byVotes, hardfork12, MAX_TOP);
       var p := ServedCount(a.roster, byTime, SetOf(top), hardfork12, MAX_VALIDATORS - |top|);
       var now := NewTime(a.roster, byTime, p, a.now);
       && (restarted <==> exists i :: 0 <= i < p && Overflows(a.roster[byTime[i]], now))
       && if restarted then b == Moment(ResetOf(a.roster), 0)
          else Updates(a.roster, a.now, byTime, p, b.roster, b.now)
  }

  /** An available validator keeps its slot when the committee takes the others. */
  lemma KeptSlot(r: Roster, slots: seq<string>, shuffled: seq<string>, name: string)
    requires name in slots && Available(r, name) && |slots| <= |shuffled|
    requires forall i :: 0 <= i < |slots| && Available(r, slots[i]) ==> shuffled[i] == slots[i]
    ensures name in shuffled
  {
    var i :| 0 <= i < |slots| && slots[i] == name;
    assert shuffled[i] == name;
  }

  lemma KeyedIsAvailable(r: Roster, v: nat, hardfork12: bool)
    requires v in r && Eligible(r, v, hardfork12)
    ensures r[v].owner != "" ==> Available(r, r[v].owner)
  {
  }

  /** The ids by rank, each once. */
  method InOrder(rank: map<nat, int>) returns (order: seq<nat>)
    ensures forall i :: 0 <= i < |order| ==> order[i] in rank
    ensures forall id :: id in rank ==> id in order
    ensures forall i, j :: 0 <= i < j < |order| ==> order[i] != order[j] && rank[order[i]] <= rank[order[j]]
  {
    var todo := rank.Keys;
    order := [];
    while todo != {}
      invariant todo <= rank.Keys && forall id :: id in rank ==> (id in order <==> id !in todo)
      invariant forall i :: 0 <= i < |order| ==> order[i] in rank && order[i] !in todo
      invariant forall i, id :: 0 <= i < |order| && id in todo ==> rank[order[i]] <= rank[id]
      invariant forall i, j :: 0 <= i < j < |order| ==> order[i] != order[j] && rank[order[i]] <= rank[order[j]]
    {
      LeastExists(rank, todo);
      var id :| id in todo && forall k :: k in todo ==> rank[id] <= rank[k];
      order, todo := order + [id], todo - {id};
    }
  }

  lemma {:induction false} LeastExists(rank: map<nat, int>, ids: set<nat>)
    requires ids != {} && ids <= rank.Keys
    ensures exists id :: id in ids && forall k :: k in ids ==> rank[id] <= rank[k]
  {
    var id :| id in ids;
    if ids != {id} {
      LeastExists(rank, ids - {id});
      var least :| least in ids - {id} && forall k :: k in ids - {id} ==> rank[least] <= rank[k];
      var best := if rank[id] <= rank[least] then id else least;
      assert best in ids && forall k :: k in ids ==> rank[best] <= rank[k];
    }
  }

  lemma KeptByReset(r: Roster, v: nat)
    requires v in r
    ensures v in ResetOf(r) && ResetOf(r)[v].owner == r[v].owner
    ensures forall hf :: Eligible(ResetOf(r), v, hf) == Eligible(r, v, hf)
  {
  }

  method Orders(r: Roster) returns (byVotes: seq<nat>, byTime: seq<nat>)
    ensures VoteOrder(r, byVotes) && TimeOrder(r, byTime)
  {
    byVotes := InOrder(map id | id in r :: 0 - r[id].counted);
    byTime := InOrder(map id | id in r :: r[id].time);
  }

  lemma OrdersIn(r: Roster, byVotes: seq<nat>, byTime: seq<nat>)
    requires VoteOrder(r, byVotes) && TimeOrder(r, byTime)
    ensures (forall i :: 0 <= i < |byVotes| ==> byVotes[i] in r) && (forall i :: 0 <= i < |byTime| ==> byTime[i] in r)
  {
  }

  /** An update without overflow that gives an eligible validator outside the top no support slot makes its wait
      shorter. */
  lemma Passed(r: Roster, now: nat, order: seq<nat>, p: nat, r': Roster, now': nat, top: set<nat>, room: nat,
               hardfork12: bool, v: nat)
    requires OnTime(r, now) && Updates(r, now, order, p, r', now') && v in r && Eligible(r, v, hardfork12)
    requires room > 0 && p == ServedCount(r, order, top, hardfork12, room)
    ensures v in r' && Eligible(r', v, hardfork12) && r'[v].owner == r[v].owner
    ensures v !in top && v !in SupportOf(r, order[..p], top, hardfork12) ==>
      forall id :: id in r' ==> r'[id].counted <= MAX_VOTES
    ensures v !in top && v !in SupportOf(r, order[..p], top, hardfork12) ==> 0 <= Wait(r', v) < Wait(r, v)
  {
    hide ServedCount, SupportOf, Wait;
    if v !in top && v !in SupportOf(r, order[..p], top, hardfork12) {
      assert v !in order[..p];
      PassedOver(r, now, order, p, r', now', v);
      WaitNonNegative(r', v);
    }
  }

  lemma OwnerInterleaved(r: Roster, top: seq<nat>, support: seq<nat>, v: nat)
    requires (forall i :: 0 <= i < |top| ==> top[i] in r) && (forall i :: 0 <= i < |support| ==> support[i] in r)
    requires v in r && (v in top || v in support)
    ensures r[v].owner in Interleave(Owners(r, top), Owners(r, support))
  {
    var a, s := Owners(r, top), Owners(r, support);
    InterleaveKeepsAll(a, s);
    if v in top {
      var i :| 0 <= i < |top| && top[i] == v;
      assert a[i] == r[v].owner;
    } else {
      var i :| 0 <= i < |support| && support[i] == v;
      assert s[i] == r[v].owner;
    }
    assert r[v].owner in multiset(a) + multiset(s);
  }

  function Upto<T>(s: seq<T>, i: nat): (r: seq<T>)
    ensures |r| == if i < |s| then i else |s|
  {
    if i < |s| then s[..i] else s
  }

  lemma NamedOnly(r: Roster, name: string)
    ensures Available(r, name) ==> name != ""
  {
  }

  /** The slots below `i` that an available validator holds. */
  ghost function Filled(r: Roster, slots: seq<string>, n: nat, i: nat): set<nat> {
    set k: nat | k < i && k < n && k < |slots| && Available(r, slots[k])
  }

  lemma FilledStep(r: Roster, slots: seq<string>, n: nat, i: nat)
    ensures |Filled(r, slots, n, i + 1)| ==
      |Filled(r, slots, n, i)| + (if i < n && i < |slots| && Available(r, slots[i]) then 1 else 0)
    ensures Filled(r, slots, n, 0) == {}
  {
    assert Filled(r, slots, n, i + 1) ==
      Filled(r, slots, n, i) + (if i < n && i < |slots| && Available(r, slots[i]) then {i} else {});
  }

  /** Registered under this name with a signing key. */
  predicate Available(r: Roster, name: string) {
    name != "" && exists id :: id in r && r[id].owner == name && r[id].keyed
  }

  // ---------------------------------------------------------------------------
  // What the schedule guarantees
  // ---------------------------------------------------------------------------

  ghost predicate UniqueOwners(r: Roster) {
    forall i, j :: i in r && j in r && r[i].owner == r[j].owner ==> i == j
  }

  lemma {:induction false} OwnersOnce(r: Roster, ids: seq<nat>, name: string)
    requires UniqueOwners(r) && (forall i :: 0 <= i < |ids| ==> ids[i] in r) && Distinct(ids)
    ensures multiset(Owners(r, ids))[name] <= 1
    ensures multiset(Owners(r, ids))[name] == 1 <==> exists i :: 0 <= i < |ids| && r[ids[i]].owner == name
    decreases |ids|
  {
    if ids != [] {
      var n := |ids| - 1;
      OwnersOnce(r, ids[..n], name);
      assert ids == ids[..n] + [ids[n]];
      OwnersMore(r, ids[..n], ids[n]);
      assert forall i :: 0 <= i < n ==> ids[..n][i] == ids[i];
    }
  }

  /** The built schedule holds every selected validator exactly once and nobody else; all
      of them have a key and none is the committee after hardfork 12. */
  lemma ScheduleHoldsEachOnce(r: Roster, byVotes: seq<nat>, byTime: seq<nat>, hardfork12: bool,
                              maxTop: nat, room: nat, name: string)
    requires UniqueOwners(r) && VoteOrder(r, byVotes) && TimeOrder(r, byTime)
    ensures
      var top := Leaders(r, byVotes, hardfork12, maxTop);
      var p := ServedCount(r, byTime, SetOf(top), hardfork12, room);
      var support := SupportOf(r, byTime[..p], SetOf(top), hardfork12);
      var slots := multiset(Interleave(Owners(r, top), Owners(r, support)));
      && slots[name] == (if exists id :: (id in top || id in support) && r[id].owner == name then 1 else 0)
      && (name in slots ==> Available(r, name) || name == "")
      && (hardfork12 ==> COMMITTEE !in slots)
  {
    hide Leaders; hide ServedCount; hide SupportOf; hide Interleave; hide Owners;
    var top := Leaders(r, byVotes, hardfork12, maxTop);
    var p := ServedCount(r, byTime, SetOf(top), hardfork12, room);
    var support := SupportOf(r, byTime[..p], SetOf(top), hardfork12);
    LeadersDistinct(r, byVotes, hardfork12, maxTop);
    SupportDistinct(r, byTime[..p], SetOf(top), hardfork12);
    SlotsOnce(r, top, support, hardfork12, name);
    if hardfork12 {
      SlotsOnce(r, top, support, hardfork12, COMMITTEE);
    }
  }

  lemma SlotsOnce(r: Roster, top: seq<nat>, support: seq<nat>, hardfork12: bool, name: string)
    requires UniqueOwners(r) && Distinct(top) && Distinct(support)
    requires forall i :: 0 <= i < |top| ==> top[i] in r && Eligible(r, top[i], hardfork12)
    requires forall i :: 0 <= i < |support| ==> support[i] in r && Supports(r, support[i], SetOf(top), hardfork12)
    ensures
      var slots := multiset(Interleave(Owners(r, top), Owners(r, support)));
      && slots[name] == (if exists id :: (id in top || id in support) && r[id].owner == name then 1 else 0)
      && (name in slots ==> exists id :: id in r && r[id].owner == name && Eligible(r, id, hardfork12))
  {
    InterleaveKeepsAll(Owners(r, top), Owners(r, support));
    OwnersOnce(r, top, name);
    OwnersOnce(r, support, name);
  }

  /** A run of updates without overflow, each going through the time order as far as the
      support slots need, with the given top validators. */
  ghost predicate IsRun(rounds: seq<Round>, tops: seq<set<nat>>, hardfork12: bool) {
    && |tops| == |rounds|
    && (forall i :: 0 <= i < |rounds| ==>
          && OnTime(rounds[i].roster, rounds[i].now) && TimeOrder(rounds[i].roster, rounds[i].order)
          && |tops[i]| <= MAX_TOP
          && rounds[i].served == ServedCount(rounds[i].roster, rounds[i].order, tops[i], hardfork12,
                                             MAX_VALIDATORS - |tops[i]|))
    && (forall i :: 0 <= i < |rounds| - 1 ==>
          Updates(rounds[i].roster, rounds[i].now, rounds[i].order, rounds[i].served, rounds[i + 1].roster,
                  rounds[i + 1].now))
  }

  ghost predicate GetsSlot(round: Round, top: set<nat>, hardfork12: bool, v: nat) {
    && TimeOrder(round.roster, round.order) && round.served <= |round.order|
    && v in SupportOf(round.roster, round.order[..round.served], top, hardfork12)
  }

  /** No starvation: an eligible validator outside the top gets a support slot within as
      many updates as its wait, and one more. */
  lemma EventuallySupports(rounds: seq<Round>, tops: seq<set<nat>>, hardfork12: bool, v: nat)
    requires rounds != [] && IsRun(rounds, tops, hardfork12)
    requires forall i :: 0 <= i < |rounds| ==>
      && v in rounds[i].roster && v !in tops[i] && rounds[i].roster[v].keyed
      && !(hardfork12 && rounds[i].roster[v].owner == COMMITTEE)
    requires |rounds| > Wait(rounds[0].roster, v) + 1
    ensures exists i :: 0 <= i < |rounds| && GetsSlot(rounds[i], tops[i], hardfork12, v)
  {
    if PassesOver(rounds, v) {
      WaitIsBounded(rounds, v);
      WaitNonNegative(rounds[|rounds| - 1].roster, v);
    } else {
      var i :| 0 <= i < |rounds| && v in rounds[i].order[..rounds[i].served];
      assert Supports(rounds[i].roster, v, tops[i], hardfork12);
      assert GetsSlot(rounds[i], tops[i], hardfork12, v);
    }
  }
}
