/** Virtual-time scheduling of support validators: each validator is due at a virtual
    time, the earliest due are served, and serving one moves it a lap ahead. */
module VirtualTime {
  import opened Config
  import opened Sums
  import opened Division

  /** The length of a lap, also the greatest value of the 128-bit clock. */
  const LAP: nat := 0xFFFF_FFFF_FFFF_FFFF_FFFF_FFFF_FFFF_FFFF
  /** Votes are 64-bit signed integers. */
  const MAX_VOTES: nat := 0x7FFF_FFFF_FFFF_FFFF
  const MAX_TOP: nat := 11
  const MAX_VALIDATORS: nat := 21

  datatype Validator = Validator(owner: string, keyed: bool, votes: nat, penalty: nat, counted: nat,
                                 position: nat, lastUpdate: nat, time: nat)

  type Roster = map<nat, Validator>

  /** How far a validator moves ahead each time it is served. */
  function LapOf(counted: nat): (l: nat)
    ensures counted <= MAX_VOTES ==> l > 0
  {
    LAP / (counted + 1)
  }

  /** Nobody is due before the current virtual time, and all values fit their width. */
  ghost predicate OnTime(r: Roster, now: nat) {
    forall id :: id in r ==> now <= r[id].time <= LAP && r[id].counted <= MAX_VOTES
  }

  /** `order` lists everyone once, by due time. */
  ghost predicate TimeOrder(r: Roster, order: seq<nat>) {
    && (forall i :: 0 <= i < |order| ==> order[i] in r)
    && (forall id :: id in r ==> id in order)
    && (forall i, j :: 0 <= i < j < |order| ==> order[i] != order[j] && r[order[i]].time <= r[order[j]].time)
  }

  /** Can produce blocks: has a signing key and is not the committee. */
  predicate Eligible(r: Roster, id: nat, hardfork12: bool)
    requires id in r
  {
    r[id].keyed && !(hardfork12 && r[id].owner == COMMITTEE)
  }

  /** The served prefix of the order moves one lap ahead of the new virtual time. */
  function Advance(r: Roster, served: set<nat>, now: nat): Roster {
    map id | id in r :: if id in served then Served(r[id], now) else r[id]
  }

  function Served(v: Validator, now: nat): Validator {
    v.(position := 0, lastUpdate := now, time := now + LapOf(v.counted))
  }

  function SetOf(ids: seq<nat>): set<nat> {
    set id | id in ids
  }

  /** The virtual time after the first `p` of the order were served. */
  function NewTime(r: Roster, order: seq<nat>, p: nat, now: nat): nat
    requires p <= |order| && forall i :: 0 <= i < |order| ==> order[i] in r
  {
    if p == 0 then now else r[order[p - 1]].time
  }

  /** An update without overflow: the first `p` of the order are served. */
  ghost predicate Updates(r: Roster, now: nat, order: seq<nat>, p: nat, r': Roster, now': nat) {
    && TimeOrder(r, order) && p <= |order|
    && now' == NewTime(r, order, p, now)
    && r' == Advance(r, SetOf(order[..p]), now')
    && OnTime(r', now')
  }

  /** Serving keeps everyone on time as long as the clock does not overflow. */
  lemma AdvanceOnTime(r: Roster, now: nat, order: seq<nat>, p: nat)
    requires OnTime(r, now) && TimeOrder(r, order) && p <= |order|
    requires
      var now' := NewTime(r, order, p, now);
      forall i :: 0 <= i < p ==> now' + LapOf(r[order[i]].counted) <= LAP
    ensures
      var now' := NewTime(r, order, p, now);
      now <= now' && OnTime(Advance(r, SetOf(order[..p]), now'), now')
  {
    var now' := NewTime(r, order, p, now);
    forall id | id in r
      ensures now' <= Advance(r, SetOf(order[..p]), now')[id].time <= LAP
    {
      var i :| 0 <= i < |order| && order[i] == id;
      if i < p {
        assert order[..p][i] == id;
      } else {
        assert forall j :: 0 <= j < p ==> order[..p][j] == order[j];
      }
    }
  }

  // ---------------------------------------------------------------------------
  // Waiting is bounded
  // ---------------------------------------------------------------------------

  /** How often `w` can be served before virtual time `due`. */
  function Turns(w: Validator, due: nat): (n: nat)
    requires w.counted <= MAX_VOTES
  {
    if w.time <= due then (due - w.time) / LapOf(w.counted) + 1 else 0
  }

  ghost function TurnsOfOthers(r: Roster, v: nat): map<nat, int>
    requires v in r && forall id :: id in r ==> r[id].counted <= MAX_VOTES
  {
    map w: nat | w in r && w != v :: Turns(r[w], r[v].time)
  }

  /** How often the others can be served before `v` is due. */
  ghost function Wait(r: Roster, v: nat): int
    requires v in r && forall id :: id in r ==> r[id].counted <= MAX_VOTES
  {
    Sum(TurnsOfOthers(r, v))
  }

  /** The turns the others get within one lap of `v`, and one more each. */
  ghost function LapsOfOthers(r: Roster, v: nat): map<nat, int>
    requires v in r && forall id :: id in r ==> r[id].counted <= MAX_VOTES
  {
    map w: nat | w in r && w != v :: LapOf(r[v].counted) / LapOf(r[w].counted) + 1
  }

  lemma WaitNonNegative(r: Roster, v: nat)
    requires v in r && forall id :: id in r ==> r[id].counted <= MAX_VOTES
    ensures Wait(r, v) >= 0
  {
    SumNonNegative(TurnsOfOthers(r, v));
  }

  /** Being served uses up one turn. */
  lemma ServedTurns(w: Validator, now: nat, due: nat)
    requires w.counted <= MAX_VOTES && w.time <= now && w.time <= due
    ensures Turns(Served(w, now), due) < Turns(w, due)
  {
    var l := LapOf(w.counted);
    if now + l <= due {
      DivShift(due - (now + l), due - w.time, l);
    }
  }

  /** Whoever is passed over comes after everyone served. */
  lemma ServedAreEarlier(r: Roster, order: seq<nat>, p: nat, v: nat, w: nat)
    requires TimeOrder(r, order) && 0 < p <= |order| && v in r && v !in order[..p] && w in order[..p]
    ensures w in r && w != v && r[w].time <= r[order[p - 1]].time <= r[v].time
  {
    var k :| 0 <= k < |order| && order[k] == v;
    var i :| 0 <= i < p && order[i] == w;
  }

  lemma PassedTurns(r: Roster, now: nat, order: seq<nat>, p: nat, r': Roster, now': nat, v: nat, w: nat)
    requires Updates(r, now, order, p, r', now') && OnTime(r, now) && v in r && w in r && w != v
    requires p > 0 && v !in order[..p]
    ensures Turns(r'[w], r[v].time) <= Turns(r[w], r[v].time)
    ensures w in order[..p] ==> Turns(r'[w], r[v].time) < Turns(r[w], r[v].time)
  {
    if w in order[..p] {
      ServedAreEarlier(r, order, p, v, w);
      assert r'[w] == Served(r[w], now');
      ServedTurns(r[w], now', r[v].time);
    } else {
      assert r'[w] == r[w];
    }
  }

  /** Every update that passes `v` over uses up a turn of somebody else. */
  lemma PassedOver(r: Roster, now: nat, order: seq<nat>, p: nat, r': Roster, now': nat, v: nat)
    requires Updates(r, now, order, p, r', now') && OnTime(r, now) && v in r
    requires p > 0 && v !in order[..p]
    ensures r'[v] == r[v] && Wait(r', v) < Wait(r, v)
  {
    hide LapOf; hide Turns; hide Served; hide TimeOrder; hide NewTime;
    var due, first := r[v].time, order[..p][0];
    ServedAreEarlier(r, order, p, v, first);
    assert r'.Keys == r.Keys && r'[v] == r[v];
    var before, after := TurnsOfOthers(r, v), TurnsOfOthers(r', v);
    forall w | w in before
      ensures after[w] <= before[w]
    {
      PassedTurns(r, now, order, p, r', now', v, w);
    }
    PassedTurns(r, now, order, p, r', now', v, first);
    SumStrict(after, before, first);
  }

  /** One more update of a run. */
  datatype Round = Round(roster: Roster, now: nat, order: seq<nat>, served: nat)

  /** A run of updates without overflow in which `v` is passed over every time. */
  ghost predicate PassesOver(rounds: seq<Round>, v: nat) {
    && (forall i :: 0 <= i < |rounds| ==>
          OnTime(rounds[i].roster, rounds[i].now) && v in rounds[i].roster
          && 0 < rounds[i].served <= |rounds[i].order| && v !in rounds[i].order[..rounds[i].served])
    && (forall i :: 0 <= i < |rounds| - 1 ==>
          Updates(rounds[i].roster, rounds[i].now, rounds[i].order, rounds[i].served, rounds[i + 1].roster,
                  rounds[i + 1].now))
  }

  /** Nobody is passed over more often than the wait computed at the start. */
  lemma {:induction false} WaitIsBounded(rounds: seq<Round>, v: nat)
    requires rounds != [] && PassesOver(rounds, v)
    ensures |rounds| - 1 <= Wait(rounds[0].roster, v) - Wait(rounds[|rounds| - 1].roster, v)
    decreases |rounds|
  {
    if |rounds| > 1 {
      var a, b := rounds[0], rounds[1];
      PassedOver(a.roster, a.now, a.order, a.served, b.roster, b.now, v);
      var rest := rounds[1..];
      forall i | 0 <= i < |rest| - 1
        ensures Updates(rest[i].roster, rest[i].now, rest[i].order, rest[i].served, rest[i + 1].roster, rest[i + 1].now)
      {
        assert rest[i] == rounds[i + 1] && rest[i + 1] == rounds[(i + 1) + 1];
      }
      WaitIsBounded(rest, v);
    }
  }

  lemma TurnsWithinLap(w: Validator, now: nat, due: nat, lap: nat)
    requires w.counted <= MAX_VOTES && now <= w.time && due <= now + lap
    ensures Turns(w, due) <= lap / LapOf(w.counted) + 1
  {
    var l := LapOf(w.counted);
    if w.time <= due {
      DivMonotone(due - w.time, lap, l);
    } else {
      DivMonotone(0, lap, l);
    }
  }

  /** The wait of a validator that was just served: the others get at most as many turns
      as fit into one of its laps, and one more each. */
  lemma WaitAfterService(r: Roster, now: nat, v: nat)
    requires OnTime(r, now) && v in r && r[v].time <= now + LapOf(r[v].counted)
    ensures Wait(r, v) <= Sum(LapsOfOthers(r, v))
  {
    hide LapOf; hide Turns;
    var turns, bound := TurnsOfOthers(r, v), LapsOfOthers(r, v);
    forall w | w in turns
      ensures turns[w] <= bound[w]
    {
      TurnsWithinLap(r[w], now, r[v].time, LapOf(r[v].counted));
    }
    SumMonotone(turns, bound);
  }

  // ---------------------------------------------------------------------------
  // Votes speed a validator up
  // ---------------------------------------------------------------------------

  /** A lap is the length of the whole divided by the counted votes plus one, rounded down. */
  lemma LapMeans(counted: nat)
    ensures LapOf(counted) * (counted + 1) <= LAP < (LapOf(counted) + 1) * (counted + 1)
  {
    DivAtLeast(LAP, counted + 1, LapOf(counted));
    DivAtLeast(LAP, counted + 1, LapOf(counted) + 1);
  }

  /** A validator with `k` times the votes of another, each plus one, has laps at most a `k`-th as long. */
  lemma LapsInProportion(c: nat, d: nat, k: nat)
    requires c + 1 >= k * (d + 1)
    ensures k * LapOf(c) <= LapOf(d)
  {
    LapMeans(c);
    var lap := LapOf(c);
    assert (k * lap) * (d + 1) == (k * (d + 1)) * lap;
    MulMonotone(k * (d + 1), c + 1, lap);
    assert (c + 1) * lap == lap * (c + 1);
    DivAtLeast(LAP, d + 1, k * lap);
  }

  /** A run of updates without overflow. */
  ghost predicate UpdateRun(rounds: seq<Round>) {
    && (forall i :: 0 <= i < |rounds| ==> OnTime(rounds[i].roster, rounds[i].now))
    && (forall i :: 0 <= i < |rounds| - 1 ==> UpdateAt(rounds, i))
  }

  ghost predicate UpdateAt(rounds: seq<Round>, i: nat)
    requires i + 1 < |rounds|
  {
    Updates(rounds[i].roster, rounds[i].now, rounds[i].order, rounds[i].served, rounds[i + 1].roster, rounds[i + 1].now)
  }

  /** Round `i` serves `v`. */
  predicate ServedIn(rounds: seq<Round>, v: nat, i: nat)
    requires i < |rounds| && rounds[i].served <= |rounds[i].order|
  {
    v in rounds[i].order[..rounds[i].served]
  }

  /** How long after its due time `v` is served in round `i`, on the virtual clock. */
  ghost function LateIn(rounds: seq<Round>, v: nat, i: nat): int
    requires i + 1 < |rounds| && v in rounds[i].roster
  {
    rounds[i + 1].now - rounds[i].roster[v].time
  }

  /** How often the rounds from `i` up to `j` serve `v`, and how late in all. */
  ghost function Services(rounds: seq<Round>, v: nat, i: nat, j: nat): (nat, int)
    requires i <= j < |rounds| && UpdateRun(rounds) && v in rounds[0].roster
    decreases j
  {
    if i == j then (0, 0)
    else
      assert UpdateAt(rounds, j - 1);
      SameValidators(rounds, j - 1);
      var (m, late) := Services(rounds, v, i, j - 1);
      if ServedIn(rounds, v, j - 1) then (m + 1, late + LateIn(rounds, v, j - 1)) else (m, late)
  }

  /** Updates neither add nor remove validators, and leave their votes as they are. */
  lemma {:induction false} SameValidators(rounds: seq<Round>, i: nat)
    requires UpdateRun(rounds) && i < |rounds|
    ensures rounds[i].roster.Keys == rounds[0].roster.Keys
    ensures forall v :: v in rounds[0].roster ==> rounds[i].roster[v].counted == rounds[0].roster[v].counted
  {
    if i > 0 {
      SameValidators(rounds, i - 1);
      assert UpdateAt(rounds, i - 1);
    }
  }

  /** What one round does to the due time of `v`. */
  lemma DueAfter(rounds: seq<Round>, v: nat, i: nat)
    requires UpdateRun(rounds) && i + 1 < |rounds| && v in rounds[i].roster
    ensures v in rounds[i + 1].roster && rounds[i].served <= |rounds[i].order| && rounds[i].now <= rounds[i + 1].now
    ensures rounds[i + 1].roster[v].counted == rounds[i].roster[v].counted
    ensures rounds[i + 1].roster[v].time ==
      if ServedIn(rounds, v, i) then rounds[i + 1].now + LapOf(rounds[i].roster[v].counted)
      else rounds[i].roster[v].time
    ensures ServedIn(rounds, v, i) ==> rounds[i].now <= rounds[i].roster[v].time <= rounds[i + 1].now
  {
    assert UpdateAt(rounds, i);
    var a := rounds[i];
    if a.served > 0 {
      assert a.order[a.served - 1] in a.roster;
    }
    if ServedIn(rounds, v, i) {
      var k :| 0 <= k < a.served && a.order[k] == v;
    }
  }

  /** The due time moves by a lap for every service and by what the services were late. */
  lemma {:induction false} DueMoves(rounds: seq<Round>, v: nat, i: nat, j: nat)
    requires UpdateRun(rounds) && i <= j < |rounds| && v in rounds[0].roster
    ensures v in rounds[i].roster && v in rounds[j].roster
    ensures
      var (m, late) := Services(rounds, v, i, j);
      && late >= 0
      && rounds[j].roster[v].time == rounds[i].roster[v].time + m * LapOf(rounds[0].roster[v].counted) + late
    decreases j
  {
    hide LapOf, OnTime, Updates;
    SameValidators(rounds, i);
    SameValidators(rounds, j);
    if i < j {
      SameValidators(rounds, j - 1);
      DueMoves(rounds, v, i, j - 1);
      DueAfter(rounds, v, j - 1);
      var m, lap := Services(rounds, v, i, j - 1).0, LapOf(rounds[0].roster[v].counted);
      assert (m + 1) * lap == m * lap + lap;
    }
  }

  /** `v` is due within a lap of the current virtual time. Services, restarts and vote changes see to that. */
  ghost predicate WithinLap(r: Roster, now: nat, v: nat) {
    v in r && r[v].time <= now + LapOf(r[v].counted)
  }

  lemma {:induction false} StaysWithinLap(rounds: seq<Round>, v: nat, i: nat)
    requires UpdateRun(rounds) && i < |rounds| && WithinLap(rounds[0].roster, rounds[0].now, v)
    ensures WithinLap(rounds[i].roster, rounds[i].now, v)
  {
    hide LapOf, OnTime, Updates;
    if i > 0 {
      StaysWithinLap(rounds, v, i - 1);
      DueAfter(rounds, v, i - 1);
    }
  }

  /** Between two services of `w` a validator with `k` times its votes, each plus one, is served `k - 1` times,
      where every missing service is made up for by a whole lap that its other services were late. */
  lemma VotesSpeedUp(rounds: seq<Round>, v: nat, w: nat, k: nat, i: nat, j: nat)
    requires UpdateRun(rounds) && i < j && j + 1 < |rounds| && w in rounds[0].roster && k > 0
    requires WithinLap(rounds[0].roster, rounds[0].now, v)
    requires rounds[0].roster[v].counted + 1 >= k * (rounds[0].roster[w].counted + 1)
    requires rounds[i].served <= |rounds[i].order| && rounds[j].served <= |rounds[j].order|
    requires ServedIn(rounds, w, i) && ServedIn(rounds, w, j)
    ensures
      var (m, late) := Services(rounds, v, i + 1, j + 1);
      var lap := LapOf(rounds[0].roster[v].counted);
      late >= 0 && m * lap + late >= (k - 1) * lap
  {
    hide LapOf, Updates, Services, OnTime;
    var lap := LapOf(rounds[0].roster[v].counted);
    SameValidators(rounds, i + 1);
    WaitsALap(rounds, w, i, j);
    DueMoves(rounds, v, i + 1, j + 1);
    NotBeforeNow(rounds, v, j + 1);
    StaysWithinLap(rounds, v, i + 1);
    LapsInProportion(rounds[0].roster[v].counted, rounds[0].roster[w].counted, k);
    assert k * lap == (k - 1) * lap + lap;
  }

  lemma NotBeforeNow(rounds: seq<Round>, v: nat, i: nat)
    requires UpdateRun(rounds) && i < |rounds| && v in rounds[i].roster
    ensures rounds[i].roster[v].time >= rounds[i].now
  {
  }

  /** Between two services of a validator the virtual clock moves on by at least its lap. */
  lemma WaitsALap(rounds: seq<Round>, w: nat, i: nat, j: nat)
    requires UpdateRun(rounds) && i < j && j + 1 < |rounds| && w in rounds[0].roster
    requires rounds[i].served <= |rounds[i].order| && rounds[j].served <= |rounds[j].order|
    requires ServedIn(rounds, w, i) && ServedIn(rounds, w, j)
    ensures rounds[j + 1].now >= rounds[i + 1].now + LapOf(rounds[0].roster[w].counted)
  {
    hide LapOf, Updates, Services, OnTime;
    SameValidators(rounds, i);
    SameValidators(rounds, j);
    DueAfter(rounds, w, i);
    DueAfter(rounds, w, j);
    DueMoves(rounds, w, i + 1, j);
    NonNegativeProduct(Services(rounds, w, i + 1, j).0, LapOf(rounds[0].roster[w].counted));
  }

  lemma NonNegativeProduct(a: nat, b: nat)
    ensures a * b >= 0
  {
  }

  /** A validator that is never served late is served `k - 1` times. */
  lemma NeverLate(rounds: seq<Round>, v: nat, w: nat, k: nat, i: nat, j: nat)
    requires UpdateRun(rounds) && i < j && j + 1 < |rounds| && w in rounds[0].roster && k > 0
    requires WithinLap(rounds[0].roster, rounds[0].now, v)
    requires rounds[0].roster[v].counted + 1 >= k * (rounds[0].roster[w].counted + 1)
    requires rounds[i].served <= |rounds[i].order| && rounds[j].served <= |rounds[j].order|
    requires ServedIn(rounds, w, i) && ServedIn(rounds, w, j)
    ensures
      var (m, late) := Services(rounds, v, i + 1, j + 1);
      late < LapOf(rounds[0].roster[v].counted) ==> m >= k - 1
  {
    hide LapOf, Updates, Services;
    VotesSpeedUp(rounds, v, w, k, i, j);
    var (m, late) := Services(rounds, v, i + 1, j + 1);
    var lap := LapOf(rounds[0].roster[v].counted);
    assert (m + 1) * lap == m * lap + lap;
    if m < k - 1 {
      MulMonotone(m + 1, k - 1, lap);
    }
  }

  /** Two validators in the order of their due times, and both are served. */
  ghost function Pair(v: Validator, w: Validator, now: nat): Round {
    Round(map[1 := v, 2 := w], now, [1, 2], 2)
  }

  lemma PairUpdates(v: Validator, w: Validator, now: nat)
    requires now <= v.time <= w.time && v.counted <= MAX_VOTES && w.counted <= MAX_VOTES
    requires w.time + LapOf(v.counted) <= LAP && w.time + LapOf(w.counted) <= LAP
    ensures
      var a, b := Pair(v, w, now), Pair(Served(v, w.time), Served(w, w.time), w.time);
      OnTime(a.roster, now) && Updates(a.roster, now, [1, 2], 2, b.roster, b.now)
  {
    hide LapOf;
    var a, b := Pair(v, w, now), Pair(Served(v, w.time), Served(w, w.time), w.time);
    assert [1, 2][..2] == [1, 2] && SetOf([1, 2]) == {1, 2};
    assert Advance(a.roster, {1, 2}, w.time) == b.roster;
  }

  /** Two validators with votes 7 and 1 that are both served in every round. */
  ghost function Together(): seq<Round> {
    var v, w := Validator("v", true, 7, 0, 7, 0, 0, 0), Validator("w", true, 1, 0, 1, 0, 0, 0);
    var v', w' := Served(v, 0), Served(w, 0);
    [Pair(v, w, 0), Pair(v', w', 0), Pair(Served(v', w'.time), Served(w', w'.time), w'.time)]
  }

  lemma TogetherLaps()
    ensures 0 < LapOf(7) <= LapOf(1) && LapOf(1) + LapOf(1) <= LAP && LapOf(1) >= 3 * LapOf(7)
  {
  }

  lemma TogetherRun()
    ensures UpdateRun(Together())
  {
    hide LapOf, Updates, OnTime;
    TogetherLaps();
    var v, w := Validator("v", true, 7, 0, 7, 0, 0, 0), Validator("w", true, 1, 0, 1, 0, 0, 0);
    PairUpdates(v, w, 0);
    PairUpdates(Served(v, 0), Served(w, 0), 0);
    var rounds := Together();
    assert UpdateAt(rounds, 0) && UpdateAt(rounds, 1);
    assert OnTime(rounds[2].roster, rounds[2].now) by { UpdatedOnTime(rounds, 1); }
  }

  lemma UpdatedOnTime(rounds: seq<Round>, i: nat)
    requires i + 1 < |rounds| && UpdateAt(rounds, i)
    ensures OnTime(rounds[i + 1].roster, rounds[i + 1].now)
  {
  }

  /** A validator with four times the votes of another, each plus one, that is served once between two services
      of it, and not three times: both are served in every round, and it is two laps late. */
  lemma ServedTogether()
    ensures
      var rounds := Together();
      && UpdateRun(rounds) && WithinLap(rounds[0].roster, rounds[0].now, 1)
      && rounds[0].roster[1].counted + 1 == 4 * (rounds[0].roster[2].counted + 1)
      && ServedIn(rounds, 2, 0) && ServedIn(rounds, 2, 1)
      && Services(rounds, 1, 1, 2).0 == 1 && Services(rounds, 1, 1, 2).1 >= 2 * LapOf(7)
  {
    hide LapOf, UpdateRun;
    TogetherLaps();
    TogetherRun();
    var rounds := Together();
    assert [1, 2][..2] == [1, 2];
    assert Services(rounds, 1, 1, 1) == (0, 0);
    assert ServedIn(rounds, 1, 1);
  }
}
