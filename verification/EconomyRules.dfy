/** Records of the token economy and the rules by which amounts are divided. */
module EconomyRules {
  import opened Config
  import opened Options
  import opened Sums
  import opened Division
  import opened Payments
  import opened Awards

  /** Tokens issued with every block. */
  const ISSUED: nat := 1000
  /** The time between two withdrawals, in seconds. */
  const INTERVAL: nat := 86400

  datatype EscrowKey = EscrowKey(from: string, id: nat)

  datatype Escrow = Escrow(to: string, agent: string, ratification: nat, expiration: nat,
                           tokens: int, fee: int, toApproved: bool, agentApproved: bool, disputed: bool)
  {
    predicate Approved() { toApproved && agentApproved }

    predicate Lapsed(now: nat) { !Approved() && ratification <= now }
  }

  /** Status 4 requests are being paid, status 5 requests are paid in full. */
  datatype Request = Request(worker: string, status: nat, paid: int, remain: int)

  datatype Withdrawal = Withdrawal(rate: int, planned: int, done: int, next: Option<nat>)

  datatype Route = Route(to: string, percent: nat, autoVest: bool)

  datatype Beneficiary = Beneficiary(account: string, weight: nat)

  datatype Vote = Vote(account: string, weight: int, created: nat)

  datatype Stake = Stake(account: string, weight: nat)

  datatype Expiry = Expiry(time: nat, shares: nat)

  datatype Energy = Energy(level: int, last: nat)
  {
    /** The energy at a later time. */
    function Current(now: nat): int
      requires last <= now
    {
      var full := level + FULL * (now - last) / REGENERATION;
      if full < FULL then full else FULL
    }
  }

  // ---------------------------------------------------------------------------
  // Dividing in proportion
  // ---------------------------------------------------------------------------

  /** A percentage of an amount, rounded down. */
  function Part(amount: nat, percent: nat): (part: nat)
    requires percent <= FULL
    ensures part <= amount && (percent == 0 ==> part == 0)
  {
    MulMonotone(percent, FULL, amount);
    amount * percent / FULL
  }

  lemma PartMeans(amount: nat, percent: nat)
    requires percent <= FULL
    ensures
      var part := Part(amount, percent);
      part * FULL <= amount * percent < (part + 1) * FULL
  {
    DivAtLeast(amount * percent, FULL, amount * percent / FULL);
    DivAtLeast(amount * percent, FULL, amount * percent / FULL + 1);
  }

  /** Energy comes back evenly, all of it in the regeneration time, and never rises above all. */
  lemma EnergyReturns(e: Energy, now: nat)
    requires e.last <= now
    ensures
      var gain := e.Current(now) - e.level;
      && (e.Current(now) < FULL ==> gain * REGENERATION <= FULL * (now - e.last) < (gain + 1) * REGENERATION)
      && (e.level <= FULL && e.Current(now) >= FULL ==>
            e.Current(now) == FULL && gain * REGENERATION <= FULL * (now - e.last))
      && (0 <= e.level <= FULL && now - e.last >= REGENERATION ==> e.Current(now) == FULL)
      && (e.level <= FULL ==> e.Current(e.last) == e.level)
  {
    var elapsed := now - e.last;
    var back := FULL * elapsed / REGENERATION;
    DivAtLeast(FULL * elapsed, REGENERATION, back);
    DivAtLeast(FULL * elapsed, REGENERATION, back + 1);
    if elapsed >= REGENERATION {
      DivAtLeast(FULL * elapsed, REGENERATION, FULL);
    }
    if e.level <= FULL <= e.level + back {
      MulMonotone(FULL - e.level, back, REGENERATION);
    }
  }

  function TotalWeight(stakes: seq<Stake>): nat {
    if stakes == [] then 0 else TotalWeight(stakes[..|stakes| - 1]) + stakes[|stakes| - 1].weight
  }

  /** Everyone's part of `t`, by weight out of `whole`, rounded down. */
  function Split(t: nat, stakes: seq<Stake>, whole: nat): (ps: seq<Payment>)
    requires whole > 0 || stakes == []
    ensures |ps| == |stakes|
    ensures forall i :: 0 <= i < |ps| ==> ps[i] == Payment(stakes[i].account, t * stakes[i].weight / whole)
  {
    seq(|stakes|, i requires 0 <= i < |stakes| => Payment(stakes[i].account, t * stakes[i].weight / whole))
  }

  lemma SplitNonNegative(t: nat, stakes: seq<Stake>, whole: nat)
    requires whole > 0 || stakes == []
    ensures NonNegative(Split(t, stakes, whole))
  {
    forall i | 0 <= i < |stakes|
      ensures t * stakes[i].weight / whole >= 0
    {
      DivAtLeast(t * stakes[i].weight, whole, 0);
    }
  }

  /** The parts lose less than one token each to rounding. */
  lemma {:induction false} SplitTotal(t: nat, stakes: seq<Stake>, whole: nat)
    requires whole > 0 || stakes == []
    ensures var parts := Total(Split(t, stakes, whole));
      parts * whole <= t * TotalWeight(stakes) <= parts * whole + |stakes| * whole
    ensures stakes != [] ==>
      t * TotalWeight(stakes) < Total(Split(t, stakes, whole)) * whole + |stakes| * whole
  {
    hide Split, Total, TotalWeight;
    if stakes == [] {
      assert Total(Split(t, stakes, whole)) == 0 && TotalWeight(stakes) == 0 by { SplitNothing(t, whole); }
    } else {
      var n := |stakes| - 1;
      SplitLast(t, stakes, whole);
      SplitTotal(t, stakes[..n], whole);
      SplitStep(t, TotalWeight(stakes[..n]), stakes[n].weight, Total(Split(t, stakes[..n], whole)), whole, n);
    }
  }

  lemma SplitNothing(t: nat, whole: nat)
    ensures Total(Split(t, [], whole)) == 0 && TotalWeight([]) == 0
  {
  }

  lemma SplitLast(t: nat, stakes: seq<Stake>, whole: nat)
    requires whole > 0 && stakes != []
    ensures var n := |stakes| - 1;
      && Total(Split(t, stakes, whole)) == Total(Split(t, stakes[..n], whole)) + t * stakes[n].weight / whole
      && TotalWeight(stakes) == TotalWeight(stakes[..n]) + stakes[n].weight
  {
    var n := |stakes| - 1;
    assert Split(t, stakes, whole)[..n] == Split(t, stakes[..n], whole);
  }

  lemma SplitStep(t: nat, before: nat, w: nat, rest: int, whole: nat, n: nat)
    requires whole > 0 && rest * whole <= t * before <= rest * whole + n * whole
    ensures var parts := rest + t * w / whole;
      parts * whole <= t * (before + w) < parts * whole + (n + 1) * whole
  {
    var part := t * w / whole;
    DivAtLeast(t * w, whole, part);
    DivAtLeast(t * w, whole, part + 1);
    assert (part + 1) * whole == part * whole + whole;
    assert (rest + part) * whole == rest * whole + part * whole;
    assert t * (before + w) == t * before + t * w;
    assert (n + 1) * whole == n * whole + whole;
  }

  /** The parts never add up to more than the whole amount. */
  lemma SplitWithin(t: nat, stakes: seq<Stake>, whole: nat)
    requires (whole > 0 || stakes == []) && TotalWeight(stakes) <= whole
    ensures 0 <= Total(Split(t, stakes, whole)) <= t
  {
    SplitNonNegative(t, stakes, whole);
    TotalNonNegative(Split(t, stakes, whole));
    if whole > 0 {
      SplitTotal(t, stakes, whole);
      var parts := Total(Split(t, stakes, whole));
      MulMonotone(TotalWeight(stakes), whole, t);
      Cancel(parts, t, whole);
    }
  }

  // ---------------------------------------------------------------------------
  // Epoch distribution
  // ---------------------------------------------------------------------------

  /** How many blocks of the epoch ending at `head` a vote was there. */
  function BlocksInEpoch(v: Vote, head: nat, epoch: nat): nat
    requires 0 < epoch <= head && v.created <= head
  {
    var start := head - epoch + 1;
    head - (if v.created > start then v.created else start) + 1
  }

  function Weighted(weight: nat, blocks: nat): (w: nat)
    ensures weight > 0 && blocks > 0 ==> w > 0
  {
    if weight > 0 && blocks > 0 then MulMonotone(1, weight, blocks); weight * blocks else 0
  }

  /** One of the last `epoch` blocks up to `head`, and not before the vote was made. */
  ghost predicate CountsIn(n: nat, v: Vote, head: nat, epoch: nat) {
    head - epoch < n <= head && v.created <= n
  }

  /** A vote counts for the blocks of the epoch from its creation on. */
  lemma EpochBlocks(v: Vote, head: nat, epoch: nat)
    requires 0 < epoch <= head && v.created <= head
    ensures BlocksInEpoch(v, head, epoch) == |set n: nat | n <= head && CountsIn(n, v, head, epoch)|
  {
    var low := if v.created > head - epoch + 1 then v.created else head - epoch + 1;
    RangeSize(low, head);
    assert (set n: nat | n <= head && CountsIn(n, v, head, epoch)) == Range(low, head);
  }

  ghost predicate Between(low: nat, n: nat, high: nat) {
    low <= n <= high
  }

  ghost function Range(low: nat, high: nat): set<nat> {
    set n: nat | n <= high && Between(low, n, high)
  }

  lemma {:induction false} RangeSize(low: nat, high: nat)
    requires low <= high + 1
    ensures |Range(low, high)| == high - low + 1
    decreases high + 1 - low
  {
    if low == high + 1 {
      assert Range(low, high) == {};
    } else {
      RangeSize(low + 1, high);
      assert Range(low, high) == {low} + Range(low + 1, high);
    }
  }

  predicate VotesUpTo(votes: seq<Vote>, head: nat) {
    forall i :: 0 <= i < |votes| ==> votes[i].created <= head
  }

  /** The stakeholders with a positive weight, weighted by time. */
  function Stakes(votes: seq<Vote>, head: nat, epoch: nat): seq<Stake>
    requires 0 < epoch <= head && VotesUpTo(votes, head)
  {
    if votes == [] then []
    else
      var before, v := Stakes(votes[..|votes| - 1], head, epoch), votes[|votes| - 1];
      if v.weight > 0 then before + [Stake(v.account, Weighted(v.weight, BlocksInEpoch(v, head, epoch)))] else before
  }

  /** Every voter with a positive weight has a stake of its weight for each block that counts, and nobody else has. */
  lemma StakesMeans(votes: seq<Vote>, v: Vote, head: nat, epoch: nat)
    requires 0 < epoch <= head && VotesUpTo(votes + [v], head)
    ensures VotesUpTo(votes, head) && v.created <= head && Stakes([], head, epoch) == []
    ensures Stakes(votes + [v], head, epoch) == Stakes(votes, head, epoch) +
      if v.weight > 0 then [Stake(v.account, v.weight * BlocksInEpoch(v, head, epoch))] else []
  {
    assert (votes + [v])[..|votes|] == votes;
    assert (votes + [v])[|votes|] == v;
    assert forall i :: 0 <= i < |votes| ==> votes[i] == (votes + [v])[i];
  }

  lemma {:induction false} StakesPositive(votes: seq<Vote>, head: nat, epoch: nat)
    requires 0 < epoch <= head && VotesUpTo(votes, head)
    ensures forall i :: 0 <= i < |Stakes(votes, head, epoch)| ==> Stakes(votes, head, epoch)[i].weight > 0
    ensures Stakes(votes, head, epoch) != [] ==> TotalWeight(Stakes(votes, head, epoch)) > 0
  {
    if votes != [] {
      StakesPositive(votes[..|votes| - 1], head, epoch);
      var v := votes[|votes| - 1];
      if v.weight > 0 {
        assert BlocksInEpoch(v, head, epoch) > 0;
      }
    }
  }

  predicate StakesKnown(c: Column, stakes: seq<Stake>) {
    forall i :: 0 <= i < |stakes| ==> stakes[i].account in c
  }

  lemma {:induction false} StakesHaveAccounts(c: Column, votes: seq<Vote>, head: nat, epoch: nat)
    requires 0 < epoch <= head && VotesUpTo(votes, head)
    requires forall i :: 0 <= i < |votes| ==> votes[i].account in c
    ensures StakesKnown(c, Stakes(votes, head, epoch))
  {
    if votes != [] {
      StakesHaveAccounts(c, votes[..|votes| - 1], head, epoch);
    }
  }

  /** All payments out of a pool of `t`: everyone's part and the dust for the validator. */
  function Distribution(t: nat, stakes: seq<Stake>, validator: string): seq<Payment>
    requires TotalWeight(stakes) > 0 || stakes == []
  {
    var parts := Split(t, stakes, TotalWeight(stakes));
    parts + [Payment(validator, t - Total(parts))]
  }

  lemma Remainder(t: nat, parts: nat, n: nat, whole: nat)
    requires whole > 0 && parts <= t && t * whole < parts * whole + n * whole
    ensures t - parts < n
  {
    assert (t - parts) * whole == t * whole - parts * whole;
    CancelStrict(t - parts, n, whole);
  }

  /** A pool is given out to the last token, and the dust is less than one token per stakeholder. */
  lemma DistributionExact(t: nat, stakes: seq<Stake>, validator: string)
    requires TotalWeight(stakes) > 0 || stakes == []
    ensures var ps := Distribution(t, stakes, validator);
      Total(ps) == t && NonNegative(ps) && (stakes != [] ==> ps[|stakes|].amount < |stakes|)
  {
    hide Split, Total, TotalWeight;
    var whole := TotalWeight(stakes);
    var parts := Split(t, stakes, whole);
    SplitNonNegative(t, stakes, whole);
    SplitWithin(t, stakes, whole);
    TotalAppend(parts, Payment(validator, t - Total(parts)));
    if stakes != [] {
      DustBound(t, stakes);
    }
  }

  lemma DustBound(t: nat, stakes: seq<Stake>)
    requires TotalWeight(stakes) > 0 && stakes != []
    ensures t - Total(Split(t, stakes, TotalWeight(stakes))) < |stakes|
  {
    hide Split, Total, TotalWeight;
    var whole := TotalWeight(stakes);
    SplitTotal(t, stakes, whole);
    SplitWithin(t, stakes, whole);
    Remainder(t, Total(Split(t, stakes, whole)), |stakes|, whole);
  }

  // ---------------------------------------------------------------------------
  // Beneficiaries
  // ---------------------------------------------------------------------------

  function AsStakes(bens: seq<Beneficiary>): (r: seq<Stake>)
    ensures |r| == |bens| && forall i :: 0 <= i < |r| ==> r[i] == Stake(bens[i].account, bens[i].weight)
  {
    seq(|bens|, i requires 0 <= i < |bens| => Stake(bens[i].account, bens[i].weight))
  }

  /** The weights add up to at most one hundred percent. */
  predicate WeightsValid(bens: seq<Beneficiary>) {
    TotalWeight(AsStakes(bens)) <= FULL
  }

  predicate Exist(c: Column, bens: seq<Beneficiary>) {
    forall i :: 0 <= i < |bens| ==> bens[i].account in c
  }

  function Cuts(t: nat, bens: seq<Beneficiary>): (ps: seq<Payment>)
    ensures |ps| == |bens|
    ensures forall i :: 0 <= i < |ps| ==> ps[i] == Payment(bens[i].account, t * bens[i].weight / FULL)
  {
    Split(t, AsStakes(bens), FULL)
  }

  function AtLeastZero(x: int): (n: nat)
    ensures n >= x && (n > 0 ==> n == x)
  {
    if x > 0 then x else 0
  }

  /** Beneficiaries are paid from `t`; the receiver gets what is left of `base`, if anything. */
  function Shared(t: nat, base: nat, bens: seq<Beneficiary>, receiver: string): seq<Payment> {
    Cuts(t, bens) + [Payment(receiver, AtLeastZero(base - Total(Cuts(t, bens))))]
  }

  lemma SharedTotal(t: nat, base: nat, bens: seq<Beneficiary>, receiver: string)
    requires WeightsValid(bens)
    ensures 0 <= Total(Cuts(t, bens)) <= t
    ensures NonNegative(Shared(t, base, bens, receiver))
    ensures Total(Shared(t, base, bens, receiver)) ==
      if Total(Cuts(t, bens)) <= base then base else Total(Cuts(t, bens))
  {
    SplitWithin(t, AsStakes(bens), FULL);
    SplitNonNegative(t, AsStakes(bens), FULL);
    assert Shared(t, base, bens, receiver)[..|bens|] == Cuts(t, bens);
  }

  // ---------------------------------------------------------------------------
  // Withdrawals
  // ---------------------------------------------------------------------------

  /** The shares to take from an account that holds `shares`. */
  function Due(w: Withdrawal, shares: int): nat
    requires w.rate > 0 && w.planned >= 0
  {
    var wanted := if w.planned - w.done < w.rate then w.planned % w.rate else w.rate;
    AtLeastZero(if shares < wanted then shares else wanted)
  }

  /** A plan withdraws its rate each time and at last what is left of it, so an account that has what is left ends
      with exactly what was planned. */
  lemma PlanEndsExactly(w: Withdrawal, shares: int)
    requires w.rate > 0 && 0 <= w.done < w.planned && w.done % w.rate == 0 && shares >= w.planned - w.done
    ensures
      var amount := Due(w, shares);
      var done := w.done + amount;
      && 0 < amount <= w.rate && done <= w.planned
      && (done == w.planned || (amount == w.rate && done % w.rate == 0))
  {
    var q := w.done / w.rate;
    assert w.done == q * w.rate;
    if w.planned - w.done < w.rate {
      assert w.planned % w.rate == w.planned - w.done by { RemainderIs(w.planned, w.rate, q); }
    } else {
      assert (q + 1) * w.rate == w.done + w.rate;
      RemainderIs(w.done + w.rate, w.rate, q + 1);
    }
  }

  /** The last part of a plan is what is missing exactly when only whole rates were withdrawn before it. */
  lemma LastPartExact(w: Withdrawal, shares: int)
    requires w.rate > 0 && 0 <= w.done < w.planned < w.done + w.rate && shares >= w.rate
    ensures Due(w, shares) == w.planned - w.done <==> w.done % w.rate == 0
  {
    var q := w.done / w.rate;
    assert w.done == q * w.rate + w.done % w.rate;
    if w.done % w.rate == 0 {
      RemainderIs(w.planned, w.rate, q);
    } else if w.planned % w.rate == w.planned - w.done {
      var d := w.planned / w.rate;
      assert w.planned == d * w.rate + w.planned % w.rate;
      MultipleOf(d, w.rate);
    }
  }

  lemma RemainderIs(a: int, b: int, q: int)
    requires b > 0 && q * b <= a < q * b + b
    ensures a % b == a - q * b
  {
    var d := a / b;
    assert a == d * b + a % b;
    if d < q {
      MulAtLeast(d + 1, q, b);
    } else if d > q {
      MulAtLeast(q + 1, d, b);
    }
  }

  lemma MulAtLeast(a: int, b: int, l: int)
    requires a <= b && l > 0
    ensures a * l <= b * l
  {
  }

  function RouteStakes(routes: seq<Route>, autoVest: bool): seq<Stake> {
    if routes == [] then []
    else
      var before, r := RouteStakes(routes[..|routes| - 1], autoVest), routes[|routes| - 1];
      if r.autoVest == autoVest then before + [Stake(r.to, r.percent)] else before
  }

  /** The parts of `amount` that go to the routes of one kind. */
  function Routed(amount: nat, routes: seq<Route>, autoVest: bool): (ps: seq<Payment>)
  {
    Split(amount, RouteStakes(routes, autoVest), FULL)
  }

  function TotalPercent(routes: seq<Route>): nat {
    if routes == [] then 0 else TotalPercent(routes[..|routes| - 1]) + routes[|routes| - 1].percent
  }

  predicate RoutesKnown(c: Column, routes: seq<Route>) {
    forall i :: 0 <= i < |routes| ==> routes[i].to in c
  }

  lemma {:induction false} RouteWeights(routes: seq<Route>)
    ensures TotalWeight(RouteStakes(routes, true)) + TotalWeight(RouteStakes(routes, false)) == TotalPercent(routes)
  {
    if routes != [] {
      RouteWeights(routes[..|routes| - 1]);
    }
  }

  lemma {:induction false} RoutesHaveAccounts(c: Column, routes: seq<Route>, autoVest: bool)
    requires RoutesKnown(c, routes)
    ensures StakesKnown(c, RouteStakes(routes, autoVest))
  {
    if routes != [] {
      RoutesHaveAccounts(c, routes[..|routes| - 1], autoVest);
    }
  }

  /** Both kinds of routes together never take more than the amount withdrawn. */
  lemma RoutedWithin(amount: nat, routes: seq<Route>)
    requires TotalPercent(routes) <= FULL
    ensures NonNegative(Routed(amount, routes, true)) && NonNegative(Routed(amount, routes, false))
    ensures 0 <= Total(Routed(amount, routes, true)) && 0 <= Total(Routed(amount, routes, false))
    ensures Total(Routed(amount, routes, true)) + Total(Routed(amount, routes, false)) <= amount
  {
    hide Total, TotalWeight, RouteStakes, Split;
    var a, b := RouteStakes(routes, true), RouteStakes(routes, false);
    RouteWeights(routes);
    SplitWithin(amount, a, FULL);
    SplitWithin(amount, b, FULL);
    SplitNonNegative(amount, a, FULL);
    SplitNonNegative(amount, b, FULL);
    RoutedTotals(amount, a, b);
  }

  lemma RoutedTotals(amount: nat, a: seq<Stake>, b: seq<Stake>)
    requires TotalWeight(a) + TotalWeight(b) <= FULL
    ensures Total(Split(amount, a, FULL)) + Total(Split(amount, b, FULL)) <= amount
  {
    hide Total, TotalWeight, Split;
    SplitTotal(amount, a, FULL);
    SplitTotal(amount, b, FULL);
    var x, y := Total(Split(amount, a, FULL)), Total(Split(amount, b, FULL));
    TwoParts(amount, TotalWeight(a), TotalWeight(b), x, y, FULL);
  }

  lemma TwoParts(amount: nat, a: nat, b: nat, x: int, y: int, whole: nat)
    requires x * whole <= amount * a && y * whole <= amount * b && a + b <= whole && whole > 0
    ensures x + y <= amount
  {
    assert (x + y) * whole == x * whole + y * whole;
    assert amount * (a + b) == amount * a + amount * b;
    MulMonotone(a + b, whole, amount);
    if x + y > amount {
      MulMonotone(amount + 1, x + y, whole);
    }
  }

  /** The most routes an account may have. */
  const MAX_ROUTES: nat := 10

  /** The first route to an account. */
  function FindRoute(routes: seq<Route>, to: string): (k: Option<nat>)
    ensures k.Some? ==> k.value < |routes| && routes[k.value].to == to
    ensures k.None? ==> forall i :: 0 <= i < |routes| ==> routes[i].to != to
  {
    if routes == [] then None
    else
      match FindRoute(routes[..|routes| - 1], to)
      case Some(i) => Some(i)
      case None => if routes[|routes| - 1].to == to then Some(|routes| - 1) else None
  }

  /** The routes after one was set; a new one takes the place `at`, and no percentage removes. */
  function Rerouted(routes: seq<Route>, r: Route, at: nat): seq<Route>
    requires at <= |routes|
  {
    match FindRoute(routes, r.to)
    case None => routes[..at] + [r] + routes[at..]
    case Some(k) => if r.percent == 0 then routes[..k] + routes[k + 1..] else routes[k := r]
  }

  /** No two routes go to one account. */
  ghost predicate Single(routes: seq<Route>) {
    forall i, j :: 0 <= i < j < |routes| ==> routes[i].to != routes[j].to
  }

  /** Setting a route leaves the routes to other accounts as they are, and the account has the new one, or none
      when the percentage is zero. */
  lemma ReroutedMeans(routes: seq<Route>, r: Route, at: nat)
    requires at <= |routes| && Single(routes) && (r.percent == 0 ==> FindRoute(routes, r.to).Some?)
    ensures Single(Rerouted(routes, r, at))
    ensures forall q :: q in Rerouted(routes, r, at) <==>
      if q.to == r.to then q == r && r.percent > 0 else q in routes
  {
    hide FindRoute;
    match FindRoute(routes, r.to)
    case None => RouteInserted(routes, r, at);
    case Some(k) =>
      if r.percent == 0 {
        RouteRemoved(routes, k);
      } else {
        RouteReplaced(routes, r, k);
      }
  }

  lemma RouteInserted(routes: seq<Route>, r: Route, at: nat)
    requires at <= |routes| && Single(routes) && forall i :: 0 <= i < |routes| ==> routes[i].to != r.to
    ensures var rs := routes[..at] + [r] + routes[at..];
      Single(rs) && forall q :: q in rs <==> if q.to == r.to then q == r else q in routes
  {
    assert routes == routes[..at] + routes[at..];
  }

  lemma RouteRemoved(routes: seq<Route>, k: nat)
    requires k < |routes| && Single(routes)
    ensures var rs := routes[..k] + routes[k + 1..];
      Single(rs) && forall q :: q in rs <==> q.to != routes[k].to && q in routes
  {
    var rs := routes[..k] + routes[k + 1..];
    forall q
      ensures q in rs <==> q.to != routes[k].to && q in routes
    {
      if q in routes && q.to != routes[k].to {
        var i :| 0 <= i < |routes| && routes[i] == q;
        assert rs[if i < k then i else i - 1] == q;
      }
    }
  }

  lemma RouteReplaced(routes: seq<Route>, r: Route, k: nat)
    requires k < |routes| && Single(routes) && routes[k].to == r.to
    ensures var rs := routes[k := r];
      Single(rs) && forall q :: q in rs <==> if q.to == r.to then q == r else q in routes
  {
    var rs := routes[k := r];
    forall q
      ensures q in rs <==> if q.to == r.to then q == r else q in routes
    {
      if q == r {
        assert rs[k] == q;
      } else if q in routes && q.to != r.to {
        var i :| 0 <= i < |routes| && routes[i] == q;
        assert rs[i] == q;
      }
    }
  }

  /** The routes that are walked. The walk starts behind the lowest account id, so a route to the null account
      counts for nothing and is paid nothing. */
  function Walked(routes: seq<Route>): (rs: seq<Route>)
    ensures forall r :: r in rs <==> r in routes && r.to != NULL_ACCOUNT
  {
    if routes == [] then []
    else
      var before, r := Walked(routes[..|routes| - 1]), routes[|routes| - 1];
      if r.to == NULL_ACCOUNT then before else before + [r]
  }

  /** The percentages of the routes that are walked. */
  function Counted(routes: seq<Route>): nat {
    TotalPercent(Walked(routes))
  }

  lemma CountedLast(routes: seq<Route>, r: Route)
    ensures Counted(routes + [r]) == Counted(routes) + (if r.to == NULL_ACCOUNT then 0 else r.percent)
  {
    assert (routes + [r])[..|routes|] == routes;
    if r.to != NULL_ACCOUNT {
      assert (Walked(routes) + [r])[..|Walked(routes)|] == Walked(routes);
    }
  }

  lemma {:induction false} CountedConcat(a: seq<Route>, b: seq<Route>)
    ensures Counted(a + b) == Counted(a) + Counted(b)
  {
    hide Counted;
    if b == [] {
      assert a + b == a && Counted(b) == 0 by { CountedNone(); }
    } else {
      var front, last := b[..|b| - 1], b[|b| - 1];
      assert a + b == a + front + [last] && b == front + [last];
      CountedLast(a + front, last);
      CountedLast(front, last);
      CountedConcat(a, front);
    }
  }

  lemma CountedNone()
    ensures Counted([]) == 0
  {
  }

  /** Setting one route adds at most its own percentage, so the check of the sum cannot overflow. */
  lemma ReroutedPercent(routes: seq<Route>, r: Route, at: nat)
    requires at <= |routes|
    ensures Counted(Rerouted(routes, r, at)) <= Counted(routes) + r.percent
  {
    hide Counted;
    match FindRoute(routes, r.to)
    case None =>
      var a, b := routes[..at], routes[at..];
      CountedMiddle(a, r, b);
      CountedConcat(a, b);
      assert a + b == routes;
    case Some(k) =>
      var a, b := routes[..k], routes[k + 1..];
      CountedMiddle(a, routes[k], b);
      CountedMiddle(a, r, b);
      CountedConcat(a, b);
      assert a + [routes[k]] + b == routes && a + [r] + b == routes[k := r];
  }

  lemma CountedMiddle(a: seq<Route>, r: Route, b: seq<Route>)
    ensures Counted(a + [r] + b) == Counted(a) + (if r.to == NULL_ACCOUNT then 0 else r.percent) + Counted(b)
  {
    hide Counted;
    CountedConcat(a + [r], b);
    CountedLast(a, r);
  }

  /** One more route. */
  lemma RoutedStep(amount: nat, routes: seq<Route>, i: nat, autoVest: bool)
    requires i < |routes|
    ensures Routed(amount, routes[..i + 1], autoVest) ==
      Routed(amount, routes[..i], autoVest) +
      (if routes[i].autoVest == autoVest then [Payment(routes[i].to, amount * routes[i].percent / FULL)] else [])
  {
    assert routes[..i + 1][..i] == routes[..i];
  }

  lemma {:induction false} PercentPrefix(routes: seq<Route>, i: nat)
    requires i <= |routes|
    ensures TotalPercent(routes[..i]) <= TotalPercent(routes)
  {
    if i == |routes| {
      assert routes[..i] == routes;
    } else {
      PercentPrefix(routes[..|routes| - 1], i);
      assert routes[..|routes| - 1][..i] == routes[..i];
    }
  }

  /** The plan of a withdrawal after `amount` was taken and the account has `left` shares. */
  function Continued(w: Withdrawal, amount: nat, left: int): Withdrawal
    requires w.next.Some?
  {
    var done := w.done + amount;
    if done >= w.planned || left == 0 then Withdrawal(0, w.planned, done, None)
    else Withdrawal(w.rate, w.planned, done, Some(w.next.value + INTERVAL))
  }

  /** The plan after one withdrawal for each entry of `holdings`, the shares of the account at the time. */
  function PlanAfter(w: Withdrawal, holdings: seq<int>): (r: Withdrawal)
    requires WithdrawalOk(w)
    ensures WithdrawalOk(r)
  {
    if holdings == [] then w
    else
      var p, shares := PlanAfter(w, holdings[..|holdings| - 1]), holdings[|holdings| - 1];
      if p.next.None? then p else Continued(p, Due(p, shares), shares - Due(p, shares))
  }

  /** An account that has what is left of its plan withdraws its rate once a day until exactly what was planned is
      withdrawn, and then the plan is over. */
  lemma {:induction false} PlanRuns(w: Withdrawal, holdings: seq<int>)
    requires w.rate > 0 && w.planned > 0 && w.done == 0 && w.next.Some?
    requires forall i :: 0 <= i < |holdings| ==> holdings[i] >= w.planned - i * w.rate
    ensures
      var n := |holdings|;
      PlanAfter(w, holdings) ==
        if n * w.rate < w.planned then Withdrawal(w.rate, w.planned, n * w.rate, Some(w.next.value + n * 86400))
        else Withdrawal(0, w.planned, w.planned, None)
  {
    hide Due;
    if holdings != [] {
      var n := |holdings| - 1;
      PlanRuns(w, holdings[..n]);
      assert (n + 1) * w.rate == n * w.rate + w.rate;
      if n * w.rate < w.planned {
        PlanStep(PlanAfter(w, holdings[..n]), n, holdings[n]);
      }
    }
  }

  lemma MultipleOf(n: nat, rate: int)
    requires rate > 0
    ensures 0 <= n * rate && n * rate % rate == 0
  {
    RemainderIs(n * rate, rate, n);
  }

  /** One withdrawal of a plan that has withdrawn its rate `n` times. */
  lemma PlanStep(p: Withdrawal, n: nat, shares: int)
    requires p.rate > 0 && p.planned > 0 && p.next.Some? && p.done == n * p.rate < p.planned
    requires shares >= p.planned - p.done
    ensures
      var amount := Due(p, shares);
      Continued(p, amount, shares - amount) ==
        if (n + 1) * p.rate < p.planned then
          Withdrawal(p.rate, p.planned, (n + 1) * p.rate, Some(p.next.value + 86400))
        else Withdrawal(0, p.planned, p.planned, None)
  {
    hide Due;
    MultipleOf(n, p.rate);
    assert (n + 1) * p.rate == n * p.rate + p.rate;
    PlanEndsExactly(p, shares);
    if Due(p, shares) != p.rate {
      assert p.done + Due(p, shares) == p.planned;
    }
  }

  predicate IsDue(w: Withdrawal, now: nat) {
    w.next.Some? && w.next.value <= now
  }

  // ---------------------------------------------------------------------------
  // Validity of the records
  // ---------------------------------------------------------------------------

  ghost predicate EscrowOk(k: EscrowKey, e: Escrow, c: Column) {
    k.from in c && e.to in c && e.agent in c && e.tokens >= 0 && e.fee >= 0 && (e.Approved() ==> e.fee == 0)
  }

  ghost predicate EscrowsOk(escrows: map<EscrowKey, Escrow>, c: Column) {
    forall k :: k in escrows ==> EscrowOk(k, escrows[k], c)
  }

  ghost predicate RequestsOk(requests: map<nat, Request>, c: Column) {
    forall id :: id in requests ==> requests[id].worker in c && (requests[id].status == 4 ==> requests[id].remain > 0)
  }

  predicate WithdrawalOk(w: Withdrawal) {
    w.next.Some? ==> w.rate > 0 && w.planned >= 0
  }

  ghost predicate WithdrawalsOk(ws: map<string, Withdrawal>) {
    forall x :: x in ws ==> WithdrawalOk(ws[x])
  }

  ghost predicate RoutesOk(routes: map<string, seq<Route>>, c: Column) {
    forall x :: x in routes ==> RoutesKnown(c, routes[x]) && Counted(routes[x]) <= FULL
  }

  ghost predicate RecordsFit(escrows: map<EscrowKey, Escrow>, requests: map<nat, Request>,
                             withdrawals: map<string, Withdrawal>,
                             routes: map<string, seq<Route>>, c: Column)
  {
    EscrowsOk(escrows, c) && RequestsOk(requests, c) && WithdrawalsOk(withdrawals) && RoutesOk(routes, c)
  }

  function Outstanding(expiring: seq<Expiry>): nat {
    if expiring == [] then 0 else Outstanding(expiring[..|expiring| - 1]) + expiring[|expiring| - 1].shares
  }

  /** The shares that have not expired. */
  function Remaining(expiring: seq<Expiry>, now: nat): seq<Expiry> {
    if expiring == [] then []
    else
      var before, e := Remaining(expiring[..|expiring| - 1], now), expiring[|expiring| - 1];
      if e.time <= now then before else before + [e]
  }

  /** Exactly the shares that have not expired remain. */
  lemma {:induction false} RemainingMeans(expiring: seq<Expiry>, now: nat)
    ensures forall e :: multiset(Remaining(expiring, now))[e] == if e.time > now then multiset(expiring)[e] else 0
  {
    if expiring != [] {
      RemainingMeans(expiring[..|expiring| - 1], now);
      assert expiring == expiring[..|expiring| - 1] + [expiring[|expiring| - 1]];
    }
  }

  lemma OutstandingAppend(expiring: seq<Expiry>, e: Expiry)
    ensures Outstanding(expiring + [e]) == Outstanding(expiring) + e.shares
  {
    assert (expiring + [e])[..|expiring|] == expiring;
  }

  lemma RemainingStart(expiring: seq<Expiry>, now: nat)
    ensures Remaining(expiring[..0], now) == [] && Outstanding([]) == 0 && expiring[0..] == expiring
    ensures expiring[|expiring|..] == []
  {
  }

  lemma RemainingStep(expiring: seq<Expiry>, i: nat, now: nat)
    requires i < |expiring|
    ensures var kept, e := Remaining(expiring[..i], now), expiring[i];
      && Remaining(expiring[..i + 1], now) == (if e.time <= now then kept else kept + [e])
      && Outstanding(kept + [e]) == Outstanding(kept) + e.shares
      && Outstanding(expiring[i..]) == e.shares + Outstanding(expiring[i + 1..])
  {
    assert expiring[..i + 1][..i] == expiring[..i];
    OutstandingAppend(Remaining(expiring[..i], now), expiring[i]);
    OutstandingFirst(expiring[i..]);
  }

  lemma {:induction false} OutstandingFirst(expiring: seq<Expiry>)
    requires expiring != []
    ensures Outstanding(expiring) == expiring[0].shares + Outstanding(expiring[1..])
  {
    if |expiring| > 1 {
      OutstandingFirst(expiring[..|expiring| - 1]);
      assert expiring[..|expiring| - 1][1..] == expiring[1..][..|expiring| - 2];
    }
  }

  /** What an escrow holds. */
  ghost function Held(escrows: map<EscrowKey, Escrow>): map<EscrowKey, int> {
    map k | k in escrows :: escrows[k].tokens + escrows[k].fee
  }

  lemma HeldUpdate(escrows: map<EscrowKey, Escrow>, k: EscrowKey, e: Escrow)
    ensures Sum(Held(escrows[k := e])) ==
      Sum(Held(escrows)) + e.tokens + e.fee - (if k in escrows then escrows[k].tokens + escrows[k].fee else 0)
  {
    assert Held(escrows[k := e]) == Held(escrows)[k := e.tokens + e.fee];
    SumUpdate(Held(escrows), k, e.tokens + e.fee);
  }

  lemma HeldRemove(escrows: map<EscrowKey, Escrow>, k: EscrowKey)
    requires k in escrows
    ensures Sum(Held(escrows - {k})) == Sum(Held(escrows)) - escrows[k].tokens - escrows[k].fee
  {
    assert Held(escrows - {k}) == Held(escrows) - {k};
    SumRemove(Held(escrows), k);
  }
}
