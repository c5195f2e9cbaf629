/** What the steps of the token economy do to single columns and records. */
module EconomySteps {
  import opened Config
  import opened Options
  import opened Sums
  import opened Division
  import opened Payments
  import opened Vesting
  import opened Awards
  import opened EconomyRules

  lemma Genesis(none: Column, founder: string, initial: nat, pending: Column, withdrawals: map<string, Withdrawal>,
                routes: map<string, seq<Route>>)
    requires founder in none && (forall x :: x in none ==> none[x] == 0)
    requires forall x :: x in pending ==> pending[x] == 0
    requires forall x :: x in withdrawals ==> withdrawals[x].next == None
    requires forall x :: x in routes ==> routes[x] == []
    ensures Sum(none) == 0 && Sum(pending) == 0 && Sum(Held(map[])) == 0 && Sum(none[founder := initial]) == initial
    ensures AllNonNegative(none) && AllNonNegative(none[founder := initial]) && AllNonNegative(pending)
    ensures Vesting.Sound(Vest(none, 0, 0)) && RecordsFit(map[], map[], withdrawals, routes, none[founder := initial])
  {
    hide Sum;
    SumZero(none);
    SumZero(pending);
    SumZero(Held(map[]));
    SumUpdate(none, founder, initial);
  }

  lemma RecordsRerouted(escrows: map<EscrowKey, Escrow>, requests: map<nat, Request>,
                        withdrawals: map<string, Withdrawal>,
                        routes: map<string, seq<Route>>, c: Column, from: string, r: Route, at: nat)
    requires RecordsFit(escrows, requests, withdrawals, routes, c) && from in routes && r.to in c
    requires at <= |routes[from]|
    requires Counted(Rerouted(routes[from], r, at)) <= FULL
    ensures RecordsFit(escrows, requests, withdrawals, routes[from := Rerouted(routes[from], r, at)], c)
  {
    hide Counted;
    var rs := Rerouted(routes[from], r, at);
    assert RoutesKnown(c, rs);
  }

  /** Some lapsed escrows have been returned to their owners, and nothing else has changed. */
  ghost predicate Returned(c0: Column, es0: map<EscrowKey, Escrow>, c: Column, es: map<EscrowKey, Escrow>, now: nat) {
    && c.Keys == c0.Keys && es.Keys <= es0.Keys
    && (forall k :: k in es ==> es[k] == es0[k])
    && (forall k :: k in es0 && !es0[k].Lapsed(now) ==> k in es)
    && (forall x :: x in c ==> c[x] + Owed(es, x, now) == c0[x] + Owed(es0, x, now))
  }

  lemma ReturnedStart(c: Column, es: map<EscrowKey, Escrow>, now: nat)
    ensures Returned(c, es, c, es, now)
  {
  }

  lemma ReturnedStep(c0: Column, es0: map<EscrowKey, Escrow>, c: Column, es: map<EscrowKey, Escrow>, now: nat,
                     k: EscrowKey)
    requires Returned(c0, es0, c, es, now) && k in es && es[k].Lapsed(now) && k.from in c
    ensures Returned(c0, es0, c[k.from := c[k.from] + es[k].tokens + es[k].fee], es - {k}, now)
  {
    forall x | x in c
      ensures Owed(es, x, now) == Owed(es - {k}, x, now) + (if x == k.from then es[k].tokens + es[k].fee else 0)
    {
      OwedStep(es, x, now, k);
    }
  }

  lemma ReturnedEnd(c0: Column, es0: map<EscrowKey, Escrow>, c: Column, es: map<EscrowKey, Escrow>, now: nat)
    requires Returned(c0, es0, c, es, now) && forall k :: k in es ==> !es[k].Lapsed(now)
    ensures c.Keys == c0.Keys && forall x :: x in c ==> c[x] == c0[x] + Owed(es0, x, now)
    ensures es == map k | k in es0 && !es0[k].Lapsed(now) :: es0[k]
  {
    forall x | x in c
      ensures Owed(es, x, now) == 0
    {
      OwedNothing(es, x, now);
    }
  }

  /** What the lapsed escrows of an account hold. */
  ghost function Lapsing(escrows: map<EscrowKey, Escrow>, x: string, now: nat): map<EscrowKey, int> {
    map k | k in escrows && k.from == x && escrows[k].Lapsed(now) :: escrows[k].tokens + escrows[k].fee
  }

  ghost function Owed(escrows: map<EscrowKey, Escrow>, x: string, now: nat): int {
    Sum(Lapsing(escrows, x, now))
  }

  lemma OwedStep(escrows: map<EscrowKey, Escrow>, x: string, now: nat, k: EscrowKey)
    requires k in escrows && escrows[k].Lapsed(now)
    ensures Owed(escrows, x, now) ==
      Owed(escrows - {k}, x, now) + (if x == k.from then escrows[k].tokens + escrows[k].fee else 0)
  {
    if x == k.from {
      assert Lapsing(escrows - {k}, x, now) == Lapsing(escrows, x, now) - {k};
      SumRemove(Lapsing(escrows, x, now), k);
    } else {
      assert Lapsing(escrows - {k}, x, now) == Lapsing(escrows, x, now);
    }
  }

  lemma OwedNothing(escrows: map<EscrowKey, Escrow>, x: string, now: nat)
    requires forall k :: k in escrows ==> !escrows[k].Lapsed(now)
    ensures Owed(escrows, x, now) == 0
  {
    SumZero(Lapsing(escrows, x, now));
  }

  /** `who` may answer the offer of an escrow. */
  predicate CanRatify(e: Escrow, to: string, agent: string, who: string, now: nat) {
    && e.to == to && e.agent == agent && e.ratification >= now
    && (who == to ==> !e.toApproved) && (who == agent ==> !e.agentApproved)
  }

  function Ratified(e: Escrow, who: string): Escrow {
    e.(toApproved := e.toApproved || who == e.to, agentApproved := e.agentApproved || who == e.agent)
  }

  /** `who` may release `amount` to `receiver`: the agent in a dispute, either party to the other before the
      escrow expires, and either party to either party after. */
  predicate CanRelease(key: EscrowKey, e: Escrow, to: string, agent: string, who: string, receiver: string, amount: nat,
                       now: nat) {
    && e.tokens >= amount && e.to == to && e.agent == agent && e.Approved()
    && (receiver == key.from || receiver == e.to)
    && if e.disputed then who == e.agent
       else
         && (who == key.from || who == e.to)
         && (e.expiration > now ==> if who == key.from then receiver == e.to else receiver == key.from)
  }

  /** Who can answer the offer of an escrow: the receiver and the agent, each once and in time. */
  lemma RatifyMeans(e: Escrow, who: string, now: nat)
    ensures CanRatify(e, e.to, e.agent, who, now) <==>
      now <= e.ratification && !(who == e.to && e.toApproved) && !(who == e.agent && e.agentApproved)
    ensures
      var r := Ratified(e, who);
      && (r.Approved() <==> (e.toApproved || who == e.to) && (e.agentApproved || who == e.agent))
      && r.tokens == e.tokens && r.fee == e.fee && r.to == e.to && r.agent == e.agent && r.disputed == e.disputed
  {
  }

  /** Who can release an escrow, to whom: nobody before both have approved; in a dispute the agent alone; before it
      expires each party to the other, and after that each party to either; and never more than it holds. */
  lemma ReleaseMeans(key: EscrowKey, e: Escrow, who: string, receiver: string, amount: nat, now: nat)
    requires key.from != e.to && e.agent != key.from && e.agent != e.to
    ensures
      var can := CanRelease(key, e, e.to, e.agent, who, receiver, amount, now);
      var party := receiver == key.from || receiver == e.to;
      && (can ==> party && amount <= e.tokens && e.toApproved && e.agentApproved)
      && (e.Approved() && party && amount <= e.tokens ==>
            && (e.disputed ==> (can <==> who == e.agent))
            && (!e.disputed && now < e.expiration ==>
                  (can <==> (who == key.from && receiver == e.to) || (who == e.to && receiver == key.from)))
            && (!e.disputed && now >= e.expiration ==> (can <==> who == key.from || who == e.to)))
  {
  }

  lemma RecordsEscrow(escrows: map<EscrowKey, Escrow>, requests: map<nat, Request>,
                      withdrawals: map<string, Withdrawal>,
                      routes: map<string, seq<Route>>, c: Column, d: Column, key: EscrowKey, e: Escrow)
    requires RecordsFit(escrows, requests, withdrawals, routes, c) && c.Keys == d.Keys && EscrowOk(key, e, c)
    ensures RecordsFit(escrows[key := e], requests, withdrawals, routes, d)
  {
  }

  lemma RecordsClosed(escrows: map<EscrowKey, Escrow>, requests: map<nat, Request>,
                      withdrawals: map<string, Withdrawal>,
                      routes: map<string, seq<Route>>, c: Column, d: Column, key: EscrowKey)
    requires RecordsFit(escrows, requests, withdrawals, routes, c) && c.Keys == d.Keys
    ensures RecordsFit(escrows - {key}, requests, withdrawals, routes, d)
  {
  }

  lemma EscrowOf(escrows: map<EscrowKey, Escrow>, requests: map<nat, Request>, withdrawals: map<string, Withdrawal>,
                 routes: map<string, seq<Route>>, c: Column, key: EscrowKey)
    requires RecordsFit(escrows, requests, withdrawals, routes, c) && key in escrows
    ensures EscrowOk(key, escrows[key], c)
  {
  }

  lemma QuoteFacts(rf: nat, competing: nat, ra: nat, current: int, maxEnergy: nat, effective: nat, minShares: nat)
    requires FixedQuote(rf, competing, ra, current, maxEnergy, effective, minShares).Quote?
    ensures var q := FixedQuote(rf, competing, ra, current, maxEnergy, effective, minShares);
      q.shares > 0 && q.tokens == Award(rf, competing, q.shares) && q.tokens >= ra && q.tokens > 0
  {
  }

  lemma SharedSound(v: Vest, tokens: nat, base: nat, bens: seq<Beneficiary>, receiver: string)
    requires Vesting.Sound(v) && Exist(v.shares, bens) && receiver in v.shares && WeightsValid(bens)
    ensures Payable(v, Shared(tokens, base, bens, receiver))
    ensures Vesting.Sound(VestAll(v, Shared(tokens, base, bens, receiver)))
    ensures VestAll(v, Shared(tokens, base, bens, receiver)).fund ==
      v.fund + base + AtLeastZero(Total(Cuts(tokens, bens)) - base)
    ensures Total(Cuts(tokens, bens)) <= tokens
  {
    hide Total, Cuts;
    SharedKnown(v, tokens, base, bens, receiver);
    SharedTotal(tokens, base, bens, receiver);
    VestAllSound(v, Shared(tokens, base, bens, receiver));
  }

  /** What remains when a positive balance was taken. */
  function Drained(c: Column, x: string): (r: Column)
    requires x in c
    ensures r.Keys == c.Keys && r[x] <= 0 && (c[x] <= 0 ==> r == c)
  {
    c[x := if c[x] > 0 then 0 else c[x]]
  }

  lemma EmptyKeeps(v: Vest, c: Column, x: string)
    requires Vesting.Sound(v) && x in c && x in v.shares
    ensures v.shares[x] >= 0 && v.fund >= 0 && v.total >= 0
    ensures c[x] <= 0 ==> Drained(c, x) == c
    ensures Sum(Drained(c, x)) == Sum(c) - AtLeastZero(c[x]) && (AllNonNegative(c) ==> AllNonNegative(Drained(c, x)))
    ensures var s := v.shares[x];
      var t := Converted(v.fund, v.total, s);
      var after := Vest(v.shares[x := 0], v.fund - t, v.total - s);
      Vesting.Sound(after) && (s == 0 ==> after == v && t == 0)
  {
    hide Sum, Converted;
    SumUpdate(c, x, Drained(c, x)[x]);
    SumUpdate(v.shares, x, 0);
    SharesWithin(v.shares, x);
    ConvertedBound(v.fund, v.total, v.shares[x]);
    ConvertedNothing(v.fund, v.total);
    if v.shares[x] == 0 {
      assert v.shares[x := 0] == v.shares;
    }
  }

  lemma NothingPaid(v: Vest, ps: seq<Payment>)
    requires Backed(v.fund, v.total)
    ensures ps[..0] == [] && Payable(v, []) && VestAll(v, []) == v && Total([]) == 0
  {
  }

  lemma ZeroEntry(c: Column, x: string)
    requires AllNonNegative(c) && x in c
    ensures c[x] >= 0 && AllNonNegative(c[x := 0]) && Sum(c[x := 0]) == Sum(c) - c[x] && (c[x] == 0 ==> c[x := 0] == c)
  {
    SumUpdate(c, x, 0);
  }

  lemma SharedKnown(v: Vest, tokens: nat, base: nat, bens: seq<Beneficiary>, receiver: string)
    requires Backed(v.fund, v.total) && Exist(v.shares, bens) && receiver in v.shares && WeightsValid(bens)
    ensures Payable(v, Shared(tokens, base, bens, receiver))
  {
    SharedTotal(tokens, base, bens, receiver);
  }

  function PaidUpTo(requests: map<nat, Request>, order: seq<nat>, i: nat, most: int): map<nat, Request>
    requires i <= |order|
  {
    map id | id in requests :: if id in order[..i] then PaidRequest(requests[id], most) else requests[id]
  }

  lemma PaidEnds(requests: map<nat, Request>, order: seq<nat>, most: int)
    requires Approved(requests, order)
    ensures PaidUpTo(requests, order, 0, most) == requests
    ensures PaidUpTo(requests, order, |order|, most) == AllPaid(requests, most)
  {
    assert order[..|order|] == order;
  }

  lemma PaidStep(requests: map<nat, Request>, order: seq<nat>, i: nat, most: int)
    requires Approved(requests, order) && i < |order|
    ensures
      var paid, id := PaidUpTo(requests, order, i, most), order[i];
      && id in paid && paid[id] == requests[id]
      && PaidUpTo(requests, order, i + 1, most) == paid[id := PaidRequest(requests[id], most)]
  {
    assert order[..i + 1] == order[..i] + [order[i]];
  }

  /** `order` lists each request with status 4 once. */
  predicate Approved(requests: map<nat, Request>, order: seq<nat>) {
    && (forall i :: 0 <= i < |order| ==> order[i] in requests && requests[order[i]].status == 4)
    && (forall id :: id in requests && requests[id].status == 4 ==> id in order)
    && (forall i, j :: 0 <= i < j < |order| ==> order[i] != order[j])
  }

  function RequestPayment(q: Request, most: int): Payment {
    Payment(q.worker, if most < q.remain then most else q.remain)
  }

  function PaidRequest(q: Request, most: int): Request {
    var amount := RequestPayment(q, most).amount;
    Request(q.worker, if q.remain <= amount then 5 else q.status, q.paid + amount, q.remain - amount)
  }

  /** A request gets what is left for it, but at most its part, and is paid in full exactly when nothing is left. */
  lemma PaidMeans(q: Request, most: nat)
    requires q.status == 4 && q.remain > 0
    ensures
      var p := PaidRequest(q, most);
      && p.paid - q.paid == (if q.remain <= most then q.remain else most) && p.paid + p.remain == q.paid + q.remain
      && p.worker == q.worker && (p.status == 5 <==> p.remain == 0) && (p.status != 5 ==> p.status == 4)
  {
  }

  function AllPaid(requests: map<nat, Request>, most: int): map<nat, Request> {
    map id | id in requests :: if requests[id].status == 4 then PaidRequest(requests[id], most) else requests[id]
  }

  function RequestPayments(requests: map<nat, Request>, order: seq<nat>, most: int): (ps: seq<Payment>)
    requires forall i :: 0 <= i < |order| ==> order[i] in requests
  {
    seq(|order|, i requires 0 <= i < |order| => RequestPayment(requests[order[i]], most))
  }

  lemma NoPayments(c: Column, ps: seq<Payment>)
    ensures ps[..0] == [] && Known(c, []) && Pay(c, []) == c && Total([]) == 0
  {
  }

  lemma PaymentsKnown(c: Column, requests: map<nat, Request>, order: seq<nat>, most: int)
    requires Approved(requests, order) && RequestsOk(requests, c)
    ensures Known(c, RequestPayments(requests, order, most)) && |RequestPayments(requests, order, most)| == |order|
    ensures most >= 0 ==> NonNegative(RequestPayments(requests, order, most))
    ensures forall i :: 0 <= i < |order| ==> RequestPayments(requests, order, most)[i].amount <= most
  {
  }

  lemma PaymentStep(c: Column, requests: map<nat, Request>, order: seq<nat>, most: int, i: nat)
    requires Approved(requests, order) && RequestsOk(requests, c) && i < |order|
    ensures
      var ps, p := RequestPayments(requests, order, most), RequestPayment(requests[order[i]], most);
      && |ps| == |order| && Known(c, ps[..i]) && Known(c, ps[..i + 1]) && p.to in c
      && Pay(c, ps[..i + 1]) == Pay(c, ps[..i])[p.to := Pay(c, ps[..i])[p.to] + p.amount]
      && Total(ps[..i + 1]) == Total(ps[..i]) + p.amount
  {
    hide Pay, Total;
    var ps := RequestPayments(requests, order, most);
    PaymentsKnown(c, requests, order, most);
    assert ps[..i + 1] == ps[..i] + [ps[i]];
    PayLast(c, ps[..i], ps[i]);
    TotalAppend(ps[..i], ps[i]);
  }

  lemma RequestsFit(escrows: map<EscrowKey, Escrow>, requests: map<nat, Request>, withdrawals: map<string, Withdrawal>,
                    routes: map<string, seq<Route>>, c: Column, order: seq<nat>, most: nat)
    requires RecordsFit(escrows, requests, withdrawals, routes, c) && Approved(requests, order)
    ensures
      var ps := RequestPayments(requests, order, most);
      && RequestsOk(requests, c) && |ps| == |order| && Known(c, ps) && NonNegative(ps)
      && (forall i :: 0 <= i < |ps| ==> ps[i].amount <= most)
      && RecordsFit(escrows, AllPaid(requests, most), withdrawals, routes, Pay(c, ps))
  {
    hide Pay, RequestPayments;
    PaymentsKnown(c, requests, order, most);
    RecordsPaid(escrows, requests, withdrawals, routes, c, Pay(c, RequestPayments(requests, order, most)), most);
  }

  lemma RecordsPaid(escrows: map<EscrowKey, Escrow>, requests: map<nat, Request>, withdrawals: map<string, Withdrawal>,
                    routes: map<string, seq<Route>>, c: Column, d: Column, most: nat)
    requires RecordsFit(escrows, requests, withdrawals, routes, c) && c.Keys == d.Keys
    ensures RecordsFit(escrows, AllPaid(requests, most), withdrawals, routes, d)
  {
  }

  lemma {:induction false} TotalAtMost(ps: seq<Payment>, most: nat)
    requires forall i :: 0 <= i < |ps| ==> ps[i].amount <= most
    ensures Total(ps) <= |ps| * most
  {
    if ps != [] {
      TotalAtMost(ps[..|ps| - 1], most);
      assert |ps| * most == (|ps| - 1) * most + most;
    }
  }

  /** Payments of at most one part each leave one part in the fund. */
  lemma PaymentsFit(fund: nat, ps: seq<Payment>, most: nat)
    requires most == fund / (|ps| + 1) && forall i :: 0 <= i < |ps| ==> ps[i].amount <= most
    ensures fund - Total(ps) >= most
  {
    hide Total;
    TotalAtMost(ps, most);
    DivAtLeast(fund, |ps| + 1, most);
    assert most * (|ps| + 1) == |ps| * most + most;
  }

  lemma PayNonNegative(c: Column, ps: seq<Payment>)
    requires Known(c, ps) && NonNegative(ps) && AllNonNegative(c)
    ensures AllNonNegative(Pay(c, ps))
  {
    forall x | x in c
      ensures Pay(c, ps)[x] >= 0
    {
      PayGrows(c, ps, x);
    }
  }

  lemma RestIs(amount: nat, rs: seq<Route>)
    ensures Rest(amount, rs) == amount - Total(Routed(amount, rs, true)) - Total(Routed(amount, rs, false))
  {
  }

  lemma RecordsOf(escrows: map<EscrowKey, Escrow>, requests: map<nat, Request>, withdrawals: map<string, Withdrawal>,
                  routes: map<string, seq<Route>>, c: Column, x: string)
    requires RecordsFit(escrows, requests, withdrawals, routes, c) && x in routes && x in withdrawals
    ensures RoutesKnown(c, Walked(routes[x])) && Counted(routes[x]) <= FULL && WithdrawalOk(withdrawals[x])
  {
  }

  /** Records stay in order when the accounts stay the same and one withdrawal moves on. */
  lemma RecordsContinued(escrows: map<EscrowKey, Escrow>, requests: map<nat, Request>,
                         withdrawals: map<string, Withdrawal>,
                         routes: map<string, seq<Route>>, c: Column, d: Column, x: string, w: Withdrawal)
    requires RecordsFit(escrows, requests, withdrawals, routes, c) && c.Keys == d.Keys && WithdrawalOk(w)
    ensures RecordsFit(escrows, requests, withdrawals[x := w], routes, d)
    ensures RecordsFit(escrows, requests, withdrawals, routes, d)
  {
  }

  lemma RecordsKept(escrows: map<EscrowKey, Escrow>, requests: map<nat, Request>, withdrawals: map<string, Withdrawal>,
                    routes: map<string, seq<Route>>, c: Column, d: Column)
    requires RecordsFit(escrows, requests, withdrawals, routes, c) && c.Keys <= d.Keys
    ensures RecordsFit(escrows, requests, withdrawals, routes, d)
  {
  }

  /** A fee is taken from a balance, if it is due. */
  function Charged(c: Column, x: string, fee: nat, isDue: bool): (r: Column)
    requires x in c
    ensures r.Keys == c.Keys
  {
    if isDue then Added(c, x, 0 - fee) else c
  }

  /** Vesting with a new account. */
  function Opened(v: Vest, x: string): (r: Vest)
    ensures r.shares.Keys == v.shares.Keys + {x}
  {
    v.(shares := v.shares[x := 0])
  }

  lemma OpenedSound(v: Vest, x: string)
    requires Vesting.Sound(v) && x !in v.shares
    ensures Vesting.Sound(Opened(v, x))
  {
    hide Sum;
    SumUpdate(v.shares, x, 0);
  }

  lemma RecordsOpened(escrows: map<EscrowKey, Escrow>, requests: map<nat, Request>,
                      withdrawals: map<string, Withdrawal>,
                      routes: map<string, seq<Route>>, c: Column, x: string)
    requires RecordsFit(escrows, requests, withdrawals, routes, c)
    ensures RecordsFit(escrows, requests, withdrawals[x := Withdrawal(0, 0, 0, None)], routes[x := []], c[x := 0])
  {
  }

  lemma DueWithin(w: Withdrawal, v: Vest, x: string)
    requires w.rate > 0 && w.planned >= 0 && Vesting.Sound(v) && x in v.shares
    ensures Due(w, v.shares[x]) <= v.shares[x]
  {
  }

  lemma ContinuedOk(w: Withdrawal, amount: nat, left: int)
    requires WithdrawalOk(w) && w.next.Some?
    ensures WithdrawalOk(Continued(w, amount, left))
  {
  }

  lemma ContinuedNext(w: Withdrawal, amount: nat, left: int)
    requires w.next.Some?
    ensures var next := Continued(w, amount, left).next; next.None? || next.value == w.next.value + 86400
  {
  }

  lemma SharesWithin(c: Column, x: string)
    requires AllNonNegative(c) && x in c
    ensures c[x] <= Sum(c)
  {
    SumRemove(c, x);
    SumNonNegative(c - {x});
  }

  /** Parting with shares keeps the vesting fund sound and moves tokens only from the fund to balances. */
  lemma PartingKeeps(v: Vest, c: Column, from: string, amount: nat, rs: seq<Route>)
    requires Vesting.Sound(v) && c.Keys == v.shares.Keys && from in c && amount <= v.shares[from]
    requires RoutesKnown(c, rs) && TotalPercent(rs) <= FULL
    ensures CanPart(v, c, from, amount, rs)
    ensures var r := Parting(v, c, from, amount, rs);
      && Vesting.Sound(r.0) && (AllNonNegative(c) ==> AllNonNegative(r.1)) && r.1.Keys == c.Keys == r.0.shares.Keys
      && r.0.fund + Sum(r.1) == v.fund + Sum(c)
  {
    hide Sum, Pay, RedeemAll, Total, Routed, TotalPercent, Rest, Redeemable;
    SharesWithin(v.shares, from);
    PartingRedeemable(v, c, from, amount, rs);
    var gone, out := Routed(amount, rs, true), Routed(amount, rs, false);
    var shares := Pay(v.shares, gone);
    RoutedWithin(amount, rs);
    PaySum(v.shares, gone);
    forall x | x in c
      ensures shares[x] >= v.shares[x]
    {
      PayGrows(v.shares, gone, x);
    }
    SumUpdate(shares, from, shares[from] - amount);
    var desk, ps := Desk(c, v.fund, v.total), out + [Payment(from, Rest(amount, rs))];
    RedeemAllConserves(desk, ps);
    RestIs(amount, rs);
    TotalAppend(out, Payment(from, Rest(amount, rs)));
    RedeemGrows(desk, ps);
  }

  /** Who gains and loses by a withdrawal: the routes that stay shares bring their payees shares, the account loses
      what it withdraws, and tokens go only to the account itself and to the payees of the other routes. */
  lemma PartingMeans(v: Vest, c: Column, from: string, amount: nat, rs: seq<Route>, x: string)
    requires CanPart(v, c, from, amount, rs) && x in c && x in v.shares
    ensures
      var r := Parting(v, c, from, amount, rs);
      && r.0.shares[x] == v.shares[x] + PaidTo(Routed(amount, rs, true), x) - (if x == from then amount else 0)
      && (x != from && (forall p :: p in Routed(amount, rs, false) ==> p.to != x) ==> r.1[x] == c[x])
  {
    hide Total, Routed, Pay, RedeemAll, Rest, Redeemable;
    PartingRedeemable(v, c, from, amount, rs);
    PayEach(v.shares, Routed(amount, rs, true), x);
    var ps := Routed(amount, rs, false) + [Payment(from, Rest(amount, rs))];
    if x != from && (forall p :: p in Routed(amount, rs, false) ==> p.to != x) {
      RedeemAllOthers(Desk(c, v.fund, v.total), ps, x);
    }
  }

  lemma {:induction false} RedeemGrows(d: Desk, ps: seq<Payment>)
    requires Redeemable(d, ps)
    ensures AllNonNegative(d.balances) ==> AllNonNegative(RedeemAll(d, ps).balances)
  {
    if ps != [] {
      TotalPrefix(ps, |ps| - 1);
      RedeemGrows(d, ps[..|ps| - 1]);
    }
  }

  /** What remains of an amount after all routes. */
  function Rest(amount: nat, rs: seq<Route>): (rest: int)
    ensures TotalPercent(rs) <= FULL ==> rest >= 0
  {
    if TotalPercent(rs) <= FULL then
      RoutedWithin(amount, rs);
      amount - Total(Routed(amount, rs, true)) - Total(Routed(amount, rs, false))
    else
      amount - Total(Routed(amount, rs, true)) - Total(Routed(amount, rs, false))
  }

  predicate CanPart(v: Vest, c: Column, from: string, amount: nat, rs: seq<Route>) {
    && from in c && from in v.shares && RoutesKnown(c, rs) && RoutesKnown(v.shares, rs)
    && TotalPercent(rs) <= FULL
    && Backed(v.fund, v.total) && amount <= v.total
  }

  lemma PartingRedeemable(v: Vest, c: Column, from: string, amount: nat, rs: seq<Route>)
    requires CanPart(v, c, from, amount, rs)
    ensures Known(v.shares, Routed(amount, rs, true))
    ensures Redeemable(Desk(c, v.fund, v.total), Routed(amount, rs, false) + [Payment(from, Rest(amount, rs))])
    ensures Redeemable(Desk(c, v.fund, v.total), Routed(amount, rs, false))
  {
    hide Total, Routed, TotalPercent;
    RoutedKnown(v.shares, amount, rs, true);
    RoutedKnown(c, amount, rs, false);
    assert rs[..|rs|] == rs;
    RoutedWithin(amount, rs);
    TotalAppend(Routed(amount, rs, false), Payment(from, Rest(amount, rs)));
  }

  /** Vesting and balances after `amount` shares left an account by its routes; the rest is turned
      into tokens for the account itself. */
  function Parting(v: Vest, c: Column, from: string, amount: nat, rs: seq<Route>): (r: (Vest, Column))
    requires CanPart(v, c, from, amount, rs)
  {
    PartingRedeemable(v, c, from, amount, rs);
    var shares := Pay(v.shares, Routed(amount, rs, true));
    var desk := RedeemAll(Desk(c, v.fund, v.total), Routed(amount, rs, false) + [Payment(from, Rest(amount, rs))]);
    (Vest(shares[from := shares[from] - amount], desk.fund, desk.total), desk.balances)
  }

  /** What a withdrawal changes. */
  datatype Tables = Tables(vest: Vest, balances: Column, plans: map<string, Withdrawal>)

  /** The tables after one account's withdrawal, if it is due. */
  function Withdrawn(t: Tables, routes: map<string, seq<Route>>, from: string, now: nat): Tables {
    if from in t.plans && from in t.vest.shares && from in routes
       && IsDue(t.plans[from], now) && WithdrawalOk(t.plans[from])
    then
      var w, rs := t.plans[from], Walked(routes[from]);
      var amount := Due(w, t.vest.shares[from]);
      if CanPart(t.vest, t.balances, from, amount, rs) then
        var left := Parting(t.vest, t.balances, from, amount, rs);
        Tables(left.0, left.1, t.plans[from := Continued(w, amount, left.0.shares[from])])
      else t
    else t
  }

  /** The tables after the withdrawals of all listed accounts, one after the other. */
  function WithdrawnAll(t: Tables, routes: map<string, seq<Route>>, order: seq<string>, now: nat): Tables {
    if order == [] then t
    else Withdrawn(WithdrawnAll(t, routes, order[..|order| - 1], now), routes, order[|order| - 1], now)
  }

  lemma NotWithdrawn(t: Tables, routes: map<string, seq<Route>>, from: string, now: nat)
    requires from in t.plans && !IsDue(t.plans[from], now)
    ensures Withdrawn(t, routes, from, now) == t
  {
  }

  lemma WithdrawnIs(t: Tables, routes: map<string, seq<Route>>, from: string, now: nat, amount: nat, rs: seq<Route>)
    requires from in t.plans && from in t.vest.shares && from in routes && rs == Walked(routes[from])
    requires IsDue(t.plans[from], now) && WithdrawalOk(t.plans[from])
    requires amount == Due(t.plans[from], t.vest.shares[from])
    requires CanPart(t.vest, t.balances, from, amount, rs)
    ensures
      var left := Parting(t.vest, t.balances, from, amount, rs);
      && from in left.0.shares
      && Withdrawn(t, routes, from, now) ==
         Tables(left.0, left.1, t.plans[from := Continued(t.plans[from], amount, left.0.shares[from])])
  {
    hide Due, Walked, CanPart, Continued;
  }

  lemma NoRoutes(c: Column, amount: nat, rs: seq<Route>, autoVest: bool)
    ensures Routed(amount, rs[..0], autoVest) == [] && Total([]) == 0 && Known(c, []) && Pay(c, []) == c
  {
  }

  lemma RedeemNone(d: Desk)
    requires Redeemable(d, [])
    ensures RedeemAll(d, []) == d
  {
  }

  /** One more route in the first pass. */
  lemma RoutedPay(c: Column, amount: nat, rs: seq<Route>, i: nat)
    requires i < |rs| && RoutesKnown(c, rs)
    ensures
      var before, after, r := Routed(amount, rs[..i], true), Routed(amount, rs[..i + 1], true), rs[i];
      var part := amount * r.percent / FULL;
      && Known(c, before) && Known(c, after) && part >= 0
      && Total(after) == Total(before) + (if r.autoVest then part else 0)
      && Pay(c, after) == if r.autoVest then Pay(c, before)[r.to := Pay(c, before)[r.to] + part] else Pay(c, before)
  {
    hide Routed, Pay, Total;
    RoutedKnown(c, amount, rs, true);
    RoutedStep(amount, rs, i, true);
    var before, p := Routed(amount, rs[..i], true), Payment(rs[i].to, amount * rs[i].percent / FULL);
    if rs[i].autoVest {
      PayLast(c, before, p);
      TotalAppend(before, p);
    } else {
      assert before + [] == before;
    }
    DivAtLeast(amount * rs[i].percent, FULL, 0);
  }

  /** One more route in the second pass. */
  lemma RoutedRedeem(d: Desk, amount: nat, rs: seq<Route>, i: nat)
    requires i < |rs| && Redeemable(d, Routed(amount, rs, false)) && RoutesKnown(d.balances, rs)
    ensures
      var before, after, r := Routed(amount, rs[..i], false), Routed(amount, rs[..i + 1], false), rs[i];
      var part := amount * r.percent / FULL;
      && Redeemable(d, before) && Redeemable(d, after) && part >= 0
      && Total(after) == Total(before) + (if r.autoVest then 0 else part)
      && RedeemAll(d, after) == if r.autoVest then RedeemAll(d, before)
                                else Redeemed(RedeemAll(d, before), Payment(r.to, part))
  {
    hide Routed, RedeemAll, Total, Converted;
    RoutedRedeemable(d, amount, rs);
    RoutedStep(amount, rs, i, false);
    DivAtLeast(amount * rs[i].percent, FULL, 0);
    var before, p := Routed(amount, rs[..i], false), Payment(rs[i].to, amount * rs[i].percent / FULL);
    if rs[i].autoVest {
      assert before + [] == before;
    } else {
      RedeemLast(d, before, p);
    }
  }

  lemma ConvertedNothing(fund: nat, total: nat)
    ensures Converted(fund, total, 0) == 0
  {
  }

  lemma RoutedKnown(c: Column, amount: nat, rs: seq<Route>, autoVest: bool)
    requires RoutesKnown(c, rs)
    ensures forall k :: 0 <= k <= |rs| ==> Known(c, Routed(amount, rs[..k], autoVest))
  {
    forall k | 0 <= k <= |rs|
      ensures Known(c, Routed(amount, rs[..k], autoVest))
    {
      RoutesHaveAccounts(c, rs[..k], autoVest);
    }
  }

  /** The routes so far never redeem more than all routes do. */
  lemma RoutedRedeemable(d: Desk, amount: nat, rs: seq<Route>)
    requires Redeemable(d, Routed(amount, rs, false)) && RoutesKnown(d.balances, rs)
    ensures forall k :: 0 <= k <= |rs| ==> Redeemable(d, Routed(amount, rs[..k], false))
  {
    hide Routed, Total;
    RoutedKnown(d.balances, amount, rs, false);
    forall k | 0 <= k <= |rs|
      ensures Redeemable(d, Routed(amount, rs[..k], false))
    {
      RoutedPrefix(amount, rs, k);
      var all := Routed(amount, rs, false);
      TotalPrefix(all, |Routed(amount, rs[..k], false)|);
    }
  }

  lemma {:induction false} RoutedPrefix(amount: nat, rs: seq<Route>, k: nat)
    requires k <= |rs|
    ensures var part, all := Routed(amount, rs[..k], false), Routed(amount, rs, false);
      |part| <= |all| && part == all[..|part|]
    decreases |rs| - k
  {
    hide Routed;
    if k == |rs| {
      assert rs[..k] == rs;
    } else {
      RoutedStep(amount, rs, k, false);
      RoutedPrefix(amount, rs, k + 1);
    }
  }

  lemma PayLast(c: Column, ps: seq<Payment>, p: Payment)
    requires Known(c, ps + [p])
    ensures Known(c, ps) && p.to in c && Pay(c, ps + [p]) == Pay(c, ps)[p.to := Pay(c, ps)[p.to] + p.amount]
  {
    assert forall i :: 0 <= i < |ps| ==> (ps + [p])[i] == ps[i];
    assert (ps + [p])[|ps|] == p && (ps + [p])[..|ps|] == ps;
  }

  lemma RedeemLast(d: Desk, ps: seq<Payment>, p: Payment)
    requires Redeemable(d, ps + [p])
    ensures Redeemable(d, ps) && Total(ps + [p]) == Total(ps) + p.amount
    ensures RedeemAll(d, ps + [p]) == Redeemed(RedeemAll(d, ps), p)
  {
    TotalAppend(ps, p);
    assert forall i :: 0 <= i < |ps| ==> (ps + [p])[i] == ps[i];
    assert (ps + [p])[|ps|] == p && (ps + [p])[..|ps|] == ps;
  }

  lemma EpochFits(head: nat, epoch: nat)
    requires head > 0 && epoch > 0 && head % epoch == 0
    ensures epoch <= head
  {
  }

  lemma PoolPayable(v: Vest, tokens: nat, stakes: seq<Stake>, validator: string)
    requires Vesting.Sound(v) && (TotalWeight(stakes) > 0 || stakes == [])
    requires StakesKnown(v.shares, stakes) && validator in v.shares
    ensures Payable(v, Distribution(tokens, stakes, validator))
  {
    hide TotalWeight, Total;
    DistributionExact(tokens, stakes, validator);
  }

  lemma LastPayment(v: Vest, ps: seq<Payment>, p: Payment)
    requires Payable(v, ps + [p])
    ensures Payable(v, ps) && VestAll(v, ps + [p]) == Vested(VestAll(v, ps), p)
  {
    assert forall i :: 0 <= i < |ps| ==> (ps + [p])[i] == ps[i];
    assert (ps + [p])[|ps|] == p && (ps + [p])[..|ps|] == ps;
  }

  /** A fixed award whose beneficiaries take all of the payout: 99 tokens are given out of a fund that paid 99,
      while 4 of them also go to the committee fund. */
  lemma AwardMints()
    ensures FixedQuote(1000, 100, 95, 10000, 10000, 10000, 0) == Quote(11, 11, 99)
    ensures var bens := [Beneficiary("b", FULL)];
      WeightsValid(bens) && Total(Cuts(99, bens)) == 99 && Total(Cuts(99, bens)) > 95
  {
    var bens := [Beneficiary("b", FULL)];
    var stakes := AsStakes(bens);
    assert stakes[..0] == [] && TotalWeight([]) == 0;
    var cuts := Cuts(99, bens);
    assert cuts[..0] == [] && cuts[0] == Payment("b", 99);
    assert Total(cuts) == Total([]) + 99;
    assert Bought(10000, 10000) == 10000 && Award(1000, 100, 10000) == 990;
    assert SharesFor(1000, 100, 95) == 10 && Needed(10, 10000, 10000) == 11 && Bought(10000, 11) == 11;
    assert Award(1000, 100, 11) == 99;
  }
}
