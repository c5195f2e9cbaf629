/** Runs of the token economy. */
module EconomyRun {
  import opened Config
  import opened Sums
  import opened Payments
  import opened Vesting
  import opened Awards
  import opened Auction
  import opened EconomyRules
  import opened EconomySteps
  import opened Economy

  datatype Step =
    | Issue(validator: string, percent: nat, ratio: nat, sharing: nat, hf13: bool)
    | Distribute(validator: string, votes: seq<Vote>, head: nat, epoch: nat)
    | PlanWithdrawal(account: string, shares: int, available: int, intervals: nat, now: nat)
    | Withdraw(account: string, now: nat)
    | SetRoute(account: string, route: Route, at: nat)
    | PayCommittee(order: seq<nat>)
    | Burn(account: string)
    | ClaimForCommittee(account: string)
    | Award(initiator: string, receiver: string, used: nat, effective: nat, minShares: nat, bens: seq<Beneficiary>,
            now: nat)
    | FixedAward(initiator: string, receiver: string, ra: nat, maxEnergy: nat, effective: nat, minShares: nat,
                 bens: seq<Beneficiary>, now: nat)
    | ExpireAwards(now: nat)
    | EscrowTransfer(key: EscrowKey, to: string, agent: string, tokens: nat, fee: nat, ratification: nat,
                     expiration: nat, now: nat)
    | EscrowApprove(key: EscrowKey, to: string, agent: string, who: string, approve: bool, now: nat)
    | EscrowDispute(key: EscrowKey, to: string, agent: string, now: nat)
    | EscrowRelease(key: EscrowKey, to: string, agent: string, who: string, receiver: string, amount: nat, now: nat)
    | ExpireEscrows(now: nat)
    | Transfer(from: string, to: string, amount: nat)
    | TransferToVesting(from: string, to: string, amount: nat)
    | CreateAccount(creator: string, account: string, fee: nat, entitled: bool, now: nat)
    | SetPrice(account: string, seller: string, price: int, onSale: bool, fee: nat, now: nat)
    | SetTarget(account: string, seller: string, target: string, price: int, onSale: bool, fee: nat, now: nat)
    | SetNamePrice(account: string, seller: string, price: int, onSale: bool, fee: nat)
    | Buy(account: string, buyer: string, offer: int, toShares: nat, creationFee: nat, blankKey: bool, recovery: bool,
          wellNamed: bool, now: nat, clock: nat)
    | EndAuctions(now: nat, recoveries: set<string>)

  /** What the caller of a step guarantees; a step that is not ready is not taken. */
  predicate Ready(b: Books, s: Step)
    reads b
  {
    match s
    case Issue(v, percent, ratio, sharing, _) => v in b.pending && percent <= FULL && ratio <= FULL && sharing <= FULL
    case Distribute(v, votes, head, epoch) =>
      && v in b.pending && 0 < epoch <= head && VotesUpTo(votes, head)
      && forall i :: 0 <= i < |votes| ==> votes[i].account in b.balances
    case PlanWithdrawal(_, _, _, intervals, _) => intervals > 0
    case Withdraw(x, _) => x in b.balances
    case SetRoute(x, r, at) => r.percent <= FULL && (x in b.routes ==> at <= |b.routes[x]|)
    case PayCommittee(order) => Approved(b.requests, order)
    case Burn(x) => x in b.balances
    case ClaimForCommittee(x) => x in b.balances
    case Award(x, _, _, _, _, bens, now) => WeightsValid(bens) && (x in b.energies ==> b.energies[x].last <= now)
    case FixedAward(x, _, _, _, _, _, bens, now) =>
      WeightsValid(bens) && (x in b.energies ==> b.energies[x].last <= now)
    case EscrowApprove(_, to, agent, who, _, _) => who == to || who == agent
    case CreateAccount(_, x, _, _, _) => x != NOBODY
    case SetPrice(_, _, price, _, _, _) => price > 0
    case SetTarget(_, _, _, price, _, _, _) => price > 0
    case SetNamePrice(_, _, price, _, _) => price > 0
    case Buy(x, _, offer, _, _, _, _, _, _, _) => x != NOBODY && offer > 0
    case _ => true
  }

  /** What the excess of an award and the cover of a bid are read from. */
  datatype Ledger = Ledger(balances: Column, sales: Sales, fund: int, competing: int, energies: map<string, Energy>)

  ghost function LedgerOf(b: Books): Ledger
    reads b
  {
    Ledger(b.balances, b.sales, b.rewardFund, b.rewardShares, b.energies)
  }

  /** The tokens a step creates out of nothing: the excess of a fixed award's cuts over its request. */
  ghost function Excess(l: Ledger, s: Step): nat {
    if s.FixedAward? && s.initiator in l.energies && l.energies[s.initiator].last <= s.now && l.fund >= 0
       && l.competing >= 0 && s.receiver in l.balances && WeightsValid(s.bens) && Exist(l.balances, s.bens)
    then
      var current := l.energies[s.initiator].Current(s.now);
      var q := FixedQuote(l.fund, l.competing, s.ra, current, s.maxEnergy, s.effective, s.minShares);
      if q.Quote? then AtLeastZero(Total(Cuts(q.tokens, s.bens)) - s.ra) else 0
    else 0
  }

  /** The step is not a bid beyond its bidder's means. */
  ghost predicate Covered(l: Ledger, s: Step) {
    s.Buy? && s.account != NOBODY && s.offer > 0 && s.account in l.sales && s.buyer in l.balances
    && l.sales[s.account].start > s.now ==>
      Covers(l.balances, l.sales[s.account], s.buyer, s.offer)
  }

  /** What the first `n` steps created out of nothing. */
  ghost function Created(trace: seq<Ledger>, steps: seq<Step>, n: nat): nat
    requires n <= |trace| && n <= |steps|
  {
    if n == 0 then 0 else Created(trace, steps, n - 1) + Excess(trace[n - 1], steps[n - 1])
  }

  /** Nothing is created exactly when no fixed award gives out more than was requested. */
  lemma {:induction false} CreatedNothing(trace: seq<Ledger>, steps: seq<Step>, n: nat)
    requires n <= |trace| && n <= |steps|
    ensures Created(trace, steps, n) == 0 <==> forall i :: 0 <= i < n ==> Excess(trace[i], steps[i]) == 0
  {
    hide Excess;
    if n > 0 {
      CreatedNothing(trace, steps, n - 1);
    }
  }

  lemma {:induction false} CreatedSame(trace: seq<Ledger>, more: seq<Ledger>, steps: seq<Step>, n: nat)
    requires n <= |trace| && n <= |steps|
    ensures Created(trace + more, steps, n) == Created(trace, steps, n)
  {
    hide Excess;
    if n > 0 {
      CreatedSame(trace, more, steps, n - 1);
    }
  }

  /** Tokens held beyond the recorded supply. */
  ghost function Drift(b: Books): int
    reads b
  {
    b.Worth() - b.supply
  }

  predicate InBlock(s: Step) {
    || s.Issue? || s.Distribute? || s.Withdraw? || s.PayCommittee?
    || s.Burn? || s.ClaimForCommittee? || s.ExpireAwards? || s.ExpireEscrows?
  }

  predicate OnSale(s: Step) {
    s.SetPrice? || s.SetTarget? || s.SetNamePrice? || s.Buy? || s.EndAuctions?
  }

  predicate OnEscrow(s: Step) {
    s.EscrowTransfer? || s.EscrowApprove? || s.EscrowDispute? || s.EscrowRelease?
  }

  /** What happens with every block. */
  method PerformInBlock(b: Books, s: Step)
    requires b.Valid() && Ready(b, s) && InBlock(s)
    modifies b
    ensures b.Valid() && Drift(b) == old(Drift(b)) && (old(b.Solvent()) ==> b.Solvent())
  {
    hide FixedQuote, Cuts, Total, Energy.Current, VestAll, Vested, Parting, Distribution, Stakes, TotalWeight;
    hide RequestPayments;
    hide AllPaid, Converted, Remaining, Owed, Outstanding, Sum, Held, RecordsFit, Vesting.Sound, AllNonNegative, Shared;
    hide Pay, Books.Valid, Books.Worth, Books.Solvent;
    match s
    case Issue(v, percent, ratio, sharing, hf13) => b.ProcessFunds(v, percent, ratio, sharing, hf13);
    case Distribute(v, votes, head, epoch) => b.GiveOut(v, votes, head, epoch);
    case Withdraw(x, now) => b.Withdraw(x, now);
    case PayCommittee(order) => b.PayRequests(order);
    case Burn(x) => b.Burn(x);
    case ClaimForCommittee(x) => b.ClaimForCommittee(x);
    case ExpireAwards(now) => b.ExpireAwards(now);
    case ExpireEscrows(now) => b.ExpireEscrows(now);
  }

  method PerformOnEscrow(b: Books, s: Step)
    requires b.Valid() && Ready(b, s) && OnEscrow(s)
    modifies b
    ensures b.Valid() && Drift(b) == old(Drift(b)) && (old(b.Solvent()) ==> b.Solvent())
  {
    hide FixedQuote, Cuts, Total, Energy.Current, VestAll, Vested, Parting, Distribution, Stakes, TotalWeight;
    hide RequestPayments;
    hide AllPaid, Converted, Remaining, Owed, Outstanding, Sum, Held, RecordsFit, Vesting.Sound, AllNonNegative, Shared;
    hide Pay, Books.Valid, Books.Worth, Books.Solvent;
    match s
    case EscrowTransfer(key, to, agent, tokens, fee, ratification, expiration, now) =>
      var _ := b.EscrowTransfer(key, to, agent, tokens, fee, ratification, expiration, now);
    case EscrowApprove(key, to, agent, who, approve, now) =>
      var _ := b.EscrowApprove(key, to, agent, who, approve, now);
    case EscrowDispute(key, to, agent, now) => var _ := b.EscrowDispute(key, to, agent, now);
    case EscrowRelease(key, to, agent, who, receiver, amount, now) =>
      var _ := b.EscrowRelease(key, to, agent, who, receiver, amount, now);
  }

  method PerformOnSale(b: Books, s: Step)
    requires b.Valid() && Ready(b, s) && OnSale(s)
    modifies b
    ensures b.Valid() && Drift(b) == old(Drift(b)) && (old(b.Solvent()) && Covered(old(LedgerOf(b)), s) ==> b.Solvent())
  {
    hide Books.Valid, Books.Worth, Books.Solvent, Priced, Targeted, PriceDropsBid, TargetDropsBid, Bidden, Sold, Ended;
    hide IsOver;
    hide Settled, AfterBid, Refunded, Charged, CanBuy, CanBuyName, Parent, Vested, Opened, Payable, Covers;
    match s
    case SetPrice(x, seller, price, onSale, fee, now) => var _ := b.SetPrice(x, seller, price, onSale, fee, now);
    case SetTarget(x, seller, target, price, onSale, fee, now) =>
      var _ := b.SetTarget(x, seller, target, price, onSale, fee, now);
    case SetNamePrice(x, seller, price, onSale, fee) => var _ := b.SetNamePrice(x, seller, price, onSale, fee);
    case Buy(x, buyer, offer, toShares, creationFee, blankKey, recovery, wellNamed, now, clock) =>
      var _ := b.Buy(x, buyer, offer, toShares, creationFee, blankKey, recovery, wellNamed, now, clock);
    case EndAuctions(now, recoveries) => b.EndAuctions(now, recoveries);
  }

  method PerformTransfer(b: Books, s: Step)
    requires b.Valid() && Ready(b, s) && (s.Transfer? || s.TransferToVesting? || s.CreateAccount?)
    modifies b
    ensures b.Valid() && Drift(b) == old(Drift(b)) && (old(b.Solvent()) ==> b.Solvent())
  {
    hide Books.Valid, Books.Worth, Books.Solvent, Vested, Opened, Payable, Added;
    match s
    case Transfer(from, to, amount) => var _ := b.Transfer(from, to, amount);
    case TransferToVesting(from, to, amount) => var _ := b.TransferToVesting(from, to, amount);
    case CreateAccount(creator, x, fee, entitled, now) => var _ := b.CreateAccount(creator, x, fee, entitled, now);
  }

  /** An award of a fixed amount creates its excess out of nothing. */
  method PerformFixedAward(b: Books, s: Step)
    requires b.Valid() && Ready(b, s) && s.FixedAward?
    modifies b
    ensures b.Valid() && Drift(b) == old(Drift(b)) + Excess(old(LedgerOf(b)), s) && (old(b.Solvent()) ==> b.Solvent())
  {
    hide FixedQuote, Cuts, Total, Energy.Current, VestAll, Shared, Payable, WeightsValid, AtLeastZero, Books.Valid;
    hide Books.Worth;
    hide Books.Solvent;
    b.Accounts();
    var _ := b.GiveFixedAward(s.initiator, s.receiver, s.ra, s.maxEnergy, s.effective, s.minShares, s.bens, s.now);
  }

  /** Every step keeps the books valid and changes holdings and supply alike, up to its excess. */
  method Perform(b: Books, s: Step)
    requires b.Valid() && Ready(b, s)
    modifies b
    ensures b.Valid() && Drift(b) == old(Drift(b)) + Excess(old(LedgerOf(b)), s)
    ensures old(b.Solvent()) && Covered(old(LedgerOf(b)), s) ==> b.Solvent()
  {
    hide FixedQuote, Cuts, Total, Energy.Current, VestAll, Shared, Exist, Awards.Award, Rerouted, TotalPercent, Covers;
    hide Books.Valid, Books.Worth, Books.Solvent;
    b.Funds();
    if InBlock(s) {
      PerformInBlock(b, s);
    } else if OnEscrow(s) {
      PerformOnEscrow(b, s);
    } else if OnSale(s) {
      PerformOnSale(b, s);
    } else if s.Transfer? || s.TransferToVesting? || s.CreateAccount? {
      PerformTransfer(b, s);
    } else if s.FixedAward? {
      PerformFixedAward(b, s);
    } else {
      match s
      case PlanWithdrawal(x, shares, available, intervals, now) =>
        var _ := b.PlanWithdrawal(x, shares, available, intervals, now);
      case SetRoute(x, r, at) => var _ := b.SetRoute(x, r, at);
      case Award(x, receiver, used, effective, minShares, bens, now) =>
        var _ := b.GiveAward(x, receiver, used, effective, minShares, bens, now);
    }
  }

  /** Over every run the supply is accounted for up to the excesses of fixed awards: where each award's cuts stay
      within its request, conserved books stay conserved. Where all bids are covered no balance falls below zero.
      `trace` lists the books before every step and at the end, as far as awards and bids read them. */
  method Run(b: Books, steps: seq<Step>) returns (ghost trace: seq<Ledger>)
    requires b.Valid()
    modifies b
    ensures b.Valid() && |trace| == |steps| + 1 && trace[0] == old(LedgerOf(b)) && trace[|steps|] == LedgerOf(b)
    ensures Drift(b) == old(Drift(b)) + Created(trace, steps, |steps|)
    ensures old(b.Conserved()) && (forall i :: 0 <= i < |steps| ==> Excess(trace[i], steps[i]) == 0) ==> b.Conserved()
    ensures old(b.Solvent()) && (forall i :: 0 <= i < |steps| ==> Covered(trace[i], steps[i])) ==> b.Solvent()
  {
    hide Excess, Covered, Books.Valid, Books.Solvent, Books.Worth, Ready;
    trace := [LedgerOf(b)];
    for i := 0 to |steps|
      invariant b.Valid() && |trace| == i + 1 && trace[0] == old(LedgerOf(b)) && trace[i] == LedgerOf(b)
      invariant Drift(b) == old(Drift(b)) + Created(trace, steps, i)
      invariant old(b.Solvent()) && (forall k :: 0 <= k < i ==> Covered(trace[k], steps[k])) ==> b.Solvent()
    {
      ghost var before := trace;
      if Ready(b, steps[i]) {
        Perform(b, steps[i]);
      } else {
        NotReady(b, steps[i]);
      }
      trace := trace + [LedgerOf(b)];
      CreatedSame(before, [LedgerOf(b)], steps, i);
      assert forall k :: 0 <= k <= i ==> trace[k] == before[k];
    }
    CreatedNothing(trace, steps, |steps|);
  }

  /** A step that is not taken would create nothing. */
  lemma NotReady(b: Books, s: Step)
    requires !Ready(b, s)
    ensures Excess(LedgerOf(b), s) == 0
  {
  }
}
