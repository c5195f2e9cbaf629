/** The token economy: every step that issues, moves, pays, locks or burns tokens. */
module Economy {
  import opened Config
  import opened Options
  import opened Sums
  import opened Division
  import opened Payments
  import opened Vesting
  import opened Awards
  import opened Auction
  import opened EconomyRules
  import opened EconomySteps

  class Books {
    var balances: Column
    var reserved: Column
    var vest: Vest
    var supply: int
    var committeeFund: int
    var rewardFund: int
    var rewardShares: int
    var expiring: seq<Expiry>
    var escrows: map<EscrowKey, Escrow>
    /** Stakeholder rewards that validators have not given out yet. */
    var pending: Column
    var requests: map<nat, Request>
    var withdrawals: map<string, Withdrawal>
    var routes: map<string, seq<Route>>
    var energies: map<string, Energy>
    var sales: Sales

    /** The records that the accounts own are in order. */
    ghost predicate RecordsOk()
      reads `balances, `escrows, `requests, `withdrawals, `routes
    {
      RecordsFit(escrows, requests, withdrawals, routes, balances)
    }

    /** Every reserved balance is the sum of its owner's bids. */
    ghost predicate BidsReserved()
      reads `reserved, `sales
    {
      Exact(reserved, sales)
    }

    /** No balance is below zero. Only a bid beyond its bidder's means can break this. */
    ghost predicate Solvent()
      reads `balances
    {
      AllNonNegative(balances)
    }

    ghost predicate Valid()
      reads this
    {
      && balances.Keys == vest.shares.Keys == withdrawals.Keys == routes.Keys == energies.Keys
      && balances.Keys == reserved.Keys == sales.Keys
      && pending.Keys <= balances.Keys && AllNonNegative(pending)
      && Vesting.Sound(vest)
      && BidsReserved()
      && committeeFund >= 0 && rewardFund >= 0
      && rewardShares == Outstanding(expiring)
      && RecordsOk()
    }

    /** All tokens that somebody or something holds. */
    ghost function Worth(): int
      reads `balances, `reserved, `vest, `committeeFund, `rewardFund, `escrows, `pending
    {
      Sum(balances) + Sum(reserved) + vest.fund + committeeFund + rewardFund + Sum(Held(escrows)) + Sum(pending)
    }

    /** No token is unaccounted for. */
    ghost predicate Conserved()
      reads this
    {
      supply == Worth()
    }

    /** Every account has its place in every table. */
    lemma Accounts()
      requires Valid()
      ensures balances.Keys == vest.shares.Keys == withdrawals.Keys == routes.Keys == energies.Keys
      ensures balances.Keys == reserved.Keys == sales.Keys && rewardFund >= 0 && rewardShares >= 0
    {
    }

    lemma Funds()
      requires Valid()
      ensures rewardFund >= 0 && rewardShares >= 0
    {
    }

    lemma Account(x: string)
      requires Valid()
      ensures x in balances <==> x in sales
      ensures x in balances <==> x in reserved
      ensures x in balances <==> x in vest.shares
    {
    }

    lemma Planned(x: string)
      requires Valid() && x in balances
      ensures x in withdrawals && x in routes && x in vest.shares
      ensures balances.Keys == vest.shares.Keys == withdrawals.Keys
    {
    }

    lemma Unknown(x: string)
      requires Valid() && x !in balances
      ensures x !in vest.shares && x !in reserved && x !in sales
    {
    }

    lemma Records()
      requires Valid()
      ensures RecordsOk() && BidsReserved() && Vesting.Sound(vest) && committeeFund >= 0
    {
    }

    /** The books stay valid when tokens move between holders that keep to their own rules. */
    twostate lemma Moved()
      requires old(Valid()) && RecordsOk() && BidsReserved() && Vesting.Sound(vest) && committeeFund >= 0
      requires old(balances).Keys == balances.Keys == vest.shares.Keys == withdrawals.Keys
      requires unchanged(`reserved, `sales) || reserved.Keys == sales.Keys == old(balances).Keys
      requires unchanged(`routes, `energies, `pending, `rewardFund, `rewardShares, `expiring)
      ensures Valid()
    {
      hide RecordsOk, BidsReserved, Vesting.Sound, AllNonNegative, Outstanding;
    }

    /** The books stay valid with one more account. */
    twostate lemma Grown(x: string)
      requires old(Valid()) && RecordsOk() && BidsReserved() && Vesting.Sound(vest)
      requires forall k :: k in balances <==> k in old(balances) || k == x
      requires forall k :: k in vest.shares <==> k in old(vest).shares || k == x
      requires forall k :: k in withdrawals <==> k in old(withdrawals) || k == x
      requires forall k :: k in routes <==> k in old(routes) || k == x
      requires forall k :: k in energies <==> k in old(energies) || k == x
      requires forall k :: k in reserved <==> k in old(reserved) || k == x
      requires forall k :: k in sales <==> k in old(sales) || k == x
      requires unchanged(`pending, `committeeFund, `rewardFund, `rewardShares, `expiring)
      ensures Valid()
    {
      hide RecordsOk, BidsReserved, Vesting.Sound, AllNonNegative, Outstanding;
    }

    /** The first accounts; one of them holds the initial supply. */
    constructor (names: set<string>, founder: string, initial: nat, validators: set<string>)
      requires founder in names && validators <= names && NOBODY !in names
      ensures Valid() && Conserved() && Solvent() && supply == initial && balances.Keys == names
      ensures pending.Keys == validators
    {
      hide Sum, Held, RecordsFit, Vesting.Sound, AllNonNegative, Exact;
      var none: Column := map x | x in names :: 0;
      balances, reserved, vest := none[founder := initial], none, Vest(none, 0, 0);
      supply, committeeFund, rewardFund, rewardShares, expiring := initial, 0, 0, 0, [];
      escrows, pending, requests := map[], map x | x in validators :: 0, map[];
      withdrawals := map x | x in names :: Withdrawal(0, 0, 0, None);
      routes := map x | x in names :: [];
      energies := map x | x in names :: Energy(FULL, 0);
      sales := map x | x in names :: NOT_FOR_SALE;
      new;
      NothingForSale(none, sales);
      Genesis(none, founder, initial, pending, withdrawals, routes);
    }

    // -------------------------------------------------------------------------
    // Issue
    // -------------------------------------------------------------------------

    method CreateVesting(x: string, tokens: nat)
      requires Backed(vest.fund, vest.total) && x in vest.shares
      modifies this`vest
      ensures vest == Vested(old(vest), Payment(x, tokens))
    {
      var minted := Minted(vest.fund, vest.total, tokens);
      vest := Vest(vest.shares[x := vest.shares[x] + minted], vest.fund + tokens, vest.total + minted);
    }

    /** The tokens issued with a block. */
    method ProcessFunds(validator: string, percent: nat, ratio: nat, sharing: nat, hf13: bool)
      requires Valid() && validator in pending && percent <= FULL && ratio <= FULL && sharing <= FULL
      modifies this`vest, this`supply, this`committeeFund, this`rewardFund, this`pending
      ensures
        var reward := Part(ISSUED, percent);
        var committee := Part(ISSUED - reward, ratio);
        var pool := if hf13 then Part(reward, sharing) else 0;
        && supply == old(supply) + ISSUED
        && committeeFund == old(committeeFund) + committee
        && rewardFund == old(rewardFund) + ISSUED - reward - committee
        && pending == old(pending)[validator := old(pending)[validator] + pool]
        && vest == Vested(old(vest), Payment(validator, reward - pool))
      ensures Valid() && Worth() - supply == old(Worth() - supply)
    {
      hide Sum, Outstanding, RecordsOk, Minted, Part, Vested, Vesting.Sound, BidsReserved;
      var reward := Part(ISSUED, percent);
      var rest := ISSUED - reward;
      var committee := Part(rest, ratio);
      committeeFund := committeeFund + committee;
      rewardFund := rewardFund + (rest - committee);
      supply := supply + (reward + committee + (rest - committee));
      RewardValidator(validator, reward, sharing, hf13);
    }

    /** The validator's part: shares at once, and since hardfork 13 a pool for its stakeholders. */
    method RewardValidator(validator: string, reward: nat, sharing: nat, hf13: bool)
      requires Vesting.Sound(vest) && validator in vest.shares && validator in pending && sharing <= FULL
      modifies this`vest, this`pending
      ensures
        var pool := if hf13 then Part(reward, sharing) else 0;
        && pending == old(pending)[validator := old(pending)[validator] + pool]
        && Sum(pending) == Sum(old(pending)) + pool
        && vest == Vested(old(vest), Payment(validator, reward - pool))
        && vest.fund == old(vest).fund + reward - pool
      ensures Vesting.Sound(vest)
    {
      hide Sum, Minted, AllNonNegative;
      if hf13 && sharing > 0 {
        var pool := Part(reward, sharing);
        VestedSound(vest, Payment(validator, reward - pool));
        VestedNothing(vest, validator);
        if reward - pool > 0 {
          CreateVesting(validator, reward - pool);
        }
        SumUpdate(pending, validator, pending[validator] + pool);
        assert pending == pending[validator := pending[validator] + 0];
        if pool > 0 {
          pending := pending[validator := pending[validator] + pool];
        }
      } else {
        VestedSound(vest, Payment(validator, reward));
        CreateVesting(validator, reward);
        assert pending == pending[validator := pending[validator] + 0];
      }
    }

    // -------------------------------------------------------------------------
    // Epoch distribution
    // -------------------------------------------------------------------------

    /** Collects the stakeholders of a validator with their time-weighted stakes. */
    method CollectStakes(votes: seq<Vote>, head: nat, epoch: nat) returns (stakes: seq<Stake>, whole: nat)
      requires 0 < epoch <= head && VotesUpTo(votes, head)
      ensures stakes == Stakes(votes, head, epoch) && whole == TotalWeight(stakes)
    {
      hide Weighted;
      var start := head - epoch + 1;
      stakes, whole := [], 0;
      for i := 0 to |votes|
        invariant stakes == Stakes(votes[..i], head, epoch) && whole == TotalWeight(stakes)
      {
        assert votes[..i + 1][..i] == votes[..i];
        if votes[i].weight > 0 {
          var first := if votes[i].created > start then votes[i].created else start;
          var weighted := Weighted(votes[i].weight, head - first + 1);
          whole := whole + weighted;
          stakes := stakes + [Stake(votes[i].account, weighted)];
          assert stakes[..|stakes| - 1] == Stakes(votes[..i], head, epoch);
        }
      }
      assert votes[..|votes|] == votes;
    }

    /** Turns everyone's part of a pool into shares and counts what was given out. */
    method PayStakes(tokens: nat, stakes: seq<Stake>, whole: nat) returns (given: nat)
      requires whole > 0 && Backed(vest.fund, vest.total) && StakesKnown(vest.shares, stakes)
      modifies this`vest
      ensures Payable(old(vest), Split(tokens, stakes, whole))
      ensures vest == VestAll(old(vest), Split(tokens, stakes, whole)) && given == Total(Split(tokens, stakes, whole))
    {
      hide Minted, Vested, Split;
      ghost var ps := Split(tokens, stakes, whole);
      SplitNonNegative(tokens, stakes, whole);
      given := 0;
      for i := 0 to |stakes|
        invariant Payable(old(vest), ps) && Payable(old(vest), ps[..i])
        invariant vest == VestAll(old(vest), ps[..i]) && given == Total(ps[..i])
      {
        assert ps[..i + 1][..i] == ps[..i] && Payable(old(vest), ps[..i + 1]);
        assert ps[i] == Payment(stakes[i].account, tokens * stakes[i].weight / whole);
        var part := tokens * stakes[i].weight / whole;
        if part >= 1 {
          CreateVesting(stakes[i].account, part);
          given := given + part;
        } else {
          VestedNothing(vest, stakes[i].account);
        }
      }
      assert ps[..|stakes|] == ps;
    }

    /** Gives a validator's pool to its stakeholders; the dust goes to the validator. */
    method GiveOut(validator: string, votes: seq<Vote>, head: nat, epoch: nat)
      requires Valid() && validator in pending && 0 < epoch <= head && VotesUpTo(votes, head)
      requires forall i :: 0 <= i < |votes| ==> votes[i].account in balances
      modifies this`vest, this`pending
      ensures pending == old(pending)[validator := 0]
      ensures
        var stakes := Stakes(votes, head, epoch);
        && (TotalWeight(stakes) > 0 || stakes == [])
        && var ps := Distribution(old(pending)[validator], stakes, validator);
           Payable(old(vest), ps) && (old(pending)[validator] > 0 ==> vest == VestAll(old(vest), ps))
      ensures old(pending)[validator] == 0 ==> vest == old(vest)
      ensures Valid() && Worth() == old(Worth())
    {
      hide Sum, Outstanding, RecordsOk, Stakes, Distribution, TotalWeight, VestAll, Vested, Vesting.Sound, BidsReserved;
      hide Backed, Payable, AllNonNegative, Held;
      ZeroEntry(pending, validator);
      var tokens := pending[validator];
      StakesPositive(votes, head, epoch);
      StakesHaveAccounts(vest.shares, votes, head, epoch);
      var stakes, whole := CollectStakes(votes, head, epoch);
      DistributionExact(tokens, stakes, validator);
      PoolPayable(vest, tokens, stakes, validator);
      if tokens == 0 {
        return;
      }
      PayPool(validator, tokens, stakes, whole);
      pending := pending[validator := 0];
    }

    method PayPool(validator: string, tokens: nat, stakes: seq<Stake>, whole: nat)
      requires Vesting.Sound(vest) && whole == TotalWeight(stakes) && (whole > 0 || stakes == [])
      requires StakesKnown(vest.shares, stakes) && validator in vest.shares
      modifies this`vest
      ensures Payable(old(vest), Distribution(tokens, stakes, validator))
      ensures vest == VestAll(old(vest), Distribution(tokens, stakes, validator))
      ensures vest.shares.Keys == old(vest).shares.Keys
      ensures Vesting.Sound(vest) && vest.fund == old(vest).fund + tokens
    {
      hide Minted, Sum, TotalWeight, Vested, Split;
      ghost var ps := Distribution(tokens, stakes, validator);
      DistributionExact(tokens, stakes, validator);
      PoolPayable(vest, tokens, stakes, validator);
      VestAllSound(vest, ps);
      ghost var parts := Split(tokens, stakes, whole);
      LastPayment(vest, parts, Payment(validator, tokens - Total(parts)));
      if whole == 0 {
        assert parts == [];
        CreateVesting(validator, tokens);
      } else {
        var given := PayStakes(tokens, stakes, whole);
        var dust := tokens - given;
        if dust > 0 {
          CreateVesting(validator, dust);
        } else {
          VestedNothing(vest, validator);
        }
      }
    }

    /** Gives out all pools at the end of an epoch. */
    method DistributeEpoch(validators: seq<string>, votes: seq<seq<Vote>>, head: nat, epoch: nat)
      requires Valid() && |votes| == |validators| && head > 0
      requires forall j :: 0 <= j < |validators| ==> validators[j] in pending && VotesUpTo(votes[j], head)
      requires forall j, i :: 0 <= j < |votes| && 0 <= i < |votes[j]| ==> votes[j][i].account in balances
      modifies this`vest, this`pending
      ensures epoch == 0 || head % epoch != 0 ==> vest == old(vest) && pending == old(pending)
      ensures pending.Keys == old(pending).Keys
      ensures epoch > 0 && head % epoch == 0 ==> forall j :: 0 <= j < |validators| ==> pending[validators[j]] == 0
      ensures forall x :: x in pending && x !in validators ==> pending[x] == old(pending)[x]
      ensures Valid() && Worth() == old(Worth())
    {
      hide Valid, Worth, Stakes, Split, TotalWeight, Total, VestAll;
      if epoch == 0 || head % epoch != 0 {
        return;
      }
      EpochFits(head, epoch);
      for j := 0 to |validators|
        invariant Valid() && Worth() == old(Worth()) && pending.Keys == old(pending).Keys
        invariant forall i :: 0 <= i < j ==> pending[validators[i]] == 0
        invariant forall x :: x in pending && x !in validators ==> pending[x] == old(pending)[x]
      {
        GiveOut(validators[j], votes[j], head, epoch);
      }
    }

    // -------------------------------------------------------------------------
    // Withdrawals
    // -------------------------------------------------------------------------

    /** Plans, changes or cancels the withdrawal of an account's shares, `available` of which are free. */
    method PlanWithdrawal(x: string, amount: int, available: int, intervals: nat, now: nat) returns (ok: bool)
      requires Valid() && intervals > 0
      modifies this`withdrawals
      ensures
        var part := if available > 0 then available / intervals else 0;
        var rate := if part == 0 then 1 else part;
        && (ok <==>
          && x in old(withdrawals) && 0 <= amount <= available
          && (amount > 0 ==> old(withdrawals)[x].rate != rate))
        && withdrawals ==
          if !ok then old(withdrawals)
          else if amount == 0 then old(withdrawals)[x := Withdrawal(0, 0, 0, None)]
          else old(withdrawals)[x := Withdrawal(rate, amount, 0, Some(now + INTERVAL))]
      ensures Valid() && Worth() == old(Worth())
    {
      hide Sum, Held, RecordsFit, Vesting.Sound, BidsReserved, Outstanding, AllNonNegative;
      if x !in withdrawals || available < amount || amount < 0 {
        return false;
      }
      var plan := Withdrawal(0, 0, 0, None);
      if amount > 0 {
        DivAtLeast(available, intervals, 0);
        var rate := available / intervals;
        if rate == 0 {
          rate := 1;
        }
        if withdrawals[x].rate == rate {
          return false;
        }
        plan := Withdrawal(rate, amount, 0, Some(now + INTERVAL));
      }
      RecordsContinued(escrows, requests, withdrawals, routes, balances, balances, x, plan);
      withdrawals := withdrawals[x := plan];
      return true;
    }

    /** First pass over the routes: shares that stay shares. */
    method DepositShares(amount: nat, rs: seq<Route>) returns (deposited: nat)
      requires RoutesKnown(vest.shares, rs) && TotalPercent(rs) <= FULL
      modifies this`vest
      ensures Known(old(vest).shares, Routed(amount, rs, true))
      ensures vest == old(vest).(shares := Pay(old(vest).shares, Routed(amount, rs, true)))
      ensures deposited == Total(Routed(amount, rs, true))
    {
      hide Routed, TotalPercent, Pay, Total, Known;
      ghost var start := vest.shares;
      RoutedKnown(start, amount, rs, true);
      NoRoutes(start, amount, rs, true);
      deposited := 0;
      for i := 0 to |rs|
        invariant vest == old(vest).(shares := Pay(start, Routed(amount, rs[..i], true)))
        invariant deposited == Total(Routed(amount, rs[..i], true))
      {
        RoutedPay(start, amount, rs, i);
        if rs[i].autoVest {
          var part := amount * rs[i].percent / FULL;
          deposited := deposited + part;
          if part > 0 {
            vest := vest.(shares := vest.shares[rs[i].to := vest.shares[rs[i].to] + part]);
          } else {
            assert vest.shares == vest.shares[rs[i].to := vest.shares[rs[i].to] + part];
          }
        }
      }
      assert rs[..|rs|] == rs;
    }

    ghost function TheDesk(): Desk
      reads this
    {
      Desk(balances, vest.fund, vest.total)
    }

    /** Second pass over the routes: shares that are turned into tokens. */
    method DepositTokens(amount: nat, rs: seq<Route>) returns (deposited: nat)
      requires Redeemable(TheDesk(), Routed(amount, rs, false)) && RoutesKnown(balances, rs)
      modifies this`vest, this`balances
      ensures TheDesk() == RedeemAll(old(TheDesk()), Routed(amount, rs, false)) && vest.shares == old(vest).shares
      ensures deposited == Total(Routed(amount, rs, false))
    {
      hide Routed, TotalPercent, Converted, RedeemAll, Total, Redeemable;
      ghost var desk := TheDesk();
      RoutedRedeemable(desk, amount, rs);
      NoRoutes(balances, amount, rs, false);
      assert RedeemAll(desk, []) == desk by { RedeemNone(desk); }
      deposited := 0;
      for i := 0 to |rs|
        invariant TheDesk() == RedeemAll(desk, Routed(amount, rs[..i], false)) && vest.shares == old(vest).shares
        invariant deposited == Total(Routed(amount, rs[..i], false))
      {
        RoutedRedeem(desk, amount, rs, i);
        if !rs[i].autoVest {
          var part := amount * rs[i].percent / FULL;
          deposited := deposited + part;
          var tokens := Converted(vest.fund, vest.total, part);
          if part > 0 {
            balances := balances[rs[i].to := balances[rs[i].to] + tokens];
            vest := vest.(fund := vest.fund - tokens, total := vest.total - part);
          } else {
            assert tokens == 0 by { ConvertedNothing(vest.fund, vest.total); }
            assert balances == balances[rs[i].to := balances[rs[i].to] + 0];
          }
        }
      }
      assert rs[..|rs|] == rs;
    }

    ghost function TheTables(): Tables
      reads this
    {
      Tables(vest, balances, withdrawals)
    }

    /** One account's due withdrawal. */
    method Withdraw(from: string, now: nat)
      requires Valid() && from in balances
      modifies this`vest, this`balances, this`withdrawals
      ensures !IsDue(old(withdrawals)[from], now) ==>
        vest == old(vest) && balances == old(balances) && withdrawals == old(withdrawals)
      ensures balances.Keys == old(balances).Keys
      ensures IsDue(old(withdrawals)[from], now) ==>
        var w := old(withdrawals)[from];
        var amount := Due(w, old(vest).shares[from]);
        && CanPart(old(vest), old(balances), from, amount, Walked(routes[from]))
        && var left := Parting(old(vest), old(balances), from, amount, Walked(routes[from]));
        && vest == left.0 && balances == left.1
        && withdrawals == old(withdrawals)[from := Continued(w, amount, vest.shares[from])]
      ensures
        var was, next := old(withdrawals)[from].next, withdrawals[from].next;
        if was.None? || now < was.value then next == was else next.None? || next.value == was.value + 86400
      ensures TheTables() == Withdrawn(old(TheTables()), routes, from, now)
      ensures Valid() && Worth() == old(Worth())
      ensures old(Solvent()) ==> Solvent()
    {
      hide Valid, Sum, Due, Held, Parting, CanPart, Withdrawn, RecordsFit, TotalPercent, Vesting.Sound, BidsReserved;
      hide AllNonNegative, RoutesKnown, Continued;
      Planned(from);
      Records();
      var w, rs := withdrawals[from], Walked(routes[from]);
      RecordsOf(escrows, requests, withdrawals, routes, balances, from);
      if w.next == None || w.next.value > now {
        NotWithdrawn(TheTables(), routes, from, now);
        return;
      }
      var amount := Due(w, vest.shares[from]);
      DueWithin(w, vest, from);
      PartingKeeps(vest, balances, from, amount, rs);
      WithdrawnIs(TheTables(), routes, from, now, amount, rs);
      PartShares(from, amount, rs);
      withdrawals := withdrawals[from := Continued(w, amount, vest.shares[from])];
      ContinuedNext(w, amount, vest.shares[from]);
      ContinuedOk(w, amount, vest.shares[from]);
      RecordsContinued(escrows, requests, old(withdrawals), routes, old(balances), balances, from, withdrawals[from]);
      Moved();
    }

    method PartShares(from: string, amount: nat, rs: seq<Route>)
      requires CanPart(vest, balances, from, amount, rs)
      modifies this`vest, this`balances
      ensures (vest, balances) == Parting(old(vest), old(balances), from, amount, rs)
    {
      hide RedeemAll, Pay, Total, Redeemable, TotalPercent, Routed, Converted, Rest;
      PartingRedeemable(vest, balances, from, amount, rs);
      ghost var rest' := Rest(amount, rs);
      RedeemLast(TheDesk(), Routed(amount, rs, false), Payment(from, rest'));
      RestIs(amount, rs);
      var asShares := DepositShares(amount, rs);
      var asTokens := DepositTokens(amount, rs);
      var rest := AtLeastZero(amount - asTokens - asShares);
      var tokens := Converted(vest.fund, vest.total, rest);
      vest := vest.(shares := vest.shares[from := vest.shares[from] - amount]);
      balances := balances[from := balances[from] + tokens];
      vest := vest.(fund := vest.fund - tokens, total := vest.total - rest);
    }

    /** All due withdrawals, in any order. */
    method ProcessWithdrawals(order: seq<string>, now: nat)
      requires Valid() && forall i :: 0 <= i < |order| ==> order[i] in balances
      modifies this`vest, this`balances, this`withdrawals
      ensures TheTables() == WithdrawnAll(old(TheTables()), routes, order, now)
      ensures Valid() && Worth() == old(Worth()) && balances.Keys == old(balances).Keys
      ensures old(Solvent()) ==> Solvent()
    {
      hide Valid, Worth, IsDue, Parting, Continued, CanPart, Due, Solvent, Withdrawn;
      for i := 0 to |order|
        invariant Valid() && Worth() == old(Worth()) && balances.Keys == old(balances).Keys
        invariant old(Solvent()) ==> Solvent()
        invariant TheTables() == WithdrawnAll(old(TheTables()), routes, order[..i], now)
      {
        assert order[..i + 1][..i] == order[..i];
        Withdraw(order[i], now);
      }
      assert order[..|order|] == order;
    }

    // -------------------------------------------------------------------------
    // Committee
    // -------------------------------------------------------------------------

    /** Pays every approved request its part of the committee fund. `order` lists the approved requests. */
    method PayRequests(order: seq<nat>)
      requires Valid() && Approved(requests, order)
      modifies this`balances, this`committeeFund, this`requests
      ensures
        var most := old(committeeFund) / (|order| + 1);
        var ps := RequestPayments(old(requests), order, most);
        && Known(old(balances), ps)
        && balances == Pay(old(balances), ps)
        && committeeFund == old(committeeFund) - Total(ps)
        && committeeFund >= most
        && requests == AllPaid(old(requests), most)
      ensures Valid() && Worth() == old(Worth())
      ensures old(Solvent()) ==> Solvent()
    {
      hide Sum, Outstanding, Held, RecordsFit, Pay, Total, Vesting.Sound, BidsReserved, RequestPayments, AllPaid;
      var most := committeeFund / (|order| + 1);
      RequestsFit(escrows, requests, withdrawals, routes, balances, order, most);
      ghost var ps := RequestPayments(requests, order, most);
      PaySum(balances, ps);
      PaymentsFit(committeeFund, ps, most);
      assert Solvent() ==> AllNonNegative(Pay(balances, ps)) by {
        if Solvent() {
          PayNonNegative(balances, ps);
        }
      }
      PayLoop(order, most);
    }

    method PayLoop(order: seq<nat>, most: nat)
      requires Approved(requests, order) && RequestsOk(requests, balances)
      modifies this`balances, this`committeeFund, this`requests
      ensures
        var ps := RequestPayments(old(requests), order, most);
        && Known(old(balances), ps) && balances == Pay(old(balances), ps)
        && committeeFund == old(committeeFund) - Total(ps)
      ensures requests == AllPaid(old(requests), most)
    {
      hide Pay, Total, RequestPayments, PaidUpTo, AllPaid;
      ghost var start, qs := balances, requests;
      ghost var ps := RequestPayments(qs, order, most);
      PaymentsKnown(start, qs, order, most);
      NoPayments(start, ps);
      PaidEnds(qs, order, most);
      for i := 0 to |order|
        invariant Known(start, ps[..i]) && balances == Pay(start, ps[..i])
        invariant committeeFund == old(committeeFund) - Total(ps[..i]) && requests == PaidUpTo(qs, order, i, most)
      {
        PaidStep(qs, order, i, most);
        PaymentStep(start, qs, order, most, i);
        var id := order[i];
        var q := requests[id];
        var payment := if most < q.remain then most else q.remain;
        balances := balances[q.worker := balances[q.worker] + payment];
        committeeFund := committeeFund - payment;
        var remain := q.remain - payment;
        requests := requests[id := Request(q.worker, if remain <= 0 then 5 else q.status, q.paid + payment, remain)];
      }
      assert ps[..|order|] == ps;
    }

    // -------------------------------------------------------------------------
    // Accounts that are emptied with every block
    // -------------------------------------------------------------------------

    /** Takes everything from an account, redeeming its shares. */
    method Empty(x: string) returns (tokens: int)
      requires Valid() && x in balances
      modifies this`balances, this`vest
      ensures
        var s := old(vest).shares[x];
        var t := Converted(old(vest).fund, old(vest).total, s);
        && tokens == AtLeastZero(old(balances)[x]) + t
        && balances == Drained(old(balances), x)
        && vest == Vest(old(vest).shares[x := 0], old(vest).fund - t, old(vest).total - s)
      ensures Valid() && Worth() == old(Worth()) - tokens
      ensures old(Solvent()) ==> Solvent()
    {
      hide Valid, Sum, Held, RecordsFit, Converted, Vesting.Sound, BidsReserved, AllNonNegative;
      tokens := 0;
      Accounts();
      Records();
      EmptyKeeps(vest, balances, x);
      RecordsKept(escrows, requests, withdrawals, routes, balances, Drained(balances, x));
      if balances[x] > 0 {
        tokens := tokens + balances[x];
        balances := balances[x := 0];
      }
      if vest.shares[x] > 0 {
        var converted := Converted(vest.fund, vest.total, vest.shares[x]);
        vest := Vest(vest.shares[x := 0], vest.fund - converted, vest.total - vest.shares[x]);
        tokens := tokens + converted;
      }
      Moved();
    }

    /** The null and the anonymous account: what they hold is burned. */
    method Burn(x: string)
      requires Valid() && x in balances
      modifies this`balances, this`vest, this`supply
      ensures supply == old(supply) - AtLeastZero(old(balances)[x]) - (old(vest).fund - vest.fund)
      ensures balances == Drained(old(balances), x) && vest.shares == old(vest).shares[x := 0]
      ensures Valid() && Worth() - supply == old(Worth() - supply)
      ensures old(Solvent()) ==> Solvent()
    {
      hide Valid, Worth, Solvent, Converted, Drained;
      var tokens := Empty(x);
      if tokens > 0 {
        Retire(tokens);
      }
    }

    /** Takes tokens that have left their holder out of the supply. */
    method Retire(tokens: nat)
      requires Valid()
      modifies this`supply
      ensures supply == old(supply) - tokens
      ensures Valid() && Worth() == old(Worth())
    {
      hide RecordsOk, BidsReserved, Vesting.Sound, Outstanding, AllNonNegative, Sum, Held;
      supply := supply - tokens;
    }

    /** The committee account: what it holds goes to the committee fund. */
    method ClaimForCommittee(x: string)
      requires Valid() && x in balances
      modifies this`balances, this`vest, this`committeeFund
      ensures committeeFund == old(committeeFund) + AtLeastZero(old(balances)[x]) + (old(vest).fund - vest.fund)
      ensures balances == Drained(old(balances), x) && vest.shares == old(vest).shares[x := 0]
      ensures Valid() && Worth() == old(Worth())
      ensures old(Solvent()) ==> Solvent()
    {
      hide Valid, Worth, Solvent, Converted, Drained;
      var tokens := Empty(x);
      if tokens > 0 {
        FundCommittee(tokens);
      }
    }

    // -------------------------------------------------------------------------
    // Awards
    // -------------------------------------------------------------------------

    /** Takes the payout of new shares from the reward fund; the shares compete until they expire. */
    method Claim(shares: nat, now: nat) returns (tokens: nat)
      requires shares > 0 && rewardFund >= 0 && rewardShares >= 0
      modifies this`rewardFund, this`rewardShares, this`expiring
      ensures tokens == Award(old(rewardFund), old(rewardShares), shares) && rewardFund == old(rewardFund) - tokens
      ensures rewardFund >= 0
      ensures rewardShares == old(rewardShares) + shares
      ensures expiring == old(expiring) + [Expiry(now + REGENERATION, shares)]
    {
      tokens := Award(rewardFund, rewardShares, shares);
      rewardFund := rewardFund - tokens;
      rewardShares := rewardShares + shares;
      expiring := expiring + [Expiry(now + REGENERATION, shares)];
    }

    /** Removes the shares that have expired from the competition. */
    method ExpireAwards(now: nat)
      requires Valid()
      modifies this`rewardShares, this`expiring
      ensures expiring == Remaining(old(expiring), now) && rewardShares == Outstanding(expiring)
      ensures Valid() && Worth() == old(Worth())
    {
      hide Sum, Held, RecordsOk, Vesting.Sound, BidsReserved, AllNonNegative, Outstanding, Remaining;
      var i, kept := 0, [];
      var all := expiring;
      RemainingStart(all, now);
      while i < |all|
        invariant 0 <= i <= |all| && kept == Remaining(all[..i], now)
        invariant rewardShares == Outstanding(kept) + Outstanding(all[i..])
      {
        RemainingStep(all, i, now);
        if all[i].time <= now {
          rewardShares := rewardShares - all[i].shares;
        } else {
          kept := kept + [all[i]];
        }
        i := i + 1;
      }
      assert all[..|all|] == all;
      expiring := kept;
    }

    /** Pays beneficiaries their cuts of `tokens` and the receiver what is left of `base`. */
    method PayShared(tokens: nat, base: nat, bens: seq<Beneficiary>, receiver: string) returns (cut: nat)
      requires Backed(vest.fund, vest.total) && Exist(vest.shares, bens) && receiver in vest.shares
      requires WeightsValid(bens)
      modifies this`vest
      ensures Payable(old(vest), Shared(tokens, base, bens, receiver))
      ensures vest == VestAll(old(vest), Shared(tokens, base, bens, receiver)) && cut == Total(Cuts(tokens, bens))
    {
      hide Minted, Vested, Cuts, Total;
      SharedTotal(tokens, base, bens, receiver);
      ghost var cuts := Cuts(tokens, bens);
      SharedKnown(vest, tokens, base, bens, receiver);
      LastPayment(vest, cuts, Payment(receiver, AtLeastZero(base - Total(cuts))));
      cut := PayCuts(tokens, bens);
      if base - cut > 0 {
        CreateVesting(receiver, base - cut);
      } else {
        VestedNothing(vest, receiver);
      }
    }

    /** Pays every beneficiary its cut. */
    method PayCuts(tokens: nat, bens: seq<Beneficiary>) returns (cut: nat)
      requires Backed(vest.fund, vest.total) && Exist(vest.shares, bens) && Payable(vest, Cuts(tokens, bens))
      modifies this`vest
      ensures vest == VestAll(old(vest), Cuts(tokens, bens)) && cut == Total(Cuts(tokens, bens))
    {
      hide Minted, Vested, Cuts, Total, VestAll;
      ghost var cuts, start := Cuts(tokens, bens), vest;
      cut := 0;
      NothingPaid(vest, cuts);
      for i := 0 to |bens|
        invariant Payable(start, cuts[..i]) && vest == VestAll(start, cuts[..i]) && cut == Total(cuts[..i])
      {
        assert cuts[..i + 1] == cuts[..i] + [cuts[i]] && Payable(start, cuts[..i + 1]);
        LastPayment(start, cuts[..i], cuts[i]);
        TotalAppend(cuts[..i], cuts[i]);
        var part := tokens * bens[i].weight / FULL;
        assert cuts[i] == Payment(bens[i].account, part) && part >= 0;
        CreateVesting(bens[i].account, part);
        cut := cut + part;
      }
      assert cuts[..|bens|] == cuts;
    }

    /** An award for a part of the initiator's energy. A refusal changes nothing. */
    method GiveAward(initiator: string, receiver: string, used: nat, effective: nat, minShares: nat,
                     bens: seq<Beneficiary>, now: nat) returns (ok: bool)
      requires Valid() && WeightsValid(bens)
      requires initiator in energies ==> energies[initiator].last <= now
      modifies this`vest, this`rewardFund, this`rewardShares, this`expiring, this`energies
      ensures ok ==> initiator in balances && receiver in balances
      ensures initiator in balances && receiver in balances ==>
        var current := old(energies)[initiator].Current(now);
        var shares := Bought(effective, used);
        var counts := shares >= minShares;
        var tokens := if counts then Award(old(rewardFund), old(rewardShares), shares) else 0;
        && (ok <==> current > 0 && used <= current && (counts ==> shares > 0) && (tokens > 0 ==> Exist(balances, bens)))
        && (ok ==>
          && energies == old(energies)[initiator := Energy(current - used, now)]
          && rewardFund == old(rewardFund) - tokens
          && expiring == old(expiring) + (if counts then [Expiry(now + REGENERATION, shares)] else [])
          && vest.fund == old(vest).fund + tokens
          && (tokens > 0 ==> Payable(old(vest), Shared(tokens, tokens, bens, receiver)) &&
                             vest == VestAll(old(vest), Shared(tokens, tokens, bens, receiver)))
          && (tokens == 0 ==> vest == old(vest)))
      ensures !ok ==>
        vest == old(vest) && rewardFund == old(rewardFund) && expiring == old(expiring) && energies == old(energies)
      ensures Valid() && Worth() == old(Worth())
    {
      hide Valid, Worth, Award, Bought, VestAll, Shared, Energy.Current, Backed, WeightsValid, Payable, Total, Cuts;
      Accounts();
      if initiator !in energies || receiver !in energies {
        return false;
      }
      var current := energies[initiator].Current(now);
      var shares := Bought(effective, used);
      if current <= 0 || used > current || (shares >= minShares && shares == 0) {
        return false;
      }
      var tokens := if shares >= minShares then Award(rewardFund, rewardShares, shares) else 0;
      if tokens > 0 && exists i :: 0 <= i < |bens| && bens[i].account !in vest.shares {
        return false;
      }
      UseEnergy(initiator, current - used, now);
      if shares >= minShares {
        PayAward(shares, tokens, bens, receiver, now);
      } else {
        assert expiring + [] == expiring;
      }
      return true;
    }

    /** Records the energy that an account has left. */
    method UseEnergy(x: string, left: int, now: nat)
      requires Valid() && x in energies
      modifies this`energies
      ensures energies == old(energies)[x := Energy(left, now)]
      ensures Valid() && Worth() == old(Worth())
    {
      hide RecordsOk, BidsReserved, Vesting.Sound, Outstanding, AllNonNegative, Sum, Held;
      energies := energies[x := Energy(left, now)];
    }

    /** Pays an award out of the reward fund. */
    method PayAward(shares: nat, tokens: nat, bens: seq<Beneficiary>, receiver: string, now: nat)
      requires Valid() && receiver in balances && WeightsValid(bens) && shares > 0
      requires tokens == Award(rewardFund, rewardShares, shares) && (tokens > 0 ==> Exist(balances, bens))
      modifies this`vest, this`rewardFund, this`rewardShares, this`expiring
      ensures rewardFund == old(rewardFund) - tokens && vest.fund == old(vest).fund + tokens
      ensures expiring == old(expiring) + [Expiry(now + REGENERATION, shares)]
      ensures tokens > 0 ==>
        && Payable(old(vest), Shared(tokens, tokens, bens, receiver))
        && vest == VestAll(old(vest), Shared(tokens, tokens, bens, receiver))
      ensures tokens == 0 ==> vest == old(vest)
      ensures Valid() && Worth() == old(Worth())
    {
      hide Sum, Held, RecordsOk, AllNonNegative, Award, VestAll, Shared, Outstanding, Vesting.Sound, BidsReserved;
      hide WeightsValid, Payable, Total, Cuts;
      var paid := ClaimAndShare(shares, tokens, bens, receiver, now);
    }

    /** Claims the payout of new shares and pays it out. */
    method ClaimAndShare(shares: nat, base: nat, bens: seq<Beneficiary>, receiver: string,
                         now: nat) returns (tokens: nat)
      requires shares > 0 && Vesting.Sound(vest) && rewardFund >= 0 && rewardShares == Outstanding(expiring)
      requires receiver in vest.shares && WeightsValid(bens)
      requires Award(rewardFund, rewardShares, shares) > 0 ==> Exist(vest.shares, bens)
      modifies this`vest, this`rewardFund, this`rewardShares, this`expiring
      ensures tokens == Award(old(rewardFund), old(rewardShares), shares)
      ensures rewardFund == old(rewardFund) - tokens && rewardFund >= 0
      ensures expiring == old(expiring) + [Expiry(now + REGENERATION, shares)] && rewardShares == Outstanding(expiring)
      ensures Vesting.Sound(vest) && vest.shares.Keys == old(vest).shares.Keys
      ensures tokens > 0 ==>
        && Payable(old(vest), Shared(tokens, base, bens, receiver))
        && vest == VestAll(old(vest), Shared(tokens, base, bens, receiver))
        && vest.fund == old(vest).fund + base + AtLeastZero(Total(Cuts(tokens, bens)) - base)
        && Total(Cuts(tokens, bens)) <= tokens
      ensures tokens == 0 ==> vest == old(vest)
    {
      hide Sum, Award, VestAll, Shared, Cuts, Total, Outstanding, WeightsValid;
      OutstandingAppend(expiring, Expiry(now + REGENERATION, shares));
      tokens := Claim(shares, now);
      if tokens > 0 {
        SharedSound(vest, tokens, base, bens, receiver);
        var cut := PayShared(tokens, base, bens, receiver);
      }
    }

    /** An award of a fixed amount. What the energy buys beyond it goes to the committee fund. */
    method GiveFixedAward(initiator: string, receiver: string, ra: nat, maxEnergy: nat, effective: nat, minShares: nat,
                          bens: seq<Beneficiary>, now: nat) returns (ok: bool)
      requires Valid() && WeightsValid(bens)
      requires initiator in energies ==> energies[initiator].last <= now
      modifies this`vest, this`rewardFund, this`rewardShares, this`expiring, this`energies, this`committeeFund
      ensures ok ==> initiator in balances && receiver in balances
      ensures initiator in balances && receiver in balances ==>
        var current := old(energies)[initiator].Current(now);
        var q := FixedQuote(old(rewardFund), old(rewardShares), ra, current, maxEnergy, effective, minShares);
        && (ok <==> q.Quote? && Exist(balances, bens))
        && (ok ==>
          && energies == old(energies)[initiator := Energy(current - q.need, now)]
          && rewardFund == old(rewardFund) - q.tokens
          && expiring == old(expiring) + [Expiry(now + REGENERATION, q.shares)]
          && committeeFund == old(committeeFund) + q.tokens - ra
          && Payable(old(vest), Shared(q.tokens, ra, bens, receiver))
          && vest == VestAll(old(vest), Shared(q.tokens, ra, bens, receiver))
          && Worth() == old(Worth()) + AtLeastZero(Total(Cuts(q.tokens, bens)) - ra))
      ensures !ok ==> vest == old(vest) && rewardFund == old(rewardFund) && expiring == old(expiring) &&
                      energies == old(energies) && committeeFund == old(committeeFund)
      ensures Valid() && (!ok ==> Worth() == old(Worth()))
    {
      hide Valid, Worth, Award, FixedQuote, VestAll, Shared, Energy.Current, Cuts, Total, WeightsValid, Payable;
      hide AtLeastZero;
      Accounts();
      if initiator !in energies || receiver !in energies {
        return false;
      }
      var current := energies[initiator].Current(now);
      var q := FixedQuote(rewardFund, rewardShares, ra, current, maxEnergy, effective, minShares);
      if q.Refused? || exists i :: 0 <= i < |bens| && bens[i].account !in vest.shares {
        return false;
      }
      QuoteFacts(rewardFund, rewardShares, ra, current, maxEnergy, effective, minShares);
      UseEnergy(initiator, current - q.need, now);
      PayFixed(q, receiver, ra, bens, now);
      return true;
    }

    method PayFixed(q: Quote, receiver: string, ra: nat, bens: seq<Beneficiary>, now: nat)
      requires Valid() && receiver in balances && WeightsValid(bens) && Exist(balances, bens)
      requires q.Quote? && q.shares > 0 && q.tokens == Award(rewardFund, rewardShares, q.shares) && q.tokens >= ra
      requires q.tokens > 0
      modifies this`vest, this`rewardFund, this`rewardShares, this`expiring, this`committeeFund
      ensures rewardFund == old(rewardFund) - q.tokens && committeeFund == old(committeeFund) + q.tokens - ra
      ensures expiring == old(expiring) + [Expiry(now + REGENERATION, q.shares)]
      ensures Payable(old(vest), Shared(q.tokens, ra, bens, receiver))
      ensures vest == VestAll(old(vest), Shared(q.tokens, ra, bens, receiver))
      ensures Valid() && Worth() == old(Worth()) + AtLeastZero(Total(Cuts(q.tokens, bens)) - ra)
    {
      hide Sum, Held, RecordsOk, AllNonNegative, Award, VestAll, Shared, Cuts, Total, Outstanding, Vesting.Sound;
      hide BidsReserved, WeightsValid, Payable;
      var tokens := ClaimAndShare(q.shares, ra, bens, receiver, now);
      var donation := tokens - ra;
      if donation > 0 {
        committeeFund := committeeFund + donation;
      }
    }

    // -------------------------------------------------------------------------
    // Escrow
    // -------------------------------------------------------------------------

    method EscrowTransfer(key: EscrowKey, to: string, agent: string, tokens: nat, fee: nat,
                          ratification: nat, expiration: nat, now: nat) returns (ok: bool)
      requires Valid()
      modifies this`balances, this`escrows
      ensures ok <==>
        && key.from in old(balances) && to in old(balances) && agent in old(balances)
        && ratification > now && expiration > now && old(balances)[key.from] >= tokens + fee && key !in old(escrows)
      ensures ok ==>
        && balances == old(balances)[key.from := old(balances)[key.from] - tokens - fee]
        && escrows == old(escrows)[key := Escrow(to, agent, ratification, expiration, tokens, fee, false, false, false)]
      ensures !ok ==> balances == old(balances) && escrows == old(escrows)
      ensures Valid() && Worth() == old(Worth())
      ensures old(Solvent()) ==> Solvent()
    {
      hide Sum, Held, RecordsFit, Vesting.Sound, BidsReserved, Outstanding;
      if key.from !in balances || to !in balances || agent !in balances {
        return false;
      }
      if ratification <= now || expiration <= now || balances[key.from] < tokens + fee || key in escrows {
        return false;
      }
      var e := Escrow(to, agent, ratification, expiration, tokens, fee, false, false, false);
      var left := balances[key.from := balances[key.from] - (tokens + fee)];
      SumUpdate(balances, key.from, balances[key.from] - (tokens + fee));
      HeldUpdate(escrows, key, e);
      RecordsEscrow(escrows, requests, withdrawals, routes, balances, left, key, e);
      balances, escrows := left, escrows[key := e];
      return true;
    }

    /** Puts an escrow back in the books after its parties were paid. */
    method SettleEscrow(key: EscrowKey, e: Escrow, payee: string, amount: int)
      requires Valid() && key in escrows && payee in balances && EscrowOk(key, e, balances) && amount >= 0
      requires e.tokens + e.fee + amount == escrows[key].tokens + escrows[key].fee
      modifies this`balances, this`escrows
      ensures balances == old(balances)[payee := old(balances)[payee] + amount] && escrows == old(escrows)[key := e]
      ensures Valid() && Worth() == old(Worth())
      ensures old(Solvent()) ==> Solvent()
    {
      hide Sum, Held, RecordsFit, Vesting.Sound, BidsReserved, Outstanding, EscrowOk;
      var more := balances[payee := balances[payee] + amount];
      SumUpdate(balances, payee, balances[payee] + amount);
      HeldUpdate(escrows, key, e);
      RecordsEscrow(escrows, requests, withdrawals, routes, balances, more, key, e);
      balances, escrows := more, escrows[key := e];
    }

    /** Pays all an escrow holds to one account and removes it. */
    method CloseEscrow(key: EscrowKey, payee: string)
      requires Valid() && key in escrows && payee in balances
      modifies this`balances, this`escrows
      ensures balances == Added(old(balances), payee, old(escrows)[key].tokens + old(escrows)[key].fee)
      ensures escrows == old(escrows) - {key}
      ensures Valid() && Worth() == old(Worth())
      ensures old(Solvent()) ==> Solvent()
    {
      hide Sum, Held, RecordsFit, Vesting.Sound, BidsReserved, Outstanding;
      var amount := escrows[key].tokens + escrows[key].fee;
      var more := balances[payee := balances[payee] + amount];
      SumUpdate(balances, payee, balances[payee] + amount);
      HeldRemove(escrows, key);
      EscrowOf(escrows, requests, withdrawals, routes, balances, key);
      RecordsClosed(escrows, requests, withdrawals, routes, balances, more, key);
      balances, escrows := more, escrows - {key};
    }

    method EscrowApprove(key: EscrowKey, to: string, agent: string, who: string, approve: bool,
                         now: nat) returns (ok: bool)
      requires Valid() && (who == to || who == agent)
      modifies this`balances, this`escrows
      ensures ok <==> key in old(escrows) && CanRatify(old(escrows)[key], to, agent, who, now)
      ensures ok && !approve ==>
        var e := old(escrows)[key];
        && escrows == old(escrows) - {key}
        && balances == old(balances)[key.from := old(balances)[key.from] + e.tokens + e.fee]
      ensures ok && approve ==>
        var e := Ratified(old(escrows)[key], who);
        if e.Approved() then
          && escrows == old(escrows)[key := e.(fee := 0)]
          && balances == old(balances)[agent := old(balances)[agent] + e.fee]
        else
          escrows == old(escrows)[key := e] && balances == old(balances)
      ensures !ok ==> balances == old(balances) && escrows == old(escrows)
      ensures Valid() && Worth() == old(Worth())
      ensures old(Solvent()) ==> Solvent()
    {
      hide Worth, RecordsFit, Vesting.Sound, BidsReserved, Outstanding, AllNonNegative;
      if key !in escrows || !CanRatify(escrows[key], to, agent, who, now) {
        return false;
      }
      EscrowOf(escrows, requests, withdrawals, routes, balances, key);
      if !approve {
        CloseEscrow(key, key.from);
      } else {
        var e := Ratified(escrows[key], who);
        if e.Approved() {
          SettleEscrow(key, e.(fee := 0), agent, e.fee);
        } else {
          assert balances == balances[agent := balances[agent] + 0];
          SettleEscrow(key, e, agent, 0);
        }
      }
      return true;
    }

    method EscrowDispute(key: EscrowKey, to: string, agent: string, now: nat) returns (ok: bool)
      requires Valid()
      modifies this`balances, this`escrows
      ensures ok <==> key in old(escrows) && var e := old(escrows)[key];
        now < e.expiration && e.Approved() && !e.disputed && e.to == to && e.agent == agent
      ensures escrows == if ok then old(escrows)[key := old(escrows)[key].(disputed := true)] else old(escrows)
      ensures Valid() && Worth() == old(Worth()) && balances == old(balances)
      ensures old(Solvent()) ==> Solvent()
    {
      hide Worth, RecordsFit, Vesting.Sound, BidsReserved, Outstanding, AllNonNegative;
      if key !in escrows || now >= escrows[key].expiration || !escrows[key].Approved() || escrows[key].disputed ||
         escrows[key].to != to || escrows[key].agent != agent {
        return false;
      }
      EscrowOf(escrows, requests, withdrawals, routes, balances, key);
      assert balances == balances[agent := balances[agent] + 0];
      SettleEscrow(key, escrows[key].(disputed := true), agent, 0);
      return true;
    }

    method EscrowRelease(key: EscrowKey, to: string, agent: string, who: string, receiver: string, amount: nat,
                         now: nat)
      returns (ok: bool)
      requires Valid()
      modifies this`balances, this`escrows
      ensures ok <==> key in old(escrows) && CanRelease(key, old(escrows)[key], to, agent, who, receiver, amount, now)
      ensures ok ==>
        var e := old(escrows)[key];
        && balances == old(balances)[receiver := old(balances)[receiver] + amount]
        && escrows == if e.tokens == amount then old(escrows) - {key}
                      else old(escrows)[key := e.(tokens := e.tokens - amount)]
      ensures !ok ==> balances == old(balances) && escrows == old(escrows)
      ensures Valid() && Worth() == old(Worth())
      ensures old(Solvent()) ==> Solvent()
    {
      hide Worth, RecordsFit, Vesting.Sound, BidsReserved, Outstanding, AllNonNegative;
      if key !in escrows || !CanRelease(key, escrows[key], to, agent, who, receiver, amount, now) {
        return false;
      }
      EscrowOf(escrows, requests, withdrawals, routes, balances, key);
      var e := escrows[key];
      if e.tokens == amount {
        CloseEscrow(key, receiver);
      } else {
        SettleEscrow(key, e.(tokens := e.tokens - amount), receiver, amount);
      }
      return true;
    }

    /** Returns the escrows that were not ratified in time. */
    method ExpireEscrows(now: nat)
      requires Valid()
      modifies this`balances, this`escrows
      ensures escrows == map k | k in old(escrows) && !old(escrows)[k].Lapsed(now) :: old(escrows)[k]
      ensures forall k :: k in old(escrows) ==>
        var e := old(escrows)[k];
        k in escrows <==> (e.toApproved && e.agentApproved) || now < e.ratification
      ensures balances.Keys == old(balances).Keys
      ensures forall x :: x in balances ==> balances[x] == old(balances)[x] + Owed(old(escrows), x, now)
      ensures Valid() && Worth() == old(Worth())
      ensures old(Solvent()) ==> Solvent()
    {
      hide Worth, RecordsFit, Vesting.Sound, BidsReserved, Outstanding, AllNonNegative, Returned;
      ReturnedStart(balances, escrows, now);
      while exists k :: k in escrows && escrows[k].Lapsed(now)
        invariant Valid() && Worth() == old(Worth()) && (old(Solvent()) ==> Solvent())
        invariant Returned(old(balances), old(escrows), balances, escrows, now)
        decreases escrows.Keys
      {
        var k :| k in escrows && escrows[k].Lapsed(now);
        EscrowOf(escrows, requests, withdrawals, routes, balances, k);
        ReturnedStep(old(balances), old(escrows), balances, escrows, now, k);
        assert (escrows - {k}).Keys == escrows.Keys - {k};
        CloseEscrow(k, k.from);
      }
      ReturnedEnd(old(balances), old(escrows), balances, escrows, now);
    }

    // -------------------------------------------------------------------------
    // Routes
    // -------------------------------------------------------------------------

    /** Sets, changes or removes a withdrawal route. A refusal changes nothing. */
    method SetRoute(from: string, r: Route, at: nat) returns (ok: bool)
      requires Valid() && r.percent <= FULL && (from in routes ==> at <= |routes[from]|)
      modifies this`routes
      ensures ok <==>
        && from in old(routes) && r.to in balances
        && (FindRoute(old(routes)[from], r.to).None? ==> r.percent != 0 && |old(routes)[from]| < MAX_ROUTES)
        && Counted(Rerouted(old(routes)[from], r, at)) <= FULL
      ensures routes == if ok then old(routes)[from := Rerouted(old(routes)[from], r, at)] else old(routes)
      ensures Valid() && Worth() == old(Worth())
    {
      hide Sum, Held, RecordsFit, Vesting.Sound, BidsReserved, Outstanding, TotalPercent, AllNonNegative, Rerouted;
      hide Walked;
      if from !in routes || r.to !in balances {
        return false;
      }
      if FindRoute(routes[from], r.to).None? && (r.percent == 0 || |routes[from]| >= MAX_ROUTES) {
        return false;
      }
      var rs := Rerouted(routes[from], r, at);
      RecordsOf(escrows, requests, withdrawals, routes, balances, from);
      ReroutedPercent(routes[from], r, at);
      var total := SumPercent(Walked(rs));
      if total > FULL {
        return false;
      }
      RecordsRerouted(escrows, requests, withdrawals, routes, balances, from, r, at);
      routes := routes[from := rs];
      return true;
    }

    /** Adds the percentages in 16 bits. */
    method SumPercent(rs: seq<Route>) returns (total: nat)
      requires TotalPercent(rs) < 0x10000
      ensures total == TotalPercent(rs)
    {
      total := 0;
      for i := 0 to |rs|
        invariant total == TotalPercent(rs[..i])
      {
        assert rs[..i + 1][..i] == rs[..i];
        PercentPrefix(rs, i + 1);
        total := (total + rs[i].percent) % 0x10000;
      }
      assert rs[..|rs|] == rs;
    }

    // -------------------------------------------------------------------------
    // Transfers and new accounts
    // -------------------------------------------------------------------------

    method AdjustBalance(x: string, change: int)
      requires Valid() && x in balances
      modifies this`balances
      ensures balances == Added(old(balances), x, change)
      ensures Valid() && Worth() == old(Worth()) + change
    {
      hide Valid, Sum, Held, RecordsFit, Vesting.Sound, BidsReserved;
      Accounts();
      Records();
      AddedSum(balances, x, change);
      balances := balances[x := balances[x] + change];
      RecordsKept(escrows, requests, withdrawals, routes, old(balances), balances);
      Moved();
    }

    /** Turns tokens that have left their holder into shares. */
    method VestTokens(x: string, tokens: nat)
      requires Valid() && x in vest.shares
      modifies this`vest
      ensures Payable(old(vest), [Payment(x, tokens)]) && vest == Vested(old(vest), Payment(x, tokens))
      ensures Valid() && Worth() == old(Worth()) + tokens
    {
      hide Valid, Sum, Held, RecordsOk, BidsReserved, Vested, Minted;
      Accounts();
      Records();
      VestedSound(vest, Payment(x, tokens));
      CreateVesting(x, tokens);
      Moved();
    }

    method FundCommittee(tokens: nat)
      requires Valid()
      modifies this`committeeFund
      ensures committeeFund == old(committeeFund) + tokens
      ensures Valid() && Worth() == old(Worth()) + tokens
    {
      hide Valid, Sum, Held, RecordsOk, BidsReserved, Vesting.Sound;
      Accounts();
      Records();
      committeeFund := committeeFund + tokens;
      Moved();
    }

    /** Puts the sale `s` in place and reserves its bid instead of the old one. */
    method Rebook(x: string, s: Sale)
      requires Valid() && x in sales && SaleOk(s, sales.Keys)
      modifies this`reserved, this`sales
      ensures sales == old(sales)[x := s]
      ensures Payee(old(reserved), old(sales)[x]) && Payee(old(reserved), s)
      ensures reserved == Rebid(old(reserved), old(sales)[x], s)
      ensures Valid() && Worth() == old(Worth()) - old(sales)[x].bid + s.bid
    {
      hide Valid, Sum, Held, RecordsOk, Vesting.Sound, Exact, Added;
      Accounts();
      Records();
      SaleOf(reserved, sales, x);
      RebidExact(reserved, sales, x, s);
      var bidder, bid := sales[x].bidder, sales[x].bid;
      if bidder != NOBODY {
        reserved := Added(reserved, bidder, -bid);
      }
      if s.HasBid() {
        reserved := Added(reserved, s.bidder, s.bid);
      }
      sales := sales[x := s];
      Moved();
    }

    method Transfer(from: string, to: string, amount: nat) returns (ok: bool)
      requires Valid()
      modifies this`balances
      ensures ok <==> from in old(balances) && to in old(balances) && old(balances)[from] >= amount
      ensures balances == if ok then Added(Added(old(balances), from, 0 - amount), to, amount) else old(balances)
      ensures Valid() && Worth() == old(Worth())
      ensures old(Solvent()) ==> Solvent()
    {
      hide Valid, Worth;
      if from !in balances || to !in balances || balances[from] < amount {
        return false;
      }
      AdjustBalance(from, 0 - amount);
      AdjustBalance(to, amount);
      return true;
    }

    /** Turns tokens into shares of an account, by default the payer's own. */
    method TransferToVesting(from: string, to: string, amount: nat) returns (ok: bool)
      requires Valid()
      modifies this`balances, this`vest
      ensures ok <==> from in old(balances) && (to == NOBODY || to in old(balances)) && old(balances)[from] >= amount
      ensures ok ==>
        && balances == Added(old(balances), from, 0 - amount)
        && Payable(old(vest), [Payment(if to == NOBODY then from else to, amount)])
        && vest == Vested(old(vest), Payment(if to == NOBODY then from else to, amount))
      ensures !ok ==> balances == old(balances) && vest == old(vest)
      ensures Valid() && Worth() == old(Worth())
      ensures old(Solvent()) ==> Solvent()
    {
      hide Valid, Worth, Vested, Backed;
      Accounts();
      if from !in balances || (to != NOBODY && to !in balances) || balances[from] < amount {
        return false;
      }
      AdjustBalance(from, 0 - amount);
      VestTokens(if to == NOBODY then from else to, amount);
      return true;
    }

    method OpenHoldings(x: string)
      modifies this`balances, this`vest, this`reserved, this`sales
      ensures balances == old(balances)[x := 0] && reserved == old(reserved)[x := 0]
      ensures vest == Opened(old(vest), x) && sales == old(sales)[x := NOT_FOR_SALE]
    {
      balances, reserved, vest := balances[x := 0], reserved[x := 0], vest.(shares := vest.shares[x := 0]);
      sales := sales[x := NOT_FOR_SALE];
    }

    method OpenRecords(x: string, now: nat)
      modifies this`withdrawals, this`routes, this`energies
      ensures withdrawals == old(withdrawals)[x := Withdrawal(0, 0, 0, None)] && routes == old(routes)[x := []]
      ensures energies == old(energies)[x := Energy(FULL, now)]
    {
      withdrawals, routes := withdrawals[x := Withdrawal(0, 0, 0, None)], routes[x := []];
      energies := energies[x := Energy(FULL, now)];
    }

    /** Gives a new account its place in every table. */
    method OpenAccount(x: string, now: nat)
      requires Valid() && x !in balances && x != NOBODY
      modifies this`balances, this`vest, this`reserved, this`withdrawals, this`routes, this`energies, this`sales
      ensures balances == old(balances)[x := 0] && reserved == old(reserved)[x := 0]
      ensures vest == Opened(old(vest), x)
      ensures withdrawals == old(withdrawals)[x := Withdrawal(0, 0, 0, None)] && routes == old(routes)[x := []]
      ensures energies == old(energies)[x := Energy(FULL, now)] && sales == old(sales)[x := NOT_FOR_SALE]
      ensures Valid() && Worth() == old(Worth())
      ensures old(Solvent()) ==> Solvent()
    {
      hide Valid, Sum, Held, RecordsFit, Exact, Vesting.Sound;
      Unknown(x);
      Records();
      SumUpdate(balances, x, 0);
      SumUpdate(reserved, x, 0);
      OpenedSound(vest, x);
      OpenedExact(reserved, sales, x);
      RecordsOpened(escrows, requests, withdrawals, routes, balances, x);
      OpenHoldings(x);
      OpenRecords(x, now);
      Grown(x);
    }

    /** A new account, whose creation fee becomes its first shares. `entitled` stands for the other
        conditions on its name, its creator's delegation and its authorities. */
    method CreateAccount(creator: string, x: string, fee: nat, entitled: bool, now: nat) returns (ok: bool)
      requires Valid() && x != NOBODY
      modifies this`balances, this`vest, this`reserved, this`withdrawals, this`routes, this`energies, this`sales
      ensures ok <==> creator in old(balances) && old(balances)[creator] >= fee && entitled && x !in old(balances)
      ensures ok ==>
        && balances == Added(old(balances), creator, 0 - fee)[x := 0]
        && Payable(Opened(old(vest), x), [Payment(x, fee)])
        && vest == Vested(Opened(old(vest), x), Payment(x, fee))
        && sales == old(sales)[x := NOT_FOR_SALE]
      ensures !ok ==> balances == old(balances) && vest == old(vest) && sales == old(sales)
      ensures Valid() && Worth() == old(Worth())
      ensures old(Solvent()) ==> Solvent()
    {
      hide Valid, Worth, Vested, Solvent, Opened;
      Accounts();
      if creator !in balances || balances[creator] < fee || !entitled || x in balances {
        return false;
      }
      OpenAccount(x, now);
      var paid := TransferToVesting(creator, x, fee);
      assert balances == Added(old(balances), creator, 0 - fee)[x := 0];
      return true;
    }

    // -------------------------------------------------------------------------
    // Sales and auctions
    // -------------------------------------------------------------------------

    /** Gives the bid on `x` back, if there is one, and puts `s` in place. */
    method GiveBidBack(x: string, s: Sale)
      requires Valid() && x in sales && SaleOk(s, sales.Keys) && !s.HasBid()
      modifies this`balances, this`reserved, this`sales
      ensures sales == old(sales)[x := s]
      ensures Payee(old(balances), old(sales)[x]) && balances == Refunded(old(balances), old(sales)[x])
      ensures Valid() && Worth() == old(Worth())
      ensures old(Solvent()) ==> Solvent()
    {
      hide Valid, Worth, Exact, SaleOk, Rebid, Added;
      Account(sales[x].bidder);
      Records();
      SaleOf(reserved, sales, x);
      NoBid(s, sales.Keys);
      if Solvent() {
        RefundSolvent(balances, sales[x]);
      }
      if sales[x].HasBid() {
        AdjustBalance(sales[x].bidder, sales[x].bid);
      }
      Rebook(x, s);
    }

    /** Changes a sale and leaves its bid in place. */
    method Retouch(x: string, s: Sale)
      requires Valid() && x in sales && SaleOk(s, sales.Keys) && s.bid == sales[x].bid && s.bidder == sales[x].bidder
      modifies this`sales
      ensures sales == old(sales)[x := s]
      ensures Valid() && Worth() == old(Worth())
    {
      hide Valid, Sum, Exact, Vesting.Sound, RecordsOk, Held;
      Accounts();
      Records();
      SaleOf(reserved, sales, x);
      RebidExact(reserved, sales, x, s);
      assert Rebid(reserved, sales[x], s) == reserved;
      sales := sales[x := s];
      Moved();
    }

    /** Takes the fee of a first sale, if it is due. */
    method PayFee(x: string, fee: nat, isDue: bool) returns (ok: bool)
      requires Valid() && x in balances
      modifies this`balances, this`committeeFund
      ensures ok <==> !isDue || old(balances)[x] >= fee
      ensures balances == Charged(old(balances), x, fee, ok && isDue) && (!ok ==> balances == old(balances))
      ensures committeeFund == old(committeeFund) + if ok && isDue then fee else 0
      ensures Valid() && Worth() == old(Worth())
      ensures old(Solvent()) ==> Solvent()
    {
      hide Valid, Worth;
      if isDue {
        if balances[x] < fee {
          return false;
        }
        AdjustBalance(x, 0 - fee);
        FundCommittee(fee);
      }
      return true;
    }

    /** Changes a sale after its fee was paid; the bid is given back where the change drops it. */
    method Resell(x: string, s: Sale, dropsBid: bool, fee: nat) returns (ok: bool)
      requires Valid() && x in sales && SaleOk(s, sales.Keys)
      requires if dropsBid then !s.HasBid() else s.bid == sales[x].bid && s.bidder == sales[x].bidder
      modifies this`balances, this`reserved, this`sales, this`committeeFund
      ensures x in old(balances) && (ok <==> old(sales)[x].seller != NOBODY || old(balances)[x] >= fee)
      ensures ok ==>
        var first := old(sales)[x].seller == NOBODY;
        var paid := Charged(old(balances), x, fee, first);
        && sales == old(sales)[x := s] && committeeFund == old(committeeFund) + (if first then fee else 0)
        && Payee(paid, old(sales)[x]) && balances == if dropsBid then Refunded(paid, old(sales)[x]) else paid
      ensures !ok ==> sales == old(sales) && balances == old(balances) && reserved == old(reserved)
      ensures Valid() && Worth() == old(Worth())
      ensures old(Solvent()) ==> Solvent()
    {
      hide Valid, Worth, Exact, SaleOk, Rebid, Solvent, Charged, Refunded;
      Account(x);
      Account(sales[x].bidder);
      Records();
      SaleOf(reserved, sales, x);
      ok := PayFee(x, fee, sales[x].seller == NOBODY);
      if ok {
        if dropsBid {
          GiveBidBack(x, s);
        } else {
          Retouch(x, s);
        }
      }
    }

    method SetPrice(x: string, seller: string, price: int, onSale: bool, fee: nat, now: nat) returns (ok: bool)
      requires Valid() && price > 0
      modifies this`balances, this`reserved, this`sales, this`committeeFund
      ensures ok <==>
        x in old(sales) && seller in old(sales) && (old(sales)[x].seller != NOBODY || old(balances)[x] >= fee)
      ensures ok ==>
        var s := old(sales)[x];
        var paid := Charged(old(balances), x, fee, s.seller == NOBODY);
        && sales == old(sales)[x := Priced(s, seller, price, onSale, now)]
        && Payee(paid, s) && balances == (if PriceDropsBid(s, price, onSale) then Refunded(paid, s) else paid)
        && committeeFund == old(committeeFund) + if s.seller == NOBODY then fee else 0
      ensures !ok ==> sales == old(sales) && balances == old(balances) && reserved == old(reserved)
      ensures Valid() && Worth() == old(Worth())
      ensures old(Solvent()) ==> Solvent()
    {
      hide Valid, Worth, Exact, Solvent, SaleOk, Priced, PriceDropsBid, Charged, Refunded;
      Accounts();
      Records();
      if x !in sales || seller !in sales {
        return false;
      }
      SaleOf(reserved, sales, x);
      PricedOk(sales[x], sales.Keys, seller, price, onSale, now);
      ok := Resell(x, Priced(sales[x], seller, price, onSale, now), PriceDropsBid(sales[x], price, onSale), fee);
    }

    method SetTarget(x: string, seller: string, target: string, price: int, onSale: bool, fee: nat, now: nat)
      returns (ok: bool)
      requires Valid() && price > 0
      modifies this`balances, this`reserved, this`sales, this`committeeFund
      ensures ok <==>
        && x in old(sales) && seller in old(sales) && target in old(sales)
        && (old(sales)[x].seller != NOBODY || old(balances)[x] >= fee)
      ensures ok ==>
        var s := old(sales)[x];
        var paid := Charged(old(balances), x, fee, s.seller == NOBODY);
        && sales == old(sales)[x := Targeted(s, seller, target, price, onSale, now)]
        && Payee(paid, s) && balances == (if TargetDropsBid(s, target, price, onSale) then Refunded(paid, s) else paid)
        && committeeFund == old(committeeFund) + if s.seller == NOBODY then fee else 0
      ensures !ok ==> sales == old(sales) && balances == old(balances) && reserved == old(reserved)
      ensures Valid() && Worth() == old(Worth())
      ensures old(Solvent()) ==> Solvent()
    {
      hide Valid, Worth, Exact, Solvent, SaleOk, Targeted, TargetDropsBid, Charged, Refunded;
      Accounts();
      Records();
      if x !in sales || seller !in sales || target !in sales {
        return false;
      }
      SaleOf(reserved, sales, x);
      TargetedOk(sales[x], sales.Keys, seller, target, price, onSale, now);
      var next := Targeted(sales[x], seller, target, price, onSale, now);
      ok := Resell(x, next, TargetDropsBid(sales[x], target, price, onSale), fee);
    }

    /** Offers names below an account's own for sale. */
    method SetNamePrice(x: string, seller: string, price: int, onSale: bool, fee: nat) returns (ok: bool)
      requires Valid() && price > 0
      modifies this`balances, this`sales, this`committeeFund
      ensures ok <==>
        x in old(sales) && seller in old(sales) && (old(sales)[x].subSeller != NOBODY || old(balances)[x] >= fee)
      ensures ok ==>
        var s := old(sales)[x];
        && sales == old(sales)[x := s.(subSeller := seller, subOnSale := onSale, subPrice := price)]
        && balances == Charged(old(balances), x, fee, s.subSeller == NOBODY)
        && committeeFund == old(committeeFund) + if s.subSeller == NOBODY then fee else 0
      ensures !ok ==> sales == old(sales) && balances == old(balances)
      ensures Valid() && Worth() == old(Worth())
      ensures old(Solvent()) ==> Solvent()
    {
      hide Valid, Worth, Exact, Solvent, SaleOk, Charged;
      Account(x);
      Account(seller);
      if x !in sales || seller !in sales {
        return false;
      }
      Records();
      SaleOf(reserved, sales, x);
      NamePricedOk(sales[x], sales.Keys, seller, price, onSale);
      ok := PayFee(x, fee, sales[x].subSeller == NOBODY);
      if ok {
        Retouch(x, sales[x].(subSeller := seller, subOnSale := onSale, subPrice := price));
      }
    }

    /** A bid while the auction runs. The buyer's balance is not checked. */
    method Bid(x: string, buyer: string, offer: int, clock: nat)
      requires Valid() && x in sales && buyer in sales && sales[x].onSale
      requires (sales[x].target == NOBODY || sales[x].target == buyer) && offer >= sales[x].LeastBid()
      modifies this`balances, this`reserved, this`sales
      ensures sales == old(sales)[x := Bidden(old(sales)[x], buyer, offer, clock + EXTENSION)]
      ensures buyer in old(balances) && Payee(old(balances), old(sales)[x])
      ensures balances == AfterBid(old(balances), old(sales)[x], buyer, offer)
      ensures Valid() && Worth() == old(Worth())
      ensures old(Solvent()) ==> (Solvent() <==> Covers(old(balances), old(sales)[x], buyer, offer))
    {
      hide Valid, Worth, Exact, SaleOk, Rebid, Sale.LeastBid, AllNonNegative, Added;
      Account(buyer);
      Account(sales[x].bidder);
      Records();
      SaleOf(reserved, sales, x);
      var s, next := sales[x], Bidden(sales[x], buyer, offer, clock + EXTENSION);
      BiddenOk(s, sales.Keys, buyer, offer, clock + EXTENSION);
      if Solvent() {
        BidSolvent(balances, s, buyer, offer);
      }
      if s.HasBid() {
        AdjustBalance(s.bidder, s.bid);
      }
      Rebook(x, next);
      AdjustBalance(buyer, 0 - offer);
    }

    /** Pays a seller the price and turns `toShares` of the buyer's tokens into shares of the account bought. */
    method PayForAccount(x: string, buyer: string, seller: string, price: nat, toShares: nat)
      requires Valid() && x in balances && buyer in balances && seller in balances
      requires balances[buyer] >= price + toShares
      modifies this`balances, this`vest
      ensures balances == Settled(old(balances), buyer, seller, price, toShares)
      ensures Payable(old(vest), [Payment(x, toShares)]) && vest == Vested(old(vest), Payment(x, toShares))
      ensures Valid() && Worth() == old(Worth())
      ensures old(Solvent()) ==> Solvent()
    {
      hide Valid, Worth, Vested, AllNonNegative, Added, Backed;
      Account(x);
      if Solvent() {
        SettledSolvent(balances, buyer, seller, price, toShares);
      }
      AdjustBalance(buyer, 0 - price);
      AdjustBalance(seller, price);
      AdjustBalance(buyer, 0 - toShares);
      VestTokens(x, toShares);
    }

    /** A purchase at the offered price once the time for bids is over. */
    method Purchase(x: string, buyer: string, toShares: nat)
      requires Valid() && x in sales && buyer in balances && sales[x].onSale && !sales[x].HasBid()
      requires balances[buyer] >= sales[x].price + toShares
      modifies this`balances, this`sales, this`vest
      ensures sales == old(sales)[x := Sold(old(sales)[x])]
      ensures old(sales)[x].seller in old(balances)
      ensures balances == Settled(old(balances), buyer, old(sales)[x].seller, old(sales)[x].price, toShares)
      ensures Payable(old(vest), [Payment(x, toShares)]) && vest == Vested(old(vest), Payment(x, toShares))
      ensures Valid() && Worth() == old(Worth())
      ensures old(Solvent()) ==> Solvent()
    {
      hide Valid, Worth, Exact, Solvent, Vested, Settled, Payable;
      Accounts();
      Records();
      SaleOf(reserved, sales, x);
      PayForAccount(x, buyer, sales[x].seller, sales[x].price, toShares);
      Retouch(x, Sold(sales[x]));
    }

    /** Buys a name that has no account yet from the owner of the name it is below. */
    method PurchaseName(x: string, parent: string, buyer: string, toShares: nat, now: nat)
      requires Valid() && x !in sales && x != NOBODY && parent in sales && buyer in balances && sales[parent].subOnSale
      requires balances[buyer] >= sales[parent].subPrice + toShares
      modifies this`balances, this`vest, this`reserved, this`withdrawals, this`routes, this`energies, this`sales
      ensures sales == old(sales)[x := NOT_FOR_SALE] && old(sales)[parent].subSeller in old(balances)
      ensures
        var s := old(sales)[parent];
        balances == Settled(old(balances)[x := 0], buyer, s.subSeller, s.subPrice, toShares)
      ensures Payable(Opened(old(vest), x), [Payment(x, toShares)])
      ensures vest == Vested(Opened(old(vest), x), Payment(x, toShares))
      ensures Valid() && Worth() == old(Worth())
      ensures old(Solvent()) ==> Solvent()
    {
      hide Valid, Worth, Exact, Solvent, Vested, Settled, Payable, Opened;
      Accounts();
      Records();
      SaleOf(reserved, sales, parent);
      OpenAccount(x, now);
      PayForAccount(x, buyer, sales[parent].subSeller, sales[parent].subPrice, toShares);
    }

    /** Bids for an account, buys it once the time for bids is over, or buys a name that has no account yet.
        `blankKey` says whether the new authorities' key is blank, `wellNamed` whether the parts of such a name are
        valid names. */
    method Buy(x: string, buyer: string, offer: int, toShares: nat, creationFee: nat, blankKey: bool, recovery: bool,
               wellNamed: bool, now: nat, clock: nat) returns (ok: bool)
      requires Valid() && x != NOBODY && offer > 0
      modifies this`balances, this`vest, this`reserved, this`withdrawals, this`routes, this`energies, this`sales
      ensures ok <==>
        && buyer in old(balances) && !blankKey && toShares >= creationFee
        && if x in old(sales) then CanBuy(old(sales)[x], buyer, old(balances)[buyer], offer, toShares, recovery, now)
           else wellNamed && CanBuyName(old(sales), x, old(balances)[buyer], offer, toShares)
      ensures ok && x in old(sales) ==>
        var s := old(sales)[x];
        if s.start > now then
          && sales == old(sales)[x := Bidden(s, buyer, offer, clock + EXTENSION)] && vest == old(vest)
          && Payee(old(balances), s) && balances == AfterBid(old(balances), s, buyer, offer)
        else
          && sales == old(sales)[x := Sold(s)] && s.seller in old(balances)
          && balances == Settled(old(balances), buyer, s.seller, s.price, toShares)
          && Payable(old(vest), [Payment(x, toShares)]) && vest == Vested(old(vest), Payment(x, toShares))
      ensures ok && x !in old(sales) ==>
        var s := old(sales)[Parent(x).value];
        && sales == old(sales)[x := NOT_FOR_SALE] && s.subSeller in old(balances)
        && balances == Settled(old(balances)[x := 0], buyer, s.subSeller, s.subPrice, toShares)
        && Payable(Opened(old(vest), x), [Payment(x, toShares)])
        && vest == Vested(Opened(old(vest), x), Payment(x, toShares))
      ensures !ok ==> sales == old(sales) && balances == old(balances) && reserved == old(reserved) && vest == old(vest)
      ensures Valid() && Worth() == old(Worth())
      ensures old(Solvent()) ==>
        (Solvent() <==> (ok && x in old(sales) && old(sales)[x].start > now ==>
                         Covers(old(balances), old(sales)[x], buyer, offer)))
    {
      hide Valid, Worth, Solvent, Sale.LeastBid, Bidden, Sold, Settled, AfterBid, Vested, Payable, Opened, Covers;
      hide Parent;
      Accounts();
      if buyer !in balances || blankKey || toShares < creationFee {
        return false;
      }
      if x in sales {
        if !CanBuy(sales[x], buyer, balances[buyer], offer, toShares, recovery, now) {
          return false;
        }
        if sales[x].start > now {
          Bid(x, buyer, offer, clock);
        } else {
          Purchase(x, buyer, toShares);
        }
      } else {
        if !wellNamed || !CanBuyName(sales, x, balances[buyer], offer, toShares) {
          return false;
        }
        PurchaseName(x, Parent(x).value, buyer, toShares, now);
      }
      return true;
    }

    /** Ends one auction. An auction has a bid, and the account goes to the bidder unless its recovery is
        requested; then the bid is given back. */
    method EndAuction(x: string, recovery: bool)
      requires Valid() && x in sales && sales[x].onAuction
      modifies this`balances, this`reserved, this`sales
      ensures sales == old(sales)[x := Ended(old(sales)[x], recovery)]
      ensures
        var s := old(sales)[x];
        && s.bidder in old(balances) && s.seller in old(balances)
        && balances == Added(old(balances), if recovery then s.bidder else s.seller, s.bid)
      ensures Valid() && Worth() == old(Worth())
      ensures old(Solvent()) ==> Solvent()
    {
      hide Valid, Worth, Exact, SaleOk, Rebid, Ended, Sale.Sells;
      Account(sales[x].bidder);
      Account(sales[x].seller);
      Records();
      SaleOf(reserved, sales, x);
      var s := sales[x];
      EndedOk(s, sales.Keys, recovery);
      if s.Sells() && !recovery {
        AdjustBalance(s.seller, s.bid);
        Rebook(x, Ended(s, recovery));
      } else {
        GiveBidBack(x, Ended(s, recovery));
      }
    }

    /** Ends all auctions whose time is over. */
    method EndAuctions(now: nat, recoveries: set<string>)
      requires Valid()
      modifies this`balances, this`reserved, this`sales
      ensures sales.Keys == old(sales).Keys
      ensures forall x :: x in sales ==>
        sales[x] == if IsOver(old(sales)[x], now) then Ended(old(sales)[x], x in recoveries) else old(sales)[x]
      ensures balances.Keys == old(balances).Keys
      ensures forall y :: y in balances ==>
        balances[y] == old(balances)[y] + Sum(Proceeds(old(sales), now, recoveries, y))
      ensures forall x :: x in sales ==>
        (sales[x].onAuction <==> old(sales)[x].onAuction && now < old(sales)[x].start)
      ensures Valid() && Worth() == old(Worth())
      ensures old(Solvent()) ==> Solvent()
    {
      hide Valid, Worth, Solvent, Sale.Sells, PartlyEnded, PartlyPaid, Over, Ended, Added, Proceeds, Sum;
      PartlyStart(sales, now, recoveries);
      PaidStart(balances, sales, now, recoveries);
      while exists x :: x in sales && IsOver(sales[x], now)
        invariant Valid() && Worth() == old(Worth()) && (old(Solvent()) ==> Solvent())
        invariant PartlyEnded(old(sales), sales, now, recoveries)
        invariant PartlyPaid(old(balances), old(sales), balances, sales, now, recoveries)
        decreases Over(sales, now)
      {
        var x :| x in sales && IsOver(sales[x], now);
        PartlyStep(old(sales), sales, now, recoveries, x);
        ghost var before, was := balances, sales;
        EndAuction(x, x in recoveries);
        PaidOne(old(balances), old(sales), before, was, now, recoveries, x, balances);
      }
      PartlyEnd(old(sales), sales, now, recoveries);
      PaidEnd(old(balances), old(sales), balances, sales, now, recoveries);
      NoneOver(old(sales), sales, now, recoveries);
    }
  }
}
