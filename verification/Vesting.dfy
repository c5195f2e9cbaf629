/** Lists of payments into a column of account balances. */
module Payments {
  import opened Sums

  datatype Payment = Payment(to: string, amount: int)

  type Column = map<string, int>

  predicate AllNonNegative(c: Column) {
    forall x :: x in c ==> c[x] >= 0
  }

  function Added(c: Column, x: string, v: int): (r: Column)
    requires x in c
    ensures r.Keys == c.Keys
  {
    c[x := c[x] + v]
  }

  lemma AddedSum(c: Column, x: string, v: int)
    requires x in c
    ensures Sum(Added(c, x, v)) == Sum(c) + v
  {
    hide Sum;
    SumUpdate(c, x, c[x] + v);
  }

  function Total(ps: seq<Payment>): int {
    if ps == [] then 0 else Total(ps[..|ps| - 1]) + ps[|ps| - 1].amount
  }

  /** Every payee has an account. */
  predicate Known(c: Column, ps: seq<Payment>) {
    forall i :: 0 <= i < |ps| ==> ps[i].to in c
  }

  predicate NonNegative(ps: seq<Payment>) {
    forall i :: 0 <= i < |ps| ==> ps[i].amount >= 0
  }

  function Pay(c: Column, ps: seq<Payment>): (r: Column)
    requires Known(c, ps)
    ensures r.Keys == c.Keys
  {
    if ps == [] then c
    else
      var before, p := Pay(c, ps[..|ps| - 1]), ps[|ps| - 1];
      before[p.to := before[p.to] + p.amount]
  }

  /** What the payments bring one account. */
  ghost function PaidTo(ps: seq<Payment>, x: string): int {
    if ps == [] then 0 else PaidTo(ps[1..], x) + if ps[0].to == x then ps[0].amount else 0
  }

  /** Everybody gets what is paid to them. */
  lemma {:induction false} PayEach(c: Column, ps: seq<Payment>, x: string)
    requires Known(c, ps) && x in c
    ensures Pay(c, ps)[x] == c[x] + PaidTo(ps, x)
  {
    if ps != [] {
      PayEach(c, ps[..|ps| - 1], x);
      PaidToLast(ps, x);
    }
  }

  lemma {:induction false} PaidToLast(ps: seq<Payment>, x: string)
    requires ps != []
    ensures PaidTo(ps, x) == PaidTo(ps[..|ps| - 1], x) + if ps[|ps| - 1].to == x then ps[|ps| - 1].amount else 0
  {
    if |ps| > 1 {
      PaidToLast(ps[1..], x);
      assert ps[1..][..|ps| - 2] == ps[..|ps| - 1][1..];
    }
  }

  lemma {:induction false} PaySum(c: Column, ps: seq<Payment>)
    requires Known(c, ps)
    ensures Sum(Pay(c, ps)) == Sum(c) + Total(ps)
  {
    if ps != [] {
      var before, p := Pay(c, ps[..|ps| - 1]), ps[|ps| - 1];
      PaySum(c, ps[..|ps| - 1]);
      SumUpdate(before, p.to, before[p.to] + p.amount);
    }
  }

  lemma {:induction false} PayGrows(c: Column, ps: seq<Payment>, x: string)
    requires Known(c, ps) && NonNegative(ps) && x in c
    ensures Pay(c, ps)[x] >= c[x]
  {
    if ps != [] {
      PayGrows(c, ps[..|ps| - 1], x);
    }
  }

  lemma TotalAppend(ps: seq<Payment>, p: Payment)
    ensures Total(ps + [p]) == Total(ps) + p.amount
  {
    assert (ps + [p])[..|ps|] == ps;
  }

  lemma {:induction false} TotalNonNegative(ps: seq<Payment>)
    requires NonNegative(ps)
    ensures Total(ps) >= 0
  {
    if ps != [] {
      TotalNonNegative(ps[..|ps| - 1]);
    }
  }

  lemma {:induction false} TotalPrefix(ps: seq<Payment>, k: nat)
    requires NonNegative(ps) && k <= |ps|
    ensures Total(ps[..k]) <= Total(ps)
  {
    if k == |ps| {
      assert ps[..k] == ps;
    } else {
      TotalPrefix(ps[..|ps| - 1], k);
      assert ps[..|ps| - 1][..k] == ps[..k];
    }
  }
}

/** The vesting fund: shares are bought into it and redeemed from it at its current price. */
module Vesting {
  import opened Sums
  import opened Division
  import opened Payments

  datatype Vest = Vest(shares: Column, fund: int, total: int)

  /** Shares bought with `t` tokens. Without a fund or without shares a fixed price holds. */
  function Minted(fund: nat, total: nat, t: nat): nat {
    if fund == 0 || total == 0 then t * 1000000 / 1000 else t * total / fund
  }

  /** Tokens paid for `s` shares. */
  function Converted(fund: nat, total: nat, s: nat): nat {
    if fund == 0 || total == 0 then s * 1000 / 1000000 else s * fund / total
  }

  /** Shares are bought at the price of the fund, rounded down by less than one share, and the first ones at a
      thousand for a token. */
  lemma MintedMeans(fund: nat, total: nat, t: nat)
    ensures
      var m := Minted(fund, total, t);
      if fund == 0 || total == 0 then m == 1000 * t else m * fund <= t * total < (m + 1) * fund
  {
    if fund > 0 && total > 0 {
      DivAtLeast(t * total, fund, t * total / fund);
      DivAtLeast(t * total, fund, t * total / fund + 1);
    }
  }

  /** Shares are redeemed at the price of the fund, rounded down by less than one token. */
  lemma ConvertedMeans(fund: nat, total: nat, s: nat)
    ensures
      var c := Converted(fund, total, s);
      if fund == 0 || total == 0 then 1000 * c <= s < 1000 * (c + 1) else c * total <= s * fund < (c + 1) * total
  {
    if fund > 0 && total > 0 {
      DivAtLeast(s * fund, total, s * fund / total);
      DivAtLeast(s * fund, total, s * fund / total + 1);
    }
  }

  /** The fund stands behind the shares: there is a fund exactly when there are shares. */
  predicate Backed(fund: int, total: int) {
    fund >= 0 && total >= 0 && (fund == 0 <==> total == 0)
  }

  /** The recorded total is the sum of all accounts' shares. */
  ghost predicate Sound(v: Vest) {
    Backed(v.fund, v.total) && v.total == Sum(v.shares) && forall x :: x in v.shares ==> v.shares[x] >= 0
  }

  /** Redeeming shares never takes more than the fund holds, and empties it only with the last share. */
  lemma ConvertedBound(fund: nat, total: nat, s: nat)
    requires Backed(fund, total) && s <= total
    ensures Converted(fund, total, s) <= fund && Backed(fund - Converted(fund, total, s), total - s)
  {
    if total > 0 {
      MulMonotone(s, total, fund);
      DivAtLeast(s * fund, total, fund + 1);
      assert (fund + 1) * total == total * fund + total;
      DivAtLeast(s * fund, total, fund);
      if s < total {
        MulStrict(s, total, fund);
      } else {
        assert s * fund == fund * total;
      }
    }
  }

  lemma MulStrict(a: nat, b: nat, l: nat)
    requires a < b && l > 0
    ensures a * l < b * l
  {
  }

  /** Buying shares and redeeming them at once gives at most what was paid. */
  lemma NoProfit(fund: nat, total: nat, t: nat)
    requires Backed(fund, total)
    ensures var m := Minted(fund, total, t); Converted(fund + t, total + m, m) <= t
  {
    var m := Minted(fund, total, t);
    if total > 0 {
      assert m * fund <= t * total by { DivAtLeast(t * total, fund, m); }
      assert m * (fund + t) == m * fund + m * t;
      assert (t + 1) * (total + m) == t * total + t * m + total + m;
      DivAtLeast(m * (fund + t), total + m, t + 1);
    } else if t > 0 {
      assert m == 1000 * t;
      DivAtLeast(m * t, m, t + 1);
      assert (t + 1) * m == m * t + m;
    }
  }

  // ---------------------------------------------------------------------------
  // Buying
  // ---------------------------------------------------------------------------

  function Vested(v: Vest, p: Payment): (r: Vest)
    requires Backed(v.fund, v.total) && p.to in v.shares && p.amount >= 0
    ensures r.shares.Keys == v.shares.Keys
  {
    var m := Minted(v.fund, v.total, p.amount);
    Vest(v.shares[p.to := v.shares[p.to] + m], v.fund + p.amount, v.total + m)
  }

  /** A payment buys shares for its payee alone, at the price of the fund. */
  lemma VestedMeans(v: Vest, p: Payment)
    requires Backed(v.fund, v.total) && p.to in v.shares && p.amount >= 0
    ensures
      var r := Vested(v, p);
      var m := r.total - v.total;
      && r.fund == v.fund + p.amount && (forall x :: x in v.shares && x != p.to ==> r.shares[x] == v.shares[x])
      && r.shares[p.to] == v.shares[p.to] + m
      && if v.total == 0 then m == 1000 * p.amount
         else m * v.fund <= p.amount * v.total < (m + 1) * v.fund
  {
    MintedMeans(v.fund, v.total, p.amount);
  }

  /** Payments leave the shares of everybody else alone. */
  lemma {:induction false} VestAllOthers(v: Vest, ps: seq<Payment>, x: string)
    requires Payable(v, ps) && x in v.shares && forall i :: 0 <= i < |ps| ==> ps[i].to != x
    ensures VestAll(v, ps).shares[x] == v.shares[x]
  {
    if ps != [] {
      VestAllOthers(v, ps[..|ps| - 1], x);
    }
  }

  lemma VestedSound(v: Vest, p: Payment)
    requires Sound(v) && p.to in v.shares && p.amount >= 0
    ensures Sound(Vested(v, p)) && Vested(v, p).fund == v.fund + p.amount
  {
    var m := Minted(v.fund, v.total, p.amount);
    SumUpdate(v.shares, p.to, v.shares[p.to] + m);
    if v.total == 0 && p.amount == 0 {
      assert m == 0;
    }
  }

  predicate Payable(v: Vest, ps: seq<Payment>) {
    Backed(v.fund, v.total) && Known(v.shares, ps) && NonNegative(ps)
  }

  /** The payments are turned into shares one after the other, each at the price of its moment. */
  function VestAll(v: Vest, ps: seq<Payment>): (r: Vest)
    requires Payable(v, ps)
    ensures r.shares.Keys == v.shares.Keys && Backed(r.fund, r.total)
  {
    if ps == [] then v
    else
      var before, p := VestAll(v, ps[..|ps| - 1]), ps[|ps| - 1];
      MintedBacked(before, p);
      Vested(before, p)
  }

  lemma MintedBacked(v: Vest, p: Payment)
    requires Backed(v.fund, v.total) && p.to in v.shares && p.amount >= 0
    ensures Backed(Vested(v, p).fund, Vested(v, p).total)
  {
    if v.total == 0 && p.amount == 0 {
      assert Minted(v.fund, v.total, p.amount) == 0;
    }
  }

  lemma {:induction false} VestAllSound(v: Vest, ps: seq<Payment>)
    requires Sound(v) && Payable(v, ps)
    ensures Sound(VestAll(v, ps)) && VestAll(v, ps).fund == v.fund + Total(ps)
  {
    if ps != [] {
      VestAllSound(v, ps[..|ps| - 1]);
      VestedSound(VestAll(v, ps[..|ps| - 1]), ps[|ps| - 1]);
    }
  }

  /** A payment of nothing changes nothing. */
  lemma VestedNothing(v: Vest, x: string)
    requires Backed(v.fund, v.total) && x in v.shares
    ensures Vested(v, Payment(x, 0)) == v
  {
    assert Minted(v.fund, v.total, 0) == 0;
    assert v.shares[x := v.shares[x] + 0] == v.shares;
  }

  // ---------------------------------------------------------------------------
  // Redeeming
  // ---------------------------------------------------------------------------

  /** Balances, fund and total while shares are being turned into tokens. */
  datatype Desk = Desk(balances: Column, fund: int, total: int)

  function Redeemed(d: Desk, p: Payment): (r: Desk)
    requires Backed(d.fund, d.total) && p.to in d.balances && p.amount >= 0
    ensures r.balances.Keys == d.balances.Keys
  {
    var t := Converted(d.fund, d.total, p.amount);
    Desk(d.balances[p.to := d.balances[p.to] + t], d.fund - t, d.total - p.amount)
  }

  /** Redeemed shares leave the total, and their worth goes to their payee alone. */
  lemma RedeemedMeans(d: Desk, p: Payment)
    requires Backed(d.fund, d.total) && p.to in d.balances && 0 <= p.amount <= d.total
    ensures
      var r := Redeemed(d, p);
      var t := d.fund - r.fund;
      && r.total == d.total - p.amount && r.balances[p.to] == d.balances[p.to] + t
      && (forall x :: x in d.balances && x != p.to ==> r.balances[x] == d.balances[x])
      && (d.total > 0 ==> t * d.total <= p.amount * d.fund < (t + 1) * d.total)
  {
    ConvertedMeans(d.fund, d.total, p.amount);
  }

  predicate Redeemable(d: Desk, ps: seq<Payment>) {
    Backed(d.fund, d.total) && Known(d.balances, ps) && NonNegative(ps) && Total(ps) <= d.total
  }

  /** Shares (the amounts) are turned into tokens for the payees one after the other. */
  function RedeemAll(d: Desk, ps: seq<Payment>): (r: Desk)
    requires Redeemable(d, ps)
    ensures r.balances.Keys == d.balances.Keys && Backed(r.fund, r.total) && r.total == d.total - Total(ps)
  {
    if ps == [] then d
    else
      var before, p := RedeemAll(d, ps[..|ps| - 1]), ps[|ps| - 1];
      ConvertedBound(before.fund, before.total, p.amount);
      Redeemed(before, p)
  }

  /** What leaves the fund arrives in the balances. */
  lemma {:induction false} RedeemAllConserves(d: Desk, ps: seq<Payment>)
    requires Redeemable(d, ps)
    ensures Sum(RedeemAll(d, ps).balances) + RedeemAll(d, ps).fund == Sum(d.balances) + d.fund
  {
    if ps != [] {
      var before, p := RedeemAll(d, ps[..|ps| - 1]), ps[|ps| - 1];
      RedeemAllConserves(d, ps[..|ps| - 1]);
      SumUpdate(before.balances, p.to, before.balances[p.to] + Converted(before.fund, before.total, p.amount));
    }
  }

  lemma {:induction false} RedeemAllOthers(d: Desk, ps: seq<Payment>, x: string)
    requires Redeemable(d, ps) && x in d.balances && forall i :: 0 <= i < |ps| ==> ps[i].to != x
    ensures RedeemAll(d, ps).balances[x] == d.balances[x]
  {
    if ps != [] {
      TotalPrefix(ps, |ps| - 1);
      RedeemAllOthers(d, ps[..|ps| - 1], x);
    }
  }
}
