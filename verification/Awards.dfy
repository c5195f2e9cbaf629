/** Payouts from the reward fund and the energy that buys them. */
module Awards {
  import opened Config
  import opened Options
  import opened Division

  /** What `rs` new shares earn from a fund of `rf` in competition with `competing` shares. */
  function Award(rf: nat, competing: nat, rs: nat): (payout: nat)
    ensures payout <= rf
  {
    if rs == 0 then 0
    else
      AwardBound(rf, competing, rs);
      rf * rs / (competing + rs)
  }

  lemma AwardBound(rf: nat, competing: nat, rs: nat)
    requires rs > 0
    ensures 0 <= rf * rs / (competing + rs) <= rf
  {
    DivAtLeast(rf * rs, competing + rs, rf + 1);
    assert (rf + 1) * (competing + rs) == rf * competing + rf * rs + competing + rs;
    DivAtLeast(rf * rs, competing + rs, 0);
  }

  /** An award is worth at least `q` exactly when its part of the fund is. */
  lemma AwardAtLeast(rf: nat, competing: nat, rs: nat, q: nat)
    requires rs > 0
    ensures Award(rf, competing, rs) >= q <==> rf * rs >= q * (competing + rs)
  {
    DivAtLeast(rf * rs, competing + rs, q);
  }

  /** Shares for a wanted reward. */
  function SharesFor(rf: nat, competing: nat, ra: nat): nat
    requires ra < rf
  {
    ra * competing / (rf - ra)
  }

  /** The inverse formula brackets the payout. */
  lemma SharesBracket(rf: nat, competing: nat, ra: nat)
    requires 0 < ra < rf
    ensures var rs := SharesFor(rf, competing, ra); Award(rf, competing, rs) <= ra <= Award(rf, competing, rs + 1)
  {
    hide Award;
    var gap := rf - ra;
    var rs := SharesFor(rf, competing, ra);
    DivAtLeast(ra * competing, gap, rs);
    DivAtLeast(ra * competing, gap, rs + 1);
    if rs > 0 {
      BelowNext(rf, competing, ra, rs);
      AwardAtLeast(rf, competing, rs, ra + 1);
    } else {
      assert Award(rf, competing, rs) == 0 by { AwardOfNone(rf, competing); }
    }
    NextReaches(rf, competing, ra, rs);
    AwardAtLeast(rf, competing, rs + 1, ra);
  }

  lemma AwardOfNone(rf: nat, competing: nat)
    ensures Award(rf, competing, 0) == 0
  {
  }

  lemma BelowNext(rf: nat, competing: nat, ra: nat, rs: nat)
    requires ra < rf && rs > 0 && rs * (rf - ra) <= ra * competing
    ensures rf * rs < (ra + 1) * (competing + rs)
  {
    assert rs * (rf - ra) == rf * rs - ra * rs;
    assert (ra + 1) * (competing + rs) == ra * competing + ra * rs + competing + rs;
  }

  lemma NextReaches(rf: nat, competing: nat, ra: nat, rs: nat)
    requires ra < rf && ra * competing < (rs + 1) * (rf - ra)
    ensures rf * (rs + 1) >= ra * (competing + (rs + 1))
  {
    assert (rs + 1) * (rf - ra) == rf * (rs + 1) - ra * (rs + 1);
    assert ra * (competing + (rs + 1)) == ra * competing + ra * (rs + 1);
  }

  /** More shares never earn less. */
  lemma AwardMonotone(rf: nat, competing: nat, a: nat, b: nat)
    requires a <= b
    ensures Award(rf, competing, a) <= Award(rf, competing, b)
  {
    if a > 0 {
      var q := Award(rf, competing, a);
      AwardAtLeast(rf, competing, a, q);
      AwardAtLeast(rf, competing, b, q);
      var more := b - a;
      MulMonotone(q, rf, more);
      assert rf * b == rf * a + rf * more;
      assert q * (competing + b) == q * (competing + a) + q * more;
    }
  }

  /** Shares that a part of the energy commands. */
  function Bought(effective: nat, energy: nat): nat {
    effective * energy / FULL
  }

  /** The energy a fixed award charges for `rs` shares, when `maxEnergy` commands `maxShares`. */
  function Needed(rs: nat, maxEnergy: nat, maxShares: nat): nat
    requires maxShares > 0
  {
    var n := rs * maxEnergy / maxShares + 1;
    if n < FULL then n else FULL
  }

  /** Energy buys its percentage of the effective shares, rounded down. */
  lemma BoughtMeans(effective: nat, energy: nat)
    ensures
      var b := Bought(effective, energy);
      b * FULL <= effective * energy < (b + 1) * FULL
  {
    DivAtLeast(effective * energy, FULL, effective * energy / FULL);
    DivAtLeast(effective * energy, FULL, effective * energy / FULL + 1);
  }

  /** The charge is the least energy whose part of the shares on offer is more than what is needed, and at most
      all energy. */
  lemma NeededMeans(rs: nat, maxEnergy: nat, maxShares: nat)
    requires maxShares > 0
    ensures
      var n := Needed(rs, maxEnergy, maxShares);
      && 0 < n <= FULL
      && (n < FULL ==> (n - 1) * maxShares <= rs * maxEnergy < n * maxShares)
      && (n == FULL ==> rs * maxEnergy >= (FULL - 1) * maxShares)
  {
    DivAtLeast(rs * maxEnergy, maxShares, rs * maxEnergy / maxShares);
    DivAtLeast(rs * maxEnergy, maxShares, rs * maxEnergy / maxShares + 1);
    DivAtLeast(rs * maxEnergy, maxShares, FULL - 1);
  }

  /** The energy charged always buys the shares needed. */
  lemma NeededSuffices(effective: nat, rs: nat, maxEnergy: nat)
    requires maxEnergy <= FULL && 0 < Bought(effective, maxEnergy) && rs <= Bought(effective, maxEnergy)
    ensures Bought(effective, Needed(rs, maxEnergy, Bought(effective, maxEnergy))) >= rs
  {
    var maxShares := Bought(effective, maxEnergy);
    var need := Needed(rs, maxEnergy, maxShares);
    DivAtLeast(effective * maxEnergy, FULL, maxShares);
    DivAtLeast(effective * need, FULL, rs);
    if need == FULL {
      MulMonotone(maxEnergy, FULL, effective);
      MulMonotone(rs, maxShares, FULL);
    } else {
      EnoughEnergy(effective, rs, maxEnergy, maxShares, need);
    }
  }

  lemma EnoughEnergy(effective: nat, rs: nat, maxEnergy: nat, maxShares: nat, need: nat)
    requires maxShares > 0 && effective * maxEnergy >= maxShares * FULL && need == rs * maxEnergy / maxShares + 1
    ensures effective * need >= rs * FULL
  {
    DivAtLeast(rs * maxEnergy, maxShares, need);
    MulMonotone(rs * maxEnergy, need * maxShares, FULL);
    MulMonotone(maxShares * FULL, effective * maxEnergy, need);
    assert maxShares * FULL * need == need * maxShares * FULL;
    assert effective * maxEnergy * need == effective * need * maxEnergy;
    assert rs * FULL * maxEnergy == rs * maxEnergy * FULL;
    Cancel(rs * FULL, effective * need, maxEnergy);
  }

  /** The charge stays within the energy offered, except for a surcharge of one hundredth of a percent
      when every share on offer is needed and less than all energy was offered. */
  lemma NeededBound(rs: nat, maxEnergy: nat, maxShares: nat)
    requires 0 < maxShares && rs <= maxShares && 0 < maxEnergy <= FULL
    ensures Needed(rs, maxEnergy, maxShares) <= maxEnergy + 1
    ensures Needed(rs, maxEnergy, maxShares) <= maxEnergy <==> rs < maxShares || maxEnergy == FULL
  {
    MulMonotone(rs, maxShares, maxEnergy);
    DivAtLeast(rs * maxEnergy, maxShares, maxEnergy);
    DivAtLeast(rs * maxEnergy, maxShares, maxEnergy + 1);
    assert (maxEnergy + 1) * maxShares == maxShares * maxEnergy + maxShares;
    if rs < maxShares {
      MulMonotone(rs + 1, maxShares, maxEnergy);
      assert (rs + 1) * maxEnergy == rs * maxEnergy + maxEnergy;
    }
  }

  // ---------------------------------------------------------------------------
  // Fixed awards
  // ---------------------------------------------------------------------------

  datatype Quote = Refused | Quote(need: nat, shares: nat, tokens: nat)

  /** What a request for the fixed reward `ra` leads to. */
  function FixedQuote(rf: nat, competing: nat, ra: nat, current: int, maxEnergy: nat, effective: nat,
                      minShares: nat): (q: Quote) {
    var maxShares := Bought(effective, maxEnergy);
    if current <= 0 || maxEnergy > current || maxShares == 0 || rf <= ra || Award(rf, competing, maxShares) < ra
    then Refused
    else
      var rs := SharesFor(rf, competing, ra);
      if rs > maxShares then Refused
      else
        var need := Needed(rs, maxEnergy, maxShares);
        var shares := Bought(effective, need);
        if shares < minShares || shares == 0 then Refused
        else
          var tokens := Award(rf, competing, shares);
          if tokens < ra || tokens == 0 then Refused else Quote(need, shares, tokens)
  }

  /** A granted request pays at least what was asked and no more than the fund holds; it buys at least the
      shares the reward needs and costs at most one unit of energy more than was offered. */
  lemma QuoteSound(rf: nat, competing: nat, ra: nat, current: int, maxEnergy: nat, effective: nat, minShares: nat)
    requires current <= FULL && FixedQuote(rf, competing, ra, current, maxEnergy, effective, minShares).Quote?
    ensures var q := FixedQuote(rf, competing, ra, current, maxEnergy, effective, minShares);
      && ra < rf && ra <= q.tokens <= rf && SharesFor(rf, competing, ra) <= q.shares
      && q.need <= maxEnergy + 1 && current - q.need >= -1
      && (current - q.need < 0 <==>
          SharesFor(rf, competing, ra) == Bought(effective, maxEnergy) && maxEnergy == current < FULL)
  {
    hide Bought, Needed, SharesFor, Award;
    var rs := SharesFor(rf, competing, ra);
    assert maxEnergy > 0 by { NoEnergyNoShares(effective); }
    NeededSuffices(effective, rs, maxEnergy);
    NeededBound(rs, maxEnergy, Bought(effective, maxEnergy));
  }

  /** The charged energy buys the shares of the inverse formula or more, and one more is always enough: a request
      that passes the other checks is refused for its payout exactly when no more than those shares are bought
      and they earn less than was asked. */
  lemma QuoteGranted(rf: nat, competing: nat, ra: nat, current: int, maxEnergy: nat, effective: nat, minShares: nat)
    requires 0 < ra < rf && 0 < current <= FULL && maxEnergy <= current
    requires 0 < Bought(effective, maxEnergy) && Award(rf, competing, Bought(effective, maxEnergy)) >= ra
    requires SharesFor(rf, competing, ra) <= Bought(effective, maxEnergy)
    ensures
      var rs := SharesFor(rf, competing, ra);
      var shares := Bought(effective, Needed(rs, maxEnergy, Bought(effective, maxEnergy)));
      FixedQuote(rf, competing, ra, current, maxEnergy, effective, minShares).Quote? <==>
        shares >= minShares && shares > 0 && !(shares == rs && Award(rf, competing, rs) < ra)
  {
    hide Bought, Needed, SharesFor, Award;
    var rs := SharesFor(rf, competing, ra);
    var shares := Bought(effective, Needed(rs, maxEnergy, Bought(effective, maxEnergy)));
    NeededSuffices(effective, rs, maxEnergy);
    SharesBracket(rf, competing, ra);
    if shares > rs {
      AwardMonotone(rf, competing, rs + 1, shares);
    }
  }

  lemma NoEnergyNoShares(effective: nat)
    ensures Bought(effective, 0) == 0
  {
  }

  /** The energy can become negative: all of the remaining energy is offered and all of it is needed. */
  lemma EnergyBelowZero()
    ensures FixedQuote(1000, 990, 10, 5000, 5000, 20, 0) == Quote(5001, 10, 10)
  {
    assert Bought(20, 5000) == 10 && Award(1000, 990, 10) == 10 && SharesFor(1000, 990, 10) == 10;
    assert Needed(10, 5000, 10) == 5001 && Bought(20, 5001) == 10;
    hide Bought, Award, SharesFor, Needed;
  }
}
