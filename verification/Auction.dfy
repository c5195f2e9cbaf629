/** Account sales and auctions, and the balances that bids reserve. */
module Auction {
  import opened Config
  import opened Options
  import opened Sums
  import opened Payments

  type Sales = map<string, Sale>

  /** Seven days and five minutes, in seconds. */
  const SALE_DELAY: nat := 604800
  const EXTENSION: nat := 300
  /** The least step between bids, ten percent of the price. */
  const MIN_STEP: nat := 1000
  const NOBODY := ""

  /** The sale of an account, its auction, and the sale of names below the account's own. */
  datatype Sale = Sale(seller: string, onSale: bool, price: int, start: nat, target: string,
                       onAuction: bool, bid: int, bidder: string, lastBid: int,
                       subSeller: string, subOnSale: bool, subPrice: int)
  {
    predicate HasBid() { bidder != NOBODY }

    /** The same sale without its auction. */
    function Cleared(): Sale {
      this.(onAuction := false, bid := 0, bidder := NOBODY, lastBid := 0)
    }

    /** The least amount a bid must have. */
    function LeastBid(): int {
      var tenth := price * MIN_STEP / FULL;
      var step := if lastBid != 0 && bid - lastBid > tenth then bid - lastBid else tenth;
      bid + (if bid == 0 then price else step)
    }

    /** An auction that ends now sells the account. */
    predicate Sells() {
      HasBid() && (target == NOBODY || bidder == target) && onSale && bid >= price
    }
  }

  const NOT_FOR_SALE := Sale(NOBODY, false, 0, 0, NOBODY, false, 0, NOBODY, 0, NOBODY, false, 0)

  /** A sale as the operations leave it. A bid stands only on an account that is for sale, covers its price
      and comes from the target buyer, if there is one. */
  ghost predicate SaleOk(s: Sale, names: set<string>) {
    && (s.HasBid() <==> s.onAuction)
    && (s.HasBid() ==> s.bidder in names && s.onSale && s.bid >= s.price)
    && (s.HasBid() ==> s.target == NOBODY || s.bidder == s.target)
    && (!s.HasBid() ==> s.bid == 0)
    && (s.onSale ==> s.seller in names && s.price > 0)
    && (s.subOnSale ==> s.subSeller in names && s.subPrice > 0)
    && NOBODY !in names
  }

  /** The bids that `y` holds. */
  ghost function Bids(sales: Sales, y: string): map<string, int> {
    map x | x in sales && sales[x].bidder == y :: sales[x].bid
  }

  /** Every reserved balance is the sum of the bids its owner holds. */
  ghost predicate Exact(reserved: Column, sales: Sales) {
    && reserved.Keys == sales.Keys
    && (forall x :: x in sales ==> SaleOk(sales[x], sales.Keys))
    && (forall y :: y in reserved ==> reserved[y] == Sum(Bids(sales, y)))
  }

  lemma BidsUpdate(sales: Sales, x: string, s: Sale, y: string)
    requires x in sales
    ensures Sum(Bids(sales[x := s], y)) == Sum(Bids(sales, y))
      - (if sales[x].bidder == y then sales[x].bid else 0) + (if s.bidder == y then s.bid else 0)
  {
    hide Sum;
    var before, after := Bids(sales, y), Bids(sales[x := s], y);
    assert after - {x} == before - {x};
    if s.bidder == y {
      SumRemove(after, x);
    } else {
      assert after - {x} == after;
    }
    if sales[x].bidder == y {
      SumRemove(before, x);
    } else {
      assert before - {x} == before;
    }
  }

  /** The reserved balances once the sale of `x` has the bid of `s`. */
  function Rebid(reserved: Column, old': Sale, s: Sale): (r: Column)
    requires old'.HasBid() ==> old'.bidder in reserved
    requires s.HasBid() ==> s.bidder in reserved
    ensures r.Keys == reserved.Keys
  {
    var free := if old'.HasBid() then Added(reserved, old'.bidder, -old'.bid) else reserved;
    if s.HasBid() then Added(free, s.bidder, s.bid) else free
  }

  lemma SaleOf(reserved: Column, sales: Sales, x: string)
    requires Exact(reserved, sales) && x in sales
    ensures
      var s := sales[x];
      && SaleOk(s, sales.Keys) && s.bid >= 0 && (s.onAuction ==> s.Sells() && s.seller in sales)
      && if s.HasBid() then s.bidder in sales else s.bid == 0
  {
  }

  predicate Payee(balances: Column, s: Sale) {
    s.HasBid() ==> s.bidder in balances
  }

  /** The balances once the bid of a sale was given back. */
  function Refunded(balances: Column, s: Sale): (r: Column)
    requires Payee(balances, s)
    ensures r.Keys == balances.Keys
  {
    if s.HasBid() then Added(balances, s.bidder, s.bid) else balances
  }

  lemma RefundSolvent(balances: Column, s: Sale)
    requires Payee(balances, s) && s.bid >= 0 && AllNonNegative(balances)
    ensures AllNonNegative(Refunded(balances, s))
  {
  }

  /** Replacing a bid keeps every reserved balance the sum of its owner's bids. */
  lemma RebidExact(reserved: Column, sales: Sales, x: string, s: Sale)
    requires Exact(reserved, sales) && x in sales && SaleOk(s, sales.Keys)
    ensures Exact(Rebid(reserved, sales[x], s), sales[x := s])
    ensures Sum(Rebid(reserved, sales[x], s)) == Sum(reserved) - sales[x].bid + s.bid
  {
    hide Sum, Bids;
    assert SaleOk(sales[x], sales.Keys);
    var r := Rebid(reserved, sales[x], s);
    var free := if sales[x].HasBid() then Added(reserved, sales[x].bidder, -sales[x].bid) else reserved;
    if sales[x].HasBid() {
      SumUpdate(reserved, sales[x].bidder, reserved[sales[x].bidder] - sales[x].bid);
    }
    if s.HasBid() {
      SumUpdate(free, s.bidder, free[s.bidder] + s.bid);
    }
    assert sales[x := s].Keys == sales.Keys;
    forall y | y in r
      ensures r[y] == Sum(Bids(sales[x := s], y))
    {
      BidsUpdate(sales, x, s, y);
    }
  }

  // ---------------------------------------------------------------------------
  // What the operations make of a sale
  // ---------------------------------------------------------------------------

  /** Setting a price takes the bid away: the sale ends, or the price rises above the bid. */
  predicate PriceDropsBid(s: Sale, price: int, onSale: bool) {
    s.HasBid() && (if !onSale then s.onAuction else s.price < price && s.bid < price)
  }

  function StartOf(s: Sale, onSale: bool, now: nat): nat {
    if !onSale then 0 else if s.onSale then s.start else now + SALE_DELAY
  }

  function Priced(s: Sale, seller: string, price: int, onSale: bool, now: nat): Sale {
    var base := if !onSale || PriceDropsBid(s, price, onSale) then s.Cleared() else s;
    base.(seller := seller, onSale := onSale, price := price, start := StartOf(s, onSale, now))
  }

  /** Naming a target buyer also takes the bid of everybody else away. */
  predicate TargetDropsBid(s: Sale, target: string, price: int, onSale: bool) {
    s.HasBid() && (if !onSale then s.onAuction else s.bidder != target || (s.price < price && s.bid < price))
  }

  function Targeted(s: Sale, seller: string, target: string, price: int, onSale: bool, now: nat): Sale {
    var base := if !onSale || TargetDropsBid(s, target, price, onSale) then s.Cleared() else s;
    base.(seller := seller, onSale := onSale, price := price, start := StartOf(s, onSale, now),
          target := if onSale then target else NOBODY)
  }

  function Bidden(s: Sale, buyer: string, offer: int, extended: nat): Sale {
    s.(lastBid := if s.HasBid() && s.bidder != buyer then s.bid else s.lastBid,
       bid := offer, bidder := buyer, onAuction := true, start := if s.start < extended then extended else s.start)
  }

  function Sold(s: Sale): Sale {
    s.(seller := NOBODY, onSale := false, price := 0, start := 0,
       subSeller := NOBODY, subOnSale := false, subPrice := 0)
  }

  /** The sale of an auction that has ended. */
  function Ended(s: Sale, recovery: bool): Sale {
    if !s.Sells() then s.Cleared()
    else if recovery then s.Cleared().(onSale := false, price := 0, start := 0, target := NOBODY)
    else Sold(s.Cleared()).(target := NOBODY)
  }

  lemma PricedOk(s: Sale, names: set<string>, seller: string, price: int, onSale: bool, now: nat)
    requires SaleOk(s, names) && seller in names && price > 0
    ensures
      var next := Priced(s, seller, price, onSale, now);
      && SaleOk(next, names)
      && if PriceDropsBid(s, price, onSale) then !next.HasBid() else next.bid == s.bid && next.bidder == s.bidder
  {
  }

  lemma TargetedOk(s: Sale, names: set<string>, seller: string, target: string, price: int, onSale: bool, now: nat)
    requires SaleOk(s, names) && seller in names && price > 0
    ensures
      var next := Targeted(s, seller, target, price, onSale, now);
      && SaleOk(next, names)
      && if TargetDropsBid(s, target, price, onSale) then !next.HasBid()
         else next.bid == s.bid && next.bidder == s.bidder
  {
  }

  /** A new price takes the bid away exactly when the sale stops or the bid does not cover the price; otherwise the
      auction goes on as it was. */
  lemma PriceKeepsBid(s: Sale, names: set<string>, seller: string, price: int, onSale: bool, now: nat)
    requires SaleOk(s, names) && price > 0
    ensures
      var next := Priced(s, seller, price, onSale, now);
      && (PriceDropsBid(s, price, onSale) <==> s.HasBid() && (!onSale || s.bid < price))
      && (onSale && s.bid >= price && s.HasBid() ==> next == s.(seller := seller, price := price))
      && (onSale && s.onSale && !next.HasBid() ==> next.start == s.start && next.bid == 0 && !next.onAuction)
      && next.target == s.target && next.seller == seller && next.onSale == onSale && next.price == price
  {
  }

  /** Naming a target buyer keeps only a bid of that buyer that covers the price. */
  lemma TargetKeepsBid(s: Sale, names: set<string>, seller: string, target: string, price: int, onSale: bool, now: nat)
    requires SaleOk(s, names) && price > 0
    ensures
      var next := Targeted(s, seller, target, price, onSale, now);
      && (TargetDropsBid(s, target, price, onSale) <==>
            s.HasBid() && (!onSale || s.bidder != target || s.bid < price))
      && (onSale && s.HasBid() && s.bidder == target && s.bid >= price ==>
            next == s.(seller := seller, price := price, target := target))
      && (onSale && s.onSale && !next.HasBid() ==> next.start == s.start && next.bid == 0 && !next.onAuction)
      && next.target == (if onSale then target else NOBODY)
      && next.seller == seller && next.onSale == onSale && next.price == price
  {
  }

  /** An account that was not for sale takes bids for a week before it can be bought, and one whose sale stopped
      cannot be bought at all. */
  lemma WeekOfBids(s: Sale, seller: string, price: int, onSale: bool, now: nat, buyer: string, funds: int, offer: int,
                   toShares: nat, t: nat)
    requires !s.onSale && !s.HasBid() && s.bid == 0
    ensures
      var next := Priced(s, seller, price, onSale, now);
      CanBuy(next, buyer, funds, offer, toShares, false, t) <==>
        && onSale && (s.target == NOBODY || buyer == s.target)
        && if t < now + 604800 then offer >= price
           else offer == price && funds - offer >= toShares
  {
  }

  lemma NamePricedOk(s: Sale, names: set<string>, seller: string, price: int, onSale: bool)
    requires SaleOk(s, names) && seller in names && price > 0
    ensures SaleOk(s.(subSeller := seller, subOnSale := onSale, subPrice := price), names)
  {
  }

  lemma EndedOk(s: Sale, names: set<string>, recovery: bool)
    requires SaleOk(s, names)
    ensures SaleOk(Ended(s, recovery), names) && !Ended(s, recovery).HasBid() && Ended(s, recovery).bid == 0
  {
  }

  /** An auction ends with the sale over. Only a recovery keeps the seller, who has paid for the sale, and the sale of
      names below the account. */
  lemma EndedMeans(s: Sale, names: set<string>, recovery: bool)
    requires SaleOk(s, names) && s.onAuction
    ensures
      var next := Ended(s, recovery);
      && !next.onSale && next.price == 0 && next.start == 0 && next.target == NOBODY && next.lastBid == 0
      && (recovery ==> next.seller == s.seller && next.subSeller == s.subSeller
                       && next.subOnSale == s.subOnSale && next.subPrice == s.subPrice)
      && (!recovery ==> next.seller == NOBODY && next.subSeller == NOBODY && !next.subOnSale && next.subPrice == 0)
  {
  }

  lemma NoBid(s: Sale, names: set<string>)
    requires SaleOk(s, names) && !s.HasBid()
    ensures s.bid == 0
  {
  }

  /** The auctions that are over but have not been ended. */
  ghost function Over(sales: Sales, now: nat): set<string> {
    set x | x in sales && IsOver(sales[x], now)
  }

  ghost predicate PartlyEnded(start: Sales, sales: Sales, now: nat, recoveries: set<string>) {
    && sales.Keys == start.Keys
    && forall x :: x in sales ==>
        sales[x] == start[x] || (IsOver(start[x], now) && sales[x] == Ended(start[x], x in recoveries))
  }

  /** What the auctions that are over bring `y`: the bids of the accounts it sells, and its own bids that come back
      because a recovery is requested. */
  ghost function Proceeds(sales: Sales, now: nat, recoveries: set<string>, y: string): map<string, int> {
    map x | x in sales && IsOver(sales[x], now)
            && (if x in recoveries then sales[x].bidder else sales[x].seller) == y :: sales[x].bid
  }

  /** The balances and what the auctions still to be ended will bring make up the same as at the start. */
  ghost predicate PartlyPaid(c0: Column, start: Sales, c: Column, sales: Sales, now: nat, recoveries: set<string>) {
    && c.Keys == c0.Keys
    && forall y :: y in c ==>
        c[y] + Sum(Proceeds(sales, now, recoveries, y)) == c0[y] + Sum(Proceeds(start, now, recoveries, y))
  }

  lemma PaidStart(c: Column, sales: Sales, now: nat, recoveries: set<string>)
    ensures PartlyPaid(c, sales, c, sales, now, recoveries)
  {
  }

  lemma PaidOne(c0: Column, start: Sales, c: Column, sales: Sales, now: nat, recoveries: set<string>, x: string,
                d: Column)
    requires PartlyPaid(c0, start, c, sales, now, recoveries) && x in sales && IsOver(sales[x], now)
    requires sales[x].seller in c && sales[x].bidder in c
    requires d == Added(c, if x in recoveries then sales[x].bidder else sales[x].seller, sales[x].bid)
    ensures PartlyPaid(c0, start, d, sales[x := Ended(sales[x], x in recoveries)], now, recoveries)
  {
    hide Ended, Sum, Proceeds;
    forall y | y in d
      ensures Sum(Proceeds(sales, now, recoveries, y)) ==
        Sum(Proceeds(sales[x := Ended(sales[x], x in recoveries)], now, recoveries, y)) + d[y] - c[y]
    {
      ProceedsOne(sales, now, recoveries, x, y);
    }
  }

  lemma ProceedsOne(sales: Sales, now: nat, recoveries: set<string>, x: string, y: string)
    requires x in sales && IsOver(sales[x], now)
    ensures
      var payee := if x in recoveries then sales[x].bidder else sales[x].seller;
      Sum(Proceeds(sales, now, recoveries, y)) ==
        Sum(Proceeds(sales[x := Ended(sales[x], x in recoveries)], now, recoveries, y))
        + if y == payee then sales[x].bid else 0
  {
    hide Sum;
    var before := Proceeds(sales, now, recoveries, y);
    var after := Proceeds(sales[x := Ended(sales[x], x in recoveries)], now, recoveries, y);
    assert !IsOver(Ended(sales[x], x in recoveries), now);
    assert after == before - {x};
    if x in before {
      SumRemove(before, x);
    } else {
      assert before - {x} == before;
    }
  }

  lemma PaidEnd(c0: Column, start: Sales, c: Column, sales: Sales, now: nat, recoveries: set<string>)
    requires PartlyPaid(c0, start, c, sales, now, recoveries) && forall x :: x in sales ==> !IsOver(sales[x], now)
    ensures c.Keys == c0.Keys && forall y :: y in c ==> c[y] == c0[y] + Sum(Proceeds(start, now, recoveries, y))
  {
    hide Sum;
    forall y | y in c
      ensures Sum(Proceeds(sales, now, recoveries, y)) == 0
    {
      SumZero(Proceeds(sales, now, recoveries, y));
    }
  }

  /** The auctions whose time has come are over and the others go on. */
  lemma NoneOver(start: Sales, sales: Sales, now: nat, recoveries: set<string>)
    requires sales.Keys == start.Keys
    requires forall x :: x in sales ==>
      sales[x] == if IsOver(start[x], now) then Ended(start[x], x in recoveries) else start[x]
    ensures forall x :: x in sales ==> (sales[x].onAuction <==> start[x].onAuction && now < start[x].start)
  {
  }

  lemma PartlyStart(sales: Sales, now: nat, recoveries: set<string>)
    ensures PartlyEnded(sales, sales, now, recoveries)
  {
  }

  lemma PartlyStep(start: Sales, sales: Sales, now: nat, recoveries: set<string>, x: string)
    requires PartlyEnded(start, sales, now, recoveries) && x in sales && IsOver(sales[x], now)
    ensures PartlyEnded(start, sales[x := Ended(sales[x], x in recoveries)], now, recoveries)
    ensures Over(sales[x := Ended(sales[x], x in recoveries)], now) < Over(sales, now)
  {
    assert !IsOver(Ended(sales[x], x in recoveries), now);
    assert x in Over(sales, now) && x !in Over(sales[x := Ended(sales[x], x in recoveries)], now);
  }

  lemma PartlyEnd(start: Sales, sales: Sales, now: nat, recoveries: set<string>)
    requires PartlyEnded(start, sales, now, recoveries) && forall x :: x in sales ==> !IsOver(sales[x], now)
    ensures sales.Keys == start.Keys
    ensures forall x :: x in sales ==>
      sales[x] == if IsOver(start[x], now) then Ended(start[x], x in recoveries) else start[x]
  {
  }

  // ---------------------------------------------------------------------------
  // Buying
  // ---------------------------------------------------------------------------

  /** The balances after a purchase: the price goes to the seller, `toShares` leaves the balances. */
  function Settled(balances: Column, buyer: string, seller: string, price: int, toShares: int): (r: Column)
    requires buyer in balances && seller in balances
    ensures r.Keys == balances.Keys
  {
    Added(Added(Added(balances, buyer, 0 - price), seller, price), buyer, 0 - toShares)
  }

  lemma SettledSolvent(balances: Column, buyer: string, seller: string, price: nat, toShares: nat)
    requires buyer in balances && seller in balances && balances[buyer] >= price + toShares && AllNonNegative(balances)
    ensures AllNonNegative(Settled(balances, buyer, seller, price, toShares))
  {
  }

  lemma SettledMeans(balances: Column, buyer: string, seller: string, price: int, toShares: int)
    requires buyer in balances && seller in balances
    ensures forall y :: y in balances ==>
      Settled(balances, buyer, seller, price, toShares)[y] ==
        balances[y] + (if y == seller then price else 0) - (if y == buyer then price + toShares else 0)
  {
  }

  /** Giving a bid back moves it from what is reserved to the balance, and nobody gains or loses. */
  lemma RefundKeeps(balances: Column, reserved: Column, s: Sale, next: Sale)
    requires Payee(balances, s) && Payee(reserved, s) && !next.HasBid() && balances.Keys == reserved.Keys
    ensures forall y :: y in balances ==>
      && Refunded(balances, s)[y] + Rebid(reserved, s, next)[y] == balances[y] + reserved[y]
      && Refunded(balances, s)[y] == balances[y] + if s.HasBid() && y == s.bidder then s.bid else 0
  {
  }

  /** So does a bid: it moves what it offers, and gives the bid before it back. */
  lemma BidKeeps(balances: Column, reserved: Column, s: Sale, buyer: string, offer: int, extended: nat)
    requires Payee(balances, s) && Payee(reserved, s) && balances.Keys == reserved.Keys
    requires buyer in balances && buyer != NOBODY
    ensures forall y :: y in balances ==>
      && AfterBid(balances, s, buyer, offer)[y] + Rebid(reserved, s, Bidden(s, buyer, offer, extended))[y]
         == balances[y] + reserved[y]
      && AfterBid(balances, s, buyer, offer)[y] == balances[y]
         + (if s.HasBid() && y == s.bidder then s.bid else 0) - (if y == buyer then offer else 0)
  {
  }

  /** The balances after a bid. */
  function AfterBid(balances: Column, s: Sale, buyer: string, offer: int): (r: Column)
    requires Payee(balances, s) && buyer in balances
    ensures r.Keys == balances.Keys
  {
    Added(Refunded(balances, s), buyer, 0 - offer)
  }

  /** The buyer's balance covers a bid once the buyer's own earlier bid was given back. */
  predicate Covers(balances: Column, s: Sale, buyer: string, offer: int)
    requires buyer in balances
  {
    offer <= balances[buyer] + (if s.bidder == buyer then s.bid else 0)
  }

  /** A bid keeps all balances from falling below zero exactly when it is covered. */
  lemma BidSolvent(balances: Column, s: Sale, buyer: string, offer: int)
    requires Payee(balances, s) && buyer in balances && buyer != NOBODY && s.bid >= 0 && AllNonNegative(balances)
    ensures AllNonNegative(AfterBid(balances, s, buyer, offer)) <==> Covers(balances, s, buyer, offer)
  {
    var after := AfterBid(balances, s, buyer, offer);
    assert after[buyer] == balances[buyer] + (if s.bidder == buyer then s.bid else 0) - offer;
  }

  /** When a bid or a purchase of an existing account is accepted. */
  predicate CanBuy(s: Sale, buyer: string, funds: int, offer: int, toShares: nat, recovery: bool, now: nat) {
    && s.onSale && !recovery && (s.target == NOBODY || s.target == buyer)
    && (if s.start > now then offer >= s.LeastBid()
        else !s.HasBid() && offer == s.price && funds >= s.price + toShares)
  }

  /** A bid must reach the price, or pass the bid before by a tenth of the price, rounded down, and by no less than
      that one passed the bid of somebody else before it. */
  lemma LeastBidMeans(s: Sale, offer: int)
    ensures offer >= s.LeastBid() <==>
      if s.bid == 0 then offer >= s.price
      else 10 * (offer - s.bid) > s.price - 10 && (s.lastBid != 0 ==> offer - s.bid >= s.bid - s.lastBid)
  {
  }

  /** When an account that is for sale can be bid for or bought. */
  lemma CanBuyMeans(s: Sale, names: set<string>, buyer: string, funds: int, offer: int, toShares: nat,
                    recovery: bool, now: nat)
    requires SaleOk(s, names)
    ensures CanBuy(s, buyer, funds, offer, toShares, recovery, now) <==>
      && s.onSale && !recovery && (s.target == NOBODY || buyer == s.target)
      && (now < s.start && s.onAuction ==>
            10 * (offer - s.bid) > s.price - 10 && (s.lastBid != 0 ==> offer - s.bid >= s.bid - s.lastBid))
      && (now < s.start && !s.onAuction ==> offer >= s.price)
      && (s.start <= now ==> !s.onAuction && offer == s.price && toShares <= funds - offer)
  {
  }

  /** The next bid must be higher, except where a tenth of the price rounds down to nothing and no bid of somebody
      else was passed before. */
  lemma BidsRise(s: Sale, names: set<string>)
    requires SaleOk(s, names) && s.onSale
    ensures s.LeastBid() > s.bid <==> !s.onAuction || s.price >= 10 || (s.lastBid != 0 && s.bid > s.lastBid)
  {
  }

  /** The step between bids never shrinks while the price stands, and an auction goes on for five minutes after
      each bid. */
  lemma StepsGrow(s: Sale, names: set<string>, buyer: string, offer: int, clock: nat)
    requires SaleOk(s, names) && s.onAuction && offer >= s.LeastBid() && buyer in names
    ensures
      var next := Bidden(s, buyer, offer, clock + EXTENSION);
      && next.LeastBid() - next.bid >= s.LeastBid() - s.bid
      && (buyer != s.bidder ==> next.LeastBid() - next.bid >= offer - s.bid)
      && next.bid == offer && next.bidder == buyer && next.onAuction
      && next.start >= s.start && next.start >= clock + 300 && next.start in {s.start, clock + 300}
      && next == s.(bid := next.bid, bidder := next.bidder, lastBid := next.lastBid, start := next.start)
  {
  }

  /** An acceptable bid leaves the sale in order. */
  lemma BiddenOk(s: Sale, names: set<string>, buyer: string, offer: int, extended: nat)
    requires SaleOk(s, names) && buyer in names && s.onSale && (s.target == NOBODY || s.target == buyer)
    requires offer >= s.LeastBid()
    ensures SaleOk(Bidden(s, buyer, offer, extended), names) && offer >= s.price
  {
  }

  /** The part of a name after its first dot. */
  function Parent(name: string): Option<string> {
    if name == "" then None
    else if name[0] == '.' then Some(name[1..])
    else Parent(name[1..])
  }

  lemma {:induction false} ParentMeans(name: string)
    ensures Parent(name).None? <==> '.' !in name
    ensures Parent(name).Some? ==>
      var p := Parent(name).value;
      |p| < |name| && '.' !in name[..|name| - |p| - 1] && name == name[..|name| - |p| - 1] + "." + p
  {
    if name != "" {
      ParentMeans(name[1..]);
      if name[0] != '.' && Parent(name).Some? {
        var n := |name| - |Parent(name).value| - 1;
        assert name[..n] == [name[0]] + name[1..][..n - 1];
      }
    }
  }

  /** When the purchase of a name that has no account yet is accepted. */
  predicate CanBuyName(sales: Sales, name: string, funds: int, offer: int, toShares: nat) {
    match Parent(name)
    case None => false
    case Some(p) =>
      p in sales && sales[p].subOnSale && offer == sales[p].subPrice && funds >= sales[p].subPrice + toShares
  }

  /** A name without an account is bought from the account named by what follows its first dot. */
  lemma CanBuyNameMeans(sales: Sales, first: string, parent: string, funds: int, offer: int, toShares: nat)
    requires '.' !in first
    ensures CanBuyName(sales, first + "." + parent, funds, offer, toShares) <==>
      parent in sales && sales[parent].subOnSale && offer == sales[parent].subPrice && toShares <= funds - offer
    ensures !CanBuyName(sales, first, funds, offer, toShares)
  {
    hide Parent;
    ParentOf(first, parent);
    ParentMeans(first);
  }

  lemma {:induction false} ParentOf(first: string, parent: string)
    requires '.' !in first
    ensures Parent(first + "." + parent) == Some(parent)
  {
    var name := first + "." + parent;
    if first == "" {
      assert name[1..] == parent;
    } else {
      assert name[0] == first[0] && name[1..] == first[1..] + "." + parent;
      ParentOf(first[1..], parent);
    }
  }

  // ---------------------------------------------------------------------------
  // New accounts
  // ---------------------------------------------------------------------------

  /** A new account holds no bid, and no bid stands on it. */
  lemma OpenedExact(reserved: Column, sales: Sales, x: string)
    requires Exact(reserved, sales) && x !in sales && x != NOBODY
    ensures Exact(reserved[x := 0], sales[x := NOT_FOR_SALE])
  {
    hide Sum, Bids;
    var more := sales[x := NOT_FOR_SALE];
    assert more.Keys == sales.Keys + {x};
    forall y | y in more
      ensures Sum(Bids(more, y)) == reserved[x := 0][y]
    {
      OpenedBids(sales, x, y);
    }
  }

  lemma OpenedBids(sales: Sales, x: string, y: string)
    requires x !in sales && x != NOBODY && y != NOBODY
    requires forall z :: z in sales ==> SaleOk(sales[z], sales.Keys)
    ensures Bids(sales[x := NOT_FOR_SALE], y) == Bids(sales, y) && (y == x ==> Sum(Bids(sales, y)) == 0)
  {
    if y == x {
      SumZero(Bids(sales, y));
    }
  }

  lemma NothingForSale(reserved: Column, sales: Sales)
    requires reserved.Keys == sales.Keys && NOBODY !in sales
    requires forall x :: x in sales ==> sales[x] == NOT_FOR_SALE && reserved[x] == 0
    ensures Exact(reserved, sales) && Sum(reserved) == 0
  {
    hide Sum;
    SumZero(reserved);
    forall y | y in reserved
      ensures Sum(Bids(sales, y)) == 0
    {
      SumZero(Bids(sales, y));
    }
  }

  /** Reserved balances are never negative. */
  lemma ReservedNonNegative(reserved: Column, sales: Sales)
    requires Exact(reserved, sales)
    ensures AllNonNegative(reserved)
  {
    hide Sum;
    forall y | y in reserved
      ensures reserved[y] >= 0
    {
      SumNonNegative(Bids(sales, y));
    }
  }

  predicate IsOver(s: Sale, now: nat) {
    s.onAuction && s.start <= now
  }
}
