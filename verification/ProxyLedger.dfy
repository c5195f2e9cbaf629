/** The account table as proxy, vote, vesting and account operations change it. */
module ProxyLedger {
  import opened Options
  import opened Sums
  import opened ProxyGraph
  import opened ProxyVotes

  datatype Change =
    | SetProxy(account: string, proxy: string)
    | ClearProxy(account: string)
    | AddShares(account: string, shares: int)
    | Create(account: string)

  /** `p` may become the proxy of `x`: it has a short chain of proxies above it and `x` is not among them. */
  ghost predicate CanProxy(m: Accounts, x: string, p: string)
    requires Closed(m) && x in m
  {
    && m[x].proxy != p
    && (p != SELF ==> p in m && p != x && Hop(m, p, DEPTH - 1) == None && forall k: nat :: Hop(m, p, k) != Some(x))
  }

  lemma CanProxySame(m: Accounts, n: Accounts, x: string, p: string)
    requires Closed(m) && Closed(n) && SameGraph(m, n) && x in m
    ensures CanProxy(m, x, p) <==> CanProxy(n, x, p)
  {
    if p in m {
      forall k: nat
        ensures Hop(m, p, k) == Hop(n, p, k)
      {
        HopSameGraph(m, n, p, k);
      }
      assert Hop(m, p, DEPTH - 1) == Hop(n, p, DEPTH - 1);
    }
  }

  /** The accounts after `x` has taken `p` as its proxy. */
  function Proxied(m: Accounts, x: string, p: string): (n: Accounts)
    requires Closed(m) && x in m && (p == SELF || p in m)
    ensures Closed(n)
  {
    var free := Unproxied(m, x);
    if p == SELF then free else Propagate(WithProxy(free, x, p), x, Standing(m, x), 0)
  }

  function Credited(m: Accounts, x: string, s: int): (n: Accounts)
    requires Closed(m) && x in m
    ensures Closed(n)
  {
    var m1 := WithShares(m, x, s);
    assert Closed(m1);
    Propagate(m1, x, Only(s), 0)
  }

  function Opened(m: Accounts, x: string): (n: Accounts)
    requires Closed(m) && x != SELF
    ensures Closed(n)
  {
    m[x := Account(0, SELF, seq(DEPTH, i => 0))]
  }

  /** The accounts after a change; a change that is refused leaves them as they are. */
  ghost function Applied(m: Accounts, c: Change): (n: Accounts)
    requires Closed(m)
    ensures Closed(n)
  {
    match c
    case SetProxy(x, p) => if x in m && CanProxy(m, x, p) then Proxied(m, x, p) else m
    case ClearProxy(x) => if x in m then Unproxied(m, x) else m
    case AddShares(x, s) => if x in m then Credited(m, x, s) else m
    case Create(x) => if x in m || x == SELF then m else Opened(m, x)
  }

  /** What a change does to one account besides the caches. */
  lemma AppliedMeans(m: Accounts, c: Change, y: string)
    requires Closed(m) && y in m
    ensures
      var n, mine := Applied(m, c), c.account == y;
      && y in n && n[y].shares == m[y].shares + (if c.AddShares? && mine then c.shares else 0)
      && n[y].proxy == if c.SetProxy? && mine && CanProxy(m, y, c.proxy) then c.proxy
                       else if c.ClearProxy? && mine then SELF
                       else m[y].proxy
  {
    hide Hop, Propagate, Standing;
  }

  ghost function Run(m: Accounts, cs: seq<Change>): (n: Accounts)
    requires Closed(m)
    ensures Closed(n)
    decreases |cs|
  {
    if cs == [] then m else Run(Applied(m, cs[0]), cs[1..])
  }

  lemma {:induction false} HopEnds(m: Accounts, x: string, i: nat, j: nat)
    requires Closed(m) && x in m && Hop(m, x, i) == None && i <= j
    ensures Hop(m, x, j) == None
    decreases i
  {
    if m[x].proxy != SELF {
      HopEnds(m, m[x].proxy, i - 1, j - 1);
    }
  }

  /** A walk that never meets `x` does not notice that `x` lost its proxy. */
  lemma {:induction false} HopUnproxied(m: Accounts, m0: Accounts, x: string, p: string, k: nat)
    requires Closed(m) && Closed(m0) && x in m && m0.Keys == m.Keys && p in m
    requires forall z :: z in m && z != x ==> m[z].proxy == m0[z].proxy
    requires forall i: nat :: Hop(m, p, i) != Some(x)
    ensures Hop(m0, p, k) != Some(x)
    decreases k
  {
    assert Hop(m, p, 0) != Some(x);
    if k > 0 && m[p].proxy != SELF {
      forall i: nat
        ensures Hop(m, m[p].proxy, i) != Some(x)
      {
        assert Hop(m, p, i + 1) == Hop(m, m[p].proxy, i);
      }
      HopUnproxied(m, m0, x, m[p].proxy, k - 1);
    }
  }

  /** In an acyclic graph the way up to `x` does not use the proxy of `x`. */
  lemma {:induction false} HopReaches(m: Accounts, x: string, p: string, y: string, k: nat)
    requires Closed(m) && Acyclic(m) && x in m && p in m && y in m && Hop(m, y, k) == Some(x)
    ensures Closed(WithProxy(m, x, p)) && Hop(WithProxy(m, x, p), y, k) == Some(x)
    decreases k
  {
    if k > 0 {
      assert y != x;
      HopReaches(m, x, p, m[y].proxy, k - 1);
    }
  }

  lemma Unlinked(m: Accounts, x: string)
    requires Closed(m) && Acyclic(m) && x in m
    ensures Closed(WithProxy(m, x, SELF)) && Acyclic(WithProxy(m, x, SELF))
  {
    var m0 := WithProxy(m, x, SELF);
    if m[x].proxy == SELF {
      assert m0 == m;
    } else {
      UnlinkedIsLinked(m, m0, x, m[x].proxy);
      UnlinkKeepsAcyclic(m0, m, x, m[x].proxy);
    }
  }

  /** A new proxy closes no loop exactly when the account is not above it. */
  lemma ClosesNoLoop(m: Accounts, x: string, p: string)
    requires Closed(m) && Acyclic(m) && x in m && p in m
    ensures Closed(WithProxy(m, x, p))
    ensures Acyclic(WithProxy(m, x, p)) <==> forall k: nat :: Hop(m, p, k) != Some(x)
  {
    var m0, n := WithProxy(m, x, SELF), WithProxy(m, x, p);
    if k: nat :| Hop(m, p, k) == Some(x) {
      HopReaches(m, x, p, p, k);
      assert Hop(n, x, k + 1) == Hop(n, p, k);
    } else {
      Unlinked(m, x);
      forall k: nat
        ensures Hop(m0, p, k) != Some(x)
      {
        HopUnproxied(m, m0, x, p, k);
      }
      LinkKeepsAcyclic(m0, n, x, p);
    }
  }

  /** Another account may become the proxy exactly when it is a new one with at most two accounts above it and closes
      no loop. */
  lemma CanProxyMeans(m: Accounts, x: string, p: string)
    requires Closed(m) && Acyclic(m) && x in m && p in m && p != x
    ensures CanProxy(m, x, p) <==> p != m[x].proxy && Hop(m, p, 3) == None && Acyclic(WithProxy(m, x, p))
  {
    hide Hop;
    ClosesNoLoop(m, x, p);
    if p != m[x].proxy && Hop(m, p, DEPTH - 1) == None && Acyclic(WithProxy(m, x, p)) {
      assert forall k: nat :: Hop(m, p, k) != Some(x);
      assert CanProxy(m, x, p);
    }
  }

  /** Giving up a proxy does not change what stands at the account itself. */
  lemma StandingUnproxied(m: Accounts, x: string)
    requires Exact(m) && x in m
    ensures Standing(Unproxied(m, x), x) == Standing(m, x)
  {
    hide Propagate, Gain, Hop;
    var n := Propagate(m, x, Negated(Standing(m, x)), 0);
    forall d: nat | d < DEPTH
      ensures n[x].proxied[d] == m[x].proxied[d]
    {
      PropagateGains(m, x, Negated(Standing(m, x)), 0, x, d);
      GainNone(m, x, x, Negated(Standing(m, x)), 0, d);
    }
    assert n[x].proxied == m[x].proxied;
  }

  lemma ProxiedExact(m: Accounts, x: string, p: string)
    requires Closed(m) && x in m && CanProxy(m, x, p) && Exact(m)
    ensures Exact(Proxied(m, x, p))
  {
    hide Propagate, Hop, Exact, Standing;
    UnlinkExact(m, x);
    if p != SELF {
      StandingUnproxied(m, x);
      var m0 := Unproxied(m, x);
      forall k: nat
        ensures Hop(m0, p, k) != Some(x)
      {
        HopUnproxied(m, m0, x, p, k);
      }
      LinkExact(m0, x, p);
    }
  }

  /** An account nobody knew has nobody below it. */
  lemma OpenedExact(m: Accounts, x: string)
    requires Exact(m) && x !in m && x != SELF
    ensures Exact(Opened(m, x))
  {
    hide Hop, Weight;
    OpenedHops(m, x);
    var n := Opened(m, x);
    assert Acyclic(n);
    forall a, j: nat | a in n && 1 <= j <= DEPTH
      ensures n[a].proxied[j - 1] == Weight(n, a, j)
    {
      OpenedWeight(m, x, a, j);
    }
  }

  lemma OpenedWeight(m: Accounts, x: string, a: string, j: nat)
    requires Closed(m) && x !in m && x != SELF && (a in m || a == x) && j > 0
    ensures Weight(Opened(m, x), a, j) == if a == x then 0 else Weight(m, a, j)
  {
    hide Hop, Sum, Closed;
    OpenedHops(m, x);
    var n := Opened(m, x);
    if a == x {
      SumZero(SharesBelow(n, x, j));
    } else {
      assert SharesBelow(n, a, j) == SharesBelow(m, a, j);
    }
  }

  lemma OpenedHops(m: Accounts, x: string)
    requires Closed(m) && x !in m && x != SELF
    ensures forall y, k: nat {:trigger Hop(Opened(m, x), y, k)} :: y in m ==> Hop(Opened(m, x), y, k) == Hop(m, y, k)
    ensures forall k: nat :: k > 0 ==> Hop(Opened(m, x), x, k) == None
  {
    forall y, k: nat | y in m
      ensures Hop(Opened(m, x), y, k) == Hop(m, y, k)
    {
      HopOpened(m, x, y, k);
    }
  }

  lemma {:induction false} HopOpened(m: Accounts, x: string, y: string, k: nat)
    requires Closed(m) && x !in m && x != SELF && y in m
    ensures Hop(Opened(m, x), y, k) == Hop(m, y, k)
    decreases k
  {
    if k > 0 && m[y].proxy != SELF {
      HopOpened(m, x, m[y].proxy, k - 1);
    }
  }

  lemma AppliedExact(m: Accounts, c: Change)
    requires Exact(m)
    ensures Exact(Applied(m, c))
  {
    assert Closed(m);
    hide Exact, Propagate, Hop;
    match c
    case SetProxy(x, p) => if x in m && CanProxy(m, x, p) { ProxiedExact(m, x, p); }
    case ClearProxy(x) => if x in m { UnlinkExact(m, x); }
    case AddShares(x, s) => if x in m { SharesExact(m, x, s); }
    case Create(x) => if x !in m && x != SELF { OpenedExact(m, x); }
  }

  /** Over every run the graph stays acyclic and every cache stays exact. */
  lemma {:induction false} RunExact(m: Accounts, cs: seq<Change>)
    requires Exact(m)
    ensures Exact(Run(m, cs))
    decreases |cs|
  {
    assert Closed(m);
    hide Exact, Applied;
    if cs != [] {
      AppliedExact(m, cs[0]);
      RunExact(Applied(m, cs[0]), cs[1..]);
    }
  }

  /** A run from the empty table. */
  lemma RunFromGenesis(cs: seq<Change>)
    ensures Closed(map[]) && Exact(Run(map[], cs))
  {
    RunExact(map[], cs);
  }

  /** Burning shares without telling the proxies, as is done for the null, anonymous and committee
      accounts, keeps the caches exact only for accounts that had no proxy or no shares. */
  lemma SilentBurn(m: Accounts, x: string)
    requires Exact(m) && x in m
    ensures Exact(WithShares(m, x, -m[x].shares)) <==> m[x].proxy == SELF || m[x].shares == 0
  {
    var s := -m[x].shares;
    var n := WithShares(m, x, s);
    HopAfterShares(m, x, s);
    AcyclicSame(m, n);
    assert forall k: nat :: k > 0 && m[x].proxy == SELF ==> Hop(m, x, k) == None;
    assert m[x].proxy != SELF ==> Hop(m, x, 1) == Hop(m, m[x].proxy, 0);
    hide Weight, Hop, Acyclic;
    forall a, j: nat | a in m && 1 <= j <= DEPTH
      ensures Weight(n, a, j) == Weight(m, a, j) + (if Hop(m, x, j) == Some(a) then s else 0)
    {
      WeightAfterShares(m, x, s, a, j);
    }
    if m[x].proxy != SELF {
      var p := m[x].proxy;
      assert n[p].proxied == m[p].proxied;
      assert Weight(n, p, 1) == Weight(m, p, 1) + s;
    }
  }

  lemma CreditedExact(m: Accounts, x: string, s: int)
    requires Exact(m) && x in m
    ensures
      var n := WithShares(m, x, s);
      && Closed(n) && Applied(m, AddShares(x, s)) == Propagate(n, x, Only(s), 0)
      && Exact(Applied(m, AddShares(x, s)))
  {
    hide Hop, Weight, Propagate;
    SharesExact(m, x, s);
  }

  class Ledger {
    var accounts: Accounts

    constructor ()
      ensures accounts == map[] && Exact(accounts)
    {
      accounts := map[];
      new;
      RunFromGenesis([]);
    }

    /** Carries an array of changes to everyone above `x`. */
    method AdjustArray(x: string, delta: seq<int>, depth: nat)
      requires Closed(accounts) && x in accounts && |delta| == DEPTH + 1
      modifies this
      ensures accounts == Propagate(old(accounts), x, delta, depth)
      decreases DEPTH - depth
    {
      hide Shifted;
      var p := accounts[x].proxy;
      if p != SELF {
        if depth >= DEPTH {
          return;
        }
        var proxied := Shift(accounts[p].proxied, delta, depth);
        accounts := accounts[p := accounts[p].(proxied := proxied)];
        AdjustArray(p, delta, depth + 1);
      }
    }

    /** Adds `delta` to a cache, from `depth` on. */
    method Shift(cache: seq<int>, delta: seq<int>, depth: nat) returns (proxied: seq<int>)
      requires |cache| == DEPTH && |delta| == DEPTH + 1 && depth < DEPTH
      ensures proxied == Shifted(cache, delta, depth)
    {
      proxied := cache;
      var i: int := DEPTH - depth - 1;
      while i >= 0
        invariant -1 <= i <= DEPTH - depth - 1 && |proxied| == DEPTH
        invariant forall d :: 0 <= d < DEPTH ==>
          proxied[d] == cache[d] + (if d - depth > i then delta[d - depth] else 0)
      {
        proxied := proxied[i + depth := proxied[i + depth] + delta[i]];
        i := i - 1;
      }
    }

    /** Carries a change of one account's own shares to everyone above `x`. */
    method AdjustOne(x: string, s: int, depth: nat)
      requires Closed(accounts) && x in accounts
      modifies this
      ensures accounts == Propagate(old(accounts), x, Only(s), depth)
      decreases DEPTH - depth
    {
      var p := accounts[x].proxy;
      if p != SELF {
        if depth >= DEPTH {
          return;
        }
        var proxied := accounts[p].proxied;
        assert proxied[depth := proxied[depth] + s] == Shifted(proxied, Only(s), depth);
        accounts := accounts[p := accounts[p].(proxied := proxied[depth := proxied[depth] + s])];
        AdjustOne(p, s, depth + 1);
      }
    }

    /** Walks up from a proposed proxy, refusing loops and chains that are too long. */
    method CheckChain(x: string, p: string) returns (ok: bool)
      requires Closed(accounts) && Acyclic(accounts) && x in accounts && p in accounts && p != x
      requires accounts[x].proxy != p
      ensures ok <==> CanProxy(accounts, x, p)
    {
      var chain := {x, p};
      var current := p;
      ghost var i: nat := 0;
      while accounts[current].proxy != SELF
        invariant Hop(accounts, p, i) == Some(current) && current in accounts && |chain| == i + 2 <= DEPTH
        invariant forall k: nat :: k <= i ==> Hop(accounts, p, k) != Some(x)
        invariant x in chain
        invariant forall y :: y in chain ==> y == x || exists k: nat :: k <= i && Hop(accounts, p, k) == Some(y)
        decreases DEPTH - i
      {
        var next := accounts[current].proxy;
        HopAdd(accounts, p, i, 1);
        assert Hop(accounts, current, 1) == Hop(accounts, next, 0);
        if next in chain {
          if next != x {
            ghost var k: nat :| k <= i && Hop(accounts, p, k) == Some(next);
            HopUnique(accounts, p, next, k, i + 1);
          }
          return false;
        }
        chain := chain + {next};
        current := next;
        i := i + 1;
        if |chain| > DEPTH {
          return false;
        }
      }
      HopAdd(accounts, p, i, 1);
      HopEnds(accounts, p, i + 1, DEPTH - 1);
      forall k: nat
        ensures Hop(accounts, p, k) != Some(x)
      {
        if k > i {
          HopEnds(accounts, p, i + 1, k);
        }
      }
      return true;
    }

    /** The proxy operation. A refusal undoes the whole operation. */
    method SetProxy(x: string, p: string) returns (ok: bool)
      requires Exact(accounts) && p != x
      modifies this
      ensures ok <==> x in old(accounts) && CanProxy(old(accounts), x, p)
      ensures accounts == Applied(old(accounts), Change.SetProxy(x, p))
      ensures Exact(accounts)
    {
      hide Propagate, Hop;
      ghost var start := accounts;
      var before := accounts;
      if x !in accounts || accounts[x].proxy == p || (p != SELF && p !in accounts) {
        return false;
      }
      var delta := Negated(Standing(accounts, x));
      AdjustArray(x, delta, 0);
      if p != SELF {
        AcyclicSame(start, accounts);
        ok := CheckChain(x, p);
        CanProxySame(start, accounts, x, p);
        if !ok {
          accounts := before;
          return;
        }
        accounts := accounts[x := accounts[x].(proxy := p)];
        assert Negated(delta) == Standing(start, x);
        assert accounts == WithProxy(Unproxied(start, x), x, p);
        AdjustArray(x, Negated(delta), 0);
      } else {
        ok := true;
        accounts := accounts[x := accounts[x].(proxy := SELF)];
      }
      assert accounts == Proxied(start, x, p);
      ProxiedExact(start, x, p);
    }

    /** Voting for a validator first gives up the proxy. */
    method ClearProxy(x: string) returns (ok: bool)
      requires Exact(accounts)
      modifies this
      ensures ok <==> x in old(accounts)
      ensures accounts == Applied(old(accounts), Change.ClearProxy(x))
      ensures Exact(accounts) && (ok ==> x in accounts && accounts[x].proxy == SELF)
    {
      if x !in accounts {
        return false;
      }
      ghost var start := accounts;
      UnlinkExact(start, x);
      if accounts[x].proxy != SELF {
        AdjustArray(x, Negated(Standing(accounts, x)), 0);
        accounts := accounts[x := accounts[x].(proxy := SELF)];
      } else {
        assert accounts == Unproxied(start, x);
      }
      ok := true;
    }

    /** Vesting creation and withdrawal. */
    method ChangeShares(x: string, s: int)
      requires Exact(accounts) && x in accounts
      modifies this
      ensures accounts == Applied(old(accounts), AddShares(x, s))
      ensures Exact(accounts)
    {
      hide Exact, Applied, Propagate, Only;
      CreditedExact(accounts, x, s);
      accounts := accounts[x := accounts[x].(shares := accounts[x].shares + s)];
      AdjustOne(x, s, 0);
    }
  }
}
