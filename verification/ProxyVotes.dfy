/** Propagation of votes along proxy chains. */
module ProxyVotes {
  import opened Options
  import opened Sums
  import opened ProxyGraph

  /** Adds `delta` to a cache, shifted by the distance already travelled. */
  function Shifted(proxied: seq<int>, delta: seq<int>, depth: nat): (r: seq<int>)
    requires |proxied| == DEPTH && |delta| == DEPTH + 1
    ensures |r| == DEPTH
    ensures forall d :: 0 <= d < DEPTH ==> r[d] == proxied[d] + (if d >= depth then delta[d - depth] else 0)
  {
    seq(DEPTH, d requires 0 <= d < DEPTH => proxied[d] + (if d >= depth then delta[d - depth] else 0))
  }

  /** Adds `delta` to the caches of everyone above `x`, up to the depth limit. */
  function Propagate(m: Accounts, x: string, delta: seq<int>, depth: nat): (n: Accounts)
    requires Closed(m) && x in m && |delta| == DEPTH + 1
    ensures Closed(n) && SameGraph(m, n) && forall y :: y in m ==> n[y].shares == m[y].shares
    decreases DEPTH - depth
  {
    var p := m[x].proxy;
    if p == SELF || depth >= DEPTH then m
    else Propagate(m[p := m[p].(proxied := Shifted(m[p].proxied, delta, depth))], p, delta, depth + 1)
  }

  /** What the cache of `a` at distance `d` gains. */
  function Gain(m: Accounts, x: string, a: string, delta: seq<int>, depth: nat, d: nat): int
    requires Closed(m) && x in m && |delta| == DEPTH + 1 && d < DEPTH
    decreases DEPTH - depth
  {
    var p := m[x].proxy;
    if p == SELF || depth >= DEPTH then 0
    else (if p == a && d >= depth then delta[d - depth] else 0) + Gain(m, p, a, delta, depth + 1, d)
  }

  lemma {:induction false} GainSameGraph(m: Accounts, n: Accounts, x: string, a: string, delta: seq<int>, depth: nat,
                                         d: nat)
    requires Closed(m) && Closed(n) && SameGraph(m, n) && x in m && |delta| == DEPTH + 1 && d < DEPTH
    ensures Gain(m, x, a, delta, depth, d) == Gain(n, x, a, delta, depth, d)
    decreases DEPTH - depth
  {
    if m[x].proxy != SELF && depth < DEPTH {
      GainSameGraph(m, n, m[x].proxy, a, delta, depth + 1, d);
    }
  }

  /** The first account above `x` takes its part, and the rest goes on from there. */
  lemma PropagateStep(m: Accounts, x: string, delta: seq<int>, depth: nat, a: string, d: nat)
    requires Closed(m) && x in m && |delta| == DEPTH + 1 && a in m && d < DEPTH && m[x].proxy != SELF && depth < DEPTH
    ensures
      var p := m[x].proxy;
      var n := m[p := m[p].(proxied := Shifted(m[p].proxied, delta, depth))];
      && Closed(n) && SameGraph(m, n) && p in n && a in n
      && Propagate(m, x, delta, depth) == Propagate(n, p, delta, depth + 1)
      && n[a].proxied[d] == m[a].proxied[d] + (if p == a && d >= depth then delta[d - depth] else 0)
  {
  }

  lemma GainStep(m: Accounts, x: string, a: string, delta: seq<int>, depth: nat, d: nat)
    requires Closed(m) && x in m && |delta| == DEPTH + 1 && d < DEPTH
    ensures Gain(m, x, a, delta, depth, d) ==
      if m[x].proxy == SELF || depth >= DEPTH then 0
      else (if m[x].proxy == a && d >= depth then delta[d - depth] else 0) + Gain(m, m[x].proxy, a, delta, depth + 1, d)
  {
  }

  lemma PropagateNone(m: Accounts, x: string, delta: seq<int>, depth: nat)
    requires Closed(m) && x in m && |delta| == DEPTH + 1 && (m[x].proxy == SELF || depth >= DEPTH)
    ensures Propagate(m, x, delta, depth) == m
  {
  }

  /** Propagation adds to every cache exactly its gain. */
  lemma {:induction false} PropagateGains(m: Accounts, x: string, delta: seq<int>, depth: nat, a: string, d: nat)
    requires Closed(m) && x in m && |delta| == DEPTH + 1 && a in m && d < DEPTH
    ensures Propagate(m, x, delta, depth)[a].proxied[d] == m[a].proxied[d] + Gain(m, x, a, delta, depth, d)
    decreases DEPTH - depth
  {
    hide Propagate, Gain, Shifted, SameGraph;
    GainStep(m, x, a, delta, depth, d);
    if m[x].proxy != SELF && depth < DEPTH {
      var p := m[x].proxy;
      var n := m[p := m[p].(proxied := Shifted(m[p].proxied, delta, depth))];
      PropagateStep(m, x, delta, depth, a, d);
      PropagateGains(n, p, delta, depth + 1, a, d);
      GainSameGraph(m, n, p, a, delta, depth + 1, d);
    } else {
      PropagateNone(m, x, delta, depth);
    }
  }

  /** Whoever is not above `x` gains nothing. */
  lemma {:induction false} GainNone(m: Accounts, x: string, a: string, delta: seq<int>, depth: nat, d: nat)
    requires Closed(m) && x in m && |delta| == DEPTH + 1 && d < DEPTH
    requires forall k: nat :: k > 0 ==> Hop(m, x, k) != Some(a)
    ensures Gain(m, x, a, delta, depth, d) == 0
    decreases DEPTH - depth
  {
    var p := m[x].proxy;
    if p != SELF && depth < DEPTH {
      assert Hop(m, x, 1) == Hop(m, p, 0);
      forall k: nat | k > 0
        ensures Hop(m, p, k) != Some(a)
      {
        assert Hop(m, x, k + 1) == Hop(m, p, k);
      }
      GainNone(m, p, a, delta, depth + 1, d);
    }
  }

  /** The account `k` hops above `x` gains the shifted delta. */
  lemma {:induction false} GainAbove(m: Accounts, x: string, a: string, delta: seq<int>, depth: nat, d: nat, k: nat)
    requires Closed(m) && Acyclic(m) && x in m && |delta| == DEPTH + 1 && d < DEPTH
    requires k > 0 && Hop(m, x, k) == Some(a)
    ensures Gain(m, x, a, delta, depth, d) == if d >= depth + k - 1 then delta[d - (depth + k - 1)] else 0
    decreases k
  {
    var p := m[x].proxy;
    assert Hop(m, x, 1) == Hop(m, p, 0) == Some(p);
    if depth < DEPTH {
      if k == 1 {
        GainNone(m, a, a, delta, depth + 1, d);
      } else {
        GainAbove(m, p, a, delta, depth + 1, d, k - 1);
      }
    }
  }

  /** The shares standing at `x`: its own and what is cached below it. */
  function Standing(m: Accounts, x: string): (delta: seq<int>)
    requires Closed(m) && x in m
    ensures |delta| == DEPTH + 1
  {
    [m[x].shares] + m[x].proxied
  }

  function Negated(delta: seq<int>): (r: seq<int>)
    ensures |r| == |delta| && forall i :: 0 <= i < |r| ==> r[i] == -delta[i]
  {
    seq(|delta|, i requires 0 <= i < |delta| => -delta[i])
  }

  ghost predicate Exact(m: Accounts) {
    Closed(m) && Acyclic(m) && VotesExact(m)
  }

  lemma StandingIsWeight(m: Accounts, x: string, j: nat)
    requires Exact(m) && x in m && j <= DEPTH
    ensures Standing(m, x)[j] == Weight(m, x, j)
  {
    if j == 0 {
      assert SharesBelow(m, x, 0) == map[x := m[x].shares];
      SumUpdate(map[], x, m[x].shares);
    }
  }

  function WithProxy(m: Accounts, x: string, p: string): Accounts
    requires x in m
  {
    m[x := m[x].(proxy := p)]
  }

  /** Weights depend on the graph and the shares only. */
  lemma WeightSame(m: Accounts, n: Accounts, a: string, j: nat)
    requires Closed(m) && Closed(n) && SameGraph(m, n) && forall y :: y in m ==> n[y].shares == m[y].shares
    ensures Weight(m, a, j) == Weight(n, a, j)
  {
    forall y | y in m
      ensures Hop(m, y, j) == Hop(n, y, j)
    {
      HopSameGraph(m, n, y, j);
    }
    assert SharesBelow(m, a, j) == SharesBelow(n, a, j);
  }

  lemma AcyclicSame(m: Accounts, n: Accounts)
    requires Closed(m) && Closed(n) && SameGraph(m, n) && Acyclic(m)
    ensures Acyclic(n)
  {
    forall y, k: nat | y in n && k > 0
      ensures Hop(n, y, k) != Some(y)
    {
      HopSameGraph(m, n, y, k);
    }
  }

  /** Propagation makes the caches exact when the gains are what they lack. */
  lemma PropagateExact(m: Accounts, x: string, delta: seq<int>)
    requires Closed(m) && Acyclic(m) && x in m && |delta| == DEPTH + 1
    requires forall a, j: nat {:trigger Weight(m, a, j)} :: a in m && 1 <= j <= DEPTH ==>
      Weight(m, a, j) == m[a].proxied[j - 1] + Gain(m, x, a, delta, 0, j - 1)
    ensures Exact(Propagate(m, x, delta, 0))
  {
    hide Gain, Propagate;
    var n := Propagate(m, x, delta, 0);
    AcyclicSame(m, n);
    forall a, j: nat | a in n && 1 <= j <= DEPTH
      ensures n[a].proxied[j - 1] == Weight(n, a, j)
    {
      hide Acyclic, Hop, Weight;
      PropagateGains(m, x, delta, 0, a, j - 1);
      WeightSame(m, n, a, j);
    }
  }

  /** Putting `x` below `p` and propagating its standing keeps every cache exact. */
  lemma LinkExact(m0: Accounts, x: string, p: string)
    requires Exact(m0) && x in m0 && p in m0 && m0[x].proxy == SELF
    requires forall k: nat :: Hop(m0, p, k) != Some(x)
    ensures Closed(WithProxy(m0, x, p)) && Exact(Propagate(WithProxy(m0, x, p), x, Standing(m0, x), 0))
  {
    var m, delta := WithProxy(m0, x, p), Standing(m0, x);
    assert Linked(m0, m, x, p);
    hide Linked, Hop, Propagate, Weight, Gain;
    LinkKeepsAcyclic(m0, m, x, p);
    forall i: nat | i <= DEPTH
      ensures delta[i] == Weight(m0, x, i)
    {
      StandingIsWeight(m0, x, i);
    }
    hide Acyclic;
    forall a, j: nat | a in m && 1 <= j <= DEPTH
      ensures Weight(m, a, j) == m[a].proxied[j - 1] + Gain(m, x, a, delta, 0, j - 1)
    {
      LinkGain(m0, m, x, p, delta, a, j);
    }
    PropagateExact(m, x, delta);
  }

  /** What linking adds to a weight is what propagation adds to its cache. */
  lemma LinkGain(m0: Accounts, m: Accounts, x: string, p: string, delta: seq<int>, a: string, j: nat)
    requires Linked(m0, m, x, p) && Acyclic(m0) && Acyclic(m) && |delta| == DEPTH + 1 && 1 <= j <= DEPTH
    requires forall i: nat :: i <= DEPTH ==> delta[i] == Weight(m0, x, i)
    ensures Weight(m, a, j) == Weight(m0, a, j) + Gain(m, x, a, delta, 0, j - 1)
  {
    hide Gain, Weight, Acyclic, Hop;
    if k: nat :| Hop(m0, p, k) == Some(a) {
      WeightAboveLinked(m0, m, x, p, a, k + 1, j);
      LinkAbove(m0, m, x, p, delta, a, k, j);
    } else {
      LinkElsewhere(m0, m, x, p, delta, a, j);
    }
  }

  lemma LinkAbove(m0: Accounts, m: Accounts, x: string, p: string, delta: seq<int>, a: string, k: nat, j: nat)
    requires Linked(m0, m, x, p) && Acyclic(m) && |delta| == DEPTH + 1 && 1 <= j <= DEPTH && Hop(m0, p, k) == Some(a)
    ensures Gain(m, x, a, delta, 0, j - 1) == if k + 1 <= j then delta[j - k - 1] else 0
  {
    hide Gain, Acyclic;
    assert Hop(m0, x, 0) == Some(x);
    HopThrough(m0, m, x, p, x, 0, k + 1);
    GainAbove(m, x, a, delta, 0, j - 1, k + 1);
  }

  lemma LinkElsewhere(m0: Accounts, m: Accounts, x: string, p: string, delta: seq<int>, a: string, j: nat)
    requires Linked(m0, m, x, p) && |delta| == DEPTH + 1 && 1 <= j <= DEPTH
    requires forall k: nat :: Hop(m0, p, k) != Some(a)
    ensures Weight(m, a, j) == Weight(m0, a, j) && Gain(m, x, a, delta, 0, j - 1) == 0
  {
    hide Gain, Weight;
    WeightElsewhere(m0, m, x, p, a, j);
    forall k: nat | k > 0
      ensures Hop(m, x, k) != Some(a)
    {
      HopThrough(m0, m, x, p, x, 0, k);
    }
    GainNone(m, x, a, delta, 0, j - 1);
  }

  lemma {:induction false} GainNegated(m: Accounts, x: string, a: string, delta: seq<int>, depth: nat, d: nat)
    requires Closed(m) && x in m && |delta| == DEPTH + 1 && d < DEPTH
    ensures Gain(m, x, a, Negated(delta), depth, d) == -Gain(m, x, a, delta, depth, d)
    decreases DEPTH - depth
  {
    if m[x].proxy != SELF && depth < DEPTH {
      GainNegated(m, m[x].proxy, a, delta, depth + 1, d);
    }
  }

  /** The graph after `x` has given up its proxy and everyone above has given back its standing. */
  function Unproxied(m: Accounts, x: string): (n: Accounts)
    requires Closed(m) && x in m
    ensures Closed(n)
  {
    WithProxy(Propagate(m, x, Negated(Standing(m, x)), 0), x, SELF)
  }

  /** Taking the standing of `x` back from everyone above it and then clearing its proxy
      keeps every cache exact. */
  lemma UnlinkExact(m: Accounts, x: string)
    requires Exact(m) && x in m
    ensures Exact(Unproxied(m, x))
  {
    var m0, p := Unproxied(m, x), m[x].proxy;
    if p == SELF {
      assert m0 == m;
    } else {
      UnlinkedIsLinked(m, m0, x, p);
      hide Propagate, Hop, Linked, Unproxied;
      UnlinkKeepsAcyclic(m0, m, x, p);
      forall a, j: nat | a in m0 && 1 <= j <= DEPTH
        ensures m0[a].proxied[j - 1] == Weight(m0, a, j)
      {
        UnlinkedCache(m, m0, x, p, a, j);
      }
    }
  }

  lemma UnlinkedCache(m: Accounts, m0: Accounts, x: string, p: string, a: string, j: nat)
    requires Exact(m) && x in m && m0 == Unproxied(m, x) && Linked(m0, m, x, p) && Acyclic(m0)
    requires a in m && 1 <= j <= DEPTH
    ensures m0[a].proxied[j - 1] == Weight(m0, a, j)
  {
    hide Propagate, Gain, Linked, Hop, Weight;
    var delta := Standing(m, x);
    forall i: nat | i <= DEPTH
      ensures delta[i] == Weight(m0, x, i)
    {
      StandingIsWeight(m, x, i);
      WeightBelowLinked(m0, m, x, p, i);
    }
    PropagateGains(m, x, Negated(delta), 0, a, j - 1);
    GainNegated(m, x, a, delta, 0, j - 1);
    LinkGain(m0, m, x, p, delta, a, j);
  }

  /** In an acyclic graph removing the link of `x` leaves `p` not below `x`. */
  lemma UnlinkedIsLinked(m: Accounts, m0: Accounts, x: string, p: string)
    requires Closed(m) && Acyclic(m) && Closed(m0) && x in m && m0.Keys == m.Keys && m[x].proxy == p && p != SELF
    requires m0[x].proxy == SELF
    requires forall y :: y in m ==> m[y].shares == m0[y].shares && (y != x ==> m[y].proxy == m0[y].proxy)
    ensures Linked(m0, m, x, p)
  {
    forall k: nat
      ensures Hop(m0, p, k) != Some(x)
    {
      NotAboveProxy(m, m0, x, p, p, 0, k);
    }
  }

  /** Following the chain above `p` in `m0` never meets `x`, or `m` would have a cycle. */
  lemma {:induction false} NotAboveProxy(m: Accounts, m0: Accounts, x: string, p: string, y: string, i: nat, k: nat)
    requires Closed(m) && Acyclic(m) && Closed(m0) && x in m && m0.Keys == m.Keys && m[x].proxy == p && p != SELF
    requires forall z :: z in m && z != x ==> m[z].proxy == m0[z].proxy
    requires y in m && Hop(m, p, i) == Some(y)
    ensures Hop(m0, y, k) != Some(x)
    decreases k
  {
    assert Hop(m, x, i + 1) == Hop(m, p, i);
    if k > 0 && m0[y].proxy != SELF {
      HopAdd(m, p, i, 1);
      assert Hop(m, y, 1) == Hop(m, m[y].proxy, 0);
      NotAboveProxy(m, m0, x, p, m0[y].proxy, i + 1, k - 1);
    }
  }

  // ---------------------------------------------------------------------------
  // Share changes
  // ---------------------------------------------------------------------------

  /** A change of one account's own shares. */
  function Only(s: int): (delta: seq<int>)
    ensures |delta| == DEPTH + 1 && delta[0] == s && forall i :: 0 < i <= DEPTH ==> delta[i] == 0
  {
    [s] + seq(DEPTH, i => 0)
  }

  function WithShares(m: Accounts, x: string, s: int): Accounts
    requires x in m
  {
    m[x := m[x].(shares := m[x].shares + s)]
  }

  lemma HopAfterShares(m: Accounts, x: string, s: int)
    requires Closed(m) && x in m
    ensures Closed(WithShares(m, x, s)) && SameGraph(m, WithShares(m, x, s))
    ensures forall y, j: nat {:trigger Hop(WithShares(m, x, s), y, j)} :: y in m ==>
      Hop(WithShares(m, x, s), y, j) == Hop(m, y, j)
  {
    var n := WithShares(m, x, s);
    forall y, j: nat | y in m
      ensures Hop(n, y, j) == Hop(m, y, j)
    {
      HopSameGraph(m, n, y, j);
    }
  }

  lemma WeightAfterShares(m: Accounts, x: string, s: int, a: string, j: nat)
    requires Closed(m) && x in m
    ensures Closed(WithShares(m, x, s))
    ensures Weight(WithShares(m, x, s), a, j) == Weight(m, a, j) + (if Hop(m, x, j) == Some(a) then s else 0)
  {
    hide Hop, Sum, Closed;
    HopAfterShares(m, x, s);
    var n, below := WithShares(m, x, s), SharesBelow(m, a, j);
    if Hop(m, x, j) == Some(a) {
      assert SharesBelow(n, a, j) == below[x := m[x].shares + s];
      SumUpdate(below, x, m[x].shares + s);
    } else {
      assert SharesBelow(n, a, j) == below;
    }
  }

  /** Propagating a change of shares keeps every cache exact. */
  lemma SharesExact(m: Accounts, x: string, s: int)
    requires Exact(m) && x in m
    ensures Closed(WithShares(m, x, s)) && Exact(Propagate(WithShares(m, x, s), x, Only(s), 0))
  {
    hide Propagate, Gain, Weight;
    var m1 := WithShares(m, x, s);
    AcyclicSame(m, m1);
    forall a, j: nat | a in m1 && 1 <= j <= DEPTH
      ensures Weight(m1, a, j) == m1[a].proxied[j - 1] + Gain(m1, x, a, Only(s), 0, j - 1)
    {
      WeightAfterShares(m, x, s, a, j);
      SharesGain(m1, x, s, a, j);
      HopSameGraph(m, m1, x, j);
    }
    PropagateExact(m1, x, Only(s));
  }

  lemma SharesGain(m: Accounts, x: string, s: int, a: string, j: nat)
    requires Closed(m) && Acyclic(m) && x in m && 1 <= j <= DEPTH
    ensures Gain(m, x, a, Only(s), 0, j - 1) == if Hop(m, x, j) == Some(a) then s else 0
  {
    if k: nat :| k > 0 && Hop(m, x, k) == Some(a) {
      GainAbove(m, x, a, Only(s), 0, j - 1, k);
      if Hop(m, x, j) == Some(a) {
        HopUnique(m, x, a, j, k);
      }
    } else {
      GainNone(m, x, a, Only(s), 0, j - 1);
    }
  }
}
