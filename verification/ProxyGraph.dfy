/** Chains of vote proxies and the shares that stand behind an account at each distance. */
module ProxyGraph {
  import opened Options
  import opened Sums

  /** How many hops a proxied vote travels. */
  const DEPTH: nat := 4
  /** The empty proxy: the account votes for itself. */
  const SELF := ""

  /** `proxied[d]` caches the shares of the accounts exactly `d + 1` hops below. */
  datatype Account = Account(shares: int, proxy: string, proxied: seq<int>)

  type Accounts = map<string, Account>

  /** Every proxy is an account. */
  ghost predicate Closed(m: Accounts) {
    SELF !in m && forall x :: x in m ==> (m[x].proxy == SELF || m[x].proxy in m) && |m[x].proxied| == DEPTH
  }

  /** The account `k` proxy hops above `x`. */
  function Hop(m: Accounts, x: string, k: nat): (a: Option<string>)
    requires Closed(m) && x in m
    ensures a.Some? ==> a.value in m
    decreases k
  {
    if k == 0 then Some(x)
    else if m[x].proxy == SELF then None
    else Hop(m, m[x].proxy, k - 1)
  }

  /** Nobody is its own proxy, over any number of hops. */
  ghost predicate Acyclic(m: Accounts)
    requires Closed(m)
  {
    forall x, k: nat {:trigger Hop(m, x, k)} :: x in m && k > 0 ==> Hop(m, x, k) != Some(x)
  }

  /** The same accounts with the same proxies. */
  ghost predicate SameGraph(m: Accounts, n: Accounts) {
    m.Keys == n.Keys && forall x :: x in m ==> m[x].proxy == n[x].proxy
  }

  lemma {:induction false} HopSameGraph(m: Accounts, n: Accounts, x: string, k: nat)
    requires Closed(m) && Closed(n) && SameGraph(m, n) && x in m
    ensures Hop(m, x, k) == Hop(n, x, k)
    decreases k
  {
    if k > 0 && m[x].proxy != SELF {
      HopSameGraph(m, n, m[x].proxy, k - 1);
    }
  }

  lemma {:induction false} HopAdd(m: Accounts, x: string, i: nat, j: nat)
    requires Closed(m) && x in m && Hop(m, x, i).Some?
    ensures Hop(m, x, i + j) == Hop(m, Hop(m, x, i).value, j)
    decreases i
  {
    if i > 0 {
      HopAdd(m, m[x].proxy, i - 1, j);
    }
  }

  /** An ancestor is reached after one number of hops only. */
  lemma HopUnique(m: Accounts, x: string, a: string, i: nat, j: nat)
    requires Closed(m) && Acyclic(m) && x in m && Hop(m, x, i) == Some(a) && Hop(m, x, j) == Some(a)
    ensures i == j
  {
    var lo, hi := if i < j then i else j, if i < j then j else i;
    HopAdd(m, x, lo, hi - lo);
  }

  /** The shares of the accounts `j` hops below `a`. */
  ghost function SharesBelow(m: Accounts, a: string, j: nat): map<string, int>
    requires Closed(m)
  {
    map y: string | y in m && Hop(m, y, j) == Some(a) :: m[y].shares
  }

  ghost function Weight(m: Accounts, a: string, j: nat): int
    requires Closed(m)
  {
    Sum(SharesBelow(m, a, j))
  }

  /** The caches hold the shares below each account, by distance. */
  ghost predicate VotesExact(m: Accounts)
    requires Closed(m)
  {
    forall a, j: nat {:trigger Weight(m, a, j)} :: a in m && 1 <= j <= DEPTH ==> m[a].proxied[j - 1] == Weight(m, a, j)
  }

  // ---------------------------------------------------------------------------
  // Linking an account below a proxy
  // ---------------------------------------------------------------------------

  /** `m` is `m0` with `x`, which had no proxy, put below `p`; `x` is not above `p`. */
  ghost predicate Linked(m0: Accounts, m: Accounts, x: string, p: string) {
    && Closed(m0) && Closed(m) && x in m0 && p in m0 && m0.Keys == m.Keys
    && m0[x].proxy == SELF && m[x].proxy == p
    && (forall y :: y in m ==> m[y].shares == m0[y].shares && (y != x ==> m[y].proxy == m0[y].proxy))
    && (forall k: nat :: Hop(m0, p, k) != Some(x))
  }

  /** Walks that do not pass `x` are the same before and after. */
  lemma {:induction false} HopAvoiding(m0: Accounts, m: Accounts, x: string, p: string, y: string, j: nat)
    requires Linked(m0, m, x, p) && y in m0
    requires forall i :: 0 <= i < j ==> Hop(m0, y, i) != Some(x)
    ensures Hop(m, y, j) == Hop(m0, y, j)
    decreases j
  {
    if j > 0 {
      assert Hop(m0, y, 0) != Some(x);
      if m0[y].proxy != SELF {
        forall i | 0 <= i < j - 1
          ensures Hop(m0, m0[y].proxy, i) != Some(x)
        {
          assert Hop(m0, y, i + 1) == Hop(m0, m0[y].proxy, i);
        }
        HopAvoiding(m0, m, x, p, m0[y].proxy, j - 1);
      }
    }
  }

  /** Walks that reach `x` after `i` hops go on from `p`. */
  lemma {:induction false} HopThrough(m0: Accounts, m: Accounts, x: string, p: string, y: string, i: nat, j: nat)
    requires Linked(m0, m, x, p) && y in m0 && Hop(m0, y, i) == Some(x) && i < j
    ensures Hop(m, y, j) == Hop(m0, p, j - i - 1)
    ensures Hop(m0, y, j) == None
    decreases i
  {
    if i == 0 {
      HopAvoiding(m0, m, x, p, p, j - 1);
    } else {
      HopThrough(m0, m, x, p, m0[y].proxy, i - 1, j - 1);
      assert y != x;
    }
  }

  lemma LinkKeepsAcyclic(m0: Accounts, m: Accounts, x: string, p: string)
    requires Linked(m0, m, x, p) && Acyclic(m0)
    ensures Acyclic(m)
  {
    forall y, k: nat | y in m && k > 0
      ensures Hop(m, y, k) != Some(y)
    {
      if i: nat :| i < k && Hop(m0, y, i) == Some(x) {
        HopThrough(m0, m, x, p, y, i, k);
        if Hop(m0, p, k - i - 1) == Some(y) {
          HopAdd(m0, p, k - i - 1, i);
        }
      } else {
        HopAvoiding(m0, m, x, p, y, k);
      }
    }
  }

  lemma UnlinkKeepsAcyclic(m0: Accounts, m: Accounts, x: string, p: string)
    requires Linked(m0, m, x, p) && Acyclic(m)
    ensures Acyclic(m0)
  {
    forall y, k: nat | y in m0 && k > 0
      ensures Hop(m0, y, k) != Some(y)
    {
      if i: nat :| i < k && Hop(m0, y, i) == Some(x) {
        HopThrough(m0, m, x, p, y, i, k);
      } else {
        HopAvoiding(m0, m, x, p, y, k);
      }
    }
  }

  /** Accounts below `x` are the same before and after. */
  lemma WeightBelowLinked(m0: Accounts, m: Accounts, x: string, p: string, j: nat)
    requires Linked(m0, m, x, p) && Acyclic(m)
    ensures Weight(m, x, j) == Weight(m0, x, j)
  {
    forall y | y in m
      ensures Hop(m, y, j) == Some(x) <==> Hop(m0, y, j) == Some(x)
    {
      if i: nat :| i < j && Hop(m0, y, i) == Some(x) {
        HopThrough(m0, m, x, p, y, i, j);
      } else {
        HopAvoiding(m0, m, x, p, y, j);
      }
    }
    assert SharesBelow(m, x, j) == SharesBelow(m0, x, j);
  }

  /** Who is `j` hops below an account above `x`: those who were, and those who were below `x`. */
  lemma BelowLinked(m0: Accounts, m: Accounts, x: string, p: string, a: string, k: nat, j: nat, y: string)
    requires Linked(m0, m, x, p) && Acyclic(m0) && 0 < k && Hop(m0, p, k - 1) == Some(a) && y in m
    ensures Hop(m, y, j) == Some(a) <==> Hop(m0, y, j) == Some(a) || (k <= j && Hop(m0, y, j - k) == Some(x))
    ensures !(Hop(m0, y, j) == Some(a) && k <= j && Hop(m0, y, j - k) == Some(x))
  {
    if i: nat :| i < j && Hop(m0, y, i) == Some(x) {
      HopThrough(m0, m, x, p, y, i, j);
      if Hop(m0, p, j - i - 1) == Some(a) {
        HopUnique(m0, p, a, j - i - 1, k - 1);
      }
      if k <= j && Hop(m0, y, j - k) == Some(x) {
        HopUnique(m0, y, x, i, j - k);
      }
    } else {
      HopAvoiding(m0, m, x, p, y, j);
    }
  }

  /** Linking `x` adds, to the account `k` hops above it, everything `j - k` hops below `x`. */
  lemma WeightAboveLinked(m0: Accounts, m: Accounts, x: string, p: string, a: string, k: nat, j: nat)
    requires Linked(m0, m, x, p) && Acyclic(m0) && 0 < k && Hop(m0, p, k - 1) == Some(a)
    ensures Weight(m, a, j) == Weight(m0, a, j) + (if k <= j then Weight(m0, x, j - k) else 0)
  {
    hide Hop, Acyclic, Sum;
    forall y | y in m
      ensures Hop(m, y, j) == Some(a) <==> Hop(m0, y, j) == Some(a) || (k <= j && Hop(m0, y, j - k) == Some(x))
      ensures !(Hop(m0, y, j) == Some(a) && k <= j && Hop(m0, y, j - k) == Some(x))
    {
      BelowLinked(m0, m, x, p, a, k, j, y);
    }
    if k <= j {
      assert SharesBelow(m, a, j) == SharesBelow(m0, a, j) + SharesBelow(m0, x, j - k);
      SumUnion(SharesBelow(m0, a, j), SharesBelow(m0, x, j - k));
    } else {
      assert SharesBelow(m, a, j) == SharesBelow(m0, a, j);
    }
  }

  /** Accounts that are not above `x` are not affected. */
  lemma WeightElsewhere(m0: Accounts, m: Accounts, x: string, p: string, a: string, j: nat)
    requires Linked(m0, m, x, p) && forall k: nat :: Hop(m0, p, k) != Some(a)
    ensures Weight(m, a, j) == Weight(m0, a, j)
  {
    forall y | y in m
      ensures Hop(m, y, j) == Some(a) <==> Hop(m0, y, j) == Some(a)
    {
      if i: nat :| i < j && Hop(m0, y, i) == Some(x) {
        HopThrough(m0, m, x, p, y, i, j);
      } else {
        HopAvoiding(m0, m, x, p, y, j);
      }
    }
    assert SharesBelow(m, a, j) == SharesBelow(m0, a, j);
  }
}
