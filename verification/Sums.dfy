/** Sums of the values of a finite map. */
module Sums {

  ghost function Sum<K>(m: map<K, int>): int
  {
    if m == map[] then 0 else
    var k :| k in m;
    m[k] + Sum(m - {k})
  }

  lemma {:induction false} SumRemove<K>(m: map<K, int>, k: K)
    requires k in m
    ensures Sum(m) == m[k] + Sum(m - {k})
    decreases m
  {
    var j :| j in m && Sum(m) == m[j] + Sum(m - {j});
    if j != k {
      SumRemove(m - {j}, k);
      SumRemove(m - {k}, j);
      assert m - {j} - {k} == m - {k} - {j};
    }
  }

  /** Setting one value changes the sum by the difference. */
  lemma SumUpdate<K>(m: map<K, int>, k: K, x: int)
    ensures Sum(m[k := x]) == Sum(m) + x - (if k in m then m[k] else 0)
  {
    SumRemove(m[k := x], k);
    assert m[k := x] - {k} == m - {k};
    if k in m {
      SumRemove(m, k);
    } else {
      assert m - {k} == m;
    }
  }

  lemma {:induction false} SumZero<K>(m: map<K, int>)
    requires forall k :: k in m ==> m[k] == 0
    ensures Sum(m) == 0
    decreases m
  {
    if m != map[] {
      var k :| k in m;
      SumRemove(m, k);
      SumZero(m - {k});
    }
  }

  /** A map of non-negative values has a non-negative sum no smaller than any value. */
  lemma {:induction false} SumNonNegative<K>(m: map<K, int>)
    requires forall k :: k in m ==> m[k] >= 0
    ensures Sum(m) >= 0
    ensures forall k :: k in m ==> m[k] <= Sum(m)
    decreases m
  {
    forall k | k in m
      ensures m[k] <= Sum(m) && Sum(m) >= 0
    {
      SumRemove(m, k);
      SumNonNegative(m - {k});
    }
  }

  /** Pointwise order carries over to sums. */
  lemma {:induction false} SumMonotone<K>(a: map<K, int>, b: map<K, int>)
    requires a.Keys == b.Keys && forall k :: k in a ==> a[k] <= b[k]
    ensures Sum(a) <= Sum(b)
    decreases a
  {
    if a == map[] {
      assert b == map[];
    } else {
      var k :| k in a;
      SumRemove(a, k);
      SumRemove(b, k);
      SumMonotone(a - {k}, b - {k});
    }
  }

  /** A pointwise decrease that is strict somewhere makes the sum strictly smaller. */
  lemma SumStrict<K>(a: map<K, int>, b: map<K, int>, k: K)
    requires a.Keys == b.Keys && (forall j :: j in a ==> a[j] <= b[j]) && k in a && a[k] < b[k]
    ensures Sum(a) < Sum(b)
  {
    SumRemove(a, k);
    SumRemove(b, k);
    SumMonotone(a - {k}, b - {k});
  }

  /** The sum over two disjoint maps is the sum of their sums. */
  lemma {:induction false} SumUnion<K>(a: map<K, int>, b: map<K, int>)
    requires a.Keys !! b.Keys
    ensures Sum(a + b) == Sum(a) + Sum(b)
    decreases b
  {
    if b == map[] {
      assert a + b == a;
    } else {
      var k :| k in b;
      SumRemove(b, k);
      SumRemove(a + b, k);
      assert (a + b) - {k} == a + (b - {k});
      SumUnion(a, b - {k});
    }
  }
}
