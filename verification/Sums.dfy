/** Mappings with default zero, as contracts have them, and sums over them. */
module Sums {

  /** uint256 values lie below this bound; checked arithmetic reverts at it. */
  const TWO_256: int := 0x1_0000000000000000_0000000000000000_0000000000000000_0000000000000000

  function Get<K>(m: map<K, int>, k: K): int {
    if k in m then m[k] else 0
  }

  function GetMap<K, L>(m: map<K, map<L, int>>, k: K): map<L, int> {
    if k in m then m[k] else map[]
  }

  ghost function Sum<K>(m: map<K, int>): int {
    if m == map[] then 0
    else
      var k :| k in m;
      m[k] + Sum(m - {k})
  }

  /** Any key may be taken out first. */
  lemma {:induction false} SumRemove<K>(m: map<K, int>, k: K)
    requires k in m
    ensures Sum(m) == m[k] + Sum(m - {k})
    decreases |m|
  {
    var j :| j in m && Sum(m) == m[j] + Sum(m - {j});
    if j != k {
      SumRemove(m - {j}, k);
      SumRemove(m - {k}, j);
      assert m - {j} - {k} == m - {k} - {j};
    }
  }

  lemma SumUpdate<K>(m: map<K, int>, k: K, v: int)
    ensures Sum(m[k := v]) == Sum(m) - Get(m, k) + v
  {
    SumRemove(m[k := v], k);
    SumTakeOut(m, k);
    assert m[k := v] - {k} == m - {k};
  }

  lemma {:induction false} SumNonNegative<K>(m: map<K, int>)
    requires forall k :: k in m ==> m[k] >= 0
    ensures Sum(m) >= 0
    decreases |m|
  {
    if m != map[] {
      var k :| k in m && Sum(m) == m[k] + Sum(m - {k});
      SumNonNegative(m - {k});
    }
  }

  /** One entry of a non-negative mapping is at most the sum. */
  lemma EntryAtMostSum<K>(m: map<K, int>, k: K)
    requires forall j :: j in m ==> m[j] >= 0
    ensures Get(m, k) <= Sum(m)
  {
    if k in m {
      SumRemove(m, k);
      SumNonNegative(m - {k});
    } else {
      SumNonNegative(m);
    }
  }

  lemma {:induction false} SumMonotone<K>(a: map<K, int>, b: map<K, int>)
    requires forall k :: k in a ==> a[k] <= Get(b, k)
    requires forall k :: k in b ==> b[k] >= 0
    ensures Sum(a) <= Sum(b)
    decreases |a|
  {
    if a == map[] {
      SumNonNegative(b);
    } else {
      var k :| k in a && Sum(a) == a[k] + Sum(a - {k});
      SumTakeOut(b, k);
      SumMonotone(a - {k}, b - {k});
    }
  }

  /** Shares bounded pro rata add up to at most the whole. */
  lemma {:induction false} ProRataSum<K>(shares: map<K, int>, weights: map<K, int>, total: int, whole: int)
    requires whole >= 0
    requires forall k :: k in weights ==> weights[k] >= 0
    requires forall k :: k in shares ==> shares[k] * total <= whole * Get(weights, k)
    ensures Sum(shares) * total <= whole * Sum(weights)
    decreases |shares|
  {
    if shares == map[] {
      SumNonNegative(weights);
      Product(whole, Sum(weights));
    } else {
      var k :| k in shares && Sum(shares) == shares[k] + Sum(shares - {k});
      SumTakeOut(weights, k);
      ProRataSum(shares - {k}, weights - {k}, total, whole);
      Combine(shares[k], Sum(shares - {k}), Get(weights, k), Sum(weights - {k}), total, whole);
    }
  }

  lemma SumTakeOut<K>(m: map<K, int>, k: K)
    ensures Sum(m) == Get(m, k) + Sum(m - {k})
  {
    if k in m {
      SumRemove(m, k);
    } else {
      assert m - {k} == m;
    }
  }

  lemma Combine(a: int, b: int, c: int, d: int, total: int, whole: int)
    requires a * total <= whole * c && b * total <= whole * d
    ensures (a + b) * total <= whole * (c + d)
  {
    assert (a + b) * total == a * total + b * total;
    assert whole * (c + d) == whole * c + whole * d;
  }

  lemma Distribute(a: int, b: int, c: int)
    ensures (a + b) * c == a * c + b * c
  {
  }

  lemma Product(a: int, b: int)
    requires a >= 0 && b >= 0
    ensures a * b >= 0
  {
  }

  /** A floored quotient does not exceed the fraction. */
  lemma FloorBounds(x: int, d: int)
    requires d > 0
    ensures (x / d) * d <= x < (x / d) * d + d
  {
  }

  lemma ScaleLess(a: int, b: int, c: int)
    requires c > 0
    ensures a * c <= b * c <==> a <= b
  {
  }

  /** The floored quotient is the largest multiplier that fits. */
  lemma FloorIsLargest(x: int, d: int, o: int)
    requires d > 0
    ensures o * d <= x <==> o <= x / d
  {
    FloorBounds(x, d);
    ScaleLess(o, x / d, d);
    Distribute(x / d, 1, d);
    ScaleLess(x / d + 1, o, d);
  }

  lemma TimesLess(a: int, b: int, c: int)
    requires a <= b && c >= 0
    ensures a * c <= b * c
  {
  }
}
