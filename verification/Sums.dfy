/** Totals over finite maps and sizes of finite sets: the arithmetic behind every byte and lease
    account. */
module Sums {

  ghost function Sum<K>(m: map<K, int>): int
    decreases |m|
  {
    if m == map[] then 0
    else
      var k :| k in m;
      assert |m - {k}| < |m| by { SmallerMap(m, k); }
      m[k] + Sum(m - {k})
  }

  lemma SmallerMap<K, V>(m: map<K, V>, k: K)
    requires k in m
    ensures |m - {k}| == |m| - 1
  {
    assert (m - {k}).Keys == m.Keys - {k};
    assert |m| == |m.Keys| && |m - {k}| == |(m - {k}).Keys|;
  }

  /** The choice made inside Sum does not matter: any key may be taken out first. */
  lemma {:induction false} SumRemove<K>(m: map<K, int>, k: K)
    requires k in m
    ensures Sum(m) == m[k] + Sum(m - {k})
    decreases |m|
  {
    var j :| j in m && Sum(m) == m[j] + Sum(m - {j});
    if j != k {
      SmallerMap(m, j);
      SmallerMap(m, k);
      SumRemove(m - {j}, k);
      SumRemove(m - {k}, j);
      assert m - {j} - {k} == m - {k} - {j};
    }
  }

  function Get<K>(m: map<K, int>, k: K): int {
    if k in m then m[k] else 0
  }

  lemma SumUpdate<K>(m: map<K, int>, k: K, v: int)
    ensures Sum(m[k := v]) == Sum(m) - Get(m, k) + v
  {
    var m' := m[k := v];
    SumRemove(m', k);
    if k in m {
      SumRemove(m, k);
      assert m' - {k} == m - {k};
    } else {
      assert m' - {k} == m;
    }
  }

  /** A pointwise smaller map over fewer keys has a smaller total. */
  lemma {:induction false} SumMonotone<K>(a: map<K, int>, b: map<K, int>)
    requires forall k :: k in a ==> k in b && a[k] <= b[k]
    requires forall k :: k in b ==> 0 <= b[k]
    ensures Sum(a) <= Sum(b)
    decreases |b|
  {
    if b != map[] {
      var k :| k in b;
      SumRemove(b, k);
      SmallerMap(b, k);
      if k in a {
        SumRemove(a, k);
        SumMonotone(a - {k}, b - {k});
      } else {
        assert a - {k} == a;
        SumMonotone(a, b - {k});
      }
    } else {
      assert a == map[];
    }
  }

  lemma SumNonNegative<K>(m: map<K, int>)
    requires forall k :: k in m ==> 0 <= m[k]
    ensures 0 <= Sum(m)
  {
    SumMonotone(map[], m);
  }

  /** Totals add up over a partition of the keys. */
  lemma {:induction false} SplitSum<K>(m: map<K, int>, a: map<K, int>, b: map<K, int>)
    requires forall k :: k in m ==> k in a || k in b
    requires forall k :: k in a ==> k in m && k !in b && a[k] == m[k]
    requires forall k :: k in b ==> k in m && b[k] == m[k]
    ensures Sum(m) == Sum(a) + Sum(b)
    decreases |m|
  {
    if m == map[] {
      assert a == map[] && b == map[];
    } else {
      var k :| k in m;
      SumRemove(m, k);
      SmallerMap(m, k);
      if k in a {
        SumRemove(a, k);
        SplitSum(m - {k}, a - {k}, b);
      } else {
        SumRemove(b, k);
        SplitSum(m - {k}, a, b - {k});
      }
    }
  }

  /** Inclusion bounds the size, and equal sizes make an inclusion an equality. */
  lemma {:induction false} SubsetSize<T>(a: set<T>, b: set<T>)
    requires forall x :: x in a ==> x in b
    ensures |a| <= |b|
    ensures |a| == |b| ==> forall x :: x in b ==> x in a
  {
    if a == {} {
    } else {
      var x :| x in a;
      SubsetSize(a - {x}, b - {x});
      assert |a| == |a - {x}| + 1 && |b| == |b - {x}| + 1;
      if |a| == |b| {
        forall y | y in b ensures y in a {
          assert y == x || y in b - {x};
        }
      }
    }
  }

  lemma DisjointSize<T>(a: set<T>, b: set<T>)
    requires forall x :: x in a ==> x !in b
    ensures |a + b| == |a| + |b|
  {
    assert a !! b;
  }
}
