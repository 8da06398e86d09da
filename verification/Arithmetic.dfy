/** The little nonlinear arithmetic and counting the bounds need. */
module Arithmetic {

  lemma Scale(r: int, q: int, m: nat)
    requires r <= q
    ensures r * m <= q * m
  {
  }

  /** Multiples of d up to n. */
  lemma DivideBound(q: int, d: nat, n: nat)
    requires 1 <= d && q * d <= n
    ensures q <= n / d
  {
    if q > n / d {
      Scale(n / d + 1, q, d);
      assert false;
    }
  }

  lemma SubsetSize<T>(a: set<T>, b: set<T>)
    requires a <= b
    ensures |a| <= |b|
  {
    assert b == a + (b - a);
  }

  lemma OneLess<K, V>(m: map<K, V>, k: K)
    requires k in m
    ensures |m - {k}| == |m| - 1
  {
    assert (m - {k}).Keys == m.Keys - {k};
    assert |m| == |m.Keys| && |m - {k}| == |(m - {k}).Keys|;
  }
}
