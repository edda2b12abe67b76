/**
 * Facts about linear voxel indices shared by the unwrappers: the division
 * and remainder that recover coordinates from a row-major index, and the
 * counting facts used to bound the growth queue.
 */
module Grid {

  /** q and r are the quotient and remainder of a by n whenever a == q * n + r, 0 <= r < n. */
  lemma DivModUnique(a: int, n: int, q: int, r: int)
    requires 0 < n && 0 <= r < n && a == q * n + r
    ensures a / n == q && a % n == r
  {
    var q', r' := a / n, a % n;
    assert a == q' * n + r';
    assert (q - q') * n == r' - r;
    if q' < q {
      MulAtLeast(q - q', n);
    } else if q < q' {
      MulAtLeast(q' - q, n);
    }
  }

  lemma MulAtLeast(k: int, n: int)
    requires 1 <= k && 0 < n
    ensures n <= k * n
  {
    assert k * n == n + (k - 1) * n;
    assert 0 <= (k - 1) * n;
  }

  /** Position x within row y of rows n long lies in the first m rows. */
  lemma RowBound(x: int, y: int, n: int, m: int)
    requires 0 <= x < n && 0 <= y < m
    ensures 0 <= x + n * y < n * m
  {
    assert n * m - n * y == n * (m - y);
    MulAtLeast(m - y, n);
    assert 0 <= n * y;
  }

  /** The quotient and the part of a left over after it, by a positive n. */
  lemma Split(a: int, n: int) returns (q: int, r: int)
    requires 0 <= a && 0 < n
    ensures q == a / n && r == a - q * n && 0 <= q && 0 <= r < n
  {
    q, r := a / n, a - a / n * n;
  }

  /** Euclidean division by a positive n: the part left over lies in [0, n), and a non-negative a has a non-negative quotient. */
  lemma Quotient(a: int, n: int)
    requires 0 < n
    ensures 0 <= a - a / n * n < n
    ensures 0 <= a ==> 0 <= a / n
  {
  }

  lemma MulPositive(a: int, b: int)
    requires 0 < a && 0 < b
    ensures 0 < a * b
  {
  }

  /** An index below n * m has quotient below m. */
  lemma DivBelow(c: int, n: int, m: int)
    requires 0 < n && 0 <= c < n * m
    ensures c / n < m
  {
    var q := c / n;
    assert n * q <= c;
    assert n * m - n * q == n * (m - q);
    MulPos(n, m - q);
  }

  lemma MulPos(a: int, b: int)
    requires 0 < a && 0 < a * b
    ensures 0 < b
  {
    if b <= 0 {
      MulNonPos(a, b);
    }
  }

  lemma MulNonPos(a: int, b: int)
    requires 0 < a && b <= 0
    ensures a * b <= 0
  {
  }

  /** The index range [0, n) as a set. */
  function Range(n: nat): set<int> {
    if n == 0 then {} else Range(n - 1) + {n - 1}
  }

  lemma {:induction false} RangeSize(n: nat)
    ensures forall i :: i in Range(n) <==> 0 <= i < n
    ensures |Range(n)| == n
  {
    if n > 0 {
      RangeSize(n - 1);
    }
  }

  ghost predicate Distinct(q: seq<int>) {
    forall j, k :: 0 <= j < k < |q| ==> q[j] != q[k]
  }

  lemma {:induction false} DistinctSize(q: seq<int>)
    requires Distinct(q)
    ensures |set i | i in q| == |q|
  {
    if q != [] {
      var n := |q| - 1;
      assert Distinct(q[..n]);
      DistinctSize(q[..n]);
      assert (set i | i in q) == (set i | i in q[..n]) + {q[n]};
      assert q[n] !in q[..n];
    }
  }

  /**
   * A repetition-free list of indices below n that avoids `missing` other
   * indices below n is at most n - missing long.
   */
  lemma ListBound(q: seq<int>, n: nat, avoid: set<int>)
    requires Distinct(q)
    requires forall j :: 0 <= j < |q| ==> 0 <= q[j] < n && q[j] !in avoid
    requires avoid <= Range(n)
    ensures |q| + |avoid| <= n
  {
    DistinctSize(q);
    RangeSize(n);
    var s := set i | i in q;
    assert s !! avoid;
    assert s + avoid <= Range(n);
    assert |s + avoid| == |s| + |avoid|;
    SubsetSize(s + avoid, Range(n));
  }

  lemma SubsetSize(a: set<int>, b: set<int>)
    requires a <= b
    ensures |a| <= |b|
  {
    assert b == a + (b - a);
  }
}
