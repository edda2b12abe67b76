/**
 * The strided write of mat2file.c: put sets up the strides and put_bytes
 * walks the subscripts, gathering elements whose file offsets follow one
 * another into a run buffer of BLEN bytes that is byte-swapped and written
 * out whenever the next element does not continue the run or the buffer
 * is full.
 *
 * The file is abstract: a write is the record of the bytes written and the
 * file position they go to (set by the last seek, 0 after opening).
 */
module StridedWrite {
  import opened Grid
  import opened ByteSwap
  import opened Dtypes
  import opened MexArgs

  /** BLEN: the size of the run buffer. */
  const BLEN: int := 1024

  /** The previous offset put starts from, so that the first element opens a run. */
  const NoOffset: int := -999999

  /** An element put_bytes visits: its byte offset in the file and in the input data. */
  datatype Element = Element(out: int, inp: int)

  /** One fwrite: bytes written at file position `at`, swapped from the input at `from`. */
  datatype Record = Record(at: int, from: int, bytes: seq<Byte>)

  /** The elements a record writes: |bytes| / nb consecutive elements of nb bytes from (at, from). */
  function Covered(r: Record, nb: int): seq<Element>
    requires 0 < nb
  {
    seq(|r.bytes| / nb, k => Element(r.at + k * nb, r.from + k * nb))
  }

  /** The elements a sequence of records writes, in order. */
  function Flatten(w: seq<Record>, nb: int): seq<Element>
    requires 0 < nb
  {
    if w == [] then [] else Flatten(w[..|w| - 1], nb) + Covered(w[|w| - 1], nb)
  }

  /** A record as put writes it: 1 to BLEN bytes, whole elements, the swapped input bytes. */
  ghost predicate RecordOk(r: Record, idat: seq<Byte>, f: SwapFn, nb: int)
    requires 0 < nb
  {
    && 0 < |r.bytes| <= BLEN && |r.bytes| % nb == 0
    && 0 <= r.from && r.from + |r.bytes| <= |idat|
    && r.bytes == SwapGroups(idat[r.from..r.from + |r.bytes|], Width(f))
  }

  /** The product of ds[0..k). */
  function Prod(ds: seq<int>, k: nat): int
    requires k <= |ds|
  {
    if k == 0 then 1 else Prod(ds, k - 1) * ds[k - 1]
  }

  /** Strides from a base: c[0] == base and c[i + 1] == c[i] * ds[i]. */
  ghost predicate CumProd(c: seq<int>, base: int, ds: seq<int>, n: nat) {
    n < |c| && n <= |ds| && c[0] == base && forall i :: 0 <= i < n ==> c[i + 1] == c[i] * ds[i]
  }

  /** The strides put builds: base, then each stride times the next extent, over n extents. */
  function Strides(base: int, ds: seq<int>, n: nat): (c: seq<int>)
    requires n <= |ds|
    ensures |c| == n + 1 && c[0] == base
  {
    if n == 0 then [base] else var c := Strides(base, ds, n - 1); c + [c[n - 1] * ds[n - 1]]
  }

  /** Each stride is the one before times an extent. */
  lemma {:induction false} StridesCum(base: int, ds: seq<int>, n: nat)
    requires n <= |ds|
    ensures CumProd(Strides(base, ds, n), base, ds, n)
  {
    if n > 0 {
      StridesCum(base, ds, n - 1);
      var c := Strides(base, ds, n - 1);
      assert Strides(base, ds, n)[..n] == c;
    }
  }

  /** One subscript list per dimension, idim[d] entries long. */
  ghost predicate Shaped(ptr: seq<seq<int>>, idim: seq<int>) {
    |ptr| == |idim| && forall d :: 0 <= d < |ptr| ==> 0 <= idim[d] == |ptr[d]|
  }

  /**
   * The elements put_bytes visits at level d for its first n subscripts:
   * dimension 0 varies fastest. The file offset of an element is indo plus
   * (subscript - 1) * ocum[e] summed over the levels e; its input offset is
   * indi plus (position - 1) * icum[e], with ocum[0] the element size.
   */
  function Stream(d: nat, ptr: seq<seq<int>>, idim: seq<int>, ocum: seq<int>, icum: seq<int>,
                  indo: int, indi: int, n: nat): (s: seq<Element>)
    requires Shaped(ptr, idim) && d < |ptr| && d < |ocum| && d < |icum| && n <= idim[d]
    ensures d == 0 ==> |s| == n && forall k :: 0 <= k < n ==>
              s[k] == Element(indo + (ptr[0][k] - 1) * ocum[0], indi + k * ocum[0])
    decreases d, n
  {
    if n == 0 then []
    else if d == 0 then
      Stream(d, ptr, idim, ocum, icum, indo, indi, n - 1)
        + [Element(indo + (ptr[0][n - 1] - 1) * ocum[0], indi + (n - 1) * ocum[0])]
    else
      Stream(d, ptr, idim, ocum, icum, indo, indi, n - 1)
        + Stream(d - 1, ptr, idim, ocum, icum, indo + ocum[d] * (ptr[d][n - 1] - 1), indi + icum[d] * (n - 1), idim[d - 1])
  }

  /** put_bytes visits n * idim[0] * ... * idim[d - 1] elements. */
  lemma {:induction false} StreamLength(d: nat, ptr: seq<seq<int>>, idim: seq<int>, ocum: seq<int>, icum: seq<int>,
                                        indo: int, indi: int, n: nat)
    requires Shaped(ptr, idim) && d < |ptr| && d < |ocum| && d < |icum| && n <= idim[d]
    ensures |Stream(d, ptr, idim, ocum, icum, indo, indi, n)| == n * Prod(idim, d)
    decreases d, n
  {
    if n > 0 {
      var P := Prod(idim, d);
      StreamLength(d, ptr, idim, ocum, icum, indo, indi, n - 1);
      if d > 0 {
        StreamLength(d - 1, ptr, idim, ocum, icum, indo + ocum[d] * (ptr[d][n - 1] - 1), indi + icum[d] * (n - 1), idim[d - 1]);
        MulComm(idim[d - 1], Prod(idim, d - 1));
      }
      NextMultiple(n - 1, P);
    }
  }

  lemma MulComm(a: int, b: int)
    ensures a * b == b * a
  {
  }

  lemma NextMultiple(m: int, p: int)
    ensures m * p + p == (m + 1) * p
  {
  }

  /** Element j of block m, of p elements of nb bytes from indi, is element m * p + j. */
  lemma Shift(indi: int, indi': int, c: int, nb: int, p: int, m: int, j: int, k: int)
    requires c == nb * p && indi' == indi + c * m && k == m * p + j
    ensures indi' + j * nb == indi + k * nb
  {
    assert c * m == (m * p) * nb;
  }

  /**
   * The input is read in order: the k-th element visited is the k-th
   * element of the data, whatever the subscripts, when the input strides
   * are the products of the data's extents.
   */
  lemma {:induction false} StreamInputs(d: nat, ptr: seq<seq<int>>, idim: seq<int>, ocum: seq<int>, icum: seq<int>,
                                        indo: int, indi: int, n: nat)
    requires Shaped(ptr, idim) && d < |ptr| && d < |ocum| && d < |icum| && n <= idim[d]
    requires CumProd(icum, ocum[0], idim, d)
    ensures forall k :: 0 <= k < |Stream(d, ptr, idim, ocum, icum, indo, indi, n)| ==>
              Stream(d, ptr, idim, ocum, icum, indo, indi, n)[k].inp == indi + k * ocum[0]
    decreases d, n
  {
    if n > 0 {
      var P := Prod(idim, d);
      var s: seq<Element> := Stream(d, ptr, idim, ocum, icum, indo, indi, n - 1);
      StreamInputs(d, ptr, idim, ocum, icum, indo, indi, n - 1);
      StreamLength(d, ptr, idim, ocum, icum, indo, indi, n - 1);
      if d == 0 {
        assert |s| == n - 1;
      } else {
        var indo', indi' := indo + ocum[d] * (ptr[d][n - 1] - 1), indi + icum[d] * (n - 1);
        var x: seq<Element> := Stream(d - 1, ptr, idim, ocum, icum, indo', indi', idim[d - 1]);
        assert Stream(d, ptr, idim, ocum, icum, indo, indi, n) == s + x;
        StreamInputs(d - 1, ptr, idim, ocum, icum, indo', indi', idim[d - 1]);
        CumIsProd(icum, ocum[0], idim, d, d);
        forall k | 0 <= k < |s| + |x|
          ensures (s + x)[k].inp == indi + k * ocum[0]
        {
          if |s| <= k {
            var j := k - |s|;
            assert (s + x)[k] == x[j];
            Shift(indi, indi', icum[d], ocum[0], P, n - 1, j, k);
          }
        }
      }
    }
  }

  /** Extents 0..d are all positive. */
  ghost predicate Positive(idim: seq<int>, d: nat) {
    d < |idim| && forall e :: 0 <= e <= d ==> 0 < idim[e]
  }

  lemma {:induction false} ProdPositive(ds: seq<int>, k: nat)
    requires k <= |ds| && forall i :: 0 <= i < k ==> 0 < ds[i]
    ensures 0 < Prod(ds, k)
  {
    if k > 0 {
      ProdPositive(ds, k - 1);
      MulPositive(Prod(ds, k - 1), ds[k - 1]);
    }
  }

  /**
   * The position of element k among the subscripts of level e: its digit
   * in the mixed radix of the extents, dimension 0 fastest.
   */
  function Digit(idim: seq<int>, e: nat, k: nat): (i: int)
    requires Positive(idim, e)
    ensures 0 <= i < idim[e]
  {
    ProdPositive(idim, e);
    Quotient(k, Prod(idim, e));
    k / Prod(idim, e) % idim[e]
  }

  /** The file offset of element k relative to indo: (subscript - 1) * ocum[e] summed over the levels 0..d. */
  function OutSum(d: nat, ptr: seq<seq<int>>, idim: seq<int>, ocum: seq<int>, k: nat): int
    requires Shaped(ptr, idim) && d < |ocum| && Positive(idim, d)
  {
    var t := (ptr[d][Digit(idim, d, k)] - 1) * ocum[d];
    if d == 0 then t else OutSum(d - 1, ptr, idim, ocum, k) + t
  }

  /** Adding whole multiples of n leaves the remainder and shifts the quotient. */
  lemma DivAdd(a: int, n: int, j: int)
    requires 0 < n
    ensures (a * n + j) / n == a + j / n && (a * n + j) % n == j % n
  {
    DivModUnique(a * n + j, n, a + j / n, j % n);
  }

  /** Adding m blocks of Prod(idim, d) elements leaves the digits below d unchanged. */
  lemma {:induction false} DigitsAgree(idim: seq<int>, e: nat, d: nat, m: nat, j: nat)
    requires e < d <= |idim| && forall i :: 0 <= i < d ==> 0 < idim[i]
    ensures 0 <= m * Prod(idim, d)
    ensures Digit(idim, e, m * Prod(idim, d) + j) == Digit(idim, e, j)
    decreases d
  {
    ProdPositive(idim, d - 1);
    var P, c := Prod(idim, d - 1), idim[d - 1];
    assert Prod(idim, d) == P * c;
    MulPositive(P, c);
    MulLe(0, m, P * c);
    var m' := m * c;
    assert m * Prod(idim, d) == m' * P;
    if e < d - 1 {
      DigitsAgree(idim, e, d - 1, m', j);
    } else {
      DivAdd(m', P, j);
      Quotient(j, P);
      DivAdd(m, c, j / P);
    }
  }

  /** Element k and element j have the same file offset when their digits agree on levels 0..d. */
  lemma {:induction false} OutSumAgree(d: nat, ptr: seq<seq<int>>, idim: seq<int>, ocum: seq<int>, k: nat, j: nat)
    requires Shaped(ptr, idim) && d < |ocum| && Positive(idim, d)
    requires forall e :: 0 <= e <= d ==> Digit(idim, e, k) == Digit(idim, e, j)
    ensures OutSum(d, ptr, idim, ocum, k) == OutSum(d, ptr, idim, ocum, j)
  {
    if d > 0 {
      OutSumAgree(d - 1, ptr, idim, ocum, k, j);
    }
  }

  /**
   * The file offset of every element put_bytes visits: element k goes to
   * indo plus (subscript - 1) * ocum[e] summed over the levels e, the
   * subscript at level e being the one at k's digit there. Any element at
   * all means every extent up to d is positive.
   */
  lemma {:induction false} StreamOffsets(d: nat, ptr: seq<seq<int>>, idim: seq<int>, ocum: seq<int>, icum: seq<int>,
                                         indo: int, indi: int, n: nat)
    requires Shaped(ptr, idim) && d < |ptr| && d < |ocum| && d < |icum| && n <= idim[d]
    ensures 0 < |Stream(d, ptr, idim, ocum, icum, indo, indi, n)| ==> Positive(idim, d)
    ensures Positive(idim, d) ==> forall k :: 0 <= k < |Stream(d, ptr, idim, ocum, icum, indo, indi, n)| ==>
              Stream(d, ptr, idim, ocum, icum, indo, indi, n)[k].out == indo + OutSum(d, ptr, idim, ocum, k)
    decreases d, n
  {
    if n == 0 {
      assert Stream(d, ptr, idim, ocum, icum, indo, indi, n) == [];
    } else if d == 0 {
      RowOffsets(ptr, idim, ocum, icum, indo, indi, n);
    } else {
      var s: seq<Element> := Stream(d, ptr, idim, ocum, icum, indo, indi, n - 1);
      StreamOffsets(d, ptr, idim, ocum, icum, indo, indi, n - 1);
      StreamLength(d, ptr, idim, ocum, icum, indo, indi, n - 1);
      var indo', indi' := indo + ocum[d] * (ptr[d][n - 1] - 1), indi + icum[d] * (n - 1);
      var x: seq<Element> := Stream(d - 1, ptr, idim, ocum, icum, indo', indi', idim[d - 1]);
      assert Stream(d, ptr, idim, ocum, icum, indo, indi, n) == s + x;
      StreamOffsets(d - 1, ptr, idim, ocum, icum, indo', indi', idim[d - 1]);
      StreamLength(d - 1, ptr, idim, ocum, icum, indo', indi', idim[d - 1]);
      MulComm(idim[d - 1], Prod(idim, d - 1));
      if 0 < |x| {
        assert Positive(idim, d);
      }
      if Positive(idim, d) {
        JoinOffsets(d, ptr, idim, ocum, indo, indo', n, s, x);
      }
    }
  }

  /** At level 0 element k is subscript k of dimension 0. */
  lemma RowOffsets(ptr: seq<seq<int>>, idim: seq<int>, ocum: seq<int>, icum: seq<int>, indo: int, indi: int, n: nat)
    requires Shaped(ptr, idim) && 0 < |ptr| && 0 < |ocum| && 0 < |icum| && 0 < n <= idim[0]
    ensures Positive(idim, 0)
    ensures forall k :: 0 <= k < |Stream(0, ptr, idim, ocum, icum, indo, indi, n)| ==>
              Stream(0, ptr, idim, ocum, icum, indo, indi, n)[k].out == indo + OutSum(0, ptr, idim, ocum, k)
  {
    var t := Stream(0, ptr, idim, ocum, icum, indo, indi, n);
    assert Positive(idim, 0);
    forall k | 0 <= k < |t|
      ensures t[k].out == indo + OutSum(0, ptr, idim, ocum, k)
    {
      DivModUnique(k, idim[0], 0, k);
      assert Digit(idim, 0, k) == k;
    }
  }

  /** The stream for the first n - 1 subscripts followed by the sub-stream for subscript n - 1. */
  lemma JoinOffsets(d: nat, ptr: seq<seq<int>>, idim: seq<int>, ocum: seq<int>, indo: int, indo': int, n: nat,
                    s: seq<Element>, x: seq<Element>)
    requires Shaped(ptr, idim) && 0 < d < |ptr| && d < |ocum| && 0 < n <= idim[d] && Positive(idim, d)
    requires indo' == indo + ocum[d] * (ptr[d][n - 1] - 1)
    requires |s| == (n - 1) * Prod(idim, d) && |x| == Prod(idim, d)
    requires forall k :: 0 <= k < |s| ==> s[k].out == indo + OutSum(d, ptr, idim, ocum, k)
    requires forall j :: 0 <= j < |x| ==> x[j].out == indo' + OutSum(d - 1, ptr, idim, ocum, j)
    ensures forall k :: 0 <= k < |s + x| ==> (s + x)[k].out == indo + OutSum(d, ptr, idim, ocum, k)
  {
    forall k | |s| <= k < |s + x|
      ensures (s + x)[k].out == indo + OutSum(d, ptr, idim, ocum, k)
    {
      var j := k - |s|;
      assert (s + x)[k] == x[j];
      BlockOffset(d, ptr, idim, ocum, indo, indo', n, j, k);
    }
  }

  /** Element j of the sub-stream for subscript n - 1 at level d is element k of the level-d stream. */
  lemma BlockOffset(d: nat, ptr: seq<seq<int>>, idim: seq<int>, ocum: seq<int>, indo: int, indo': int, n: nat, j: nat, k: nat)
    requires Shaped(ptr, idim) && 0 < d < |ptr| && d < |ocum| && 0 < n <= idim[d] && Positive(idim, d - 1)
    requires j < Prod(idim, d) && k == (n - 1) * Prod(idim, d) + j
    requires indo' == indo + ocum[d] * (ptr[d][n - 1] - 1)
    ensures Positive(idim, d)
    ensures indo' + OutSum(d - 1, ptr, idim, ocum, j) == indo + OutSum(d, ptr, idim, ocum, k)
  {
    assert Positive(idim, d);
    BlockDigits(idim, d, n, j, k);
    OutSumAgree(d - 1, ptr, idim, ocum, k, j);
    MulComm(ocum[d], ptr[d][n - 1] - 1);
  }

  /** Element k = (n - 1) * Prod(idim, d) + j has digit n - 1 at level d and j's digits below. */
  lemma BlockDigits(idim: seq<int>, d: nat, n: nat, j: nat, k: nat)
    requires Positive(idim, d) && 0 < d && 0 < n <= idim[d]
    requires j < Prod(idim, d) && k == (n - 1) * Prod(idim, d) + j
    ensures Digit(idim, d, k) == n - 1
    ensures forall e :: 0 <= e < d ==> Digit(idim, e, k) == Digit(idim, e, j)
  {
    ProdPositive(idim, d);
    forall e | 0 <= e < d
      ensures Digit(idim, e, k) == Digit(idim, e, j)
    {
      DigitsAgree(idim, e, d, n - 1, j);
    }
    DivModUnique(k, Prod(idim, d), n - 1, j);
    DivModUnique(n - 1, idim[d], 0, n - 1);
  }

  /** A block of c bytes at subscript p of 1..m lies within the m blocks from indo. */
  lemma Span(indo: int, c: int, p: int, m: int)
    requires 0 <= c && 1 <= p <= m
    ensures c * (p - 1) == (p - 1) * c
    ensures indo <= indo + c * (p - 1) && indo + c * (p - 1) + c <= indo + c * m
  {
    MulLe(0, p - 1, c);
    MulLe(p, m, c);
  }

  /**
   * Every element lands inside the array's span of the file: from the
   * offset indo up to the stride of the level above, when each subscript is
   * between 1 and its dimension.
   */
  lemma {:induction false} StreamInFile(d: nat, ptr: seq<seq<int>>, idim: seq<int>, dim: seq<int>, ocum: seq<int>,
                                        icum: seq<int>, indo: int, indi: int, n: nat)
    requires Shaped(ptr, idim) && d < |ptr| && d < |icum| && d < |dim| && n <= idim[d]
    requires 0 < |ocum| && CumProd(ocum, ocum[0], dim, d + 1) && 0 < ocum[0]
    requires forall e :: 0 <= e <= d ==> 0 <= dim[e]
    requires forall e, j :: 0 <= e <= d && 0 <= j < |ptr[e]| ==> 1 <= ptr[e][j] <= dim[e]
    ensures forall k :: 0 <= k < |Stream(d, ptr, idim, ocum, icum, indo, indi, n)| ==>
              indo <= Stream(d, ptr, idim, ocum, icum, indo, indi, n)[k].out
              && Stream(d, ptr, idim, ocum, icum, indo, indi, n)[k].out + ocum[0] <= indo + ocum[d + 1]
    decreases d, n
  {
    if n > 0 {
      var s: seq<Element> := Stream(d, ptr, idim, ocum, icum, indo, indi, n - 1);
      StreamInFile(d, ptr, idim, dim, ocum, icum, indo, indi, n - 1);
      var p := ptr[d][n - 1];
      StrideNonneg(ocum, dim, d);
      Span(indo, ocum[d], p, dim[d]);
      assert ocum[d + 1] == ocum[d] * dim[d];
      if d > 0 {
        var indo', indi' := indo + ocum[d] * (p - 1), indi + icum[d] * (n - 1);
        var x: seq<Element> := Stream(d - 1, ptr, idim, ocum, icum, indo', indi', idim[d - 1]);
        assert Stream(d, ptr, idim, ocum, icum, indo, indi, n) == s + x;
        StreamInFile(d - 1, ptr, idim, dim, ocum, icum, indo', indi', idim[d - 1]);
        forall k | 0 <= k < |s| + |x|
          ensures indo <= (s + x)[k].out && (s + x)[k].out + ocum[0] <= indo + ocum[d + 1]
        {
          if |s| <= k {
            assert (s + x)[k] == x[k - |s|];
          }
        }
      }
    }
  }

  /** The strides over positive dimensions are not negative. */
  lemma StrideNonneg(ocum: seq<int>, dim: seq<int>, d: nat)
    requires 0 < |ocum| && CumProd(ocum, ocum[0], dim, d + 1) && 0 < ocum[0]
    requires forall e :: 0 <= e <= d ==> 0 <= dim[e]
    ensures 0 <= ocum[d]
  {
    CumIsProd(ocum, ocum[0], dim, d + 1, d);
    ProdNonneg(dim, d);
    MulLe(0, ocum[0], Prod(dim, d));
  }

  /** The stream does not start at the offset just past the initial poff (a collision with NoOffset). */
  ghost predicate StartOk(s: seq<Element>, nb: int) {
    s == [] || s[0].out != NoOffset + nb
  }

  lemma MulLe(a: int, b: int, c: int)
    requires a <= b && 0 <= c
    ensures a * c <= b * c
  {
    if a < b && 0 < c {
      MulAtLeast(b - a, c);
      assert b * c == a * c + (b - a) * c;
    }
  }

  lemma AppendAssoc<T>(a: seq<T>, b: seq<T>, c: seq<T>)
    ensures (a + b) + c == a + (b + c)
  {
  }

  /** The elements of subscript i of dimension d follow those of the subscripts before it. */
  lemma StreamGrows(s0: seq<Element>, d: nat, ptr: seq<seq<int>>, idim: seq<int>, ocum: seq<int>, icum: seq<int>,
                    indo: int, indi: int, i: nat)
    requires Shaped(ptr, idim) && d < |ptr| && d < |ocum| && d < |icum| && i < idim[d]
    ensures d == 0 ==> s0 + Stream(d, ptr, idim, ocum, icum, indo, indi, i) + [Element(indo + (ptr[0][i] - 1) * ocum[0], indi + i * ocum[0])]
                       == s0 + Stream(d, ptr, idim, ocum, icum, indo, indi, i + 1)
    ensures d > 0 ==> s0 + Stream(d, ptr, idim, ocum, icum, indo, indi, i)
                        + Stream(d - 1, ptr, idim, ocum, icum, indo + ocum[d] * (ptr[d][i] - 1), indi + icum[d] * i, idim[d - 1])
                      == s0 + Stream(d, ptr, idim, ocum, icum, indo, indi, i + 1)
  {
  }

  /**
   * Block i of n blocks of c bytes from indi, a block being n1 sub-blocks of
   * c1 bytes: it ends where block i + 1 begins, within the n blocks.
   */
  lemma NextBlock(indi: int, c: int, i: int, n: int, c1: int, n1: int)
    requires 0 <= c && 0 <= i < n && c == c1 * n1
    ensures c * i == i * c
    ensures indi + c * i + n1 * c1 == indi + (i + 1) * c
    ensures indi + (i + 1) * c <= indi + n * c
  {
    MulLe(i + 1, n, c);
  }

  /** Each of the k consecutive elements from (at, from) written as one record of k * nb bytes. */
  lemma CoveredRun(run: seq<Element>, r: Record, nb: int)
    requires 0 < nb && |r.bytes| == |run| * nb
    requires forall k :: 0 <= k < |run| ==> run[k] == Element(r.at + k * nb, r.from + k * nb)
    ensures Covered(r, nb) == run
  {
    DivModUnique(|r.bytes|, nb, |run|, 0);
  }

  /**
   * The run buffer: len bytes of pending elements whose file offsets follow
   * one another up to poff and whose input starts at dptr; nothing is
   * pending before the first element, when poff still holds NoOffset.
   */
  ghost predicate RunOk(pending: seq<Element>, seen: seq<Element>, poff: int, len: int, dptr: int, nb: int, size: int) {
    && nb in {1, 2, 4, 8}
    && len == |pending| * nb && len <= BLEN
    && 0 <= dptr && dptr + len <= size
    && (seen == [] <==> pending == [])
    && (seen == [] ==> poff == NoOffset)
    && (pending != [] ==> poff == pending[|pending| - 1].out)
    && (forall k :: 0 <= k < |pending| ==> pending[k].out == pending[0].out + k * nb)
    && (forall k :: 0 <= k < |pending| ==> pending[k].inp == dptr + k * nb)
  }

  /** Every write is a well-formed record of swapped input bytes. */
  ghost predicate LogOk(w: seq<Record>, idat: seq<Byte>, f: SwapFn, nb: int)
    requires 0 < nb
  {
    forall r :: 0 <= r < |w| ==> RecordOk(w[r], idat, f, nb)
  }

  /**
   * The writes followed by the pending run are the elements visited, and the
   * run goes to the current file position (unless the stream started at
   * NoOffset + nb, when the first run is never sought to).
   */
  ghost predicate FaithfulTo(w: seq<Record>, pending: seq<Element>, seen: seq<Element>, pos: int, nb: int)
    requires 0 < nb
  {
    StartOk(seen, nb) ==> Flatten(w, nb) + pending == seen && (pending != [] ==> pending[0].out == pos)
  }

  /** A run of whole elements shorter than the buffer has room for one more element. */
  lemma RoomInBuffer(len: int, nb: int, n: int)
    requires nb in {1, 2, 4, 8} && len == n * nb && len < BLEN
    ensures len + nb <= BLEN
  {
    if nb == 8 {
      assert n < 128;
    } else if nb == 4 {
      assert n < 256;
    } else if nb == 2 {
      assert n < 512;
    }
  }

  /** One more element of a run: its offset and source are one element past the last. */
  lemma NextInRun(first: int, last: int, m: int, nb: int, x: int)
    requires last == first + (m - 1) * nb && x == last + nb
    ensures x == first + m * nb
  {
  }

  /** Appending the element one step past the run keeps every element of it at its step. */
  lemma RunSnoc(pending: seq<Element>, e: Element, dptr: int, nb: int)
    requires forall k :: 0 <= k < |pending| ==> pending[k].out == pending[0].out + k * nb
    requires forall k :: 0 <= k < |pending| ==> pending[k].inp == dptr + k * nb
    requires pending != [] ==> e.out == pending[|pending| - 1].out + nb
    requires e.inp == dptr + |pending| * nb
    ensures forall k :: 0 <= k <= |pending| ==> (pending + [e])[k].out == (pending + [e])[0].out + k * nb
    ensures forall k :: 0 <= k <= |pending| ==> (pending + [e])[k].inp == dptr + k * nb
  {
    var m := |pending|;
    var p := pending + [e];
    if m != 0 {
      NextInRun(pending[0].out, pending[m - 1].out, m, nb, e.out);
      assert p[0] == pending[0];
    }
    forall k | 0 <= k < m
      ensures p[k].out == p[0].out + k * nb && p[k].inp == dptr + k * nb
    {
      assert p[k] == pending[k];
    }
  }

  /** An element that continues the run (and finds room in the buffer) joins it. */
  lemma RunExtends(pending: seq<Element>, seen: seq<Element>, poff: int, len: int, dptr: int, nb: int, size: int,
                   e: Element)
    requires RunOk(pending, seen, poff, len, dptr, nb, size)
    requires e.out - poff == nb && len != BLEN && e.inp == dptr + len && e.inp + nb <= size
    ensures RunOk(pending + [e], seen + [e], e.out, len + nb, dptr, nb, size)
  {
    RoomInBuffer(len, nb, |pending|);
    RunSnoc(pending, e, dptr, nb);
    assert (|pending| + 1) * nb == len + nb;
  }

  /** The element joins the visited elements and the pending run alike. */
  lemma RunStaysFaithful(pending: seq<Element>, seen: seq<Element>, w: seq<Record>, pos: int, nb: int, e: Element)
    requires 0 < nb && (seen == [] <==> pending == []) && (pending == [] ==> e.out == NoOffset + nb)
    requires FaithfulTo(w, pending, seen, pos, nb)
    ensures FaithfulTo(w, pending + [e], seen + [e], pos, nb)
  {
    if pending != [] {
      assert (seen + [e])[0] == seen[0];
    }
  }

  /** The record a flush of the run adds to the writes (none when the run is empty). */
  function Flushed(w: seq<Record>, pos: int, dptr: int, len: int, idat: seq<Byte>, f: SwapFn): seq<Record>
    requires 0 <= dptr <= dptr + len <= |idat|
  {
    if len == 0 then w else w + [Record(pos, dptr, SwapGroups(idat[dptr..dptr + len], Width(f)))]
  }

  /** The run is a whole number of groups of the swap routine. */
  lemma RunWhole(pending: seq<Element>, seen: seq<Element>, poff: int, len: int, dptr: int, nb: int, size: int, f: SwapFn)
    requires RunOk(pending, seen, poff, len, dptr, nb, size) && nb % Width(f) == 0
    ensures len % Width(f) == 0
  {
    var g := Width(f);
    var m := nb / g;
    assert nb == g * m;
    assert len == g * (m * |pending|);
  }

  /** An element on its own is a run. */
  lemma RunStarts(seen: seq<Element>, e: Element, nb: int, size: int)
    requires nb in {1, 2, 4, 8} && 0 <= e.inp && e.inp + nb <= size
    ensures RunOk([e], seen + [e], e.out, nb, e.inp, nb, size)
  {
    assert [e][0] == e;
  }

  /** The record a flush writes is well formed. */
  lemma FlushLogged(pending: seq<Element>, seen: seq<Element>, poff: int, len: int, dptr: int, nb: int,
                    idat: seq<Byte>, f: SwapFn, w: seq<Record>, pos: int)
    requires RunOk(pending, seen, poff, len, dptr, nb, |idat|) && LogOk(w, idat, f, nb)
    ensures LogOk(Flushed(w, pos, dptr, len, idat, f), idat, f, nb)
  {
    if len != 0 {
      var r := Record(pos, dptr, SwapGroups(idat[dptr..dptr + len], Width(f)));
      RunRecordOk(pending, seen, poff, len, dptr, nb, idat, f, pos);
      assert Flushed(w, pos, dptr, len, idat, f) == w + [r];
      assert forall i :: 0 <= i < |w| ==> (w + [r])[i] == w[i];
    }
  }

  /** A nonempty run makes a record of whole elements within the input. */
  lemma RunRecordOk(pending: seq<Element>, seen: seq<Element>, poff: int, len: int, dptr: int, nb: int,
                    idat: seq<Byte>, f: SwapFn, pos: int)
    requires RunOk(pending, seen, poff, len, dptr, nb, |idat|) && len != 0
    ensures RecordOk(Record(pos, dptr, SwapGroups(idat[dptr..dptr + len], Width(f))), idat, f, nb)
  {
    assert pending != [];
    MulPositive(|pending|, nb);
    DivModUnique(len, nb, |pending|, 0);
  }

  /** After a flush the writes alone are the elements visited. */
  lemma FlushAll(pending: seq<Element>, seen: seq<Element>, poff: int, len: int, dptr: int, nb: int,
                 idat: seq<Byte>, f: SwapFn, w: seq<Record>, pos: int)
    requires RunOk(pending, seen, poff, len, dptr, nb, |idat|) && FaithfulTo(w, pending, seen, pos, nb)
    ensures StartOk(seen, nb) ==> Flatten(Flushed(w, pos, dptr, len, idat, f), nb) == seen
  {
    var w' := Flushed(w, pos, dptr, len, idat, f);
    if StartOk(seen, nb) && len != 0 {
      var r := w'[|w'| - 1];
      assert w'[..|w'| - 1] == w;
      CoveredRun(pending, r, nb);
    }
  }

  /** After a flush a new run starts where the file is sought to. */
  lemma FlushFaithful(pending: seq<Element>, seen: seq<Element>, poff: int, len: int, dptr: int, nb: int,
                      idat: seq<Byte>, f: SwapFn, w: seq<Record>, pos: int, e: Element)
    requires RunOk(pending, seen, poff, len, dptr, nb, |idat|) && FaithfulTo(w, pending, seen, pos, nb)
    ensures FaithfulTo(Flushed(w, pos, dptr, len, idat, f), [e], seen + [e], e.out, nb)
  {
    if StartOk(seen + [e], nb) {
      if seen != [] {
        assert (seen + [e])[0] == seen[0];
      }
      FlushAll(pending, seen, poff, len, dptr, nb, idat, f, w, pos);
      assert [e][0] == e;
    }
  }

  /** The routine put passes to put_bytes: the type's swap when the file's byte order differs, else copy. */
  function SwapFor(fm: FileMap): (f: SwapFn)
    ensures !fm.swap ==> f == SwapFn8
    ensures fm.swap ==> f == fm.dtype.swap
  {
    if fm.swap then fm.dtype.swap else SwapFn8
  }

  lemma ProdNonneg(ds: seq<int>, k: nat)
    requires k <= |ds| && forall i :: 0 <= i < k ==> 0 <= ds[i]
    ensures 0 <= Prod(ds, k)
  {
    if k > 0 {
      ProdNonneg(ds, k - 1);
      MulLe(0, Prod(ds, k - 1), ds[k - 1]);
    }
  }

  /** The strides are the base times the product of the extents below. */
  lemma {:induction false} CumIsProd(c: seq<int>, base: int, ds: seq<int>, n: nat, i: nat)
    requires CumProd(c, base, ds, n) && i <= n
    ensures c[i] == base * Prod(ds, i)
  {
    if i > 0 {
      CumIsProd(c, base, ds, n, i - 1);
      var p, x := Prod(ds, i - 1), ds[i - 1];
      assert c[i] == (base * p) * x;
      assert (base * p) * x == base * (p * x);
    }
  }

  /** Strides over extents that are not negative are not negative; the last one spans all the data. */
  lemma StridesBound(c: seq<int>, base: int, ds: seq<int>, n: nat)
    requires CumProd(c, base, ds, n) && 0 < n && 0 <= base && forall i :: 0 <= i < n ==> 0 <= ds[i]
    ensures forall e :: 0 <= e <= n ==> 0 <= c[e]
    ensures ds[n - 1] * c[n - 1] == Prod(ds, n) * base
  {
    forall e | 0 <= e <= n
      ensures 0 <= c[e]
    {
      CumIsProd(c, base, ds, n, e);
      ProdNonneg(ds, e);
      MulLe(0, base, Prod(ds, e));
    }
    CumIsProd(c, base, ds, n, n);
  }

  /** Before the first element: nothing pending, nothing written, and the element size a multiple of the swap width. */
  lemma StartValid(fm: FileMap, size: nat, pos: int)
    requires Writable(fm.dtype) && fm.dtype.bits == 8 * Width(fm.dtype.swap)
    ensures var nb := fm.dtype.bits / 8;
            && 0 < nb && nb % Width(SwapFor(fm)) == 0 && nb * fm.dtype.channels == nb
            && RunOk([], [], NoOffset, 0, 0, nb, size)
            && FaithfulTo([], [], [], pos, nb)
  {
  }

  /** What put_bytes needs of the input strides over data extents that fill no more than the data. */
  lemma StridesReady(nb: int, idim: seq<int>, n: nat, size: int)
    requires 0 < n <= |idim| && 0 < nb && forall i :: 0 <= i < |idim| ==> 0 <= idim[i]
    requires Prod(idim, n) * nb <= size
    ensures var c := Strides(nb, idim, n);
            && CumProd(c, nb, idim, n - 1) && (forall e :: 0 <= e <= n - 1 ==> 0 <= c[e])
            && 0 + idim[n - 1] * c[n - 1] <= size
  {
    StridesCum(nb, idim, n);
    StridesBound(Strides(nb, idim, n), nb, idim, n);
  }

  /** The stride loop of put: icumprod from nbytes over idim, ocumprod from nbytes * channels over dim. */
  method CumProducts(nbytes: int, channels: int, idim: seq<int>, dim: seq<int>, ndim: nat)
    returns (icumprod: seq<int>, ocumprod: seq<int>)
    requires ndim <= |idim| && ndim <= |dim|
    ensures icumprod == Strides(nbytes, idim, ndim) && ocumprod == Strides(nbytes * channels, dim, ndim)
  {
    icumprod, ocumprod := [nbytes], [nbytes * channels];
    var i := 0;
    while i < ndim
      invariant 0 <= i <= ndim
      invariant icumprod == Strides(nbytes, idim, i) && ocumprod == Strides(nbytes * channels, dim, i)
    {
      icumprod := icumprod + [icumprod[i] * idim[i]];
      ocumprod := ocumprod + [ocumprod[i] * dim[i]];
      i := i + 1;
    }
  }

  /**
   * The globals of put and put_bytes (strides, run buffer, run length, last
   * offset, start of the run in the input) together with the open file:
   * its position and the writes made so far. `pending` and `seen` are the
   * elements of the unwritten run and all elements visited.
   */
  class Writer {
    var icumprod: seq<int>
    var ocumprod: seq<int>
    var poff: int
    var len: int
    var dptr: int
    var pos: int
    var written: seq<Record>
    const wbuf: array<Byte>
    ghost var pending: seq<Element>
    ghost var seen: seq<Element>

    ghost predicate Valid(idat: seq<Byte>, f: SwapFn, nb: int)
      reads this
    {
      && wbuf.Length == BLEN
      && 0 < |ocumprod| && ocumprod[0] == nb && 0 < |icumprod| && icumprod[0] == nb
      && nb % Width(f) == 0
      && RunOk(pending, seen, poff, len, dptr, nb, |idat|)
      && LogOk(written, idat, f, nb)
      && FaithfulTo(written, pending, seen, pos, nb)
    }

    /** A fresh writer on a file just opened (position 0, nothing written). */
    constructor ()
      ensures wbuf.Length == BLEN && fresh(wbuf)
      ensures pos == 0 && written == []
    {
      wbuf := new Byte[BLEN];
      pos, written := 0, [];
    }

    /** swap(len, dptr, wbuf) and, when len is not 0, the fwrite of the buffer. */
    method Flush(idat: seq<Byte>, f: SwapFn)
      requires wbuf.Length == BLEN && 0 <= dptr && 0 <= len && dptr + len <= |idat| && len <= BLEN && len % Width(f) == 0
      modifies wbuf, `written
      ensures written == Flushed(old(written), pos, dptr, len, idat, f)
    {
      Apply(f, len, idat[dptr..], wbuf);
      if len != 0 {
        assert idat[dptr..][..len] == idat[dptr..dptr + len];
        written := written + [Record(pos, dptr, wbuf[..len])];
      }
    }

    /** The flush branch: the run is written out and the element, sought to, starts a new run. */
    method Restart(off: int, inp: int, idat: seq<Byte>, f: SwapFn, nb: int)
      requires Valid(idat, f, nb) && inp == dptr + len && inp + nb <= |idat|
      modifies this, wbuf
      ensures Valid(idat, f, nb)
      ensures icumprod == old(icumprod) && ocumprod == old(ocumprod)
      ensures seen == old(seen) + [Element(off, inp)]
      ensures dptr == inp && len == nb && poff == off && pos == off
      ensures written == Flushed(old(written), old(pos), old(dptr), old(len), idat, f)
    {
      ghost var e, w, run, before := Element(off, inp), written, pending, seen;
      RunWhole(run, before, poff, len, dptr, nb, |idat|, f);
      Flush(idat, f);
      FlushLogged(run, before, poff, len, dptr, nb, idat, f, w, pos);
      FlushFaithful(run, before, poff, len, dptr, nb, idat, f, w, pos, e);
      RunStarts(before, e, nb, |idat|);
      pos, dptr, len, poff := off, inp, nb, off;
      pending, seen := [e], before + [e];
    }

    /** The other branch: the element continues the run in the buffer. */
    method Extend(off: int, inp: int, idat: seq<Byte>, f: SwapFn, nb: int)
      requires Valid(idat, f, nb) && inp == dptr + len && inp + nb <= |idat|
      requires off - poff == nb && len != BLEN
      modifies this
      ensures Valid(idat, f, nb)
      ensures icumprod == old(icumprod) && ocumprod == old(ocumprod)
      ensures seen == old(seen) + [Element(off, inp)]
      ensures dptr == old(dptr) && len == old(len) + nb && poff == off
      ensures pos == old(pos) && written == old(written)
    {
      ghost var e := Element(off, inp);
      RunExtends(pending, seen, poff, len, dptr, nb, |idat|, e);
      RunStaysFaithful(pending, seen, written, pos, nb, e);
      len, poff := len + nb, off;
      pending, seen := pending + [e], seen + [e];
    }

    /**
     * The level-0 body of put_bytes for one element: the run is flushed, and
     * the file sought to the element's offset, exactly when the element does
     * not follow the previous one or the buffer is full; then the element
     * joins the run.
     */
    method Feed(off: int, inp: int, idat: seq<Byte>, f: SwapFn, nb: int)
      requires Valid(idat, f, nb) && inp == dptr + len && inp + nb <= |idat|
      modifies this, wbuf
      ensures Valid(idat, f, nb)
      ensures icumprod == old(icumprod) && ocumprod == old(ocumprod)
      ensures seen == old(seen) + [Element(off, inp)]
      ensures dptr + len == inp + nb && poff == off
      ensures var flush := off - old(poff) != nb || old(len) == BLEN;
              && len == (if flush then nb else old(len) + nb)
              && pos == (if flush then off else old(pos))
              && written == if flush then Flushed(old(written), old(pos), old(dptr), old(len), idat, f) else old(written)
    {
      if off - poff != nb || len == BLEN {
        Restart(off, inp, idat, f, nb);
      } else {
        Extend(off, inp, idat, f, nb);
      }
    }

    /**
     * put_bytes at level d: for each subscript of dimension d, the level
     * below with the file offset advanced by its stride times (subscript - 1)
     * and the input by its stride times the subscript's position; level 0
     * feeds the elements one by one.
     */
    method PutBytes(d: nat, ptr: seq<seq<int>>, idim: seq<int>, idat: seq<Byte>, f: SwapFn, ghost es: int,
                    indo: int, indi: int)
      requires Valid(idat, f, es) && Shaped(ptr, idim) && d < |ptr| && d < |ocumprod| && d < |icumprod|
      requires CumProd(icumprod, es, idim, d) && forall e :: 0 <= e <= d ==> 0 <= icumprod[e]
      requires indi == dptr + len && indi + idim[d] * icumprod[d] <= |idat|
      modifies this, wbuf
      ensures Valid(idat, f, es)
      ensures icumprod == old(icumprod) && ocumprod == old(ocumprod)
      ensures seen == old(seen) + Stream(d, ptr, idim, ocumprod, icumprod, indo, indi, idim[d])
      ensures dptr + len == indi + idim[d] * icumprod[d]
      decreases d, 2
    {
      if d == 0 {
        PutElements(ptr, idim, idat, f, indo, indi);
      } else {
        PutPlanes(d, ptr, idim, idat, f, es, indo, indi);
      }
    }

    /** put_bytes at level 0: each subscript's element is fed to the run buffer. */
    method PutElements(ptr: seq<seq<int>>, idim: seq<int>, idat: seq<Byte>, f: SwapFn, indo: int, indi: int)
      requires 0 < |ocumprod| && Valid(idat, f, ocumprod[0]) && Shaped(ptr, idim) && 0 < |ptr| && 0 < |icumprod|
      requires indi == dptr + len && indi + idim[0] * ocumprod[0] <= |idat|
      modifies this, wbuf
      ensures icumprod == old(icumprod) && ocumprod == old(ocumprod)
      ensures Valid(idat, f, ocumprod[0])
      ensures seen == old(seen) + Stream(0, ptr, idim, ocumprod, icumprod, indo, indi, idim[0])
      ensures dptr + len == indi + idim[0] * ocumprod[0]
    {
      var i := 0;
      while i < idim[0]
        invariant icumprod == old(icumprod) && ocumprod == old(ocumprod)
        invariant 0 <= i <= idim[0] && Valid(idat, f, ocumprod[0])
        invariant seen == old(seen) + Stream(0, ptr, idim, ocumprod, icumprod, indo, indi, i)
        invariant dptr + len == indi + i * ocumprod[0]
      {
        PutElement(i, ptr, idim, idat, f, indo, indi);
        StreamGrows(old(seen), 0, ptr, idim, ocumprod, icumprod, indo, indi, i);
        i := i + 1;
      }
    }

    /** One iteration of put_bytes at level 0: the element of the i-th subscript is fed to the run buffer. */
    method PutElement(i: nat, ptr: seq<seq<int>>, idim: seq<int>, idat: seq<Byte>, f: SwapFn, indo: int, indi: int)
      requires 0 < |ocumprod| && Valid(idat, f, ocumprod[0]) && Shaped(ptr, idim) && 0 < |ptr| && 0 < |icumprod|
      requires i < idim[0] && dptr + len == indi + i * ocumprod[0] && indi + idim[0] * ocumprod[0] <= |idat|
      modifies this, wbuf
      ensures icumprod == old(icumprod) && ocumprod == old(ocumprod)
      ensures Valid(idat, f, ocumprod[0])
      ensures seen == old(seen) + [Element(indo + (ptr[0][i] - 1) * ocumprod[0], indi + i * ocumprod[0])]
      ensures dptr + len == indi + (i + 1) * ocumprod[0]
    {
      var nb := ocumprod[0];
      NextBlock(indi, nb, i, idim[0], nb, 1);
      Feed(indo + (ptr[0][i] - 1) * nb, indi + i * nb, idat, f, nb);
    }

    /** put_bytes at a level d above 0: the level below once per subscript of dimension d. */
    method PutPlanes(d: nat, ptr: seq<seq<int>>, idim: seq<int>, idat: seq<Byte>, f: SwapFn, ghost es: int,
                     indo: int, indi: int)
      requires 0 < d && Valid(idat, f, es) && Shaped(ptr, idim) && d < |ptr| && d < |ocumprod| && d < |icumprod|
      requires CumProd(icumprod, es, idim, d) && forall e :: 0 <= e <= d ==> 0 <= icumprod[e]
      requires indi == dptr + len && indi + idim[d] * icumprod[d] <= |idat|
      modifies this, wbuf
      ensures Valid(idat, f, es)
      ensures icumprod == old(icumprod) && ocumprod == old(ocumprod)
      ensures seen == old(seen) + Stream(d, ptr, idim, ocumprod, icumprod, indo, indi, idim[d])
      ensures dptr + len == indi + idim[d] * icumprod[d]
      decreases d, 1
    {
      var i := 0;
      while i < idim[d]
        invariant 0 <= i <= idim[d] && Valid(idat, f, es)
        invariant icumprod == old(icumprod) && ocumprod == old(ocumprod)
        invariant seen == old(seen) + Stream(d, ptr, idim, ocumprod, icumprod, indo, indi, i)
        invariant dptr + len == indi + i * icumprod[d]
      {
        PutPlane(d, i, ptr, idim, idat, f, es, indo, indi);
        StreamGrows(old(seen), d, ptr, idim, ocumprod, icumprod, indo, indi, i);
        i := i + 1;
      }
    }

    /** One iteration of put_bytes at level d: the level below for the i-th subscript of dimension d. */
    method PutPlane(d: nat, i: nat, ptr: seq<seq<int>>, idim: seq<int>, idat: seq<Byte>, f: SwapFn, ghost es: int,
                    indo: int, indi: int)
      requires 0 < d && Valid(idat, f, es) && Shaped(ptr, idim) && d < |ptr| && d < |ocumprod| && d < |icumprod|
      requires CumProd(icumprod, es, idim, d) && forall e :: 0 <= e <= d ==> 0 <= icumprod[e]
      requires i < idim[d] && dptr + len == indi + i * icumprod[d] && indi + idim[d] * icumprod[d] <= |idat|
      modifies this, wbuf
      ensures Valid(idat, f, es)
      ensures icumprod == old(icumprod) && ocumprod == old(ocumprod)
      ensures seen == old(seen) + Stream(d - 1, ptr, idim, ocumprod, icumprod, indo + ocumprod[d] * (ptr[d][i] - 1),
                                         indi + icumprod[d] * i, idim[d - 1])
      ensures dptr + len == indi + (i + 1) * icumprod[d]
      decreases d, 0
    {
      NextBlock(indi, icumprod[d], i, idim[d], icumprod[d - 1], idim[d - 1]);
      PutBytes(d - 1, ptr, idim, idat, f, es, indo + ocumprod[d] * (ptr[d][i] - 1), indi + icumprod[d] * i);
    }

    /** The globals put sets before put_bytes: input from 0, an empty run, poff at NoOffset, the strides. */
    method Start(fm: FileMap, idim: seq<int>, ghost idat: seq<Byte>)
      requires wbuf.Length == BLEN && written == []
      requires Writable(fm.dtype) && fm.dtype.bits == 8 * Width(fm.dtype.swap) && 0 <= fm.ndim <= |fm.dim| && fm.ndim <= |idim|
      modifies this
      ensures Valid(idat, SwapFor(fm), fm.dtype.bits / 8)
      ensures written == [] && pos == old(pos) && seen == [] && dptr + len == 0
      ensures icumprod == Strides(fm.dtype.bits / 8, idim, fm.ndim) && ocumprod == Strides(fm.dtype.bits / 8, fm.dim, fm.ndim)
    {
      var nbytes := fm.dtype.bits / 8;
      StartValid(fm, |idat|, pos);
      icumprod, ocumprod := CumProducts(nbytes, fm.dtype.channels, idim, fm.dim, fm.ndim);
      assert ocumprod == Strides(nbytes, fm.dim, fm.ndim);
      dptr, len, poff := 0, 0, NoOffset;
      pending, seen := [], [];
      assert written == [];
    }

    /** The end of put: swap and write the last run. */
    method Finish(idat: seq<Byte>, f: SwapFn, ghost nb: int)
      requires Valid(idat, f, nb)
      modifies wbuf, `written
      ensures LogOk(written, idat, f, nb)
      ensures StartOk(seen, nb) ==> Flatten(written, nb) == seen
    {
      RunWhole(pending, seen, poff, len, dptr, nb, |idat|, f);
      ghost var w := written;
      Flush(idat, f);
      FlushLogged(pending, seen, poff, len, dptr, nb, idat, f, w, pos);
      FlushAll(pending, seen, poff, len, dptr, nb, idat, f, w, pos);
    }

    /** put after the stride setup: put_bytes from the top dimension, then the last run. */
    method Transfer(fm: FileMap, ptr: seq<seq<int>>, idim: seq<int>, idat: seq<Byte>)
      requires Valid(idat, SwapFor(fm), fm.dtype.bits / 8) && seen == [] && dptr + len == 0
      requires 1 <= fm.ndim <= |ptr| && Shaped(ptr, idim) && 0 < fm.dtype.bits / 8
      requires Prod(idim, fm.ndim) * (fm.dtype.bits / 8) <= |idat|
      requires icumprod == Strides(fm.dtype.bits / 8, idim, fm.ndim) && fm.ndim <= |ocumprod|
      modifies this, wbuf
      ensures icumprod == old(icumprod) && ocumprod == old(ocumprod)
      ensures LogOk(written, idat, SwapFor(fm), fm.dtype.bits / 8)
      ensures var s := Stream(fm.ndim - 1, ptr, idim, ocumprod, icumprod, ToSigned(fm.off), 0, idim[fm.ndim - 1]);
              StartOk(s, fm.dtype.bits / 8) ==> Flatten(written, fm.dtype.bits / 8) == s
    {
      var nbytes := fm.dtype.bits / 8;
      var swap := SwapFor(fm);
      var top := fm.ndim - 1;
      StridesReady(nbytes, idim, fm.ndim, |idat|);
      PutBytes(top, ptr, idim, idat, swap, nbytes, ToSigned(fm.off), 0);
      Finish(idat, swap, nbytes);
    }

    /**
     * put on a newly opened file: the strides, the swap routine (the type's
     * own when the file's byte order differs, else a copy), put_bytes over
     * all dimensions from the file offset, and the flush of the last run.
     */
    method Put(fm: FileMap, ptr: seq<seq<int>>, idim: seq<int>, idat: seq<Byte>)
      requires wbuf.Length == BLEN && written == []
      requires Writable(fm.dtype) && fm.dtype.bits == 8 * Width(fm.dtype.swap)
      requires 1 <= fm.ndim == |fm.dim| == |ptr| && Shaped(ptr, idim)
      requires Prod(idim, fm.ndim) * (fm.dtype.bits / 8) <= |idat|
      modifies this, wbuf
      ensures var nb, f := fm.dtype.bits / 8, SwapFor(fm);
              && ocumprod == Strides(nb, fm.dim, fm.ndim) && icumprod == Strides(nb, idim, fm.ndim)
              && LogOk(written, idat, f, nb)
              && var s := Stream(fm.ndim - 1, ptr, idim, ocumprod, icumprod, ToSigned(fm.off), 0, idim[fm.ndim - 1]);
                 StartOk(s, nb) ==> Flatten(written, nb) == s
    {
      Start(fm, idim, idat);
      Transfer(fm, ptr, idim, idat);
    }
  }
}
