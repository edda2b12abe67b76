/**
 * mexFunction of mat2file.c: mat2file(fmap, data, i1, i2, ...) writes the
 * elements of data to the file fmap describes, at the subscripts i1, i2, ...
 * The description is checked by open_file, the data's class against the
 * file's type and each subscript list against the data's extent and the
 * file's dimension; then the dimensions are padded to a common count and
 * put writes the data.
 */
module Mat2File {
  import opened Wrappers
  import opened ByteSwap
  import opened Dtypes
  import opened MexArgs
  import opened StridedWrite

  /** The data argument: its class, its dimensions and its bytes (numel * element size of them). */
  datatype DataArg = DataArg(clss: ClassId, dims: seq<nat>, bytes: seq<Byte>)

  /** mxGetNumberOfElements: the product of the dimensions. */
  function Numel(dims: seq<nat>): nat {
    if dims == [] then 1 else Numel(dims[..|dims| - 1]) * dims[|dims| - 1]
  }

  /** The elements the subscripts select: the product of the data's extents in the first nidx dimensions. */
  function Selected(dims: seq<nat>, nidx: nat): nat {
    if nidx == 0 then 1 else Selected(dims, nidx - 1) * IDim(dims, nidx - 1)
  }

  /**
   * The checks of mexFunction as written, in order: the argument count,
   * open_file, the number of dimensions, the data's class and the subscript
   * loop. nrhs is |idx| + 2; fewer than three arguments is the same usage
   * error as no index argument.
   */
  function Refusal(nlhs: int, desc: Option<Struct>, data: DataArg, idx: seq<IndexArg>, bigEndianHost: bool): (r: Option<MexError>)
    ensures |idx| == 0 || nlhs > 0 ==> r == Some(IncorrectUsage)
    ensures r.None? <==>
              && |idx| > 0 && nlhs <= 0
              && OpenFile(desc, bigEndianHost).Ok?
              && OpenFile(desc, bigEndianHost).value.ndim < MaxDims
              && data.clss == OpenFile(desc, bigEndianHost).value.dtype.clss
              && forall k :: 0 <= k < |idx| ==>
                   IndexOk(idx[k], IDim(data.dims, k), Extent(OpenFile(desc, bigEndianHost).value.dim, k))
  {
    if |idx| == 0 || nlhs > 0 then Some(IncorrectUsage)
    else match OpenFile(desc, bigEndianHost)
      case Err(e) => Some(e)
      case Ok(fm) =>
        if fm.ndim >= MaxDims then Some(TooManyDimensions)
        else if data.clss != fm.dtype.clss then Some(IncompatibleClass)
        else CheckIndices(fm.dim, data.dims, idx, 0)
  }

  /**
   * The checks with the data's element count compared with the elements the
   * subscripts select, reported as a dimension mismatch.
   */
  function CheckedRefusal(nlhs: int, desc: Option<Struct>, data: DataArg, idx: seq<IndexArg>, bigEndianHost: bool)
    : (r: Option<MexError>)
    ensures Refusal(nlhs, desc, data, idx, bigEndianHost).Some? ==> r == Refusal(nlhs, desc, data, idx, bigEndianHost)
    ensures r.None? <==> Refusal(nlhs, desc, data, idx, bigEndianHost).None? && Numel(data.dims) == Selected(data.dims, |idx|)
  {
    match Refusal(nlhs, desc, data, idx, bigEndianHost)
    case Some(e) => Some(e)
    case None => if Numel(data.dims) != Selected(data.dims, |idx|) then Some(DimensionMismatch) else None
  }

  /** What put receives: the file map, the subscript lists and the data extents. */
  datatype PutArgs = PutArgs(fm: FileMap, ptr: seq<seq<int>>, idim: seq<int>)

  /** The map, subscript lists and data extents put receives: all padded to the larger dimension count. */
  function Padded(fm: FileMap, dims: seq<nat>, idx: seq<IndexArg>): PutArgs {
    var dim := PadDims(fm.dim, |idx|);
    PutArgs(fm.(ndim := |dim|, dim := dim), PadSubscripts(|fm.dim|, idx), PadIDims(|fm.dim|, dims, |idx|))
  }

  /**
   * Arguments put can work on: a writable type, one subscript list per
   * dimension with idim subscripts, each list either the single subscript 1
   * or within the file's extent, and data bytes for exactly the selected
   * elements.
   */
  ghost predicate Ready(a: PutArgs, idat: seq<Byte>) {
    && Writable(a.fm.dtype) && a.fm.dtype.bits == 8 * Width(a.fm.dtype.swap)
    && 1 <= a.fm.ndim == |a.fm.dim| == |a.ptr| && Shaped(a.ptr, a.idim)
    && (forall d :: 0 <= d < |a.ptr| ==>
          a.ptr[d] == [1] || forall j :: 0 <= j < |a.ptr[d]| ==> 1 <= a.ptr[d][j] <= a.fm.dim[d])
    && Prod(a.idim, a.fm.ndim) * (a.fm.dtype.bits / 8) == |idat|
  }

  /** The elements put_bytes visits for ready arguments. */
  function Visited(a: PutArgs, idat: seq<Byte>): seq<Element>
    requires Ready(a, idat)
  {
    var nb := a.fm.dtype.bits / 8;
    Stream(a.fm.ndim - 1, a.ptr, a.idim, Strides(nb, a.fm.dim, a.fm.ndim), Strides(nb, a.idim, a.fm.ndim),
           ToSigned(a.fm.off), 0, a.idim[a.fm.ndim - 1])
  }

  /** Trailing extents of 1 leave a product unchanged. */
  lemma {:induction false} ProdOnes(a: seq<int>, m: nat, k: nat)
    requires m <= k <= |a| && forall i :: m <= i < k ==> a[i] == 1
    ensures Prod(a, k) == Prod(a, m)
  {
    if k > m {
      ProdOnes(a, m, k - 1);
    }
  }

  /** The padded data extents multiply to the selected element count. */
  lemma {:induction false} PaddedProd(ndim: nat, dims: seq<nat>, nidx: nat, k: nat)
    requires k <= nidx
    ensures Prod(PadIDims(ndim, dims, nidx), k) == Selected(dims, k)
  {
    if k > 0 {
      PaddedProd(ndim, dims, nidx, k - 1);
    }
  }

  /** Once the subscript loop has passed, the padded lists have the shape put walks. */
  lemma PaddedShaped(odim: seq<int>, dims: seq<nat>, idx: seq<IndexArg>)
    requires CheckIndices(odim, dims, idx, 0).None?
    ensures var ptr, idim, dim := PadSubscripts(|odim|, idx), PadIDims(|odim|, dims, |idx|), PadDims(odim, |idx|);
            && |dim| == |ptr| && Shaped(ptr, idim)
            && forall d :: 0 <= d < |ptr| ==>
                 ptr[d] == [1] || forall j :: 0 <= j < |ptr[d]| ==> 1 <= ptr[d][j] <= dim[d]
  {
    PaddedSubscriptsInRange(odim, dims, idx);
  }

  /** The padded data extents multiply to the data's element count once the corrected checks pass. */
  lemma PaddedCount(ndim: nat, dims: seq<nat>, nidx: nat)
    requires Numel(dims) == Selected(dims, nidx)
    ensures Prod(PadIDims(ndim, dims, nidx), |PadIDims(ndim, dims, nidx)|) == Numel(dims)
  {
    PaddedProd(ndim, dims, nidx, nidx);
    ProdOnes(PadIDims(ndim, dims, nidx), nidx, |PadIDims(ndim, dims, nidx)|);
  }

  /** Once the corrected checks pass, padding yields arguments put can work on. */
  lemma ReadyPadded(fm: FileMap, data: DataArg, idx: seq<IndexArg>)
    requires Writable(fm.dtype) && fm.dtype.bits == 8 * Width(fm.dtype.swap) == 8 * ElemBytes(fm.dtype.clss)
    requires fm.ndim == |fm.dim| && data.clss == fm.dtype.clss
    requires 1 <= |idx| && CheckIndices(fm.dim, data.dims, idx, 0).None?
    requires Numel(data.dims) == Selected(data.dims, |idx|)
    requires |data.bytes| == Numel(data.dims) * ElemBytes(data.clss)
    ensures Ready(Padded(fm, data.dims, idx), data.bytes)
  {
    var a := Padded(fm, data.dims, idx);
    PaddedShaped(fm.dim, data.dims, idx);
    PaddedCount(|fm.dim|, data.dims, |idx|);
    assert a.fm.ndim == |a.idim| && Prod(a.idim, a.fm.ndim) == Numel(data.dims);
    assert a.fm.dtype.bits / 8 == ElemBytes(data.clss);
  }

  /**
   * The outcome of the corrected checks: the first error, or the padded
   * arguments of put.
   */
  function Prepare(nlhs: int, desc: Option<Struct>, data: DataArg, idx: seq<IndexArg>, bigEndianHost: bool)
    : (r: Result<PutArgs, MexError>)
    requires |data.bytes| == Numel(data.dims) * ElemBytes(data.clss)
    ensures r.Err? <==> CheckedRefusal(nlhs, desc, data, idx, bigEndianHost).Some?
    ensures r.Err? ==> r.error == CheckedRefusal(nlhs, desc, data, idx, bigEndianHost).value
    ensures r.Ok? ==> Ready(r.value, data.bytes)
  {
    match CheckedRefusal(nlhs, desc, data, idx, bigEndianHost)
    case Some(e) => Err(e)
    case None =>
      var fm := OpenFile(desc, bigEndianHost).value;
      ReadyPadded(fm, data, idx);
      Ok(Padded(fm, data.dims, idx))
  }

  /** The subscript loop of mexFunction: the first error it reports, or None. */
  method CheckIndexArgs(odim: seq<int>, dims: seq<nat>, idx: seq<IndexArg>) returns (e: Option<MexError>)
    ensures e == CheckIndices(odim, dims, idx, 0)
  {
    var i := 0;
    while i < |idx|
      invariant 0 <= i <= |idx|
      invariant CheckIndices(odim, dims, idx, 0) == CheckIndices(odim, dims, idx, i)
    {
      if idx[i].clss != Int32Class {
        return Some(IndicesNotInt32);
      }
      if |idx[i].elems| != IDim(dims, i) {
        return Some(DimensionMismatch);
      }
      var j := 0;
      while j < |idx[i].elems|
        invariant 0 <= j <= |idx[i].elems|
        invariant forall k :: 0 <= k < j ==> 1 <= idx[i].elems[k] <= Extent(odim, i)
      {
        if idx[i].elems[j] < 1 || idx[i].elems[j] > Extent(odim, i) {
          return Some(IndexExceeds);
        }
        j := j + 1;
      }
      i := i + 1;
    }
    return None;
  }

  /** The checks of mexFunction, corrected, and the padding loops. */
  method Validate(nlhs: int, desc: Option<Struct>, data: DataArg, idx: seq<IndexArg>, bigEndianHost: bool)
    returns (r: Result<PutArgs, MexError>)
    requires |data.bytes| == Numel(data.dims) * ElemBytes(data.clss)
    ensures r == Prepare(nlhs, desc, data, idx, bigEndianHost)
  {
    if |idx| == 0 || nlhs > 0 {
      return Err(IncorrectUsage);
    }
    var res := OpenFile(desc, bigEndianHost);
    if res.Err? {
      return Err(res.error);
    }
    var fm := res.value;
    if fm.ndim >= MaxDims {
      return Err(TooManyDimensions);
    }
    if data.clss != fm.dtype.clss {
      return Err(IncompatibleClass);
    }
    var bad := CheckIndexArgs(fm.dim, data.dims, idx);
    if bad.Some? {
      return Err(bad.value);
    }
    if Numel(data.dims) != Selected(data.dims, |idx|) {
      return Err(DimensionMismatch);
    }
    return Ok(Padded(fm, data.dims, idx));
  }

  /**
   * mexFunction: the checks, then put on the padded arguments through a
   * fresh writer; the result is the list of writes made to the file.
   */
  method MexFunction(nlhs: int, desc: Option<Struct>, data: DataArg, idx: seq<IndexArg>, bigEndianHost: bool)
    returns (r: Result<seq<Record>, MexError>)
    requires |idx| < MaxDims
    requires |data.bytes| == Numel(data.dims) * ElemBytes(data.clss)
    ensures r.Err? <==> CheckedRefusal(nlhs, desc, data, idx, bigEndianHost).Some?
    ensures r.Err? ==> r.error == CheckedRefusal(nlhs, desc, data, idx, bigEndianHost).value
    ensures r.Ok? ==> var a := Prepare(nlhs, desc, data, idx, bigEndianHost);
                      && a.Ok?
                      && LogOk(r.value, data.bytes, SwapFor(a.value.fm), a.value.fm.dtype.bits / 8)
                      && (StartOk(Visited(a.value, data.bytes), a.value.fm.dtype.bits / 8) ==>
                            Flatten(r.value, a.value.fm.dtype.bits / 8) == Visited(a.value, data.bytes))
  {
    var checked := Validate(nlhs, desc, data, idx, bigEndianHost);
    if checked.Err? {
      return Err(checked.error);
    }
    var a := checked.value;
    ghost var nb := Width(a.fm.dtype.swap);
    assert nb == a.fm.dtype.bits / 8;
    ghost var ostr, istr := Strides(nb, a.fm.dim, a.fm.ndim), Strides(nb, a.idim, a.fm.ndim);
    ghost var v := Stream(a.fm.ndim - 1, a.ptr, a.idim, ostr, istr, ToSigned(a.fm.off), 0, a.idim[a.fm.ndim - 1]);
    assert Visited(a, data.bytes) == v;
    var w := new Writer();
    w.Put(a.fm, a.ptr, a.idim, data.bytes);
    assert w.ocumprod == ostr && w.icumprod == istr;
    assert StartOk(v, nb) ==> Flatten(w.written, nb) == v;
    return Ok(w.written);
  }

  /** A description of a two-element double file at offset 0, in the host's byte order. */
  const Sample: Struct := map["dtype" := Field(DoubleClass, [64.0]), "dim" := Field(DoubleClass, [2.0]),
                              "be" := Field(DoubleClass, [0.0]), "offset" := Field(DoubleClass, [0.0]),
                              "fname" := Field(CharClass, [])]

  /** open_file accepts the sample description on a little-endian host. */
  lemma SampleOpens()
    ensures OpenFile(Some(Sample), false) == Ok(FileMap(1, [2], Table[6], false, 0))
  {
    assert GetPr(Sample, "dtype", 1) == Ok([64.0]);
    assert Trunc(64.0) == 64;
    LookupFinds(6);
    assert GetPr(Sample, "dim", -MaxDims) == Ok([2.0]);
    assert Trunc(Fabs(2.0)) == 2;
    var dim := seq(1, i requires 0 <= i < 1 => Trunc(Fabs([2.0][i])));
    assert dim == [2];
    assert GetPr(Sample, "be", 1) == Ok([0.0]);
    assert GetPr(Sample, "offset", 1) == Ok([0.0]);
    assert Trunc(0.0) == 0 && ToUnsigned(0) == 0;
  }

  /**
   * A finding about the checks as written: a 2-by-0 double array (no
   * elements, no bytes) with one subscript list [1, 2], written to a
   * two-element file, passes every check, though put reads two elements
   * (16 bytes) of it. The corrected checks refuse it.
   */
  lemma EmptyDataAdmitted()
    ensures var data, idx := DataArg(DoubleClass, [2, 0], []), [IndexArg(Int32Class, [1, 2])];
            && |data.bytes| == Numel(data.dims) * ElemBytes(data.clss)
            && Refusal(0, Some(Sample), data, idx, false).None?
            && Selected(data.dims, |idx|) * ElemBytes(data.clss) > |data.bytes|
            && CheckedRefusal(0, Some(Sample), data, idx, false) == Some(DimensionMismatch)
  {
    SampleOpens();
    var data, idx := DataArg(DoubleClass, [2, 0], []), [IndexArg(Int32Class, [1, 2])];
    assert IndexOk(idx[0], IDim(data.dims, 0), Extent([2], 0));
    assert CheckIndices([2], data.dims, idx, 0).None?;
    assert Numel(data.dims) == 0 && Selected(data.dims, 1) == 2;
  }

  /**
   * Once the corrected checks pass, the data holds exactly the elements the
   * subscripts select, so put reads within it.
   */
  lemma CheckedDataSuffices(nlhs: int, desc: Option<Struct>, data: DataArg, idx: seq<IndexArg>, bigEndianHost: bool)
    requires |data.bytes| == Numel(data.dims) * ElemBytes(data.clss)
    requires CheckedRefusal(nlhs, desc, data, idx, bigEndianHost).None?
    ensures Selected(data.dims, |idx|) * ElemBytes(data.clss) == |data.bytes|
  {
  }
}
