/**
 * The argument checks of mat2file.c: getpr (a numeric field of the file
 * description), open_file (the description turned into a file map) and the
 * subscript checks and padding in mexFunction.
 *
 * mexErrMsgTxt aborts the call; here every check returns the error it
 * reports instead.
 */
module MexArgs {
  import opened Wrappers
  import opened ByteSwap
  import opened Dtypes

  /** MXDIMS: the most dimensions the file map holds. */
  const MaxDims: int := 256

  const Two32: int := 0x1_0000_0000

  datatype MexError =
    | IncorrectUsage
    | NotAStructure
    | FieldMissing(name: string)
    | FieldNonNumeric(name: string)
    | FieldNotDouble(name: string)
    | FieldCount(name: string, expected: int, actual: int)
    | FieldTooLong(name: string, most: int, actual: int)
    | UnrecognisedDtype
    | LogicalData
    | ComplexData
    | NoFileName
    | WrongFileNameType
    | TooManyDimensions
    | IncompatibleClass
    | IndicesNotInt32
    | DimensionMismatch
    | IndexExceeds

  /** A field of the file description: its class and its real parts as doubles. */
  datatype Field = Field(clss: ClassId, elems: seq<real>)

  /** The file description structure, field by field. */
  type Struct = map<string, Field>

  /**
   * getpr: the elements of a double field. len >= 0 asks for exactly len
   * elements, len < 0 for at most -len.
   */
  function GetPr(s: Struct, name: string, len: int): (r: Result<seq<real>, MexError>)
    ensures r.Ok? <==> name in s && s[name].clss == DoubleClass
                       && (if 0 <= len then |s[name].elems| == len else |s[name].elems| <= -len)
    ensures r.Ok? ==> r.value == s[name].elems
    ensures name !in s ==> r == Err(FieldMissing(name))
    ensures name in s && !IsNumeric(s[name].clss) ==> r == Err(FieldNonNumeric(name))
    ensures name in s && IsNumeric(s[name].clss) && s[name].clss != DoubleClass ==> r == Err(FieldNotDouble(name))
    ensures name in s && s[name].clss == DoubleClass && 0 <= len && |s[name].elems| != len
            ==> r == Err(FieldCount(name, len, |s[name].elems|))
    ensures name in s && s[name].clss == DoubleClass && len < 0 && |s[name].elems| > -len
            ==> r == Err(FieldTooLong(name, -len, |s[name].elems|))
  {
    if name !in s then Err(FieldMissing(name))
    else if !IsNumeric(s[name].clss) then Err(FieldNonNumeric(name))
    else if s[name].clss != DoubleClass then Err(FieldNotDouble(name))
    else if 0 <= len && |s[name].elems| != len then Err(FieldCount(name, len, |s[name].elems|))
    else if len < 0 && |s[name].elems| > -len then Err(FieldTooLong(name, -len, |s[name].elems|))
    else Ok(s[name].elems)
  }

  /** The C cast (int)x: truncation toward zero. */
  function Trunc(x: real): (n: int)
    ensures 0.0 <= x ==> n as real <= x < n as real + 1.0
    ensures x < 0.0 ==> n as real - 1.0 < x <= n as real
  {
    if x < 0.0 then -((-x).Floor) else x.Floor
  }

  function Fabs(x: real): real {
    if x < 0.0 then -x else x
  }

  /** Storing an int into the unsigned 32-bit offset field. */
  function ToUnsigned(v: int): (u: int)
    ensures 0 <= u < Two32
    ensures -Two32 / 2 <= v < 0 ==> u == v + Two32
    ensures 0 <= v < Two32 ==> u == v
  {
    v % Two32
  }

  /** The unsigned field passed to put_bytes's int offset parameter (two's complement). */
  function ToSigned(u: int): (s: int)
    ensures 0 <= u < Two32 ==> -Two32 / 2 <= s < Two32 / 2 && ToUnsigned(s) == u
    ensures 0 <= u < Two32 / 2 ==> s == u
  {
    if u < Two32 / 2 then u else u - Two32
  }

  /** The file map open_file fills in. */
  datatype FileMap = FileMap(ndim: int, dim: seq<int>, dtype: Dtype, swap: bool, off: int)

  /** open_file: check the description and build the map; fopen is not modelled. */
  function OpenFile(arg: Option<Struct>, bigEndianHost: bool): (r: Result<FileMap, MexError>)
    ensures r.Ok? <==> arg.Some? && Accepted(arg.value)
    ensures r.Ok? ==> Writable(r.value.dtype)
                      && r.value.dtype.bits == 8 * Width(r.value.dtype.swap) == 8 * ElemBytes(r.value.dtype.clss)
                      && Lookup(Trunc(arg.value["dtype"].elems[0])) == Some(r.value.dtype)
    ensures r.Ok? ==> 0 <= r.value.ndim <= MaxDims && |r.value.dim| == r.value.ndim
                      && forall i :: 0 <= i < r.value.ndim ==> 0 <= r.value.dim[i]
    ensures r.Ok? ==> r.value.ndim == |arg.value["dim"].elems|
                      && forall i :: 0 <= i < r.value.ndim ==> r.value.dim[i] == Trunc(Fabs(arg.value["dim"].elems[i]))
    ensures r.Ok? ==> (r.value.swap <==> (Trunc(arg.value["be"].elems[0]) != 0) != bigEndianHost)
    ensures r.Ok? ==> r.value.off == ToUnsigned(Trunc(arg.value["offset"].elems[0]))
  {
    if arg.None? then Err(NotAStructure)
    else
      var s := arg.value;
      var pd :- GetPr(s, "dtype", 1);
      match Lookup(Trunc(pd[0]))
      case None => Err(UnrecognisedDtype)
      case Some(d) =>
        if d.bits % 8 != 0 then Err(LogicalData)
        else if d.channels != 1 then Err(ComplexData)
        else
          LookupWidth(Trunc(pd[0]));
          var pdim :- GetPr(s, "dim", -MaxDims);
          var dim := seq(|pdim|, i requires 0 <= i < |pdim| => Trunc(Fabs(pdim[i])));
          var pbe :- GetPr(s, "be", 1);
          var swap := if bigEndianHost then Trunc(pbe[0]) == 0 else Trunc(pbe[0]) != 0;
          var poff :- GetPr(s, "offset", 1);
          var off := ToUnsigned(Trunc(poff[0]));
          // the clamp of a negative offset tests an unsigned value and never fires
          var off := if off < 0 then 0 else off;
          if "fname" !in s then Err(NoFileName)
          else if s["fname"].clss != CharClass then Err(WrongFileNameType)
          else Ok(FileMap(|pdim|, dim, d, swap, off))
  }

  /** Everything open_file demands of the description. */
  ghost predicate Accepted(s: Struct) {
    && GetPr(s, "dtype", 1).Ok?
    && Lookup(Trunc(s["dtype"].elems[0])).Some?
    && Writable(Lookup(Trunc(s["dtype"].elems[0])).value)
    && GetPr(s, "dim", -MaxDims).Ok?
    && GetPr(s, "be", 1).Ok?
    && GetPr(s, "offset", 1).Ok?
    && "fname" in s && s["fname"].clss == CharClass
  }

  /**
   * A negative offset is not clamped: put_bytes receives the offset the
   * description gives, negative or not, whenever it fits in an int.
   */
  lemma OffsetNotClamped(arg: Option<Struct>, bigEndianHost: bool)
    requires OpenFile(arg, bigEndianHost).Ok?
    requires -Two32 / 2 <= Trunc(arg.value["offset"].elems[0]) < Two32 / 2
    ensures ToSigned(OpenFile(arg, bigEndianHost).value.off) == Trunc(arg.value["offset"].elems[0])
  {
  }

  /** An index argument: its class and its int32 elements. */
  datatype IndexArg = IndexArg(clss: ClassId, elems: seq<int>)

  /** idim[i]: the data's extent in dimension i, 1 beyond its last dimension. */
  function IDim(ddims: seq<nat>, i: nat): nat {
    if i < |ddims| then ddims[i] else 1
  }

  /** The largest subscript admitted in dimension i: the file's extent there, 1 beyond ndim. */
  function Extent(odim: seq<int>, i: nat): int {
    if i < |odim| then odim[i] else 1
  }

  /** An index argument the loop lets through: int32, n elements, each in 1..hi. */
  predicate IndexOk(a: IndexArg, n: nat, hi: int) {
    a.clss == Int32Class && |a.elems| == n && forall j :: 0 <= j < n ==> 1 <= a.elems[j] <= hi
  }

  /** The subscript loop of mexFunction from argument i on: the first error it reports. */
  function CheckIndices(odim: seq<int>, ddims: seq<nat>, idx: seq<IndexArg>, i: nat): (r: Option<MexError>)
    requires i <= |idx|
    ensures r.None? <==> forall k :: i <= k < |idx| ==> IndexOk(idx[k], IDim(ddims, k), Extent(odim, k))
    ensures r.Some? ==> r.value in {IndicesNotInt32, DimensionMismatch, IndexExceeds}
    decreases |idx| - i
  {
    if i == |idx| then None
    else if idx[i].clss != Int32Class then Some(IndicesNotInt32)
    else if |idx[i].elems| != IDim(ddims, i) then Some(DimensionMismatch)
    else if exists j :: 0 <= j < |idx[i].elems| && !(1 <= idx[i].elems[j] <= Extent(odim, i)) then Some(IndexExceeds)
    else CheckIndices(odim, ddims, idx, i + 1)
  }

  /** The dimensions put works on: the file's, padded with 1 up to the number of index arguments. */
  function PadDims(odim: seq<int>, nidx: nat): (r: seq<int>)
    ensures |r| == if |odim| < nidx then nidx else |odim|
    ensures r[..|odim|] == odim
    ensures forall i :: |odim| <= i < |r| ==> r[i] == 1
  {
    var n := if |odim| < nidx then nidx else |odim|;
    seq(n, i requires 0 <= i < n => Extent(odim, i))
  }

  /** The data extents put works on: idim for each index argument, 1 for the dimensions beyond. */
  function PadIDims(ndim: nat, ddims: seq<nat>, nidx: nat): (r: seq<int>)
    ensures |r| == if ndim < nidx then nidx else ndim
    ensures forall i :: 0 <= i < nidx ==> r[i] == IDim(ddims, i)
    ensures forall i :: nidx <= i < |r| ==> r[i] == 1
  {
    var n := if ndim < nidx then nidx else ndim;
    seq(n, i requires 0 <= i < n => if i < nidx then IDim(ddims, i) else 1)
  }

  /** The subscript lists put works on: the index arguments, then the single subscript 1. */
  function PadSubscripts(ndim: nat, idx: seq<IndexArg>): (r: seq<seq<int>>)
    ensures |r| == if ndim < |idx| then |idx| else ndim
    ensures forall i :: 0 <= i < |idx| ==> r[i] == idx[i].elems
    ensures forall i :: |idx| <= i < |r| ==> r[i] == [1]
  {
    var n := if ndim < |idx| then |idx| else ndim;
    seq(n, i requires 0 <= i < n => if i < |idx| then idx[i].elems else [1])
  }

  /**
   * Once the subscript loop has passed, the padded lists give every
   * dimension idim subscripts, each at least 1; those of an index argument
   * are within that dimension's extent, and a dimension without one has the
   * single subscript 1.
   */
  lemma PaddedSubscriptsInRange(odim: seq<int>, ddims: seq<nat>, idx: seq<IndexArg>)
    requires CheckIndices(odim, ddims, idx, 0).None?
    ensures var dim, idim, ptr := PadDims(odim, |idx|), PadIDims(|odim|, ddims, |idx|), PadSubscripts(|odim|, idx);
            && |dim| == |idim| == |ptr|
            && (forall d :: 0 <= d < |ptr| ==> |ptr[d]| == idim[d])
            && (forall d, j :: 0 <= d < |idx| && 0 <= j < |ptr[d]| ==> 1 <= ptr[d][j] <= dim[d])
            && (forall d :: |idx| <= d < |ptr| ==> ptr[d] == [1])
  {
    var dim, idim, ptr := PadDims(odim, |idx|), PadIDims(|odim|, ddims, |idx|), PadSubscripts(|odim|, idx);
    forall d | 0 <= d < |idx|
      ensures |ptr[d]| == idim[d] && forall j :: 0 <= j < |ptr[d]| ==> 1 <= ptr[d][j] <= dim[d]
    {
      assert IndexOk(idx[d], IDim(ddims, d), Extent(odim, d));
    }
  }
}
