/**
 * The dtype table of mat2file.c: for each NIfTI/Analyze datatype code, the
 * routine that converts its byte order, the MATLAB class its data must
 * have, its bits per channel and its channel count, and the lookup
 * open_file does in it.
 */
module Dtypes {
  import opened Wrappers
  import opened ByteSwap

  /** The MATLAB array classes (mxClassID) the checks refer to. */
  datatype ClassId =
    | LogicalClass | CharClass | DoubleClass | SingleClass
    | Int8Class | UInt8Class | Int16Class | UInt16Class | Int32Class | UInt32Class
    | Int64Class | UInt64Class | StructClass | CellClass | OtherClass

  /** mxIsNumeric: the floating-point and integer classes. */
  predicate IsNumeric(c: ClassId) {
    match c
    case DoubleClass | SingleClass | Int8Class | UInt8Class | Int16Class | UInt16Class
      | Int32Class | UInt32Class | Int64Class | UInt64Class => true
    case _ => false
  }

  /** Bytes per element in MATLAB's storage of a numeric, logical or char array. */
  function ElemBytes(c: ClassId): nat {
    match c
    case LogicalClass | Int8Class | UInt8Class => 1
    case CharClass | Int16Class | UInt16Class => 2
    case SingleClass | Int32Class | UInt32Class => 4
    case DoubleClass | Int64Class | UInt64Class => 8
    case _ => 0
  }

  datatype Dtype = Dtype(code: int, swap: SwapFn, clss: ClassId, bits: int, channels: int)

  const Table: seq<Dtype> := [
    Dtype(1, SwapFn8, LogicalClass, 1, 1),
    Dtype(2, SwapFn8, UInt8Class, 8, 1),
    Dtype(4, SwapFn16, Int16Class, 16, 1),
    Dtype(8, SwapFn32, Int32Class, 32, 1),
    Dtype(16, SwapFn32, SingleClass, 32, 1),
    Dtype(32, SwapFn32, SingleClass, 32, 2),
    Dtype(64, SwapFn64, DoubleClass, 64, 1),
    Dtype(256, SwapFn8, Int8Class, 8, 1),
    Dtype(512, SwapFn16, UInt16Class, 16, 1),
    Dtype(768, SwapFn32, UInt32Class, 32, 1),
    Dtype(1792, SwapFn64, DoubleClass, 64, 2)]

  /** The index of the first entry of t, from i on, whose code matches; None when there is none. */
  function FirstMatch(t: seq<Dtype>, code: int, i: nat): (r: Option<nat>)
    requires i <= |t|
    ensures r.Some? ==> i <= r.value < |t| && t[r.value].code == code
    ensures r.Some? ==> forall j :: i <= j < r.value ==> t[j].code != code
    ensures r.None? <==> forall j :: i <= j < |t| ==> t[j].code != code
    decreases |t| - i
  {
    if i == |t| then None
    else if t[i].code == code then Some(i)
    else FirstMatch(t, code, i + 1)
  }

  /** The table entry for a datatype code. */
  function Lookup(code: int): (r: Option<Dtype>)
    ensures r.Some? ==> r.value.code == code
    ensures r.None? <==> forall j :: 0 <= j < |Table| ==> Table[j].code != code
  {
    match FirstMatch(Table, code, 0)
    case None => None
    case Some(i) => Some(Table[i])
  }

  /** Types open_file accepts: whole bytes per channel and a single channel. */
  predicate Writable(d: Dtype) {
    d.bits % 8 == 0 && d.channels == 1
  }

  /** No two entries share a code, so the first match is the only one. */
  lemma CodesDistinct()
    ensures forall i, j :: 0 <= i < j < |Table| ==> Table[i].code != Table[j].code
  {
  }

  /** An entry is found exactly when its code is in the table, and then it is that entry. */
  lemma LookupFinds(k: nat)
    requires k < |Table|
    ensures Lookup(Table[k].code) == Some(Table[k])
  {
    CodesDistinct();
    var r := FirstMatch(Table, Table[k].code, 0);
    assert r.Some?;
  }

  /**
   * The codes open_file accepts are exactly the eight single-channel types
   * with whole bytes: logical (1), complex (32, 1792) and unknown codes are
   * refused.
   */
  lemma WritableCodes(code: int)
    ensures (Lookup(code).Some? && Writable(Lookup(code).value))
            <==> code in {2, 4, 8, 16, 64, 256, 512, 768}
  {
    var r := FirstMatch(Table, code, 0);
    if r.Some? {
      var i := r.value;
      assert Writable(Table[i]) <==> Table[i].code in {2, 4, 8, 16, 64, 256, 512, 768} by {
        assert i in {0, 1, 2, 3, 4, 5, 6, 7, 8, 9, 10};
      }
    } else {
      assert Table[1].code == 2 && Table[2].code == 4 && Table[3].code == 8 && Table[4].code == 16;
      assert Table[6].code == 64 && Table[7].code == 256 && Table[8].code == 512 && Table[9].code == 768;
    }
  }

  /**
   * For an accepted type the swap routine reverses exactly one element, and
   * the element has the size MATLAB stores for the type's class.
   */
  lemma WritableWidth(d: Dtype)
    requires d in Table && Writable(d)
    ensures d.bits == 8 * Width(d.swap) && d.bits == 8 * ElemBytes(d.clss)
    ensures Width(d.swap) in {1, 2, 4, 8}
  {
  }

  /** The entry a code finds, when writable, has an element size agreeing with its swap routine and class. */
  lemma LookupWidth(code: int)
    requires Lookup(code).Some? && Writable(Lookup(code).value)
    ensures var d := Lookup(code).value;
            d.bits == 8 * Width(d.swap) == 8 * ElemBytes(d.clss)
  {
    var i := FirstMatch(Table, code, 0).value;
    WritableWidth(Table[i]);
  }
}
