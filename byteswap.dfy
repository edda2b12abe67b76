/**
 * Byte-order conversion in mat2file.c: swap8 (alias copy) copies a buffer,
 * swap16, swap32 and swap64 reverse every consecutive 2-, 4- or 8-byte group
 * of it. Each routine reads n bytes of its input and writes n bytes of its
 * output buffer.
 */
module ByteSwap {
  import opened Grid

  newtype Byte = b: int | 0 <= b < 256

  /** The swap routine a dtype table entry names. */
  datatype SwapFn = SwapFn8 | SwapFn16 | SwapFn32 | SwapFn64

  /** The size of the byte groups the routine reverses. */
  function Width(f: SwapFn): (w: int)
    ensures 0 < w
  {
    match f
    case SwapFn8 => 1
    case SwapFn16 => 2
    case SwapFn32 => 4
    case SwapFn64 => 8
  }

  /** Reference reversal of a byte sequence. */
  function Reverse(s: seq<Byte>): (r: seq<Byte>)
    ensures |r| == |s|
    ensures forall i :: 0 <= i < |s| ==> r[i] == s[|s| - 1 - i]
  {
    if s == [] then [] else Reverse(s[1..]) + [s[0]]
  }

  /**
   * The effect of a swap routine of group size g: the buffer cut into
   * consecutive g-byte groups, each reversed. The routines are only ever
   * called on whole groups; a shorter tail is left as it is.
   */
  function SwapGroups(s: seq<Byte>, g: int): (r: seq<Byte>)
    requires 0 < g
    ensures |r| == |s|
    decreases |s|
  {
    if |s| < g then s else Reverse(s[..g]) + SwapGroups(s[g..], g)
  }

  lemma ReverseInvolution(s: seq<Byte>)
    ensures Reverse(Reverse(s)) == s
  {
  }

  /** Swapping works group by group, so a buffer may be swapped in pieces of whole groups. */
  lemma {:induction false} SwapGroupsAppend(a: seq<Byte>, b: seq<Byte>, g: int, q: int)
    requires 0 < g && 0 <= q && |a| == q * g
    ensures SwapGroups(a + b, g) == SwapGroups(a, g) + SwapGroups(b, g)
  {
    if q == 0 {
      assert a + b == b;
    } else {
      MulAtLeast(q, g);
      var a' := a[g..];
      assert |a'| == (q - 1) * g;
      assert (a + b)[..g] == a[..g];
      assert (a + b)[g..] == a' + b;
      SwapGroupsAppend(a', b, g, q - 1);
    }
  }

  /** After q whole groups, the next group of the output is the next input group reversed. */
  lemma SwapGroupsAfter(a: seq<Byte>, t: seq<Byte>, g: int, q: int)
    requires 0 < g && 0 <= q && |a| == q * g && g <= |t|
    ensures SwapGroups(a + t, g)[|a|..|a| + g] == Reverse(t[..g])
  {
    SwapGroupsAppend(a, t, g, q);
    var b := SwapGroups(t, g);
    assert b == Reverse(t[..g]) + SwapGroups(t[g..], g);
    assert (SwapGroups(a, g) + b)[|a|..|a| + g] == b[..g];
  }

  /** The q-th g-byte group of the output is the q-th input group reversed. */
  lemma SwapGroupsReversesEachGroup(s: seq<Byte>, g: int, q: int)
    requires 0 < g && 0 <= q && (q + 1) * g <= |s|
    ensures SwapGroups(s, g)[q * g..(q + 1) * g] == Reverse(s[q * g..(q + 1) * g])
  {
    var p := q * g;
    assert (q + 1) * g == p + g;
    var a, t := s[..p], s[p..];
    assert s == a + t;
    SwapGroupsAfter(a, t, g, q);
    assert t[..g] == s[p..p + g];
  }

  /** Extending a whole-group prefix by one group appends that group reversed. */
  lemma SwapGroupsSnoc(s: seq<Byte>, g: int, q: int)
    requires 0 < g && 0 <= q && (q + 1) * g <= |s|
    ensures SwapGroups(s[..(q + 1) * g], g) == SwapGroups(s[..q * g], g) + Reverse(s[q * g..(q + 1) * g])
  {
    var p := q * g;
    assert (q + 1) * g == p + g;
    var b := s[p..p + g];
    assert s[..p + g] == s[..p] + b;
    SwapGroupsAppend(s[..p], b, g, q);
    assert b[g..] == [];
  }

  /** Swapping twice with the same routine restores the input. */
  lemma {:induction false} SwapGroupsInvolution(s: seq<Byte>, g: int)
    requires 0 < g
    ensures SwapGroups(SwapGroups(s, g), g) == s
    decreases |s|
  {
    if |s| >= g {
      var x, y := Reverse(s[..g]), SwapGroups(s[g..], g);
      assert SwapGroups(s, g) == x + y;
      assert (x + y)[..g] == x && (x + y)[g..] == y;
      assert SwapGroups(x + y, g) == Reverse(x) + SwapGroups(y, g);
      ReverseInvolution(s[..g]);
      SwapGroupsInvolution(s[g..], g);
      assert s[..g] + s[g..] == s;
    }
  }

  /** swap8 is a plain copy. */
  lemma SwapGroupsOne(s: seq<Byte>)
    ensures SwapGroups(s, 1) == s
  {
    if s != [] {
      assert Reverse(s[..1]) == s[..1];
      SwapGroupsOne(s[1..]);
      assert s[..1] + s[1..] == s;
    }
  }

  /** Writing one reversed group after a swapped prefix extends the swapped prefix. */
  lemma GroupWritten(o: seq<Byte>, done: seq<Byte>, id: seq<Byte>, k: int, g: int)
    requires 0 < g && 0 <= k && k + g <= |o| && k + g <= |id| && o[..k] == done
    requires forall j :: k <= j < k + g ==> o[j] == id[2 * k + g - 1 - j]
    ensures o[..k + g] == done + Reverse(id[k..k + g])
  {
  }

  /** swap8 / copy: od[0..n) := id[0..n). */
  method Swap8(n: int, id: seq<Byte>, od: array<Byte>)
    requires 0 <= n <= |id| && n <= od.Length
    modifies od
    ensures od[..n] == id[..n]
    ensures od[n..] == old(od[n..])
  {
    var k := 0;
    while k < n
      invariant 0 <= k <= n
      invariant forall j :: 0 <= j < k ==> od[j] == id[j]
      invariant forall j :: k <= j < od.Length ==> od[j] == old(od[j])
    {
      od[k] := id[k];
      k := k + 1;
    }
  }

  /** One iteration of swap16: the group id[k..k+2) written reversed to od[k..k+2). */
  method ReversePair(id: seq<Byte>, od: array<Byte>, k: int)
    requires 0 <= k && k + 2 <= |id| && k + 2 <= od.Length
    modifies od
    ensures forall j :: k <= j < k + 2 ==> od[j] == id[2 * k + 1 - j]
    ensures forall j :: 0 <= j < od.Length && !(k <= j < k + 2) ==> od[j] == old(od[j])
  {
    var tmp := id[k]; od[k] := id[k + 1]; od[k + 1] := tmp;
  }

  /** swap16: every byte pair of id[0..n) is written to od reversed. */
  method Swap16(n: int, id: seq<Byte>, od: array<Byte>)
    requires 0 <= n <= |id| && n <= od.Length && n % 2 == 0
    modifies od
    ensures od[..n] == SwapGroups(id[..n], 2)
    ensures od[n..] == old(od[n..])
  {
    var k := 0;
    ghost var q, m := 0, n / 2;
    assert n == 2 * m;
    while k < n
      invariant 0 <= q <= m && k == 2 * q
      invariant od[..k] == SwapGroups(id[..k], 2)
      invariant forall j :: k <= j < od.Length ==> od[j] == old(od[j])
    {
      ghost var done := od[..k];
      ReversePair(id, od, k);
      GroupWritten(od[..], done, id, k, 2);
      SwapGroupsSnoc(id, 2, q);
      k, q := k + 2, q + 1;
    }
  }

  /** One iteration of swap32: the group id[k..k+4) written reversed to od[k..k+4). */
  method ReverseQuad(id: seq<Byte>, od: array<Byte>, k: int)
    requires 0 <= k && k + 4 <= |id| && k + 4 <= od.Length
    modifies od
    ensures forall j :: k <= j < k + 4 ==> od[j] == id[2 * k + 3 - j]
    ensures forall j :: 0 <= j < od.Length && !(k <= j < k + 4) ==> od[j] == old(od[j])
  {
    var tmp := id[k]; od[k] := id[k + 3]; od[k + 3] := tmp;
    tmp := id[k + 1]; od[k + 1] := id[k + 2]; od[k + 2] := tmp;
  }

  /** swap32: every 4-byte group of id[0..n) is written to od reversed. */
  method Swap32(n: int, id: seq<Byte>, od: array<Byte>)
    requires 0 <= n <= |id| && n <= od.Length && n % 4 == 0
    modifies od
    ensures od[..n] == SwapGroups(id[..n], 4)
    ensures od[n..] == old(od[n..])
  {
    var k := 0;
    ghost var q, m := 0, n / 4;
    assert n == 4 * m;
    while k < n
      invariant 0 <= q <= m && k == 4 * q
      invariant od[..k] == SwapGroups(id[..k], 4)
      invariant forall j :: k <= j < od.Length ==> od[j] == old(od[j])
    {
      ghost var done := od[..k];
      ReverseQuad(id, od, k);
      GroupWritten(od[..], done, id, k, 4);
      SwapGroupsSnoc(id, 4, q);
      k, q := k + 4, q + 1;
    }
  }

  /** One iteration of swap64: the group id[k..k+8) written reversed to od[k..k+8). */
  method ReverseOctet(id: seq<Byte>, od: array<Byte>, k: int)
    requires 0 <= k && k + 8 <= |id| && k + 8 <= od.Length
    modifies od
    ensures forall j :: k <= j < k + 8 ==> od[j] == id[2 * k + 7 - j]
    ensures forall j :: 0 <= j < od.Length && !(k <= j < k + 8) ==> od[j] == old(od[j])
  {
    var tmp := id[k]; od[k] := id[k + 7]; od[k + 7] := tmp;
    tmp := id[k + 1]; od[k + 1] := id[k + 6]; od[k + 6] := tmp;
    tmp := id[k + 2]; od[k + 2] := id[k + 5]; od[k + 5] := tmp;
    tmp := id[k + 3]; od[k + 3] := id[k + 4]; od[k + 4] := tmp;
  }

  /** swap64: every 8-byte group of id[0..n) is written to od reversed. */
  method Swap64(n: int, id: seq<Byte>, od: array<Byte>)
    requires 0 <= n <= |id| && n <= od.Length && n % 8 == 0
    modifies od
    ensures od[..n] == SwapGroups(id[..n], 8)
    ensures od[n..] == old(od[n..])
  {
    var k := 0;
    ghost var q, m := 0, n / 8;
    assert n == 8 * m;
    while k < n
      invariant 0 <= q <= m && k == 8 * q
      invariant od[..k] == SwapGroups(id[..k], 8)
      invariant forall j :: k <= j < od.Length ==> od[j] == old(od[j])
    {
      ghost var done := od[..k];
      ReverseOctet(id, od, k);
      GroupWritten(od[..], done, id, k, 8);
      SwapGroupsSnoc(id, 8, q);
      k, q := k + 8, q + 1;
    }
  }

  /** A call through the swap function pointer. */
  method Apply(f: SwapFn, n: int, id: seq<Byte>, od: array<Byte>)
    requires 0 <= n <= |id| && n <= od.Length && n % Width(f) == 0
    modifies od
    ensures od[..n] == SwapGroups(id[..n], Width(f))
    ensures od[n..] == old(od[n..])
  {
    match f
    case SwapFn8 =>
      Swap8(n, id, od);
      SwapGroupsOne(id[..n]);
    case SwapFn16 => Swap16(n, id, od);
    case SwapFn32 => Swap32(n, id, od);
    case SwapFn64 => Swap64(n, id, od);
  }
}
