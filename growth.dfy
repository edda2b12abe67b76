/**
 * Pieces of the region-growing engine that MEX_Unwrap2D.c and
 * MEX_Unwrap3D.c share word for word: the front-removal of the growth
 * queue (`downstack`), the seed scan of `find_seed` and the nearest-voxel
 * scan of `seed_ambiguity`.
 */
module Growth {
  import opened Wrappers

  /**
   * `downstack`: drop the front of the queue stack[..nstack] by shifting
   * the rest down one place. The new length is nstack - 1, or 0 when the
   * old length was at most 1; the remaining entries keep their order.
   */
  method Downstack(stack: array<int>, nstack: int) returns (n: int)
    requires nstack <= stack.Length
    modifies stack
    ensures n == if nstack > 1 then nstack - 1 else 0
    ensures 1 <= nstack ==> stack[..n] == old(stack[1..nstack])
    ensures stack[n..] == old(stack[n..])
  {
    if nstack > 1 {
      var i := 1;
      while i < nstack
        invariant 1 <= i <= nstack
        invariant forall j :: 0 <= j < i - 1 ==> stack[j] == old(stack[j + 1])
        invariant forall j :: i - 1 <= j < stack.Length ==> stack[j] == old(stack[j])
      {
        stack[i - 1] := stack[i];
        i := i + 1;
      }
      n := nstack - 1;
    } else {
      n := 0;
    }
  }

  /**
   * The state of `find_seed`'s scan after the first n voxels: the greatest
   * magnitude met so far among eligible voxels, starting from 0.0, and its
   * index, starting from 0. Only a strictly greater magnitude replaces the
   * current maximum.
   */
  function SeedScan(mag: seq<real>, eligible: seq<bool>, n: nat): (real, int)
    requires n <= |mag| == |eligible|
  {
    if n == 0 then (0.0, 0)
    else
      var prev := SeedScan(mag, eligible, n - 1);
      if eligible[n - 1] && mag[n - 1] > prev.0 then (mag[n - 1], n - 1) else prev
  }

  /**
   * The scan finds the first eligible voxel of greatest positive magnitude;
   * when no eligible voxel has a positive magnitude it falls back to 0.
   */
  lemma {:induction false} SeedScanIsFirstMax(mag: seq<real>, eligible: seq<bool>, n: nat)
    requires n <= |mag| == |eligible|
    ensures 0.0 <= SeedScan(mag, eligible, n).0
    ensures 0 <= SeedScan(mag, eligible, n).1 && (0 < n ==> SeedScan(mag, eligible, n).1 < n)
    ensures forall j :: 0 <= j < n && eligible[j] ==> mag[j] <= SeedScan(mag, eligible, n).0
    ensures (exists j :: 0 <= j < n && eligible[j] && 0.0 < mag[j]) ==>
              var r := SeedScan(mag, eligible, n);
              r.1 < n && eligible[r.1] && mag[r.1] == r.0 &&
              forall j :: 0 <= j < r.1 && eligible[j] ==> mag[j] < r.0
    ensures (forall j :: 0 <= j < n && eligible[j] ==> mag[j] <= 0.0) ==> SeedScan(mag, eligible, n) == (0.0, 0)
  {
    if n > 0 {
      SeedScanIsFirstMax(mag, eligible, n - 1);
    }
  }

  /**
   * The state of `seed_ambiguity`'s search after the first n voxels: the
   * least distance met so far among eligible voxels (None for the initial
   * 1e30, larger than any grid distance) and its index, starting from 0.
   * Only a strictly smaller distance replaces the current one.
   */
  function NearestScan(dist: seq<int>, eligible: seq<bool>, n: nat): (Option<int>, int)
    requires n <= |dist| == |eligible|
  {
    if n == 0 then (None, 0)
    else
      var prev := NearestScan(dist, eligible, n - 1);
      if eligible[n - 1] && (prev.0.None? || dist[n - 1] < prev.0.value) then (Some(dist[n - 1]), n - 1)
      else prev
  }

  /**
   * The search finds the first eligible voxel at least distance; with no
   * eligible voxel it falls back to 0.
   */
  lemma {:induction false} NearestScanIsFirstMin(dist: seq<int>, eligible: seq<bool>, n: nat)
    requires n <= |dist| == |eligible|
    ensures 0 <= NearestScan(dist, eligible, n).1 && (0 < n ==> NearestScan(dist, eligible, n).1 < n)
    ensures (exists j :: 0 <= j < n && eligible[j]) ==>
              var r := NearestScan(dist, eligible, n);
              r.1 < n && eligible[r.1] && r.0 == Some(dist[r.1]) &&
              (forall j :: 0 <= j < n && eligible[j] ==> dist[r.1] <= dist[j]) &&
              (forall j :: 0 <= j < r.1 && eligible[j] ==> dist[r.1] < dist[j])
    ensures (forall j :: 0 <= j < n ==> !eligible[j]) ==> NearestScan(dist, eligible, n) == (None, 0)
  {
    if n > 0 {
      NearestScanIsFirstMin(dist, eligible, n - 1);
    }
  }
}
