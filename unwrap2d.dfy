/**
 * Region-growing phase unwrapping of a 2D image (MEX_Unwrap2D.c).
 *
 * The image has nx * ny voxels stored column-major in MATLAB terms: the
 * voxel at (x, y) has the linear index x + nx * y. A voxel is trusted when
 * its magnitude reaches the threshold. Growth starts at the trusted voxel of
 * largest magnitude; every resolved voxel pushes its trusted, unvisited
 * compass neighbours onto a FIFO queue, and a queued voxel is resolved by
 * adding the multiple of 2pi that brings its wrapped phase nearest to the
 * mean phase of its resolved neighbours. When the queue runs dry a new
 * seed is chosen and its wrap is estimated from the nearest resolved voxel.
 *
 * Visit states: 0 unvisited, 1 queued, 2 resolved.
 */
module Unwrap2D {
  import opened Wrappers
  import opened Phase
  import opened Grid
  import opened Growth

  // ---------------------------------------------------------------- geometry

  /** add_pixel's bounds test: a voxel that passes it has its LOC2D index inside the image. */
  predicate InBounds(x: int, y: int, nx: int, ny: int)
    ensures InBounds(x, y, nx, ny) ==> 0 <= x + nx * y < nx * ny
  {
    0 <= x < nx && 0 <= y < ny && (RowBound(x, y, nx, ny); true)
  }

  /** LOC2D: the linear index of an in-bounds voxel, and its inverse. */
  function Loc(x: int, y: int, nx: int, ny: int): (l: int)
    requires InBounds(x, y, nx, ny)
    ensures 0 <= l < nx * ny
    ensures l % nx == x && l / nx == y
  {
    LocBounds(x, y, nx, ny);
    x + nx * y
  }

  lemma LocBounds(x: int, y: int, nx: int, ny: int)
    requires InBounds(x, y, nx, ny)
    ensures x + nx * y < nx * ny
    ensures (x + nx * y) % nx == x && (x + nx * y) / nx == y
  {
    assert nx * y + nx <= nx * ny by {
      assert nx * ny - nx * y == nx * (ny - y);
      MulAtLeast(ny - y, nx);
    }
    DivModUnique(x + nx * y, nx, y, x);
  }

  /** Every index of the image is the Loc of its own (x, y) = (loc % nx, loc / nx). */
  lemma CoordsRoundTrip(c: int, nx: int, ny: int)
    requires 0 < nx && 0 <= c < nx * ny
    ensures InBounds(c % nx, c / nx, nx, ny)
    ensures Loc(c % nx, c / nx, nx, ny) == c
  {
    DivBelow(c, nx, ny);
  }

  /** The compass offsets in the order add_neighbours and predict_phase visit them. */
  const Compass: seq<(int, int)> := [(0, 1), (1, 1), (1, 0), (1, -1), (0, -1), (-1, -1), (-1, 0), (-1, 1)]

  /** Direction d from voxel c stays inside the image. */
  predicate DirInBounds(c: int, d: int, nx: int, ny: int)
    requires 0 < nx && 0 <= d < |Compass|
  {
    InBounds(c % nx + Compass[d].0, c / nx + Compass[d].1, nx, ny)
  }

  /** The index of c's neighbour in direction d. */
  function DirLoc(c: int, d: int, nx: int, ny: int): int
    requires 0 < nx && 0 <= d < |Compass| && DirInBounds(c, d, nx, ny)
  {
    Loc(c % nx + Compass[d].0, c / nx + Compass[d].1, nx, ny)
  }

  /** Adjacency is symmetric: direction d from c and direction d + 4 back lead home. */
  lemma DirSymmetric(c: int, d: int, nx: int, ny: int)
    requires 0 < nx && 0 <= c < nx * ny && 0 <= d < |Compass| && DirInBounds(c, d, nx, ny)
    ensures DirInBounds(DirLoc(c, d, nx, ny), (d + 4) % 8, nx, ny)
    ensures DirLoc(DirLoc(c, d, nx, ny), (d + 4) % 8, nx, ny) == c
  {
    CoordsRoundTrip(c, nx, ny);
  }

  /** Different directions from one voxel reach different voxels. */
  lemma DirInjective(c: int, d: int, e: int, nx: int, ny: int)
    requires 0 < nx && 0 <= d < |Compass| && 0 <= e < |Compass| && d != e
    requires DirInBounds(c, d, nx, ny) && DirInBounds(c, e, nx, ny)
    ensures DirLoc(c, d, nx, ny) != DirLoc(c, e, nx, ny)
  {
    assert Compass[d] != Compass[e];
  }

  // ---------------------------------------------------------- queue growth

  /** add_pixel's test: (x, y) is in bounds, unvisited and trusted. */
  predicate Admissible(x: int, y: int, vs: seq<int>, ts: seq<int>, nx: int, ny: int)
    requires |vs| == nx * ny && |ts| == nx * ny
  {
    InBounds(x, y, nx, ny) && vs[Loc(x, y, nx, ny)] == 0 && ts[Loc(x, y, nx, ny)] == 1
  }

  /** add_pixel's test on c's neighbour in direction d. */
  predicate Admits(c: int, d: int, vs: seq<int>, ts: seq<int>, nx: int, ny: int)
    requires 0 < nx && 0 <= d < |Compass| && |vs| == nx * ny && |ts| == nx * ny
  {
    Admissible(c % nx + Compass[d].0, c / nx + Compass[d].1, vs, ts, nx, ny)
  }

  /**
   * The voxels add_neighbours(c) enqueues through directions 0 .. k-1,
   * judged against the visit map before the call.
   */
  function Fresh(c: int, vs: seq<int>, ts: seq<int>, nx: int, ny: int, k: nat): seq<int>
    requires 0 < nx && |vs| == nx * ny && |ts| == nx * ny && k <= |Compass|
  {
    if k == 0 then []
    else if Admits(c, k - 1, vs, ts, nx, ny) then Fresh(c, vs, ts, nx, ny, k - 1) + [DirLoc(c, k - 1, nx, ny)]
    else Fresh(c, vs, ts, nx, ny, k - 1)
  }

  /** The visit map with every voxel of `locs` marked as queued. */
  function Mark(vs: seq<int>, locs: seq<int>): seq<int> {
    seq(|vs|, i requires 0 <= i < |vs| => if i in locs then 1 else vs[i])
  }

  /** No later direction's voxel is among those enqueued by the first k. */
  lemma {:induction false} FreshExcludesLater(c: int, vs: seq<int>, ts: seq<int>, nx: int, ny: int, k: nat)
    requires 0 < nx && |vs| == nx * ny && |ts| == nx * ny && k <= |Compass|
    ensures forall d :: k <= d < |Compass| && DirInBounds(c, d, nx, ny) ==>
              DirLoc(c, d, nx, ny) !in Fresh(c, vs, ts, nx, ny, k)
  {
    if k > 0 {
      FreshExcludesLater(c, vs, ts, nx, ny, k - 1);
      forall d | k <= d < |Compass| && DirInBounds(c, d, nx, ny)
        ensures DirLoc(c, d, nx, ny) !in Fresh(c, vs, ts, nx, ny, k)
      {
        if DirInBounds(c, k - 1, nx, ny) {
          DirInjective(c, d, k - 1, nx, ny);
        }
      }
    }
  }

  /**
   * add_neighbours enqueues exactly the admitted neighbours, each once, each
   * an unvisited trusted neighbour of c.
   */
  lemma {:induction false} FreshExact(c: int, vs: seq<int>, ts: seq<int>, nx: int, ny: int, k: nat)
    requires 0 < nx && |vs| == nx * ny && |ts| == nx * ny && k <= |Compass|
    ensures Distinct(Fresh(c, vs, ts, nx, ny, k))
    ensures forall e :: e in Fresh(c, vs, ts, nx, ny, k) ==>
              exists d :: 0 <= d < k && Admits(c, d, vs, ts, nx, ny) && DirLoc(c, d, nx, ny) == e
    ensures forall d :: 0 <= d < k && Admits(c, d, vs, ts, nx, ny) ==> DirLoc(c, d, nx, ny) in Fresh(c, vs, ts, nx, ny, k)
  {
    if k > 0 {
      FreshExact(c, vs, ts, nx, ny, k - 1);
      FreshExcludesLater(c, vs, ts, nx, ny, k - 1);
    }
  }

  /**
   * Direction k of add_neighbours sees the visit map as marked by the
   * directions before it, and judges its neighbour exactly as against the
   * map before the call.
   */
  lemma FreshStep(c: int, vs: seq<int>, ts: seq<int>, nx: int, ny: int, k: nat, v: seq<int>)
    requires 0 < nx && |vs| == nx * ny && |ts| == nx * ny && k < |Compass|
    requires v == Mark(vs, Fresh(c, vs, ts, nx, ny, k))
    ensures Admits(c, k, v, ts, nx, ny) == Admits(c, k, vs, ts, nx, ny)
    ensures Admits(c, k, vs, ts, nx, ny) ==>
              Fresh(c, vs, ts, nx, ny, k + 1) == Fresh(c, vs, ts, nx, ny, k) + [DirLoc(c, k, nx, ny)] &&
              Mark(vs, Fresh(c, vs, ts, nx, ny, k + 1)) == v[DirLoc(c, k, nx, ny) := 1]
    ensures !Admits(c, k, vs, ts, nx, ny) ==> Fresh(c, vs, ts, nx, ny, k + 1) == Fresh(c, vs, ts, nx, ny, k)
  {
    FreshExcludesLater(c, vs, ts, nx, ny, k);
    if Admits(c, k, vs, ts, nx, ny) {
      var l := DirLoc(c, k, nx, ny);
      assert Mark(vs, Fresh(c, vs, ts, nx, ny, k + 1)) == v[l := 1];
    }
  }

  lemma {:induction false} FreshGrows(c: int, vs: seq<int>, ts: seq<int>, nx: int, ny: int, j: nat, k: nat)
    requires 0 < nx && |vs| == nx * ny && |ts| == nx * ny && j <= k <= |Compass|
    ensures |Fresh(c, vs, ts, nx, ny, j)| <= |Fresh(c, vs, ts, nx, ny, k)|
  {
    if j < k {
      FreshGrows(c, vs, ts, nx, ny, j, k - 1);
    }
  }

  /**
   * add_pixel: push voxel (x, y) and mark it queued when it is in bounds,
   * unvisited and trusted; otherwise change nothing.
   */
  method AddPixel(x: int, y: int, stack: array<int>, visited: array<int>, trusted: array<int>,
                  nstack: int, nx: int, ny: int) returns (n: int)
    requires 0 < nx && visited.Length == nx * ny && trusted.Length == nx * ny
    requires stack != visited && stack != trusted && visited != trusted
    requires 0 <= nstack <= stack.Length
    requires Admissible(x, y, visited[..], trusted[..], nx, ny) ==> nstack < stack.Length
    modifies stack, visited
    ensures Admissible(x, y, old(visited[..]), trusted[..], nx, ny) ==>
              n == nstack + 1 && stack[..n] == old(stack[..nstack]) + [Loc(x, y, nx, ny)] &&
              visited[..] == old(visited[..])[Loc(x, y, nx, ny) := 1]
    ensures !Admissible(x, y, old(visited[..]), trusted[..], nx, ny) ==>
              n == nstack && stack[..] == old(stack[..]) && visited[..] == old(visited[..])
  {
    n := nstack;
    if InBounds(x, y, nx, ny) {
      var loc := Loc(x, y, nx, ny);
      if visited[loc] == 0 && trusted[loc] == 1 {
        stack[nstack] := loc;
        visited[loc] := 1;
        n := nstack + 1;
      }
    }
  }

  /**
   * add_neighbours: offer the eight compass neighbours of c to add_pixel in
   * compass order. The queue grows by Fresh and those voxels become queued.
   */
  method AddNeighbours(c: int, stack: array<int>, visited: array<int>, trusted: array<int>,
                       nstack: int, nx: int, ny: int) returns (n: int)
    requires 0 < nx && visited.Length == nx * ny && trusted.Length == nx * ny
    requires stack != visited && stack != trusted && visited != trusted
    requires 0 <= nstack && nstack + |Fresh(c, visited[..], trusted[..], nx, ny, 8)| <= stack.Length
    modifies stack, visited
    ensures n == nstack + |Fresh(c, old(visited[..]), trusted[..], nx, ny, 8)| <= stack.Length
    ensures stack[..n] == old(stack[..nstack]) + Fresh(c, old(visited[..]), trusted[..], nx, ny, 8)
    ensures visited[..] == Mark(old(visited[..]), Fresh(c, old(visited[..]), trusted[..], nx, ny, 8))
  {
    ghost var vs0 := visited[..];
    ghost var base := stack[..nstack];
    n := nstack;
    FreshGrows(c, vs0, trusted[..], nx, ny, 0, 8);
    for k := 0 to 8
      invariant n == nstack + |Fresh(c, vs0, trusted[..], nx, ny, k)| <= stack.Length
      invariant stack[..n] == base + Fresh(c, vs0, trusted[..], nx, ny, k)
      invariant visited[..] == Mark(vs0, Fresh(c, vs0, trusted[..], nx, ny, k))
    {
      n := OfferNeighbour(c, k, stack, visited, trusted, n, nx, ny, vs0, base);
    }
  }

  /** One direction of add_neighbours: the queue and the visit map follow Fresh one step further. */
  method OfferNeighbour(c: int, k: int, stack: array<int>, visited: array<int>, trusted: array<int>,
                        n: int, nx: int, ny: int, ghost vs0: seq<int>, ghost base: seq<int>) returns (n': int)
    requires 0 < nx && visited.Length == nx * ny && trusted.Length == nx * ny && 0 <= k < |Compass|
    requires stack != visited && stack != trusted && visited != trusted && |vs0| == nx * ny
    requires n == |base| + |Fresh(c, vs0, trusted[..], nx, ny, k)| <= stack.Length && |base| + |Fresh(c, vs0, trusted[..], nx, ny, 8)| <= stack.Length
    requires stack[..n] == base + Fresh(c, vs0, trusted[..], nx, ny, k)
    requires visited[..] == Mark(vs0, Fresh(c, vs0, trusted[..], nx, ny, k))
    modifies stack, visited
    ensures n' == |base| + |Fresh(c, vs0, trusted[..], nx, ny, k + 1)| <= stack.Length
    ensures stack[..n'] == base + Fresh(c, vs0, trusted[..], nx, ny, k + 1)
    ensures visited[..] == Mark(vs0, Fresh(c, vs0, trusted[..], nx, ny, k + 1))
  {
    ghost var ts := trusted[..];
    FreshGrows(c, vs0, ts, nx, ny, k + 1, 8);
    FreshStep(c, vs0, ts, nx, ny, k, visited[..]);
    n' := AddPixel(c % nx + Compass[k].0, c / nx + Compass[k].1, stack, visited, trusted, n, nx, ny);
    if Admits(c, k, vs0, ts, nx, ny) {
      assert stack[..n'] == base + Fresh(c, vs0, ts, nx, ny, k) + [DirLoc(c, k, nx, ny)];
    } else {
      assert stack[..n'] == old(stack[..n]);
    }
  }

  // -------------------------------------------------------------- prediction

  /** c's neighbour in direction d exists and is resolved. */
  predicate ResolvedDir(c: int, d: int, vs: seq<int>, nx: int, ny: int)
    requires 0 < nx && 0 <= d < |Compass| && |vs| == nx * ny
  {
    DirInBounds(c, d, nx, ny) && vs[DirLoc(c, d, nx, ny)] == 2
  }

  predicate HasResolvedNeighbour(c: int, vs: seq<int>, nx: int, ny: int)
    requires 0 < nx && |vs| == nx * ny
  {
    exists d :: 0 <= d < |Compass| && ResolvedDir(c, d, vs, nx, ny)
  }

  /**
   * extrap_phase with nearest-neighbour prediction: the phase of the
   * neighbour in direction d with weight 1 when it is resolved, otherwise
   * phase 0 with weight 0.
   */
  function Extrap(c: int, d: int, us: seq<real>, vs: seq<int>, nx: int, ny: int): (e: (real, real))
    requires 0 < nx && 0 <= d < |Compass| && |us| == nx * ny && |vs| == nx * ny
    ensures e.1 == 0.0 || e.1 == 1.0
    ensures e.1 != 0.0 <==> ResolvedDir(c, d, vs, nx, ny)
    ensures e.1 == 0.0 ==> e.0 == 0.0
    ensures ResolvedDir(c, d, vs, nx, ny) ==> e == (us[DirLoc(c, d, nx, ny)], 1.0)
  {
    if ResolvedDir(c, d, vs, nx, ny) then (us[DirLoc(c, d, nx, ny)], 1.0) else (0.0, 0.0)
  }

  function Phases(c: int, us: seq<real>, vs: seq<int>, nx: int, ny: int): seq<real>
    requires 0 < nx && |us| == nx * ny && |vs| == nx * ny
  {
    seq(|Compass|, d requires 0 <= d < |Compass| => Extrap(c, d, us, vs, nx, ny).0)
  }

  function Weights(c: int, us: seq<real>, vs: seq<int>, nx: int, ny: int): seq<real>
    requires 0 < nx && |us| == nx * ny && |vs| == nx * ny
  {
    seq(|Compass|, d requires 0 <= d < |Compass| => Extrap(c, d, us, vs, nx, ny).1)
  }

  /** predict_phase's value; None where the C code divides 0 by 0. */
  function Predicted(c: int, us: seq<real>, vs: seq<int>, nx: int, ny: int): Option<real>
    requires 0 < nx && |us| == nx * ny && |vs| == nx * ny
  {
    WeightedMean(Phases(c, us, vs, nx, ny), Weights(c, us, vs, nx, ny))
  }

  /** The prediction is defined exactly when some compass neighbour is resolved. */
  lemma PredictionDefined(c: int, us: seq<real>, vs: seq<int>, nx: int, ny: int)
    requires 0 < nx && |us| == nx * ny && |vs| == nx * ny
    ensures Predicted(c, us, vs, nx, ny).Some? <==> HasResolvedNeighbour(c, vs, nx, ny)
  {
    var ws := Weights(c, us, vs, nx, ny);
    assert NonNegative(ws);
    SumNonNegative(ws, |ws|);
    if HasResolvedNeighbour(c, vs, nx, ny) {
      var d :| 0 <= d < |Compass| && ResolvedDir(c, d, vs, nx, ny);
      assert ws[d] == 1.0;
    }
  }

  /**
   * The prediction is the mean of the resolved neighbours' phases, so it
   * lies between the least and the greatest of them.
   */
  lemma PredictionWithin(c: int, us: seq<real>, vs: seq<int>, nx: int, ny: int, lo: real, hi: real)
    requires 0 < nx && |us| == nx * ny && |vs| == nx * ny
    requires forall d :: 0 <= d < |Compass| && ResolvedDir(c, d, vs, nx, ny) ==> lo <= us[DirLoc(c, d, nx, ny)] <= hi
    ensures Predicted(c, us, vs, nx, ny).Some? <==> HasResolvedNeighbour(c, vs, nx, ny)
    ensures Predicted(c, us, vs, nx, ny).Some? ==> lo <= Predicted(c, us, vs, nx, ny).value <= hi
  {
    PredictionDefined(c, us, vs, nx, ny);
    MeanWithin(Phases(c, us, vs, nx, ny), Weights(c, us, vs, nx, ny), lo, hi);
  }

  /**
   * predict_phase: extrapolate along the eight compass directions into two
   * small arrays, then divide the weighted phase sum by the weight sum.
   */
  method PredictPhase(c: int, psiUw: array<real>, visited: array<int>, nx: int, ny: int) returns (r: Option<real>)
    requires 0 < nx && psiUw.Length == nx * ny && visited.Length == nx * ny
    ensures r == Predicted(c, psiUw[..], visited[..], nx, ny)
  {
    ghost var ps := Phases(c, psiUw[..], visited[..], nx, ny);
    ghost var ws := Weights(c, psiUw[..], visited[..], nx, ny);
    var p := new real[8];
    var w := new real[8];
    for d := 0 to 8
      invariant forall j :: 0 <= j < d ==> p[j] == ps[j] && w[j] == ws[j]
    {
      var e := Extrap(c, d, psiUw[..], visited[..], nx, ny);
      p[d], w[d] := e.0, e.1;
    }
    assert p[..] == ps && w[..] == ws;
    r := MeanOf(p, w);
  }

  // ------------------------------------------------------------------ seeds

  /** find_seed's candidates: trusted voxels not yet resolved. */
  function Eligible(vs: seq<int>, ts: seq<int>): seq<bool>
    requires |vs| == |ts|
  {
    seq(|vs|, i requires 0 <= i < |vs| => ts[i] == 1 && vs[i] < 2)
  }

  /** The voxel find_seed picks: the first candidate of greatest positive magnitude, else 0. */
  function Seed(mag: seq<real>, vs: seq<int>, ts: seq<int>): (s: int)
    requires |mag| == |vs| == |ts|
    ensures 0 <= s && (0 < |vs| ==> s < |vs|)
  {
    SeedScanIsFirstMax(mag, Eligible(vs, ts), |vs|);
    SeedScan(mag, Eligible(vs, ts), |vs|).1
  }

  /** squared distance between two voxels (the C code compares its square root). */
  function SquaredDistance(a: int, b: int, nx: int): int
    requires 0 < nx
  {
    (a % nx - b % nx) * (a % nx - b % nx) + (a / nx - b / nx) * (a / nx - b / nx)
  }

  /** seed_ambiguity's candidates: resolved voxels in neither the seed's row nor its column. */
  function OffAxisResolved(s: int, vs: seq<int>, nx: int): seq<bool>
    requires 0 < nx
  {
    seq(|vs|, i requires 0 <= i < |vs| => vs[i] == 2 && i % nx != s % nx && i / nx != s / nx)
  }

  function Distances(s: int, n: nat, nx: int): seq<int>
    requires 0 < nx
  {
    seq(n, i requires 0 <= i < n => SquaredDistance(s, i, nx))
  }

  /** The voxel seed_ambiguity measures against: the first nearest candidate, else 0. */
  function Nearest(s: int, vs: seq<int>, nx: int): (r: int)
    requires 0 < nx
    ensures 0 <= r && (0 < |vs| ==> r < |vs|)
  {
    NearestScanIsFirstMin(Distances(s, |vs|, nx), OffAxisResolved(s, vs, nx), |vs|);
    NearestScan(Distances(s, |vs|, nx), OffAxisResolved(s, vs, nx), |vs|).1
  }

  /**
   * find_seed: scan for the seed, mark it resolved, count it, empty the
   * queue and enqueue the seed's admissible neighbours.
   */
  method FindSeed(mag: seq<real>, visited: array<int>, trusted: array<int>, stack: array<int>,
                  nunwrapped: int, nx: int, ny: int) returns (seed: int, nstack: int, counted: int)
    requires 0 < nx && 0 < ny && |mag| == nx * ny
    requires visited.Length == nx * ny && trusted.Length == nx * ny && stack.Length == nx * ny
    requires stack != visited && stack != trusted && visited != trusted
    modifies visited, stack
    ensures seed == Seed(mag, old(visited[..]), trusted[..]) && 0 <= seed < nx * ny
    ensures counted == nunwrapped + 1
    ensures nstack == |Fresh(seed, old(visited[..])[seed := 2], trusted[..], nx, ny, 8)| < nx * ny
    ensures stack[..nstack] == Fresh(seed, old(visited[..])[seed := 2], trusted[..], nx, ny, 8)
    ensures visited[..] == Mark(old(visited[..])[seed := 2], Fresh(seed, old(visited[..])[seed := 2], trusted[..], nx, ny, 8))
  {
    ghost var elig := Eligible(visited[..], trusted[..]);
    var maxMag := 0.0;
    var maxI := 0;
    for i := 0 to nx * ny
      invariant (maxMag, maxI) == SeedScan(mag, elig, i)
    {
      if trusted[i] == 1 && visited[i] < 2 {
        if mag[i] > maxMag {
          maxMag, maxI := mag[i], i;
        }
      }
    }
    SeedScanIsFirstMax(mag, elig, nx * ny);
    seed := maxI;
    visited[seed] := 2;
    counted := nunwrapped + 1;
    nstack := 0;
    FreshRoom(seed, visited[..], trusted[..], nx, ny);
    nstack := AddNeighbours(seed, stack, visited, trusted, nstack, nx, ny);
  }

  /** The neighbours of a resolved voxel fit in the queue beside it. */
  lemma FreshRoom(c: int, vs: seq<int>, ts: seq<int>, nx: int, ny: int)
    requires 0 < nx && |vs| == nx * ny && |ts| == nx * ny && 0 <= c < nx * ny && vs[c] == 2
    ensures |Fresh(c, vs, ts, nx, ny, 8)| < nx * ny
  {
    var f := Fresh(c, vs, ts, nx, ny, 8);
    FreshExact(c, vs, ts, nx, ny, 8);
    forall j | 0 <= j < |f|
      ensures 0 <= f[j] < nx * ny && f[j] != c
    {
      assert f[j] in f;
    }
    RangeSize(nx * ny);
    ListBound(f, nx * ny, {c});
  }

  /** One step of seed_ambiguity's search, at voxel (x, y). */
  lemma NearestStep(s: int, vs: seq<int>, nx: int, ny: int, x: int, y: int)
    requires InBounds(x, y, nx, ny) && |vs| == nx * ny
    ensures 0 <= x + nx * y < nx * ny
    ensures var loc := x + nx * y;
      var prev := NearestScan(Distances(s, nx * ny, nx), OffAxisResolved(s, vs, nx), loc);
      var dr := (s % nx - x) * (s % nx - x) + (s / nx - y) * (s / nx - y);
      NearestScan(Distances(s, nx * ny, nx), OffAxisResolved(s, vs, nx), loc + 1) ==
        if vs[loc] == 2 && x != s % nx && y != s / nx && (prev.0.None? || dr < prev.0.value) then (Some(dr), loc)
        else prev
  {
    LocBounds(x, y, nx, ny);
  }

  /** The search loop of seed_ambiguity, over y and then x with a running index. */
  method NearestResolved(seed: int, visited: array<int>, nx: int, ny: int) returns (closest: int)
    requires 0 < nx && 0 < ny && visited.Length == nx * ny && 0 <= seed < nx * ny
    ensures closest == Nearest(seed, visited[..], nx)
  {
    ghost var dist := Distances(seed, nx * ny, nx);
    ghost var elig := OffAxisResolved(seed, visited[..], nx);
    var sx, sy := seed % nx, seed / nx;
    var minDr: Option<int> := None;
    closest := 0;
    var loc := 0;
    var y := 0;
    while y < ny
      invariant 0 <= y <= ny && loc == nx * y && loc <= nx * ny
      invariant (minDr, closest) == NearestScan(dist, elig, loc)
    {
      RowBound(nx - 1, y, nx, ny);
      var x := 0;
      while x < nx
        invariant 0 <= x <= nx && loc == x + nx * y && nx * y + nx <= nx * ny
        invariant (minDr, closest) == NearestScan(dist, elig, loc)
      {
        NearestStep(seed, visited[..], nx, ny, x, y);
        if visited[loc] == 2 && x != sx && y != sy {
          var dr := (sx - x) * (sx - x) + (sy - y) * (sy - y);
          if minDr.None? || dr < minDr.value {
            minDr := Some(dr);
            closest := loc;
          }
        }
        x := x + 1;
        loc := loc + 1;
      }
      assert nx * (y + 1) == nx * y + nx;
      y := y + 1;
    }
  }

  /**
   * seed_ambiguity: find the nearest off-axis resolved voxel in row-major
   * order and return the wrap count of its phase relative to the seed's.
   */
  method SeedAmbiguity(seed: int, psiUw: array<real>, visited: array<int>, nx: int, ny: int) returns (m: int)
    requires 0 < nx && 0 < ny && psiUw.Length == nx * ny && visited.Length == nx * ny && 0 <= seed < nx * ny
    ensures m == Ambiguity(psiUw[Nearest(seed, visited[..], nx)] - psiUw[seed])
  {
    var closest := NearestResolved(seed, visited, nx, ny);
    var dp := psiUw[closest] - psiUw[seed];
    m := Ambiguity(dp);
  }

  // ------------------------------------------------------- growth invariant

  /**
   * The growth queue: repetition-free, every entry a queued, trusted voxel
   * of the image with at least one resolved compass neighbour (so its
   * prediction is defined).
   */
  ghost predicate QueueOk(q: seq<int>, vs: seq<int>, ts: seq<int>, nx: int, ny: int)
    requires 0 < nx && |vs| == nx * ny && |ts| == nx * ny
  {
    Distinct(q) &&
    forall j :: 0 <= j < |q| ==>
      0 <= q[j] < nx * ny && vs[q[j]] == 1 && ts[q[j]] == 1 && HasResolvedNeighbour(q[j], vs, nx, ny)
  }

  /** Trusted voxels already resolved. */
  ghost function ResolvedTrusted(vs: seq<int>, ts: seq<int>): set<int>
    requires |vs| == |ts|
  {
    set i | 0 <= i < |vs| && vs[i] == 2 && ts[i] == 1
  }

  ghost function TrustedSet(ts: seq<int>): set<int> {
    set i | 0 <= i < |ts| && ts[i] == 1
  }

  ghost function Unresolved(vs: seq<int>): set<int> {
    set i | 0 <= i < |vs| && vs[i] != 2
  }

  /** Every trusted voxel of positive magnitude, the ones find_seed can pick, is resolved. */
  ghost predicate PositiveResolved(mag: seq<real>, vs: seq<int>, ts: seq<int>)
    requires |mag| == |ts| && |vs| == |ts|
  {
    forall i :: 0 <= i < |ts| && ts[i] == 1 && 0.0 < mag[i] ==> vs[i] == 2
  }

  /**
   * What holds between steps of the main loop, over the wrapped input psiW,
   * the unwrapped image us, the visit map vs, the trust map ts, the ghost
   * wrap counts wr and the queue q.
   */
  ghost predicate Inv(psiW: seq<real>, mag: seq<real>, us: seq<real>, vs: seq<int>, ts: seq<int>,
                      wr: seq<int>, q: seq<int>, nunwrapped: int, nx: int, ny: int)
  {
    0 < nx && 0 < ny &&
    |psiW| == nx * ny && |mag| == nx * ny && |us| == nx * ny && |vs| == nx * ny && |ts| == nx * ny && |wr| == nx * ny &&
    |q| < nx * ny && QueueOk(q, vs, ts, nx, ny) &&
    (forall i :: 0 <= i < |vs| ==> 0 <= vs[i] <= 2) &&
    (forall i :: 0 <= i < |us| ==> us[i] == psiW[i] + Turns(wr[i])) &&
    (forall i :: 0 <= i < |vs| && vs[i] != 2 ==> wr[i] == 0) &&
    (forall i :: 0 < i < |vs| && ts[i] != 1 ==> vs[i] != 2) &&
    (nunwrapped + 1 == |ResolvedTrusted(vs, ts)| || PositiveResolved(mag, vs, ts))
  }

  /** Marking unvisited voxels as queued leaves the resolved voxels as they were. */
  lemma MarkKeepsResolved(vs: seq<int>, f: seq<int>)
    requires forall e :: e in f ==> 0 <= e < |vs| && vs[e] == 0
    ensures |Mark(vs, f)| == |vs|
    ensures forall i :: 0 <= i < |vs| ==> (Mark(vs, f)[i] == 2 <==> vs[i] == 2)
    ensures forall i :: 0 <= i < |vs| && 0 <= vs[i] <= 2 ==> 0 <= Mark(vs, f)[i] <= 2
  {
  }

  lemma FreshUnvisited(c: int, vs: seq<int>, ts: seq<int>, nx: int, ny: int)
    requires 0 < nx && |vs| == nx * ny && |ts| == nx * ny
    ensures forall e :: e in Fresh(c, vs, ts, nx, ny, 8) ==> 0 <= e < nx * ny && vs[e] == 0 && ts[e] == 1
  {
    FreshExact(c, vs, ts, nx, ny, 8);
    forall e | e in Fresh(c, vs, ts, nx, ny, 8)
      ensures 0 <= e < nx * ny && vs[e] == 0 && ts[e] == 1
    {
      var d :| 0 <= d < 8 && Admits(c, d, vs, ts, nx, ny) && DirLoc(c, d, nx, ny) == e;
    }
  }

  /** Removing the front of the queue and resolving it keeps the rest a valid queue. */
  lemma DequeueKeepsQueue(q: seq<int>, vs: seq<int>, ts: seq<int>, nx: int, ny: int)
    requires 0 < nx && |vs| == nx * ny && |ts| == nx * ny && QueueOk(q, vs, ts, nx, ny) && 0 < |q|
    ensures QueueOk(q[1..], vs[q[0] := 2], ts, nx, ny)
  {
    var v1 := vs[q[0] := 2];
    forall j | 0 <= j < |q| - 1
      ensures v1[q[1..][j]] == 1 && HasResolvedNeighbour(q[1..][j], v1, nx, ny)
    {
      assert q[1..][j] == q[j + 1] != q[0];
      var d :| 0 <= d < |Compass| && ResolvedDir(q[j + 1], d, vs, nx, ny);
      assert ResolvedDir(q[j + 1], d, v1, nx, ny);
    }
  }

  /**
   * Enqueueing the admissible neighbours of a resolved voxel c keeps the
   * queue valid, and the queue then leaves room for c itself.
   */
  lemma GrowKeepsQueue(rest: seq<int>, v1: seq<int>, ts: seq<int>, c: int, nx: int, ny: int)
    requires 0 < nx && |v1| == nx * ny && |ts| == nx * ny && 0 <= c < nx * ny && v1[c] == 2
    requires QueueOk(rest, v1, ts, nx, ny)
    ensures QueueOk(rest + Fresh(c, v1, ts, nx, ny, 8), Mark(v1, Fresh(c, v1, ts, nx, ny, 8)), ts, nx, ny)
    ensures |rest| + |Fresh(c, v1, ts, nx, ny, 8)| < nx * ny
  {
    var f := Fresh(c, v1, ts, nx, ny, 8);
    var v2 := Mark(v1, f);
    var q := rest + f;
    FreshExact(c, v1, ts, nx, ny, 8);
    FreshUnvisited(c, v1, ts, nx, ny);
    MarkKeepsResolved(v1, f);
    forall e | e in f
      ensures HasResolvedNeighbour(e, v2, nx, ny)
    {
      var d :| 0 <= d < 8 && Admits(c, d, v1, ts, nx, ny) && DirLoc(c, d, nx, ny) == e;
      DirSymmetric(c, d, nx, ny);
      assert ResolvedDir(e, (d + 4) % 8, v2, nx, ny);
    }
    forall j | 0 <= j < |rest|
      ensures HasResolvedNeighbour(rest[j], v2, nx, ny) && v2[rest[j]] == 1
    {
      var d :| 0 <= d < |Compass| && ResolvedDir(rest[j], d, v1, nx, ny);
      assert ResolvedDir(rest[j], d, v2, nx, ny);
    }
    forall j | 0 <= j < |q|
      ensures 0 <= q[j] < nx * ny && v2[q[j]] == 1 && ts[q[j]] == 1 && HasResolvedNeighbour(q[j], v2, nx, ny)
      ensures q[j] != c
    {
      if j >= |rest| {
        assert q[j] == f[j - |rest|] && q[j] in f;
      }
    }
    assert Distinct(q) by {
      forall j, k | 0 <= j < k < |q|
        ensures q[j] != q[k]
      {
        if j < |rest| && |rest| <= k {
          assert q[k] in f;
        } else if |rest| <= j {
          assert q[j] == f[j - |rest|] && q[k] == f[k - |rest|];
        }
      }
    }
    RangeSize(nx * ny);
    ListBound(q, nx * ny, {c});
  }

  /**
   * One pass of the inner loop: the front voxel is resolved with any wrap
   * count m and counted, and its admissible neighbours are enqueued. The
   * invariant is kept and one more voxel is resolved.
   */
  lemma ResolveStep(psiW: seq<real>, mag: seq<real>, us: seq<real>, vs: seq<int>, ts: seq<int>,
                    wr: seq<int>, q: seq<int>, nunwrapped: int, nx: int, ny: int, m: int)
    requires Inv(psiW, mag, us, vs, ts, wr, q, nunwrapped, nx, ny) && 0 < |q|
    ensures Inv(psiW, mag, us[q[0] := psiW[q[0]] + Turns(m)],
                Mark(vs[q[0] := 2], Fresh(q[0], vs[q[0] := 2], ts, nx, ny, 8)), ts, wr[q[0] := m],
                q[1..] + Fresh(q[0], vs[q[0] := 2], ts, nx, ny, 8), nunwrapped + 1, nx, ny)
    ensures Unresolved(Mark(vs[q[0] := 2], Fresh(q[0], vs[q[0] := 2], ts, nx, ny, 8))) < Unresolved(vs)
  {
    var c := q[0];
    var v1 := vs[c := 2];
    var f := Fresh(c, v1, ts, nx, ny, 8);
    var v2 := Mark(v1, f);
    DequeueKeepsQueue(q, vs, ts, nx, ny);
    GrowKeepsQueue(q[1..], v1, ts, c, nx, ny);
    FreshUnvisited(c, v1, ts, nx, ny);
    MarkKeepsResolved(v1, f);
    assert ResolvedTrusted(v2, ts) == ResolvedTrusted(vs, ts) + {c};
    assert Unresolved(v2) <= Unresolved(vs) - {c};
  }

  /**
   * One call of find_seed inside the main loop, with the queue empty, and
   * the seed then given any wrap count m: the invariant is kept.
   */
  lemma SeedStep(psiW: seq<real>, mag: seq<real>, us: seq<real>, vs: seq<int>, ts: seq<int>,
                 wr: seq<int>, nunwrapped: int, nx: int, ny: int, m: int)
    requires Inv(psiW, mag, us, vs, ts, wr, [], nunwrapped, nx, ny)
    ensures Inv(psiW, mag, us[Seed(mag, vs, ts) := psiW[Seed(mag, vs, ts)] + Turns(m)],
                Mark(vs[Seed(mag, vs, ts) := 2], Fresh(Seed(mag, vs, ts), vs[Seed(mag, vs, ts) := 2], ts, nx, ny, 8)),
                ts, wr[Seed(mag, vs, ts) := m],
                Fresh(Seed(mag, vs, ts), vs[Seed(mag, vs, ts) := 2], ts, nx, ny, 8), nunwrapped + 1, nx, ny)
  {
    var s := Seed(mag, vs, ts);
    var v1 := vs[s := 2];
    var f := Fresh(s, v1, ts, nx, ny, 8);
    var v2 := Mark(v1, f);
    GrowKeepsQueue([], v1, ts, s, nx, ny);
    FreshUnvisited(s, v1, ts, nx, ny);
    MarkKeepsResolved(v1, f);
    SeedCount(mag, vs, ts, v2, nunwrapped);
    assert [] + f == f;
  }

  /** SeedStep with the new state given by name. */
  lemma SeedStepAt(psiW: seq<real>, mag: seq<real>, us: seq<real>, vs: seq<int>, ts: seq<int>,
                   wr: seq<int>, nunwrapped: int, nx: int, ny: int, m: int, us': seq<real>, vs': seq<int>, q': seq<int>)
    requires Inv(psiW, mag, us, vs, ts, wr, [], nunwrapped, nx, ny)
    requires us' == us[Seed(mag, vs, ts) := psiW[Seed(mag, vs, ts)] + Turns(m)]
    requires q' == Fresh(Seed(mag, vs, ts), vs[Seed(mag, vs, ts) := 2], ts, nx, ny, 8)
    requires vs' == Mark(vs[Seed(mag, vs, ts) := 2], q')
    ensures Inv(psiW, mag, us', vs', ts, wr[Seed(mag, vs, ts) := m], q', nunwrapped + 1, nx, ny)
  {
    SeedStep(psiW, mag, us, vs, ts, wr, nunwrapped, nx, ny, m);
  }

  /**
   * The seed is a trusted candidate or the fallback 0, and resolving it
   * keeps the count of resolved trusted voxels in step with nunwrapped.
   */
  lemma SeedCount(mag: seq<real>, vs: seq<int>, ts: seq<int>, v2: seq<int>, nunwrapped: int)
    requires 0 < |vs| && |mag| == |vs| && |ts| == |vs| && |v2| == |vs|
    requires forall i :: 0 <= i < |vs| ==> 0 <= vs[i] <= 2
    requires forall i :: 0 <= i < |vs| ==> (v2[i] == 2 <==> vs[i] == 2 || i == Seed(mag, vs, ts))
    requires nunwrapped + 1 == |ResolvedTrusted(vs, ts)| || PositiveResolved(mag, vs, ts)
    ensures Seed(mag, vs, ts) == 0 || ts[Seed(mag, vs, ts)] == 1
    ensures nunwrapped + 2 == |ResolvedTrusted(v2, ts)| || PositiveResolved(mag, v2, ts)
  {
    var s := Seed(mag, vs, ts);
    var elig := Eligible(vs, ts);
    SeedScanIsFirstMax(mag, elig, |vs|);
    if exists j :: 0 <= j < |vs| && elig[j] && 0.0 < mag[j] {
      assert ts[s] == 1 && vs[s] < 2;
      assert ResolvedTrusted(v2, ts) == ResolvedTrusted(vs, ts) + {s};
    } else {
      assert PositiveResolved(mag, vs, ts) by {
        forall i | 0 <= i < |ts| && ts[i] == 1 && 0.0 < mag[i]
          ensures vs[i] == 2
        {
          assert !elig[i];
        }
      }
    }
  }

  /** Before the first seed: nothing visited, nothing unwrapped, an empty queue. */
  lemma InitialInv(psiW: seq<real>, mag: seq<real>, ts: seq<int>, nx: int, ny: int)
    requires 0 < nx && 0 < ny && |psiW| == nx * ny && |mag| == nx * ny && |ts| == nx * ny
    ensures Inv(psiW, mag, psiW, seq(nx * ny, i => 0), ts, seq(nx * ny, i => 0), [], -1, nx, ny)
  {
    assert ResolvedTrusted(seq(nx * ny, i => 0), ts) == {};
  }

  /**
   * When nunwrapped has caught up with the number of trusted voxels, the
   * count cannot be in step (it would exceed the trusted voxels), so every
   * trusted voxel of positive magnitude is resolved.
   */
  lemma Completion(mag: seq<real>, vs: seq<int>, ts: seq<int>, nunwrapped: int, nmask: int)
    requires |mag| == |ts| && |vs| == |ts| && nmask == |TrustedSet(ts)| && nmask <= nunwrapped
    requires nunwrapped + 1 == |ResolvedTrusted(vs, ts)| || PositiveResolved(mag, vs, ts)
    ensures PositiveResolved(mag, vs, ts)
  {
    if !PositiveResolved(mag, vs, ts) {
      SubsetSize(ResolvedTrusted(vs, ts), TrustedSet(ts));
    }
  }

  // -------------------------------------------------------------- entry point

  /**
   * The body of the inner loop of mexFunction: take the front voxel off
   * the queue, predict its phase from its resolved neighbours, unwrap it to
   * the candidate nearest the prediction, mark it resolved, count it and
   * enqueue its neighbours.
   */
  method ResolveFront(psiW: seq<real>, mag: seq<real>, psiUw: array<real>, visited: array<int>, trusted: array<int>,
                      stack: array<int>, nstack: int, nunwrapped: int, nx: int, ny: int, ghost wr: seq<int>)
    returns (c: int, nstack': int, ghost wr': seq<int>)
    requires stack != visited && stack != trusted && visited != trusted
    requires stack.Length == nx * ny && psiUw.Length == nx * ny && visited.Length == nx * ny && trusted.Length == nx * ny
    requires 0 < nstack <= stack.Length
    requires Inv(psiW, mag, psiUw[..], visited[..], trusted[..], wr, stack[..nstack], nunwrapped, nx, ny)
    modifies psiUw, visited, stack
    ensures c == old(stack[0]) && 0 <= c < nx * ny && 0 <= nstack' <= stack.Length
    ensures Inv(psiW, mag, psiUw[..], visited[..], trusted[..], wr', stack[..nstack'], nunwrapped + 1, nx, ny)
    ensures Unresolved(visited[..]) < old(Unresolved(visited[..]))
    ensures Predicted(c, old(psiUw[..]), old(visited[..]), nx, ny).Some?
    ensures wr'[c] == Ambiguity(Predicted(c, old(psiUw[..]), old(visited[..]), nx, ny).value - psiW[c])
    ensures psiUw[..] == old(psiUw[..])[c := psiW[c] + Turns(wr'[c])]
  {
    ghost var us, vs, ts, q := psiUw[..], visited[..], trusted[..], stack[..nstack];
    var n, m;
    c, n, m := TakeFront(psiW, psiUw, visited, stack, nstack, nx, ny);
    ResolveStep(psiW, mag, us, vs, ts, wr, q, nunwrapped, nx, ny, m);
    wr' := wr[c := m];
    nstack' := Commit(c, m, psiW, psiUw, visited, trusted, stack, n, nx, ny);
    assert trusted[..] == ts;
  }

  /**
   * The head of the inner loop's body: take the front voxel off the queue,
   * predict its phase, and compute the wrap count that brings its wrapped
   * phase nearest the prediction.
   */
  method TakeFront(psiW: seq<real>, psiUw: array<real>, visited: array<int>, stack: array<int>,
                   nstack: int, nx: int, ny: int) returns (c: int, n: int, m: int)
    requires 0 < nx && |psiW| == nx * ny && psiUw.Length == nx * ny && visited.Length == nx * ny
    requires stack != visited && 0 < nstack <= stack.Length
    requires 0 <= stack[0] < nx * ny && HasResolvedNeighbour(stack[0], visited[..], nx, ny)
    modifies stack
    ensures c == old(stack[0]) && n == nstack - 1 && stack[..n] == old(stack[1..nstack])
    ensures psiUw[..] == old(psiUw[..]) && visited[..] == old(visited[..])
    ensures Predicted(c, old(psiUw[..]), old(visited[..]), nx, ny).Some?
    ensures m == Ambiguity(Predicted(c, old(psiUw[..]), old(visited[..]), nx, ny).value - psiW[c])
  {
    c := stack[0];
    // predict_phase does not read the queue, so it may run before the downstack
    m := WrapCount(c, psiW, psiUw, visited, nx, ny);
    n := Downstack(stack, nstack);
  }

  /**
   * The wrap count of a queued voxel: predict its phase from its resolved
   * neighbours and round the distance to the wrapped phase to whole turns.
   */
  method WrapCount(c: int, psiW: seq<real>, psiUw: array<real>, visited: array<int>, nx: int, ny: int) returns (m: int)
    requires 0 < nx && |psiW| == nx * ny && psiUw.Length == nx * ny && visited.Length == nx * ny
    requires 0 <= c < nx * ny && HasResolvedNeighbour(c, visited[..], nx, ny)
    ensures Predicted(c, psiUw[..], visited[..], nx, ny).Some?
    ensures m == Ambiguity(Predicted(c, psiUw[..], visited[..], nx, ny).value - psiW[c])
  {
    PredictionDefined(c, psiUw[..], visited[..], nx, ny);
    var predicted := PredictPhase(c, psiUw, visited, nx, ny);
    m := Ambiguity(predicted.value - psiW[c]);
  }

  /**
   * The tail of the inner loop's body: store the unwrapped phase of c, mark
   * c resolved and offer its neighbours to the queue.
   */
  method Commit(c: int, m: int, psiW: seq<real>, psiUw: array<real>, visited: array<int>, trusted: array<int>,
                stack: array<int>, n: int, nx: int, ny: int) returns (n': int)
    requires 0 < nx && 0 <= c < nx * ny && |psiW| == nx * ny
    requires stack != visited && stack != trusted && visited != trusted
    requires psiUw.Length == nx * ny && visited.Length == nx * ny && trusted.Length == nx * ny
    requires 0 <= n && n + |Fresh(c, visited[..][c := 2], trusted[..], nx, ny, 8)| <= stack.Length
    modifies psiUw, visited, stack
    ensures psiUw[..] == old(psiUw[..])[c := psiW[c] + Turns(m)]
    ensures n' == n + |Fresh(c, old(visited[..])[c := 2], trusted[..], nx, ny, 8)|
    ensures stack[..n'] == old(stack[..n]) + Fresh(c, old(visited[..])[c := 2], trusted[..], nx, ny, 8)
    ensures visited[..] == Mark(old(visited[..])[c := 2], Fresh(c, old(visited[..])[c := 2], trusted[..], nx, ny, 8))
  {
    psiUw[c] := psiW[c] + Turns(m);
    visited[c] := 2;
    n' := AddNeighbours(c, stack, visited, trusted, n, nx, ny);
  }

  /**
   * The closing part of each pass of the outer loop: find_seed, then
   * seed_ambiguity, then the seed's phase set to its wrapped phase plus
   * that many turns.
   */
  method Reseed(psiW: seq<real>, mag: seq<real>, psiUw: array<real>, visited: array<int>, trusted: array<int>,
                stack: array<int>, nunwrapped: int, nx: int, ny: int, ghost wr: seq<int>)
    returns (seed: int, nstack: int, counted: int, ghost wr': seq<int>)
    requires stack != visited && stack != trusted && visited != trusted
    requires stack.Length == nx * ny && psiUw.Length == nx * ny && visited.Length == nx * ny && trusted.Length == nx * ny
    requires Inv(psiW, mag, psiUw[..], visited[..], trusted[..], wr, [], nunwrapped, nx, ny)
    modifies psiUw, visited, stack
    ensures seed == Seed(mag, old(visited[..]), trusted[..]) && 0 <= seed < nx * ny && |wr'| == nx * ny
    ensures counted == nunwrapped + 1 && 0 <= nstack < stack.Length
    ensures psiUw[..] == old(psiUw[..])[seed := psiW[seed] + Turns(wr'[seed])]
    ensures wr'[seed] == Ambiguity(old(psiUw[..])[Nearest(seed, visited[..], nx)] - old(psiUw[..])[seed])
    ensures Inv(psiW, mag, psiUw[..], visited[..], trusted[..], wr', stack[..nstack], counted, nx, ny)
  {
    ghost var vs, us, ts := visited[..], psiUw[..], trusted[..];
    seed, nstack, counted := FindSeed(mag, visited, trusted, stack, nunwrapped, nx, ny);
    assert psiUw[..] == us;
    var m := SeedPhase(seed, psiW, psiUw, visited, nx, ny);
    wr' := wr[seed := m];
    SeedStepAt(psiW, mag, us, vs, ts, wr, nunwrapped, nx, ny, m, psiUw[..], visited[..], stack[..nstack]);
  }

  /**
   * The end of each pass of the outer loop, after find_seed: seed_ambiguity
   * estimates the seed's wrap count from the resolved voxels, and the seed's
   * phase is corrected by that many turns.
   */
  method SeedPhase(seed: int, psiW: seq<real>, psiUw: array<real>, visited: array<int>, nx: int, ny: int) returns (m: int)
    requires 0 < nx && 0 < ny && |psiW| == nx * ny && psiUw.Length == nx * ny && visited.Length == nx * ny
    requires 0 <= seed < nx * ny
    modifies psiUw
    ensures m == Ambiguity(old(psiUw[..])[Nearest(seed, visited[..], nx)] - old(psiUw[..])[seed])
    ensures psiUw[..] == old(psiUw[..])[seed := psiW[seed] + Turns(m)]
  {
    m := SeedAmbiguity(seed, psiUw, visited, nx, ny);
    psiUw[seed] := psiW[seed] + Turns(m);
  }

  /**
   * The initialisation loop of mexFunction: the output starts as the
   * wrapped input, a voxel is trusted (and masked) when its magnitude
   * reaches the threshold, nothing is visited, and nmask counts the trusted
   * voxels. The queue gets its own array of one slot per voxel.
   */
  method Initialise(psiW: seq<real>, mag: seq<real>, magth: real, nx: int, ny: int)
    returns (psiUwA: array<real>, maskA: array<real>, trusted: array<int>, visited: array<int>, stack: array<int>, nmask: int)
    requires 0 < nx && 0 < ny && |psiW| == nx * ny && |mag| == nx * ny
    ensures fresh(psiUwA) && fresh(maskA) && fresh(trusted) && fresh(visited) && fresh(stack)
    ensures psiUwA.Length == nx * ny && maskA.Length == nx * ny && trusted.Length == nx * ny
    ensures visited.Length == nx * ny && stack.Length == nx * ny
    ensures stack != visited && stack != trusted && visited != trusted && psiUwA != maskA
    ensures psiUwA[..] == psiW && visited[..] == seq(nx * ny, i => 0)
    ensures forall j :: 0 <= j < nx * ny ==> trusted[j] == (if magth <= mag[j] then 1 else 0)
    ensures forall j :: 0 <= j < nx * ny ==> maskA[j] == (if magth <= mag[j] then 1.0 else 0.0)
    ensures nmask == |TrustedSet(trusted[..])|
  {
    var n := nx * ny;
    psiUwA := new real[n];
    maskA := new real[n];
    trusted := new int[n];
    visited := new int[n];
    stack := new int[n];
    nmask := 0;
    for i := 0 to n
      invariant forall j :: 0 <= j < i ==> psiUwA[j] == psiW[j]
      invariant forall j :: 0 <= j < i ==> trusted[j] == (if magth <= mag[j] then 1 else 0)
      invariant forall j :: 0 <= j < i ==> visited[j] == 0
      invariant forall j :: 0 <= j < i ==> maskA[j] == (if magth <= mag[j] then 1.0 else 0.0)
      invariant nmask == |AboveThreshold(mag, magth, i)|
      modifies psiUwA, maskA, trusted, visited
    {
      psiUwA[i] := psiW[i];
      trusted[i] := if mag[i] >= magth then 1 else 0;
      visited[i] := 0;
      maskA[i] := trusted[i] as real;
      AboveThresholdStep(mag, magth, i);
      if maskA[i] == 1.0 {
        nmask := nmask + 1;
      }
    }
    TrustedAboveThreshold(trusted[..], mag, magth);
    assert psiUwA[..] == psiW;
    assert visited[..] == seq(n, i => 0);
  }

  /** The indices below k whose magnitude reaches the threshold. */
  ghost function AboveThreshold(mag: seq<real>, magth: real, k: nat): set<int>
    requires k <= |mag|
  {
    set j | 0 <= j < k && magth <= mag[j]
  }

  lemma AboveThresholdStep(mag: seq<real>, magth: real, k: nat)
    requires k < |mag|
    ensures |AboveThreshold(mag, magth, k + 1)| == |AboveThreshold(mag, magth, k)| + if magth <= mag[k] then 1 else 0
  {
    var e: set<int> := if magth <= mag[k] then {k} else {};
    assert AboveThreshold(mag, magth, k + 1) == AboveThreshold(mag, magth, k) + e;
  }

  lemma TrustedAboveThreshold(ts: seq<int>, mag: seq<real>, magth: real)
    requires |ts| == |mag|
    requires forall j :: 0 <= j < |ts| ==> ts[j] == (if magth <= mag[j] then 1 else 0)
    ensures TrustedSet(ts) == AboveThreshold(mag, magth, |mag|)
  {
  }

  /** What the final state of the main loop says about the output. */
  lemma Outcome(psiW: seq<real>, mag: seq<real>, magth: real, us: seq<real>, vs: seq<int>, ts: seq<int>,
                wr: seq<int>, q: seq<int>, nunwrapped: int, nmask: int, nx: int, ny: int)
    requires Inv(psiW, mag, us, vs, ts, wr, q, nunwrapped, nx, ny)
    requires forall j :: 0 <= j < nx * ny ==> ts[j] == (if magth <= mag[j] then 1 else 0)
    requires nmask == |TrustedSet(ts)| && nmask <= nunwrapped
    requires nmask == 0 ==> wr == seq(nx * ny, i => 0)
    ensures forall i :: 0 <= i < nx * ny && vs[i] != 2 ==> us[i] == psiW[i]
    ensures forall i :: 0 < i < nx * ny && vs[i] == 2 ==> magth <= mag[i]
    ensures forall i :: 0 <= i < nx * ny && magth <= mag[i] && 0.0 < mag[i] ==> vs[i] == 2
    ensures (forall i :: 0 <= i < nx * ny ==> mag[i] < magth) ==> us == psiW
  {
    if forall i :: 0 <= i < nx * ny ==> mag[i] < magth {
      assert TrustedSet(ts) == {};
      assert forall i :: 0 <= i < nx * ny ==> us[i] == psiW[i];
    }
    Completion(mag, vs, ts, nunwrapped, nmask);
  }

  /**
   * The first find_seed of mexFunction, before the main loop: the seed keeps
   * its wrapped phase and nunwrapped is then reset to 0, so the count lags
   * one behind the resolved trusted voxels.
   */
  method FirstSeed(psiW: seq<real>, mag: seq<real>, psiUwA: array<real>, visited: array<int>, trusted: array<int>,
                   stack: array<int>, nx: int, ny: int)
    returns (nstack: int, ghost wr: seq<int>)
    requires 0 < nx && 0 < ny && |psiW| == nx * ny && |mag| == nx * ny
    requires stack != visited && stack != trusted && visited != trusted
    requires stack.Length == nx * ny && psiUwA.Length == nx * ny && visited.Length == nx * ny && trusted.Length == nx * ny
    requires psiUwA[..] == psiW && visited[..] == seq(nx * ny, i => 0)
    modifies visited, stack
    ensures 0 <= nstack <= stack.Length && wr == seq(nx * ny, i => 0)
    ensures Inv(psiW, mag, psiUwA[..], visited[..], trusted[..], wr, stack[..nstack], 0, nx, ny)
  {
    wr := seq(nx * ny, i => 0);
    InitialInv(psiW, mag, trusted[..], nx, ny);
    SeedStep(psiW, mag, psiUwA[..], visited[..], trusted[..], wr, -1, nx, ny, 0);
    ghost var s0 := Seed(mag, visited[..], trusted[..]);
    assert psiUwA[..][s0 := psiW[s0] + Turns(0)] == psiUwA[..];
    assert wr[s0 := 0] == wr;
    var seed, counted;
    seed, nstack, counted := FindSeed(mag, visited, trusted, stack, 0, nx, ny);
  }

  /**
   * The main region-growing loop of mexFunction, from nunwrapped = 0 until
   * nunwrapped reaches nmask: drain the queue, then reseed.
   */
  method Grow(psiW: seq<real>, mag: seq<real>, psiUwA: array<real>, visited: array<int>, trusted: array<int>,
              stack: array<int>, nstack0: int, nmask: int, nx: int, ny: int, ghost wr0: seq<int>)
    returns (nstack: int, nunwrapped: int, ghost wr: seq<int>)
    requires stack != visited && stack != trusted && visited != trusted
    requires stack.Length == nx * ny && psiUwA.Length == nx * ny && visited.Length == nx * ny && trusted.Length == nx * ny
    requires 0 <= nstack0 <= stack.Length && nmask == |TrustedSet(trusted[..])|
    requires Inv(psiW, mag, psiUwA[..], visited[..], trusted[..], wr0, stack[..nstack0], 0, nx, ny)
    modifies psiUwA, visited, stack
    ensures 0 <= nstack <= stack.Length && nmask <= nunwrapped
    ensures Inv(psiW, mag, psiUwA[..], visited[..], trusted[..], wr, stack[..nstack], nunwrapped, nx, ny)
    ensures nmask == 0 ==> wr == wr0
  {
    ghost var ts := trusted[..];
    var n := nx * ny;
    nstack, wr := nstack0, wr0;
    var seed;
    nunwrapped := 0;
    while nunwrapped < nmask
      invariant 0 <= nunwrapped && 0 <= nstack <= stack.Length
      invariant Inv(psiW, mag, psiUwA[..], visited[..], ts, wr, stack[..nstack], nunwrapped, nx, ny)
      invariant nmask == 0 ==> wr == wr0
      modifies psiUwA, visited, stack
      decreases nmask - nunwrapped
    {
      ghost var start := nunwrapped;
      while 0 < nstack < n
        invariant 0 <= nstack <= stack.Length && start <= nunwrapped
        invariant Inv(psiW, mag, psiUwA[..], visited[..], ts, wr, stack[..nstack], nunwrapped, nx, ny)
        modifies psiUwA, visited, stack
        decreases Unresolved(visited[..])
      {
        var c;
        c, nstack, wr := ResolveFront(psiW, mag, psiUwA, visited, trusted, stack, nstack, nunwrapped, nx, ny, wr);
        nunwrapped := nunwrapped + 1;
      }
      assert stack[..nstack] == [];
      seed, nstack, nunwrapped, wr := Reseed(psiW, mag, psiUwA, visited, trusted, stack, nunwrapped, nx, ny, wr);
    }
  }

  /**
   * mexFunction: [psi_uw, mask] = MEX_Unwrap2D(psi_w, mag, magth) on an
   * nx-by-ny image. Every output phase differs from the input by a whole
   * number of turns; the mask marks the voxels whose magnitude reaches the
   * threshold; untrusted voxels keep their wrapped phase, except voxel 0,
   * which the fallback seed may rewrite; the queue never overflows; and
   * every trusted voxel of positive magnitude is resolved.
   */
  method Unwrap(psiW: seq<real>, mag: seq<real>, magth: real, nx: int, ny: int)
    returns (psiUw: seq<real>, mask: seq<real>, overflow: bool, ghost wraps: seq<int>, ghost resolved: set<int>)
    requires 0 < nx && 0 < ny && |psiW| == nx * ny && |mag| == nx * ny
    ensures |psiUw| == nx * ny && |mask| == nx * ny && |wraps| == nx * ny
    ensures forall i :: 0 <= i < nx * ny ==> mask[i] == if magth <= mag[i] then 1.0 else 0.0
    ensures forall i :: 0 <= i < nx * ny ==> psiUw[i] == psiW[i] + Turns(wraps[i])
    ensures forall i :: 0 <= i < nx * ny && i !in resolved ==> psiUw[i] == psiW[i]
    ensures forall i :: i in resolved ==> 0 <= i < nx * ny && (i == 0 || magth <= mag[i])
    ensures forall i :: 0 <= i < nx * ny && magth <= mag[i] && 0.0 < mag[i] ==> i in resolved
    ensures (forall i :: 0 <= i < nx * ny ==> mag[i] < magth) ==> psiUw == psiW
    ensures !overflow
  {
    var n := nx * ny;
    var psiUwA, maskA, trusted, visited, stack, nmask := Initialise(psiW, mag, magth, nx, ny);
    ghost var ts := trusted[..];
    ghost var wr;
    var nstack;
    nstack, wr := FirstSeed(psiW, mag, psiUwA, visited, trusted, stack, nx, ny);
    var nunwrapped;
    nstack, nunwrapped, wr := Grow(psiW, mag, psiUwA, visited, trusted, stack, nstack, nmask, nx, ny, wr);
    overflow := nstack >= n;
    psiUw := psiUwA[..];
    mask := maskA[..];
    wraps := wr;
    ghost var vs := visited[..];
    resolved := set i | 0 <= i < n && vs[i] == 2;
    Outcome(psiW, mag, magth, psiUw, vs, ts, wr, stack[..nstack], nunwrapped, nmask, nx, ny);
  }
}
