/**
 * Region-growing phase unwrapping of a 3D volume (MEX_Unwrap3D.c).
 *
 * The volume has nx * ny * nz voxels; the voxel at (x, y, z) has the linear
 * index x + nx * (y + ny * z). A voxel is trusted (trust 1.0, else 0.0) when
 * its magnitude reaches the threshold. Growth starts at the trusted voxel of
 * largest magnitude; every resolved voxel pushes its trusted, unvisited
 * neighbours among the 26 surrounding voxels onto a FIFO queue, and a queued
 * voxel is resolved by adding the multiple of 2pi that brings its wrapped
 * phase nearest to the weighted mean phase of its resolved neighbours. When
 * the queue runs dry a new seed is chosen; unlike the 2D code, every seed
 * keeps its wrapped phase (wrap count 0).
 *
 * Visit states: 0 unvisited, 1 queued, 2 resolved.
 */
module Unwrap3D {
  import opened Wrappers
  import opened Phase
  import opened Grid
  import opened Growth

  // ---------------------------------------------------------------- geometry

  /** add_pixel's bounds test: a voxel that passes it has its LOC3D index inside the volume. */
  predicate InBounds(x: int, y: int, z: int, nx: int, ny: int, nz: int)
    ensures InBounds(x, y, z, nx, ny, nz) ==> 0 <= x + nx * (y + ny * z) < nx * ny * nz
  {
    0 <= x < nx && 0 <= y < ny && 0 <= z < nz &&
    (RowBound(x, y, nx, ny); PlaneSplit(x, y, z, nx, ny); RowBound(x + nx * y, z, nx * ny, nz); true)
  }

  /**
   * toxyz: z from the plane size nx * ny, then y and x from the remainder;
   * x is a column of the row and the three rebuild the index.
   */
  function ToXyz(l: int, nx: int, ny: int): (p: (int, int, int))
    requires 0 < nx && 0 < ny
    ensures 0 <= p.0 < nx
    ensures l == p.0 + p.1 * nx + p.2 * (nx * ny)
    ensures 0 <= l ==> 0 <= p.1 && 0 <= p.2
  {
    MulPositive(nx, ny);
    var z := l / (nx * ny);
    var r := l - z * (nx * ny);
    var y := r / nx;
    Quotient(l, nx * ny);
    Quotient(r, nx);
    (r - y * nx, y, z)
  }

  /** LOC3D: the linear index of an in-bounds voxel (LocBounds: toxyz takes it back to (x, y, z)). */
  function Loc(x: int, y: int, z: int, nx: int, ny: int, nz: int): (l: int)
    requires InBounds(x, y, z, nx, ny, nz)
    ensures 0 <= l < nx * ny * nz
  {
    LocBounds(x, y, z, nx, ny, nz);
    x + nx * (y + ny * z)
  }

  lemma LocBounds(x: int, y: int, z: int, nx: int, ny: int, nz: int)
    requires InBounds(x, y, z, nx, ny, nz)
    ensures 0 <= x + nx * (y + ny * z) < nx * ny * nz
    ensures ToXyz(x + nx * (y + ny * z), nx, ny) == (x, y, z)
  {
    var r := x + nx * y;
    RowBound(x, y, nx, ny);
    PlaneSplit(x, y, z, nx, ny);
    RowBound(r, z, nx * ny, nz);
    DivModUnique(x + nx * (y + ny * z), nx * ny, z, r);
    DivModUnique(r, nx, y, x);
  }

  /** An index splits into its offset within a plane and its plane. */
  lemma PlaneSplit(x: int, y: int, z: int, nx: int, ny: int)
    ensures x + nx * (y + ny * z) == (x + nx * y) + (nx * ny) * z
    ensures x + nx * (y + ny * z) == z * (nx * ny) + (x + nx * y)
  {
    assert nx * (y + ny * z) == nx * y + nx * (ny * z);
    assert nx * (ny * z) == (nx * ny) * z;
  }

  /** Every index of the volume is the Loc of its own toxyz coordinates. */
  lemma CoordsRoundTrip(c: int, nx: int, ny: int, nz: int)
    requires 0 < nx && 0 < ny && 0 <= c < nx * ny * nz
    ensures InBounds(ToXyz(c, nx, ny).0, ToXyz(c, nx, ny).1, ToXyz(c, nx, ny).2, nx, ny, nz)
    ensures Loc(ToXyz(c, nx, ny).0, ToXyz(c, nx, ny).1, ToXyz(c, nx, ny).2, nx, ny, nz) == c
  {
    var x, y, z := CoordsSplit(c, nx, ny, nz);
    PlaneSplit(x, y, z, nx, ny);
  }

  /** toxyz's coordinates are in bounds and rebuild the index plane by plane. */
  lemma CoordsSplit(c: int, nx: int, ny: int, nz: int) returns (x: int, y: int, z: int)
    requires 0 < nx && 0 < ny && 0 <= c < nx * ny * nz
    ensures ToXyz(c, nx, ny) == (x, y, z) && InBounds(x, y, z, nx, ny, nz)
    ensures c == z * (nx * ny) + (x + nx * y)
  {
    var p := nx * ny;
    MulPositive(nx, ny);
    var r;
    z, r := Split(c, p);
    DivBelow(c, p, nz);
    y, x := Split(r, nx);
    DivBelow(r, nx, ny);
  }

  /**
   * The offset of direction d, for d from 0 to 25, in the order
   * add_neighbours and predict_phase visit them: dx, then dy, then dz, each
   * from -1 to 1, without the centre. Direction d is the base-3 numeral
   * (dx + 1, dy + 1, dz + 1), counted with the centre 13 skipped.
   */
  function Offset(d: int): (int, int, int) {
    var t := if d < 13 then d else d + 1;
    (t / 9 - 1, t / 3 % 3 - 1, t % 3 - 1)
  }

  /** The position of an offset in the visiting order: its base-3 digits, skipping the centre. */
  function OffsetIndex(o: (int, int, int)): int {
    var t := 9 * (o.0 + 1) + 3 * (o.1 + 1) + (o.2 + 1);
    if t < 13 then t else t - 1
  }

  /** Direction d has index d: the 26 offsets are distinct, none is the centre, all are unit steps. */
  lemma OffsetIndexed(d: int)
    requires 0 <= d < 26
    ensures OffsetIndex(Offset(d)) == d
    ensures Offset(d) != (0, 0, 0)
    ensures -1 <= Offset(d).0 <= 1 && -1 <= Offset(d).1 <= 1 && -1 <= Offset(d).2 <= 1
  {
    Digits(if d < 13 then d else d + 1);
  }

  /** Direction 25 - d is the opposite of direction d. */
  lemma OffsetOpposite(d: int)
    requires 0 <= d < 26
    ensures Offset(25 - d) == (-Offset(d).0, -Offset(d).1, -Offset(d).2)
  {
    var t := if d < 13 then d else d + 1;
    var u := if 25 - d < 13 then 25 - d else 26 - d;
    assert u == 26 - t;
    Digits(t);
    var a, b, c := t / 9, t / 3 % 3, t % 3;
    assert Offset(d) == (a - 1, b - 1, c - 1);
    Base3(u, 2 - a, 2 - b, 2 - c);
    assert Offset(25 - d) == (u / 9 - 1, u / 3 % 3 - 1, u % 3 - 1);
  }

  /** A number below 27 is made of its three base-3 digits. */
  lemma Digits(t: int)
    requires 0 <= t < 27
    ensures 0 <= t / 9 <= 2 && 0 <= t / 3 % 3 <= 2 && 0 <= t % 3 <= 2
    ensures t == 9 * (t / 9) + 3 * (t / 3 % 3) + t % 3
  {
    assert t / 3 == 3 * (t / 3 / 3) + t / 3 % 3;
    assert t / 3 / 3 == t / 9;
  }

  /** The base-3 digits of a number below 27 are unique. */
  lemma Base3(t: int, a: int, b: int, c: int)
    requires 0 <= a <= 2 && 0 <= b <= 2 && 0 <= c <= 2 && t == 9 * a + 3 * b + c
    ensures t / 9 == a && t / 3 % 3 == b && t % 3 == c
  {
    DivModUnique(t, 9, a, 3 * b + c);
    DivModUnique(t, 3, 3 * a + b, c);
    DivModUnique(3 * a + b, 3, a, b);
  }

  /** Direction d from voxel c stays inside the volume. */
  predicate DirInBounds(c: int, d: int, nx: int, ny: int, nz: int)
    requires 0 < nx && 0 < ny && 0 <= d < 26
  {
    var p := ToXyz(c, nx, ny);
    InBounds(p.0 + Offset(d).0, p.1 + Offset(d).1, p.2 + Offset(d).2, nx, ny, nz)
  }

  /** The index of c's neighbour in direction d. */
  function DirLoc(c: int, d: int, nx: int, ny: int, nz: int): int
    requires 0 < nx && 0 < ny && 0 <= d < 26 && DirInBounds(c, d, nx, ny, nz)
  {
    var p := ToXyz(c, nx, ny);
    Loc(p.0 + Offset(d).0, p.1 + Offset(d).1, p.2 + Offset(d).2, nx, ny, nz)
  }

  /** Adjacency is symmetric: direction d from c and direction 25 - d back lead home. */
  lemma DirSymmetric(c: int, d: int, nx: int, ny: int, nz: int)
    requires 0 < nx && 0 < ny && 0 <= c < nx * ny * nz && 0 <= d < 26 && DirInBounds(c, d, nx, ny, nz)
    ensures DirInBounds(DirLoc(c, d, nx, ny, nz), 25 - d, nx, ny, nz)
    ensures DirLoc(DirLoc(c, d, nx, ny, nz), 25 - d, nx, ny, nz) == c
  {
    var p, o := ToXyz(c, nx, ny), Offset(d);
    LocBounds(p.0 + o.0, p.1 + o.1, p.2 + o.2, nx, ny, nz);
    CoordsRoundTrip(c, nx, ny, nz);
    OffsetOpposite(d);
  }

  /** Different directions from one voxel reach different voxels. */
  lemma DirInjective(c: int, d: int, e: int, nx: int, ny: int, nz: int)
    requires 0 < nx && 0 < ny && 0 <= d < 26 && 0 <= e < 26 && d != e
    requires DirInBounds(c, d, nx, ny, nz) && DirInBounds(c, e, nx, ny, nz)
    ensures DirLoc(c, d, nx, ny, nz) != DirLoc(c, e, nx, ny, nz)
  {
    var p, o, o' := ToXyz(c, nx, ny), Offset(d), Offset(e);
    OffsetIndexed(d);
    OffsetIndexed(e);
    assert o != o';
    LocInjective(p.0 + o.0, p.1 + o.1, p.2 + o.2, p.0 + o'.0, p.1 + o'.1, p.2 + o'.2, nx, ny, nz);
  }

  /** Distinct in-bounds voxels have distinct linear indices. */
  lemma LocInjective(x: int, y: int, z: int, x': int, y': int, z': int, nx: int, ny: int, nz: int)
    requires InBounds(x, y, z, nx, ny, nz) && InBounds(x', y', z', nx, ny, nz)
    ensures Loc(x, y, z, nx, ny, nz) == Loc(x', y', z', nx, ny, nz) ==> (x, y, z) == (x', y', z')
  {
    LocBounds(x, y, z, nx, ny, nz);
    LocBounds(x', y', z', nx, ny, nz);
  }

  // ---------------------------------------------------------- queue growth

  /** add_pixel's test: (x, y, z) is in bounds, unvisited and trusted. */
  predicate Admissible(x: int, y: int, z: int, vs: seq<int>, ts: seq<real>, nx: int, ny: int, nz: int)
    requires |vs| == nx * ny * nz && |ts| == nx * ny * nz
  {
    InBounds(x, y, z, nx, ny, nz) && vs[Loc(x, y, z, nx, ny, nz)] == 0 && ts[Loc(x, y, z, nx, ny, nz)] > 0.0
  }

  /** add_pixel's test on c's neighbour in direction d. */
  predicate Admits(c: int, d: int, vs: seq<int>, ts: seq<real>, nx: int, ny: int, nz: int)
    requires 0 < nx && 0 < ny && 0 <= d < 26 && |vs| == nx * ny * nz && |ts| == nx * ny * nz
  {
    var p := ToXyz(c, nx, ny);
    Admissible(p.0 + Offset(d).0, p.1 + Offset(d).1, p.2 + Offset(d).2, vs, ts, nx, ny, nz)
  }

  /**
   * The voxels add_neighbours(c) enqueues through directions 0 .. k-1,
   * judged against the visit map before the call.
   */
  function Fresh(c: int, vs: seq<int>, ts: seq<real>, nx: int, ny: int, nz: int, k: nat): seq<int>
    requires 0 < nx && 0 < ny && |vs| == nx * ny * nz && |ts| == nx * ny * nz && k <= 26
  {
    if k == 0 then []
    else if Admits(c, k - 1, vs, ts, nx, ny, nz) then Fresh(c, vs, ts, nx, ny, nz, k - 1) + [DirLoc(c, k - 1, nx, ny, nz)]
    else Fresh(c, vs, ts, nx, ny, nz, k - 1)
  }

  /** The visit map with every voxel of `locs` marked as queued. */
  function Mark(vs: seq<int>, locs: seq<int>): seq<int> {
    seq(|vs|, i requires 0 <= i < |vs| => if i in locs then 1 else vs[i])
  }

  /** No later direction's voxel is among those enqueued by the first k. */
  lemma {:induction false} FreshExcludesLater(c: int, vs: seq<int>, ts: seq<real>, nx: int, ny: int, nz: int, k: nat)
    requires 0 < nx && 0 < ny && |vs| == nx * ny * nz && |ts| == nx * ny * nz && k <= 26
    ensures forall d :: k <= d < 26 && DirInBounds(c, d, nx, ny, nz) ==>
              DirLoc(c, d, nx, ny, nz) !in Fresh(c, vs, ts, nx, ny, nz, k)
  {
    if k > 0 {
      FreshExcludesLater(c, vs, ts, nx, ny, nz, k - 1);
      forall d | k <= d < 26 && DirInBounds(c, d, nx, ny, nz)
        ensures DirLoc(c, d, nx, ny, nz) !in Fresh(c, vs, ts, nx, ny, nz, k)
      {
        if DirInBounds(c, k - 1, nx, ny, nz) {
          DirInjective(c, d, k - 1, nx, ny, nz);
        }
      }
    }
  }

  /**
   * add_neighbours enqueues exactly the admitted neighbours, each once, each
   * an unvisited trusted neighbour of c.
   */
  lemma {:induction false} FreshExact(c: int, vs: seq<int>, ts: seq<real>, nx: int, ny: int, nz: int, k: nat)
    requires 0 < nx && 0 < ny && |vs| == nx * ny * nz && |ts| == nx * ny * nz && k <= 26
    ensures Distinct(Fresh(c, vs, ts, nx, ny, nz, k))
    ensures forall e :: e in Fresh(c, vs, ts, nx, ny, nz, k) ==>
              exists d :: 0 <= d < k && Admits(c, d, vs, ts, nx, ny, nz) && DirLoc(c, d, nx, ny, nz) == e
    ensures forall d :: 0 <= d < k && Admits(c, d, vs, ts, nx, ny, nz) ==> DirLoc(c, d, nx, ny, nz) in Fresh(c, vs, ts, nx, ny, nz, k)
  {
    if k > 0 {
      FreshExact(c, vs, ts, nx, ny, nz, k - 1);
      FreshExcludesLater(c, vs, ts, nx, ny, nz, k - 1);
    }
  }

  /**
   * Direction k of add_neighbours sees the visit map as marked by the
   * directions before it, and judges its neighbour exactly as against the
   * map before the call.
   */
  lemma FreshStep(c: int, vs: seq<int>, ts: seq<real>, nx: int, ny: int, nz: int, k: nat, v: seq<int>)
    requires 0 < nx && 0 < ny && |vs| == nx * ny * nz && |ts| == nx * ny * nz && k < 26
    requires v == Mark(vs, Fresh(c, vs, ts, nx, ny, nz, k))
    ensures Admits(c, k, v, ts, nx, ny, nz) == Admits(c, k, vs, ts, nx, ny, nz)
    ensures Admits(c, k, vs, ts, nx, ny, nz) ==>
              Fresh(c, vs, ts, nx, ny, nz, k + 1) == Fresh(c, vs, ts, nx, ny, nz, k) + [DirLoc(c, k, nx, ny, nz)] &&
              Mark(vs, Fresh(c, vs, ts, nx, ny, nz, k + 1)) == v[DirLoc(c, k, nx, ny, nz) := 1]
    ensures !Admits(c, k, vs, ts, nx, ny, nz) ==> Fresh(c, vs, ts, nx, ny, nz, k + 1) == Fresh(c, vs, ts, nx, ny, nz, k)
  {
    FreshExcludesLater(c, vs, ts, nx, ny, nz, k);
    if Admits(c, k, vs, ts, nx, ny, nz) {
      var l := DirLoc(c, k, nx, ny, nz);
      assert Mark(vs, Fresh(c, vs, ts, nx, ny, nz, k + 1)) == v[l := 1];
    }
  }

  lemma {:induction false} FreshGrows(c: int, vs: seq<int>, ts: seq<real>, nx: int, ny: int, nz: int, j: nat, k: nat)
    requires 0 < nx && 0 < ny && |vs| == nx * ny * nz && |ts| == nx * ny * nz && j <= k <= 26
    ensures |Fresh(c, vs, ts, nx, ny, nz, j)| <= |Fresh(c, vs, ts, nx, ny, nz, k)|
  {
    if j < k {
      FreshGrows(c, vs, ts, nx, ny, nz, j, k - 1);
    }
  }

  /**
   * add_pixel: push voxel (x, y, z) and mark it queued when it is in bounds,
   * unvisited and trusted; otherwise change nothing.
   */
  method AddPixel(x: int, y: int, z: int, stack: array<int>, visited: array<int>, trust: array<real>,
                  nstack: int, nx: int, ny: int, nz: int) returns (n: int)
    requires 0 < nx && 0 < ny && visited.Length == nx * ny * nz && trust.Length == nx * ny * nz
    requires stack != visited
    requires 0 <= nstack <= stack.Length
    requires Admissible(x, y, z, visited[..], trust[..], nx, ny, nz) ==> nstack < stack.Length
    modifies stack, visited
    ensures Admissible(x, y, z, old(visited[..]), trust[..], nx, ny, nz) ==>
              n == nstack + 1 && stack[..n] == old(stack[..nstack]) + [Loc(x, y, z, nx, ny, nz)] &&
              visited[..] == old(visited[..])[Loc(x, y, z, nx, ny, nz) := 1]
    ensures !Admissible(x, y, z, old(visited[..]), trust[..], nx, ny, nz) ==>
              n == nstack && stack[..] == old(stack[..]) && visited[..] == old(visited[..])
  {
    n := nstack;
    if InBounds(x, y, z, nx, ny, nz) {
      var loc := Loc(x, y, z, nx, ny, nz);
      if visited[loc] == 0 && trust[loc] > 0.0 {
        stack[nstack] := loc;
        visited[loc] := 1;
        n := nstack + 1;
      }
    }
  }

  /**
   * add_neighbours: offer the 26 neighbours of c to add_pixel in table
   * order. The queue grows by Fresh and those voxels become queued.
   */
  method AddNeighbours(c: int, stack: array<int>, visited: array<int>, trust: array<real>,
                       nstack: int, nx: int, ny: int, nz: int) returns (n: int)
    requires 0 < nx && 0 < ny && visited.Length == nx * ny * nz && trust.Length == nx * ny * nz
    requires stack != visited
    requires 0 <= nstack && nstack + |Fresh(c, visited[..], trust[..], nx, ny, nz, 26)| <= stack.Length
    modifies stack, visited
    ensures n == nstack + |Fresh(c, old(visited[..]), trust[..], nx, ny, nz, 26)| <= stack.Length
    ensures stack[..n] == old(stack[..nstack]) + Fresh(c, old(visited[..]), trust[..], nx, ny, nz, 26)
    ensures visited[..] == Mark(old(visited[..]), Fresh(c, old(visited[..]), trust[..], nx, ny, nz, 26))
  {
    ghost var vs0 := visited[..];
    ghost var base := stack[..nstack];
    n := nstack;
    FreshGrows(c, vs0, trust[..], nx, ny, nz, 0, 26);
    for k := 0 to 26
      invariant n == nstack + |Fresh(c, vs0, trust[..], nx, ny, nz, k)| <= stack.Length
      invariant stack[..n] == base + Fresh(c, vs0, trust[..], nx, ny, nz, k)
      invariant visited[..] == Mark(vs0, Fresh(c, vs0, trust[..], nx, ny, nz, k))
    {
      n := OfferNeighbour(c, k, stack, visited, trust, n, nx, ny, nz, vs0, base);
    }
  }

  /** One direction of add_neighbours: the queue and the visit map follow Fresh one step further. */
  method OfferNeighbour(c: int, k: int, stack: array<int>, visited: array<int>, trust: array<real>,
                        n: int, nx: int, ny: int, nz: int, ghost vs0: seq<int>, ghost base: seq<int>) returns (n': int)
    requires 0 < nx && 0 < ny && visited.Length == nx * ny * nz && trust.Length == nx * ny * nz && 0 <= k < 26
    requires stack != visited && |vs0| == nx * ny * nz
    requires n == |base| + |Fresh(c, vs0, trust[..], nx, ny, nz, k)| <= stack.Length && |base| + |Fresh(c, vs0, trust[..], nx, ny, nz, 26)| <= stack.Length
    requires stack[..n] == base + Fresh(c, vs0, trust[..], nx, ny, nz, k)
    requires visited[..] == Mark(vs0, Fresh(c, vs0, trust[..], nx, ny, nz, k))
    modifies stack, visited
    ensures n' == |base| + |Fresh(c, vs0, trust[..], nx, ny, nz, k + 1)| <= stack.Length
    ensures stack[..n'] == base + Fresh(c, vs0, trust[..], nx, ny, nz, k + 1)
    ensures visited[..] == Mark(vs0, Fresh(c, vs0, trust[..], nx, ny, nz, k + 1))
  {
    ghost var ts := trust[..];
    FreshGrows(c, vs0, ts, nx, ny, nz, k + 1, 26);
    FreshStep(c, vs0, ts, nx, ny, nz, k, visited[..]);
    var p := ToXyz(c, nx, ny);
    n' := AddPixel(p.0 + Offset(k).0, p.1 + Offset(k).1, p.2 + Offset(k).2, stack, visited, trust, n, nx, ny, nz);
    if Admits(c, k, vs0, ts, nx, ny, nz) {
      assert stack[..n'] == base + Fresh(c, vs0, ts, nx, ny, nz, k) + [DirLoc(c, k, nx, ny, nz)];
    } else {
      assert stack[..n'] == old(stack[..n]);
    }
  }

  // -------------------------------------------------------------- prediction

  /** c's neighbour in direction d exists and is resolved. */
  predicate ResolvedDir(c: int, d: int, vs: seq<int>, nx: int, ny: int, nz: int)
    requires 0 < nx && 0 < ny && 0 <= d < 26 && |vs| == nx * ny * nz
  {
    DirInBounds(c, d, nx, ny, nz) && vs[DirLoc(c, d, nx, ny, nz)] == 2
  }

  predicate HasResolvedNeighbour(c: int, vs: seq<int>, nx: int, ny: int, nz: int)
    requires 0 < nx && 0 < ny && |vs| == nx * ny * nz
  {
    exists d :: 0 <= d < 26 && ResolvedDir(c, d, vs, nx, ny, nz)
  }

  /** Every trust value is one of the two that the initialisation writes. */
  ghost predicate TrustFlags(ts: seq<real>) {
    forall i :: 0 <= i < |ts| ==> ts[i] == 0.0 || ts[i] == 1.0
  }

  /**
   * extrap_phase with nearest-neighbour prediction: the phase of the
   * neighbour in direction d, weighted by its trust plus one, when it is
   * resolved; otherwise phase 0 with weight 0.
   */
  function Extrap(c: int, d: int, us: seq<real>, vs: seq<int>, ts: seq<real>, nx: int, ny: int, nz: int): (e: (real, real))
    requires 0 < nx && 0 < ny && 0 <= d < 26 && |us| == nx * ny * nz && |vs| == nx * ny * nz && |ts| == nx * ny * nz
    ensures TrustFlags(ts) ==> (e.1 == 0.0 || e.1 == 1.0 || e.1 == 2.0)
    ensures TrustFlags(ts) ==> (e.1 != 0.0 <==> ResolvedDir(c, d, vs, nx, ny, nz))
    ensures TrustFlags(ts) && e.1 == 0.0 ==> e.0 == 0.0
    ensures ResolvedDir(c, d, vs, nx, ny, nz) ==> e == (us[DirLoc(c, d, nx, ny, nz)], ts[DirLoc(c, d, nx, ny, nz)] + 1.0)
  {
    if ResolvedDir(c, d, vs, nx, ny, nz) then (us[DirLoc(c, d, nx, ny, nz)], ts[DirLoc(c, d, nx, ny, nz)] + 1.0) else (0.0, 0.0)
  }

  function Phases(c: int, us: seq<real>, vs: seq<int>, ts: seq<real>, nx: int, ny: int, nz: int): seq<real>
    requires 0 < nx && 0 < ny && |us| == nx * ny * nz && |vs| == nx * ny * nz && |ts| == nx * ny * nz
  {
    seq(26, d requires 0 <= d < 26 => Extrap(c, d, us, vs, ts, nx, ny, nz).0)
  }

  function Weights(c: int, us: seq<real>, vs: seq<int>, ts: seq<real>, nx: int, ny: int, nz: int): seq<real>
    requires 0 < nx && 0 < ny && |us| == nx * ny * nz && |vs| == nx * ny * nz && |ts| == nx * ny * nz
  {
    seq(26, d requires 0 <= d < 26 => Extrap(c, d, us, vs, ts, nx, ny, nz).1)
  }

  /** predict_phase's value; None where the C code divides 0 by 0. */
  function Predicted(c: int, us: seq<real>, vs: seq<int>, ts: seq<real>, nx: int, ny: int, nz: int): Option<real>
    requires 0 < nx && 0 < ny && |us| == nx * ny * nz && |vs| == nx * ny * nz && |ts| == nx * ny * nz
  {
    WeightedMean(Phases(c, us, vs, ts, nx, ny, nz), Weights(c, us, vs, ts, nx, ny, nz))
  }

  /**
   * A resolved neighbour weighs 1.0 or 2.0 and any other direction 0.0, so
   * the prediction is defined exactly when some neighbour is resolved.
   */
  lemma PredictionDefined(c: int, us: seq<real>, vs: seq<int>, ts: seq<real>, nx: int, ny: int, nz: int)
    requires 0 < nx && 0 < ny && |us| == nx * ny * nz && |vs| == nx * ny * nz && |ts| == nx * ny * nz && TrustFlags(ts)
    ensures Predicted(c, us, vs, ts, nx, ny, nz).Some? <==> HasResolvedNeighbour(c, vs, nx, ny, nz)
    ensures forall d :: 0 <= d < 26 ==> (0.0 < Weights(c, us, vs, ts, nx, ny, nz)[d] <==> ResolvedDir(c, d, vs, nx, ny, nz))
  {
    var ws := Weights(c, us, vs, ts, nx, ny, nz);
    assert NonNegative(ws);
    SumNonNegative(ws, |ws|);
    if HasResolvedNeighbour(c, vs, nx, ny, nz) {
      var d :| 0 <= d < 26 && ResolvedDir(c, d, vs, nx, ny, nz);
      assert 0.0 < ws[d];
    }
  }

  /** A voxel with a resolved neighbour has a prediction. */
  lemma FrontPredicted(c: int, us: seq<real>, vs: seq<int>, ts: seq<real>, nx: int, ny: int, nz: int)
    requires 0 < nx && 0 < ny && |us| == nx * ny * nz && |vs| == nx * ny * nz && |ts| == nx * ny * nz && TrustFlags(ts)
    requires HasResolvedNeighbour(c, vs, nx, ny, nz)
    ensures Predicted(c, us, vs, ts, nx, ny, nz).Some?
  {
    PredictionDefined(c, us, vs, ts, nx, ny, nz);
  }

  /**
   * The prediction is a weighted mean of the resolved neighbours' phases,
   * so it lies between the least and the greatest of them.
   */
  lemma PredictionWithin(c: int, us: seq<real>, vs: seq<int>, ts: seq<real>, nx: int, ny: int, nz: int, lo: real, hi: real)
    requires 0 < nx && 0 < ny && |us| == nx * ny * nz && |vs| == nx * ny * nz && |ts| == nx * ny * nz && TrustFlags(ts)
    requires forall d :: 0 <= d < 26 && ResolvedDir(c, d, vs, nx, ny, nz) ==> lo <= us[DirLoc(c, d, nx, ny, nz)] <= hi
    ensures Predicted(c, us, vs, ts, nx, ny, nz).Some? <==> HasResolvedNeighbour(c, vs, nx, ny, nz)
    ensures Predicted(c, us, vs, ts, nx, ny, nz).Some? ==> lo <= Predicted(c, us, vs, ts, nx, ny, nz).value <= hi
  {
    PredictionDefined(c, us, vs, ts, nx, ny, nz);
    MeanWithin(Phases(c, us, vs, ts, nx, ny, nz), Weights(c, us, vs, ts, nx, ny, nz), lo, hi);
  }

  /**
   * predict_phase: extrapolate along the 26 directions into two small
   * arrays, then divide the weighted phase sum by the weight sum.
   */
  method PredictPhase(c: int, psiUw: array<real>, visited: array<int>, trust: array<real>, nx: int, ny: int, nz: int)
    returns (r: Option<real>)
    requires 0 < nx && 0 < ny && psiUw.Length == nx * ny * nz && visited.Length == nx * ny * nz && trust.Length == nx * ny * nz
    ensures r == Predicted(c, psiUw[..], visited[..], trust[..], nx, ny, nz)
  {
    ghost var ps := Phases(c, psiUw[..], visited[..], trust[..], nx, ny, nz);
    ghost var ws := Weights(c, psiUw[..], visited[..], trust[..], nx, ny, nz);
    var p := new real[26];
    var w := new real[26];
    for d := 0 to 26
      invariant forall j :: 0 <= j < d ==> p[j] == ps[j] && w[j] == ws[j]
    {
      var e := Extrap(c, d, psiUw[..], visited[..], trust[..], nx, ny, nz);
      p[d], w[d] := e.0, e.1;
    }
    assert p[..] == ps && w[..] == ws;
    r := MeanOf(p, w);
  }

  // ------------------------------------------------------------------ seeds

  /** find_seed's candidates: trusted voxels not yet resolved. */
  function Eligible(vs: seq<int>, ts: seq<real>): seq<bool>
    requires |vs| == |ts|
  {
    seq(|vs|, i requires 0 <= i < |vs| => ts[i] > 0.0 && vs[i] < 2)
  }

  /** The voxel find_seed picks: the first candidate of greatest positive magnitude, else 0. */
  function Seed(mag: seq<real>, vs: seq<int>, ts: seq<real>): (s: int)
    requires |mag| == |vs| == |ts|
    ensures 0 <= s && (0 < |vs| ==> s < |vs|)
  {
    SeedScanIsFirstMax(mag, Eligible(vs, ts), |vs|);
    SeedScan(mag, Eligible(vs, ts), |vs|).1
  }

  /**
   * find_seed: scan for the seed, mark it resolved, count it, empty the
   * queue and enqueue the seed's admissible neighbours.
   */
  method FindSeed(mag: seq<real>, visited: array<int>, trust: array<real>, stack: array<int>,
                  nunwrapped: int, nx: int, ny: int, nz: int) returns (seed: int, nstack: int, counted: int)
    requires 0 < nx && 0 < ny && 0 < nz && |mag| == nx * ny * nz
    requires visited.Length == nx * ny * nz && trust.Length == nx * ny * nz && stack.Length == nx * ny * nz
    requires stack != visited
    modifies visited, stack
    ensures seed == Seed(mag, old(visited[..]), trust[..]) && 0 <= seed < nx * ny * nz
    ensures counted == nunwrapped + 1
    ensures nstack == |Fresh(seed, old(visited[..])[seed := 2], trust[..], nx, ny, nz, 26)| < nx * ny * nz
    ensures stack[..nstack] == Fresh(seed, old(visited[..])[seed := 2], trust[..], nx, ny, nz, 26)
    ensures visited[..] == Mark(old(visited[..])[seed := 2], Fresh(seed, old(visited[..])[seed := 2], trust[..], nx, ny, nz, 26))
  {
    ghost var elig := Eligible(visited[..], trust[..]);
    var maxMag := 0.0;
    var maxI := 0;
    for i := 0 to nx * ny * nz
      invariant (maxMag, maxI) == SeedScan(mag, elig, i)
    {
      if trust[i] > 0.0 && visited[i] < 2 {
        if mag[i] > maxMag {
          maxMag, maxI := mag[i], i;
        }
      }
    }
    SeedScanIsFirstMax(mag, elig, nx * ny * nz);
    seed := maxI;
    visited[seed] := 2;
    counted := nunwrapped + 1;
    nstack := 0;
    FreshRoom(seed, visited[..], trust[..], nx, ny, nz);
    nstack := AddNeighbours(seed, stack, visited, trust, nstack, nx, ny, nz);
  }

  /** The neighbours of a resolved voxel fit in the queue beside it. */
  lemma FreshRoom(c: int, vs: seq<int>, ts: seq<real>, nx: int, ny: int, nz: int)
    requires 0 < nx && 0 < ny && |vs| == nx * ny * nz && |ts| == nx * ny * nz && 0 <= c < nx * ny * nz && vs[c] == 2
    ensures |Fresh(c, vs, ts, nx, ny, nz, 26)| < nx * ny * nz
  {
    var f := Fresh(c, vs, ts, nx, ny, nz, 26);
    FreshExact(c, vs, ts, nx, ny, nz, 26);
    forall j | 0 <= j < |f|
      ensures 0 <= f[j] < nx * ny * nz && f[j] != c
    {
      assert f[j] in f;
    }
    RangeSize(nx * ny * nz);
    ListBound(f, nx * ny * nz, {c});
  }

  /** Squared distance between two voxels (the C code compares its square root). */
  function SquaredDistance(a: int, b: int, nx: int, ny: int): int
    requires 0 < nx && 0 < ny
  {
    var p := ToXyz(a, nx, ny);
    var q := ToXyz(b, nx, ny);
    (p.0 - q.0) * (p.0 - q.0) + (p.1 - q.1) * (p.1 - q.1) + (p.2 - q.2) * (p.2 - q.2)
  }

  /**
   * seed_ambiguity's candidates: resolved voxels whose x and whose y both
   * differ from the seed's; z is not compared.
   */
  function OffAxisResolved(s: int, vs: seq<int>, nx: int, ny: int): seq<bool>
    requires 0 < nx && 0 < ny
  {
    seq(|vs|, i requires 0 <= i < |vs| =>
      vs[i] == 2 && ToXyz(i, nx, ny).0 != ToXyz(s, nx, ny).0 && ToXyz(i, nx, ny).1 != ToXyz(s, nx, ny).1)
  }

  function Distances(s: int, n: nat, nx: int, ny: int): seq<int>
    requires 0 < nx && 0 < ny
  {
    seq(n, i requires 0 <= i < n => SquaredDistance(s, i, nx, ny))
  }

  /** The voxel seed_ambiguity measures against: the first nearest candidate, else 0. */
  function Nearest(s: int, vs: seq<int>, nx: int, ny: int): (r: int)
    requires 0 < nx && 0 < ny
    ensures 0 <= r && (0 < |vs| ==> r < |vs|)
  {
    NearestScanIsFirstMin(Distances(s, |vs|, nx, ny), OffAxisResolved(s, vs, nx, ny), |vs|);
    NearestScan(Distances(s, |vs|, nx, ny), OffAxisResolved(s, vs, nx, ny), |vs|).1
  }

  /** One step of seed_ambiguity's search, at voxel (x, y, z) with index loc. */
  lemma NearestStep(s: int, vs: seq<int>, nx: int, ny: int, nz: int, x: int, y: int, z: int, loc: int)
    requires InBounds(x, y, z, nx, ny, nz) && |vs| == nx * ny * nz && loc == x + nx * y + nx * ny * z
    ensures 0 <= loc < nx * ny * nz
    ensures var sp := ToXyz(s, nx, ny);
      var prev := NearestScan(Distances(s, nx * ny * nz, nx, ny), OffAxisResolved(s, vs, nx, ny), loc);
      var dr := (sp.0 - x) * (sp.0 - x) + (sp.1 - y) * (sp.1 - y) + (sp.2 - z) * (sp.2 - z);
      NearestScan(Distances(s, nx * ny * nz, nx, ny), OffAxisResolved(s, vs, nx, ny), loc + 1) ==
        if vs[loc] == 2 && x != sp.0 && y != sp.1 && (prev.0.None? || dr < prev.0.value) then (Some(dr), loc)
        else prev
  {
    LocSplit(x, y, z, nx, ny);
    LocBounds(x, y, z, nx, ny, nz);
    var sp := ToXyz(s, nx, ny);
    var dr := (sp.0 - x) * (sp.0 - x) + (sp.1 - y) * (sp.1 - y) + (sp.2 - z) * (sp.2 - z);
    assert Distances(s, nx * ny * nz, nx, ny)[loc] == dr;
    assert OffAxisResolved(s, vs, nx, ny)[loc] == (vs[loc] == 2 && x != sp.0 && y != sp.1);
  }

  /** LOC3D written out as the sum of the x, row and plane offsets. */
  lemma LocSplit(x: int, y: int, z: int, nx: int, ny: int)
    ensures x + nx * (y + ny * z) == x + nx * y + nx * ny * z
  {
    assert nx * (y + ny * z) == nx * y + nx * (ny * z);
  }

  /** The search loop of seed_ambiguity, over z, then y, then x, with a running index. */
  method NearestResolved(seed: int, visited: array<int>, nx: int, ny: int, nz: int) returns (closest: int)
    requires 0 < nx && 0 < ny && 0 < nz && visited.Length == nx * ny * nz && 0 <= seed < nx * ny * nz
    ensures closest == Nearest(seed, visited[..], nx, ny)
  {
    var sp := ToXyz(seed, nx, ny);
    var sx, sy, sz := sp.0, sp.1, sp.2;
    var minDr: Option<int> := None;
    closest := 0;
    var loc := 0;
    var z := 0;
    while z < nz
      invariant 0 <= z <= nz && loc == nx * ny * z && loc <= nx * ny * nz
      invariant (minDr, closest) == NearestScan(Distances(seed, nx * ny * nz, nx, ny), OffAxisResolved(seed, visited[..], nx, ny), loc)
    {
      MulSucc(nx * ny, z);
      MulMono(nx * ny, z + 1, nz);
      minDr, closest, loc := NearestPlane(seed, visited, nx, ny, nz, sx, sy, sz, z, loc, minDr, closest);
      assert nx * ny * (z + 1) == nx * ny * z + nx * ny;
      z := z + 1;
    }
  }

  /** Multiplication by a nonnegative factor keeps order. */
  lemma MulMono(a: int, b: int, c: int)
    requires 0 <= a && b <= c
    ensures a * b <= a * c
  {
    assert a * c - a * b == a * (c - b);
  }

  /** One more row of the scan. */
  lemma MulSucc(a: int, b: int)
    ensures a * (b + 1) == a * b + a
  {
  }

  /** The scan position after one more row: still within the volume. */
  lemma RowAdvance(nx: int, ny: int, nz: int, y: int, z: int, loc: int)
    requires 0 < nx && 0 <= y < ny && 0 <= z < nz && loc == nx * y + nx * ny * z + nx
    ensures loc == nx * (y + 1) + nx * ny * z && loc <= nx * ny * nz
  {
    MulSucc(nx, y);
    MulMono(nx, y + 1, ny);
    MulSucc(nx * ny, z);
    MulMono(nx * ny, z + 1, nz);
  }

  /** The middle loop of seed_ambiguity's search: one plane of the volume, y from 0 to ny - 1. */
  method NearestPlane(seed: int, visited: array<int>, nx: int, ny: int, nz: int, sx: int, sy: int, sz: int,
                      z: int, loc0: int, minDr0: Option<int>, closest0: int)
    returns (minDr: Option<int>, closest: int, loc: int)
    requires 0 < nx && 0 < ny && 0 <= z < nz && visited.Length == nx * ny * nz
    requires (sx, sy, sz) == ToXyz(seed, nx, ny) && loc0 == nx * ny * z && loc0 + nx * ny <= nx * ny * nz
    requires (minDr0, closest0) == NearestScan(Distances(seed, nx * ny * nz, nx, ny), OffAxisResolved(seed, visited[..], nx, ny), loc0)
    ensures loc == loc0 + nx * ny <= nx * ny * nz
    ensures (minDr, closest) == NearestScan(Distances(seed, nx * ny * nz, nx, ny), OffAxisResolved(seed, visited[..], nx, ny), loc)
  {
    minDr, closest, loc := minDr0, closest0, loc0;
    MulMono(nx, 0, ny);
    MulMono(nx * ny, z, nz);
    var y := 0;
    while y < ny
      invariant 0 <= y <= ny && loc == nx * y + nx * ny * z && loc <= nx * ny * nz
      invariant (minDr, closest) == NearestScan(Distances(seed, nx * ny * nz, nx, ny), OffAxisResolved(seed, visited[..], nx, ny), loc)
    {
      minDr, closest, loc := NearestRow(seed, visited, nx, ny, nz, sx, sy, sz, y, z, loc, minDr, closest);
      RowAdvance(nx, ny, nz, y, z, loc);
      y := y + 1;
    }
  }

  /** The innermost loop of seed_ambiguity's search: one row of the volume, x from 0 to nx - 1. */
  method NearestRow(seed: int, visited: array<int>, nx: int, ny: int, nz: int, sx: int, sy: int, sz: int,
                    y: int, z: int, loc0: int, minDr0: Option<int>, closest0: int)
    returns (minDr: Option<int>, closest: int, loc: int)
    requires 0 < nx && 0 <= y < ny && 0 <= z < nz && visited.Length == nx * ny * nz
    requires (sx, sy, sz) == ToXyz(seed, nx, ny) && loc0 == nx * y + nx * ny * z && loc0 <= nx * ny * nz
    requires (minDr0, closest0) == NearestScan(Distances(seed, nx * ny * nz, nx, ny), OffAxisResolved(seed, visited[..], nx, ny), loc0)
    ensures loc == loc0 + nx <= nx * ny * nz
    ensures (minDr, closest) == NearestScan(Distances(seed, nx * ny * nz, nx, ny), OffAxisResolved(seed, visited[..], nx, ny), loc)
  {
    minDr, closest, loc := minDr0, closest0, loc0;
    RowAdvance(nx, ny, nz, y, z, loc0 + nx);
    var x := 0;
    while x < nx
      invariant 0 <= x <= nx && loc == x + loc0 && loc <= nx * ny * nz
      invariant (minDr, closest) == NearestScan(Distances(seed, nx * ny * nz, nx, ny), OffAxisResolved(seed, visited[..], nx, ny), loc)
    {
      NearestStep(seed, visited[..], nx, ny, nz, x, y, z, loc);
      minDr, closest := NearestVisit(seed, visited, nx, ny, nz, sx, sy, sz, x, y, z, loc, minDr, closest);
      x := x + 1;
      loc := loc + 1;
    }
  }

  /** The body of seed_ambiguity's search loop: the candidate test and the strict comparison at one voxel. */
  method NearestVisit(seed: int, visited: array<int>, nx: int, ny: int, nz: int, sx: int, sy: int, sz: int,
                      x: int, y: int, z: int, loc: int, minDr: Option<int>, closest: int)
    returns (minDr': Option<int>, closest': int)
    requires InBounds(x, y, z, nx, ny, nz) && visited.Length == nx * ny * nz
    requires (sx, sy, sz) == ToXyz(seed, nx, ny) && loc == x + nx * y + nx * ny * z && 0 <= loc < nx * ny * nz
    requires (minDr, closest) == NearestScan(Distances(seed, nx * ny * nz, nx, ny), OffAxisResolved(seed, visited[..], nx, ny), loc)
    ensures (minDr', closest') == NearestScan(Distances(seed, nx * ny * nz, nx, ny), OffAxisResolved(seed, visited[..], nx, ny), loc + 1)
  {
    NearestStep(seed, visited[..], nx, ny, nz, x, y, z, loc);
    minDr', closest' := minDr, closest;
    if visited[loc] == 2 && x != sx && y != sy {
      var dr := (sx - x) * (sx - x) + (sy - y) * (sy - y) + (sz - z) * (sz - z);
      if minDr.None? || dr < minDr.value {
        minDr' := Some(dr);
        closest' := loc;
      }
    }
  }

  /**
   * seed_ambiguity (defined in the 3D source but never called): find the
   * nearest candidate in scan order and return the wrap count of its phase
   * relative to the seed's.
   */
  method SeedAmbiguity(seed: int, psiUw: array<real>, visited: array<int>, nx: int, ny: int, nz: int) returns (m: int)
    requires 0 < nx && 0 < ny && 0 < nz && psiUw.Length == nx * ny * nz && visited.Length == nx * ny * nz && 0 <= seed < nx * ny * nz
    ensures m == Ambiguity(psiUw[Nearest(seed, visited[..], nx, ny)] - psiUw[seed])
  {
    var closest := NearestResolved(seed, visited, nx, ny, nz);
    var dp := psiUw[closest] - psiUw[seed];
    m := Ambiguity(dp);
  }

  // ------------------------------------------------------- growth invariant

  /**
   * The growth queue: repetition-free, every entry a queued, trusted voxel
   * of the volume with at least one resolved neighbour (so its
   * prediction is defined).
   */
  ghost predicate QueueOk(q: seq<int>, vs: seq<int>, ts: seq<real>, nx: int, ny: int, nz: int)
    requires 0 < nx && 0 < ny && |vs| == nx * ny * nz && |ts| == nx * ny * nz
  {
    Distinct(q) &&
    forall j :: 0 <= j < |q| ==>
      0 <= q[j] < nx * ny * nz && vs[q[j]] == 1 && ts[q[j]] > 0.0 && HasResolvedNeighbour(q[j], vs, nx, ny, nz)
  }

  /** Trusted voxels already resolved. */
  ghost function ResolvedTrusted(vs: seq<int>, ts: seq<real>): set<int>
    requires |vs| == |ts|
  {
    set i | 0 <= i < |vs| && vs[i] == 2 && ts[i] > 0.0
  }

  ghost function TrustedSet(ts: seq<real>): set<int> {
    set i | 0 <= i < |ts| && ts[i] > 0.0
  }

  ghost function Unresolved(vs: seq<int>): set<int> {
    set i | 0 <= i < |vs| && vs[i] != 2
  }

  /** Every trusted voxel of positive magnitude, the ones find_seed can pick, is resolved. */
  ghost predicate PositiveResolved(mag: seq<real>, vs: seq<int>, ts: seq<real>)
    requires |mag| == |ts| && |vs| == |ts|
  {
    forall i :: 0 <= i < |ts| && ts[i] > 0.0 && 0.0 < mag[i] ==> vs[i] == 2
  }

  /**
   * What holds between steps of the main loop, over the wrapped input psiW,
   * the unwrapped volume us, the visit map vs, the trust map ts, the ghost
   * wrap counts wr and the queue q.
   */
  ghost predicate Inv(psiW: seq<real>, mag: seq<real>, us: seq<real>, vs: seq<int>, ts: seq<real>,
                      wr: seq<int>, q: seq<int>, nunwrapped: int, nx: int, ny: int, nz: int)
  {
    0 < nx && 0 < ny && 0 < nz &&
    |psiW| == nx * ny * nz && |mag| == nx * ny * nz && |us| == nx * ny * nz && |vs| == nx * ny * nz && |ts| == nx * ny * nz && |wr| == nx * ny * nz &&
    TrustFlags(ts) &&
    |q| < nx * ny * nz && QueueOk(q, vs, ts, nx, ny, nz) &&
    (forall i :: 0 <= i < |vs| ==> 0 <= vs[i] <= 2) &&
    (forall i :: 0 <= i < |us| ==> us[i] == psiW[i] + Turns(wr[i])) &&
    (forall i :: 0 <= i < |vs| && vs[i] != 2 ==> wr[i] == 0) &&
    (forall i :: 0 < i < |vs| && ts[i] <= 0.0 ==> vs[i] != 2) &&
    (nunwrapped + 1 == |ResolvedTrusted(vs, ts)| || PositiveResolved(mag, vs, ts))
  }

  /** Marking unvisited voxels as queued leaves the resolved voxels as they were. */
  lemma MarkKeepsResolved(vs: seq<int>, f: seq<int>)
    requires forall e :: e in f ==> 0 <= e < |vs| && vs[e] == 0
    ensures |Mark(vs, f)| == |vs|
    ensures forall i :: 0 <= i < |vs| ==> (Mark(vs, f)[i] == 2 <==> vs[i] == 2)
    ensures forall i :: 0 <= i < |vs| && 0 <= vs[i] <= 2 ==> 0 <= Mark(vs, f)[i] <= 2
  {
  }

  lemma FreshUnvisited(c: int, vs: seq<int>, ts: seq<real>, nx: int, ny: int, nz: int)
    requires 0 < nx && 0 < ny && |vs| == nx * ny * nz && |ts| == nx * ny * nz
    ensures forall e :: e in Fresh(c, vs, ts, nx, ny, nz, 26) ==> 0 <= e < nx * ny * nz && vs[e] == 0 && ts[e] > 0.0
  {
    FreshExact(c, vs, ts, nx, ny, nz, 26);
    forall e | e in Fresh(c, vs, ts, nx, ny, nz, 26)
      ensures 0 <= e < nx * ny * nz && vs[e] == 0 && ts[e] > 0.0
    {
      var d :| 0 <= d < 26 && Admits(c, d, vs, ts, nx, ny, nz) && DirLoc(c, d, nx, ny, nz) == e;
    }
  }

  /** Removing the front of the queue and resolving it keeps the rest a valid queue. */
  lemma DequeueKeepsQueue(q: seq<int>, vs: seq<int>, ts: seq<real>, nx: int, ny: int, nz: int)
    requires 0 < nx && 0 < ny && |vs| == nx * ny * nz && |ts| == nx * ny * nz && QueueOk(q, vs, ts, nx, ny, nz) && 0 < |q|
    ensures QueueOk(q[1..], vs[q[0] := 2], ts, nx, ny, nz)
  {
    var v1 := vs[q[0] := 2];
    forall j | 0 <= j < |q| - 1
      ensures v1[q[1..][j]] == 1 && HasResolvedNeighbour(q[1..][j], v1, nx, ny, nz)
    {
      assert q[1..][j] == q[j + 1] != q[0];
      var d :| 0 <= d < 26 && ResolvedDir(q[j + 1], d, vs, nx, ny, nz);
      assert ResolvedDir(q[j + 1], d, v1, nx, ny, nz);
    }
  }

  /**
   * Enqueueing the admissible neighbours of a resolved voxel c keeps the
   * queue valid, and the queue then leaves room for c itself.
   */
  lemma GrowKeepsQueue(rest: seq<int>, v1: seq<int>, ts: seq<real>, c: int, nx: int, ny: int, nz: int)
    requires 0 < nx && 0 < ny && |v1| == nx * ny * nz && |ts| == nx * ny * nz && 0 <= c < nx * ny * nz && v1[c] == 2
    requires QueueOk(rest, v1, ts, nx, ny, nz)
    ensures QueueOk(rest + Fresh(c, v1, ts, nx, ny, nz, 26), Mark(v1, Fresh(c, v1, ts, nx, ny, nz, 26)), ts, nx, ny, nz)
    ensures |rest| + |Fresh(c, v1, ts, nx, ny, nz, 26)| < nx * ny * nz
  {
    var f := Fresh(c, v1, ts, nx, ny, nz, 26);
    var v2 := Mark(v1, f);
    var q := rest + f;
    FreshExact(c, v1, ts, nx, ny, nz, 26);
    FreshUnvisited(c, v1, ts, nx, ny, nz);
    MarkKeepsResolved(v1, f);
    forall e | e in f
      ensures HasResolvedNeighbour(e, v2, nx, ny, nz)
    {
      var d :| 0 <= d < 26 && Admits(c, d, v1, ts, nx, ny, nz) && DirLoc(c, d, nx, ny, nz) == e;
      DirSymmetric(c, d, nx, ny, nz);
      assert ResolvedDir(e, 25 - d, v2, nx, ny, nz);
    }
    forall j | 0 <= j < |rest|
      ensures HasResolvedNeighbour(rest[j], v2, nx, ny, nz) && v2[rest[j]] == 1
    {
      var d :| 0 <= d < 26 && ResolvedDir(rest[j], d, v1, nx, ny, nz);
      assert ResolvedDir(rest[j], d, v2, nx, ny, nz);
    }
    forall j | 0 <= j < |q|
      ensures 0 <= q[j] < nx * ny * nz && v2[q[j]] == 1 && ts[q[j]] > 0.0 && HasResolvedNeighbour(q[j], v2, nx, ny, nz)
      ensures q[j] != c
    {
      if j >= |rest| {
        assert q[j] == f[j - |rest|] && q[j] in f;
      }
    }
    assert Distinct(q) by {
      forall j, k | 0 <= j < k < |q|
        ensures q[j] != q[k]
      {
        if j < |rest| && |rest| <= k {
          assert q[k] in f;
        } else if |rest| <= j {
          assert q[j] == f[j - |rest|] && q[k] == f[k - |rest|];
        }
      }
    }
    RangeSize(nx * ny * nz);
    ListBound(q, nx * ny * nz, {c});
  }

  /**
   * One pass of the inner loop: the front voxel is resolved with any wrap
   * count m and counted, and its admissible neighbours are enqueued. The
   * invariant is kept and one more voxel is resolved.
   */
  lemma ResolveStep(psiW: seq<real>, mag: seq<real>, us: seq<real>, vs: seq<int>, ts: seq<real>,
                    wr: seq<int>, q: seq<int>, nunwrapped: int, nx: int, ny: int, nz: int, m: int,
                    us': seq<real>, vs': seq<int>, q': seq<int>)
    requires Inv(psiW, mag, us, vs, ts, wr, q, nunwrapped, nx, ny, nz) && 0 < |q|
    requires us' == us[q[0] := psiW[q[0]] + Turns(m)]
    requires vs' == Mark(vs[q[0] := 2], Fresh(q[0], vs[q[0] := 2], ts, nx, ny, nz, 26))
    requires q' == q[1..] + Fresh(q[0], vs[q[0] := 2], ts, nx, ny, nz, 26)
    ensures Inv(psiW, mag, us', vs', ts, wr[q[0] := m], q', nunwrapped + 1, nx, ny, nz)
    ensures Unresolved(vs') < Unresolved(vs)
  {
    var c := q[0];
    var v1 := vs[c := 2];
    var f := Fresh(c, v1, ts, nx, ny, nz, 26);
    var v2 := Mark(v1, f);
    DequeueKeepsQueue(q, vs, ts, nx, ny, nz);
    GrowKeepsQueue(q[1..], v1, ts, c, nx, ny, nz);
    FreshUnvisited(c, v1, ts, nx, ny, nz);
    MarkKeepsResolved(v1, f);
    ResolveKeepsWraps(psiW, us, vs, v2, ts, wr, c, m);
    assert ResolvedTrusted(v2, ts) == ResolvedTrusted(vs, ts) + {c};
    assert Unresolved(v2) <= Unresolved(vs) - {c};
  }

  /**
   * Resolving voxel c with wrap count m, where c becomes the only newly
   * resolved voxel, keeps every phase equal to its wrapped phase plus its
   * wrap count, the wrap count zero off the resolved voxels and the
   * untrusted voxels (but voxel 0) unresolved.
   */
  lemma ResolveKeepsWraps(psiW: seq<real>, us: seq<real>, vs: seq<int>, v2: seq<int>, ts: seq<real>,
                          wr: seq<int>, c: int, m: int)
    requires |us| == |psiW| && |vs| == |psiW| && |v2| == |psiW| && |ts| == |psiW| && |wr| == |psiW|
    requires 0 <= c < |psiW| && (c == 0 || ts[c] > 0.0)
    requires forall i :: 0 <= i < |us| ==> us[i] == psiW[i] + Turns(wr[i])
    requires forall i :: 0 <= i < |vs| && vs[i] != 2 ==> wr[i] == 0
    requires forall i :: 0 < i < |vs| && ts[i] <= 0.0 ==> vs[i] != 2
    requires forall i :: 0 <= i < |vs| ==> (v2[i] == 2 <==> vs[i] == 2 || i == c)
    ensures forall i :: 0 <= i < |us| ==> us[c := psiW[c] + Turns(m)][i] == psiW[i] + Turns(wr[c := m][i])
    ensures forall i :: 0 <= i < |v2| && v2[i] != 2 ==> wr[c := m][i] == 0
    ensures forall i :: 0 < i < |v2| && ts[i] <= 0.0 ==> v2[i] != 2
  {
  }

  /** The neighbours the front voxel enqueues fit in the queue beside the rest of it. */
  lemma InvQueueRoom(psiW: seq<real>, mag: seq<real>, us: seq<real>, vs: seq<int>, ts: seq<real>,
                     wr: seq<int>, q: seq<int>, nunwrapped: int, nx: int, ny: int, nz: int)
    requires Inv(psiW, mag, us, vs, ts, wr, q, nunwrapped, nx, ny, nz) && 0 < |q|
    ensures |q| - 1 + |Fresh(q[0], vs[q[0] := 2], ts, nx, ny, nz, 26)| < nx * ny * nz
  {
    DequeueKeepsQueue(q, vs, ts, nx, ny, nz);
    GrowKeepsQueue(q[1..], vs[q[0] := 2], ts, q[0], nx, ny, nz);
  }

  /**
   * One call of find_seed inside the main loop, with the queue empty, and
   * the seed then given any wrap count m: the invariant is kept.
   */
  lemma SeedStep(psiW: seq<real>, mag: seq<real>, us: seq<real>, vs: seq<int>, ts: seq<real>,
                 wr: seq<int>, nunwrapped: int, nx: int, ny: int, nz: int, m: int)
    requires Inv(psiW, mag, us, vs, ts, wr, [], nunwrapped, nx, ny, nz)
    ensures Inv(psiW, mag, us[Seed(mag, vs, ts) := psiW[Seed(mag, vs, ts)] + Turns(m)],
                Mark(vs[Seed(mag, vs, ts) := 2], Fresh(Seed(mag, vs, ts), vs[Seed(mag, vs, ts) := 2], ts, nx, ny, nz, 26)),
                ts, wr[Seed(mag, vs, ts) := m],
                Fresh(Seed(mag, vs, ts), vs[Seed(mag, vs, ts) := 2], ts, nx, ny, nz, 26), nunwrapped + 1, nx, ny, nz)
  {
    var s := Seed(mag, vs, ts);
    var v1 := vs[s := 2];
    var f := Fresh(s, v1, ts, nx, ny, nz, 26);
    var v2 := Mark(v1, f);
    GrowKeepsQueue([], v1, ts, s, nx, ny, nz);
    FreshUnvisited(s, v1, ts, nx, ny, nz);
    MarkKeepsResolved(v1, f);
    SeedCount(mag, vs, ts, v2, nunwrapped);
    assert [] + f == f;
  }

  /** SeedStep with the new state given by name. */
  lemma SeedStepAt(psiW: seq<real>, mag: seq<real>, us: seq<real>, vs: seq<int>, ts: seq<real>,
                   wr: seq<int>, nunwrapped: int, nx: int, ny: int, nz: int, m: int,
                   us': seq<real>, vs': seq<int>, q': seq<int>)
    requires Inv(psiW, mag, us, vs, ts, wr, [], nunwrapped, nx, ny, nz)
    requires us' == us[Seed(mag, vs, ts) := psiW[Seed(mag, vs, ts)] + Turns(m)]
    requires q' == Fresh(Seed(mag, vs, ts), vs[Seed(mag, vs, ts) := 2], ts, nx, ny, nz, 26)
    requires vs' == Mark(vs[Seed(mag, vs, ts) := 2], q')
    ensures Inv(psiW, mag, us', vs', ts, wr[Seed(mag, vs, ts) := m], q', nunwrapped + 1, nx, ny, nz)
  {
    SeedStep(psiW, mag, us, vs, ts, wr, nunwrapped, nx, ny, nz, m);
  }

  /**
   * The seed is a trust candidate or the fallback 0, and resolving it
   * keeps the count of resolved trusted voxels in step with nunwrapped.
   */
  lemma SeedCount(mag: seq<real>, vs: seq<int>, ts: seq<real>, v2: seq<int>, nunwrapped: int)
    requires 0 < |vs| && |mag| == |vs| && |ts| == |vs| && |v2| == |vs|
    requires forall i :: 0 <= i < |vs| ==> 0 <= vs[i] <= 2
    requires forall i :: 0 <= i < |vs| ==> (v2[i] == 2 <==> vs[i] == 2 || i == Seed(mag, vs, ts))
    requires nunwrapped + 1 == |ResolvedTrusted(vs, ts)| || PositiveResolved(mag, vs, ts)
    ensures Seed(mag, vs, ts) == 0 || ts[Seed(mag, vs, ts)] > 0.0
    ensures nunwrapped + 2 == |ResolvedTrusted(v2, ts)| || PositiveResolved(mag, v2, ts)
  {
    var s := Seed(mag, vs, ts);
    var elig := Eligible(vs, ts);
    SeedScanIsFirstMax(mag, elig, |vs|);
    if exists j :: 0 <= j < |vs| && elig[j] && 0.0 < mag[j] {
      assert ts[s] > 0.0 && vs[s] < 2;
      assert ResolvedTrusted(v2, ts) == ResolvedTrusted(vs, ts) + {s};
    } else {
      assert PositiveResolved(mag, vs, ts) by {
        forall i | 0 <= i < |ts| && ts[i] > 0.0 && 0.0 < mag[i]
          ensures vs[i] == 2
        {
          assert !elig[i];
        }
      }
    }
  }

  /** Before the first seed: nothing visited, nothing unwrapped, an empty queue. */
  lemma InitialInv(psiW: seq<real>, mag: seq<real>, ts: seq<real>, nx: int, ny: int, nz: int)
    requires 0 < nx && 0 < ny && 0 < nz && |psiW| == nx * ny * nz && |mag| == nx * ny * nz && |ts| == nx * ny * nz
    requires TrustFlags(ts)
    ensures Inv(psiW, mag, psiW, seq(nx * ny * nz, i => 0), ts, seq(nx * ny * nz, i => 0), [], -1, nx, ny, nz)
  {
    assert ResolvedTrusted(seq(nx * ny * nz, i => 0), ts) == {};
  }

  /**
   * When nunwrapped has caught up with the number of trusted voxels, the
   * count cannot be in step (it would exceed the trusted voxels), so every
   * trusted voxel of positive magnitude is resolved.
   */
  lemma Completion(mag: seq<real>, vs: seq<int>, ts: seq<real>, nunwrapped: int, nmask: int)
    requires |mag| == |ts| && |vs| == |ts| && nmask == |TrustedSet(ts)| && nmask <= nunwrapped
    requires nunwrapped + 1 == |ResolvedTrusted(vs, ts)| || PositiveResolved(mag, vs, ts)
    ensures PositiveResolved(mag, vs, ts)
  {
    if !PositiveResolved(mag, vs, ts) {
      SubsetSize(ResolvedTrusted(vs, ts), TrustedSet(ts));
    }
  }

  /**
   * When the count has caught up with the trusted voxels (so the outer loop
   * is about to stop) every trusted voxel of positive magnitude is
   * resolved, and find_seed then falls back to voxel 0.
   */
  lemma FinalSeed(mag: seq<real>, vs: seq<int>, ts: seq<real>, nunwrapped: int, ntrust: int)
    requires |mag| == |vs| == |ts| && ntrust == |TrustedSet(ts)| && ntrust <= nunwrapped + 1
    requires nunwrapped + 1 == |ResolvedTrusted(vs, ts)| || PositiveResolved(mag, vs, ts)
    ensures PositiveResolved(mag, vs, ts)
    ensures Seed(mag, vs, ts) == 0
  {
    if !PositiveResolved(mag, vs, ts) {
      var i :| 0 <= i < |ts| && ts[i] > 0.0 && 0.0 < mag[i] && vs[i] != 2;
      SubsetSize(ResolvedTrusted(vs, ts) + {i}, TrustedSet(ts));
    }
    SeedScanIsFirstMax(mag, Eligible(vs, ts), |vs|);
  }

  // -------------------------------------------------------------- entry point

  /**
   * The body of the inner loop of mexFunction: take the front voxel off
   * the queue, predict its phase from its resolved neighbours, unwrap it to
   * the candidate nearest the prediction, mark it resolved, count it and
   * enqueue its neighbours.
   */
  method ResolveFront(psiW: seq<real>, mag: seq<real>, psiUw: array<real>, visited: array<int>, trust: array<real>,
                      stack: array<int>, nstack: int, nunwrapped: int, nx: int, ny: int, nz: int, ghost wr: seq<int>)
    returns (c: int, nstack': int, ghost wr': seq<int>)
    requires stack != visited && psiUw != trust
    requires stack.Length == nx * ny * nz && psiUw.Length == nx * ny * nz && visited.Length == nx * ny * nz && trust.Length == nx * ny * nz
    requires 0 < nstack <= stack.Length
    requires Inv(psiW, mag, psiUw[..], visited[..], trust[..], wr, stack[..nstack], nunwrapped, nx, ny, nz)
    modifies psiUw, visited, stack
    ensures c == old(stack[0]) && 0 <= c < nx * ny * nz && 0 <= nstack' <= stack.Length
    ensures Inv(psiW, mag, psiUw[..], visited[..], trust[..], wr', stack[..nstack'], nunwrapped + 1, nx, ny, nz)
    ensures Unresolved(visited[..]) < old(Unresolved(visited[..]))
    ensures Predicted(c, old(psiUw[..]), old(visited[..]), trust[..], nx, ny, nz).Some?
    ensures wr'[c] == Ambiguity(Predicted(c, old(psiUw[..]), old(visited[..]), trust[..], nx, ny, nz).value - psiW[c])
    ensures psiUw[..] == old(psiUw[..])[c := psiW[c] + Turns(wr'[c])]
  {
    ghost var us, vs, ts, q := psiUw[..], visited[..], trust[..], stack[..nstack];
    var n, m;
    c, n, m := TakeFront(psiW, psiUw, visited, trust, stack, nstack, nx, ny, nz);
    assert psiUw[..] == us && visited[..] == vs && trust[..] == ts && stack[..n] == q[1..];
    ghost var f := Fresh(c, vs[c := 2], ts, nx, ny, nz, 26);
    InvQueueRoom(psiW, mag, us, vs, ts, wr, q, nunwrapped, nx, ny, nz);
    wr' := wr[c := m];
    assert wr'[c] == m;
    nstack' := Commit(c, m, psiW, psiUw, visited, trust, stack, n, nx, ny, nz);
    assert trust[..] == ts && psiUw[..] == us[c := psiW[c] + Turns(m)];
    ResolveStep(psiW, mag, us, vs, ts, wr, q, nunwrapped, nx, ny, nz, m, psiUw[..], visited[..], stack[..nstack']);
  }

  /**
   * The head of the inner loop's body: take the front voxel off the queue,
   * predict its phase, and compute the wrap count that brings its wrapped
   * phase nearest the prediction.
   */
  method TakeFront(psiW: seq<real>, psiUw: array<real>, visited: array<int>, trust: array<real>, stack: array<int>,
                   nstack: int, nx: int, ny: int, nz: int) returns (c: int, n: int, m: int)
    requires 0 < nx && 0 < ny && |psiW| == nx * ny * nz && psiUw.Length == nx * ny * nz && visited.Length == nx * ny * nz
    requires trust.Length == nx * ny * nz && TrustFlags(trust[..])
    requires stack != visited && 0 < nstack <= stack.Length
    requires 0 <= stack[0] < nx * ny * nz && HasResolvedNeighbour(stack[0], visited[..], nx, ny, nz)
    modifies stack
    ensures c == old(stack[0]) && n == nstack - 1 && stack[..n] == old(stack[1..nstack])
    ensures psiUw[..] == old(psiUw[..]) && visited[..] == old(visited[..]) && trust[..] == old(trust[..])
    ensures Predicted(c, old(psiUw[..]), old(visited[..]), trust[..], nx, ny, nz).Some?
    ensures m == Ambiguity(Predicted(c, old(psiUw[..]), old(visited[..]), trust[..], nx, ny, nz).value - psiW[c])
  {
    c := stack[0];
    // predict_phase does not read the queue, so it may run before the downstack
    m := WrapCount(c, psiW, psiUw, visited, trust, nx, ny, nz);
    n := Downstack(stack, nstack);
  }

  /**
   * The wrap count of a queued voxel: predict its phase from its resolved
   * neighbours and round the distance to the wrapped phase to whole turns.
   */
  method WrapCount(c: int, psiW: seq<real>, psiUw: array<real>, visited: array<int>, trust: array<real>,
                   nx: int, ny: int, nz: int) returns (m: int)
    requires 0 < nx && 0 < ny && |psiW| == nx * ny * nz && psiUw.Length == nx * ny * nz && visited.Length == nx * ny * nz
    requires trust.Length == nx * ny * nz && TrustFlags(trust[..])
    requires 0 <= c < nx * ny * nz && HasResolvedNeighbour(c, visited[..], nx, ny, nz)
    ensures Predicted(c, psiUw[..], visited[..], trust[..], nx, ny, nz).Some?
    ensures m == Ambiguity(Predicted(c, psiUw[..], visited[..], trust[..], nx, ny, nz).value - psiW[c])
  {
    FrontPredicted(c, psiUw[..], visited[..], trust[..], nx, ny, nz);
    var predicted := PredictPhase(c, psiUw, visited, trust, nx, ny, nz);
    m := Ambiguity(predicted.value - psiW[c]);
  }

  /**
   * The tail of the inner loop's body: store the unwrapped phase of c, mark
   * c resolved and offer its neighbours to the queue.
   */
  method Commit(c: int, m: int, psiW: seq<real>, psiUw: array<real>, visited: array<int>, trust: array<real>,
                stack: array<int>, n: int, nx: int, ny: int, nz: int) returns (n': int)
    requires 0 < nx && 0 < ny && 0 <= c < nx * ny * nz && |psiW| == nx * ny * nz
    requires stack != visited && psiUw != trust
    requires psiUw.Length == nx * ny * nz && visited.Length == nx * ny * nz && trust.Length == nx * ny * nz
    requires 0 <= n && n + |Fresh(c, visited[..][c := 2], trust[..], nx, ny, nz, 26)| <= stack.Length
    modifies psiUw, visited, stack
    ensures psiUw[..] == old(psiUw[..])[c := psiW[c] + Turns(m)] && trust[..] == old(trust[..])
    ensures n' == n + |Fresh(c, old(visited[..])[c := 2], trust[..], nx, ny, nz, 26)|
    ensures stack[..n'] == old(stack[..n]) + Fresh(c, old(visited[..])[c := 2], trust[..], nx, ny, nz, 26)
    ensures visited[..] == Mark(old(visited[..])[c := 2], Fresh(c, old(visited[..])[c := 2], trust[..], nx, ny, nz, 26))
  {
    psiUw[c] := psiW[c] + Turns(m);
    visited[c] := 2;
    n' := AddNeighbours(c, stack, visited, trust, n, nx, ny, nz);
  }

  /**
   * The closing part of each pass of the outer loop: find_seed, then the
   * seed's phase set to its wrapped phase plus m = 0 turns, so every new
   * region starts from its seed's wrapped phase.
   */
  method Reseed(psiW: seq<real>, mag: seq<real>, psiUw: array<real>, visited: array<int>, trust: array<real>,
                stack: array<int>, nunwrapped: int, nx: int, ny: int, nz: int, ghost wr: seq<int>)
    returns (seed: int, nstack: int, counted: int, ghost wr': seq<int>)
    requires stack != visited && psiUw != trust
    requires stack.Length == nx * ny * nz && psiUw.Length == nx * ny * nz && visited.Length == nx * ny * nz && trust.Length == nx * ny * nz
    requires Inv(psiW, mag, psiUw[..], visited[..], trust[..], wr, [], nunwrapped, nx, ny, nz)
    modifies psiUw, visited, stack
    ensures seed == Seed(mag, old(visited[..]), trust[..]) && 0 <= seed < nx * ny * nz
    ensures counted == nunwrapped + 1 && 0 <= nstack < stack.Length
    ensures psiUw[..] == old(psiUw[..])[seed := psiW[seed]] && wr' == wr[seed := 0]
    ensures Inv(psiW, mag, psiUw[..], visited[..], trust[..], wr', stack[..nstack], counted, nx, ny, nz)
  {
    ghost var vs, us, ts := visited[..], psiUw[..], trust[..];
    seed, nstack, counted := FindSeed(mag, visited, trust, stack, nunwrapped, nx, ny, nz);
    assert psiUw[..] == us && trust[..] == ts;
    var m := 0;
    psiUw[seed] := psiW[seed] + Turns(m);
    wr' := wr[seed := m];
    assert trust[..] == ts;
    SeedStepAt(psiW, mag, us, vs, ts, wr, nunwrapped, nx, ny, nz, m, psiUw[..], visited[..], stack[..nstack]);
  }

  /**
   * The initialisation loop of mexFunction: the output starts as the
   * wrapped input, trust is 1.0 where the magnitude reaches the threshold
   * and 0.0 elsewhere, nothing is visited, and ntrust counts the trusted
   * voxels. The queue gets its own array of one slot per voxel.
   */
  method Initialise(psiW: seq<real>, mag: seq<real>, magth: real, nx: int, ny: int, nz: int)
    returns (psiUwA: array<real>, trust: array<real>, visited: array<int>, stack: array<int>, ntrust: int)
    requires 0 < nx && 0 < ny && 0 < nz && |psiW| == nx * ny * nz && |mag| == nx * ny * nz
    ensures fresh(psiUwA) && fresh(trust) && fresh(visited) && fresh(stack)
    ensures psiUwA.Length == nx * ny * nz && trust.Length == nx * ny * nz
    ensures visited.Length == nx * ny * nz && stack.Length == nx * ny * nz
    ensures stack != visited && psiUwA != trust
    ensures psiUwA[..] == psiW && visited[..] == seq(nx * ny * nz, i => 0)
    ensures forall j :: 0 <= j < nx * ny * nz ==> trust[j] == (if magth <= mag[j] then 1.0 else 0.0)
    ensures ntrust == |TrustedSet(trust[..])|
  {
    var n := nx * ny * nz;
    psiUwA := new real[n];
    trust := new real[n];
    visited := new int[n];
    stack := new int[n];
    ntrust := 0;
    for i := 0 to n
      invariant forall j :: 0 <= j < i ==> psiUwA[j] == psiW[j]
      invariant forall j :: 0 <= j < i ==> trust[j] == (if magth <= mag[j] then 1.0 else 0.0)
      invariant forall j :: 0 <= j < i ==> visited[j] == 0
      invariant ntrust == |AboveThreshold(mag, magth, i)|
      modifies psiUwA, trust, visited
    {
      psiUwA[i] := psiW[i];
      trust[i] := if mag[i] >= magth then 1.0 else 0.0;
      visited[i] := 0;
      AboveThresholdStep(mag, magth, i);
      if trust[i] > 0.0 {
        ntrust := ntrust + 1;
      }
    }
    TrustedAboveThreshold(trust[..], mag, magth);
    assert psiUwA[..] == psiW;
    assert visited[..] == seq(n, i => 0);
  }

  /** The indices below k whose magnitude reaches the threshold. */
  ghost function AboveThreshold(mag: seq<real>, magth: real, k: nat): set<int>
    requires k <= |mag|
  {
    set j | 0 <= j < k && magth <= mag[j]
  }

  lemma AboveThresholdStep(mag: seq<real>, magth: real, k: nat)
    requires k < |mag|
    ensures |AboveThreshold(mag, magth, k + 1)| == |AboveThreshold(mag, magth, k)| + if magth <= mag[k] then 1 else 0
  {
    var e: set<int> := if magth <= mag[k] then {k} else {};
    assert AboveThreshold(mag, magth, k + 1) == AboveThreshold(mag, magth, k) + e;
  }

  lemma TrustedAboveThreshold(ts: seq<real>, mag: seq<real>, magth: real)
    requires |ts| == |mag|
    requires forall j :: 0 <= j < |ts| ==> ts[j] == (if magth <= mag[j] then 1.0 else 0.0)
    ensures TrustedSet(ts) == AboveThreshold(mag, magth, |mag|)
  {
  }

  /** What the final state of the main loop says about the output. */
  lemma Outcome(psiW: seq<real>, mag: seq<real>, magth: real, us: seq<real>, vs: seq<int>, ts: seq<real>,
                wr: seq<int>, q: seq<int>, nunwrapped: int, ntrust: int, nx: int, ny: int, nz: int)
    requires Inv(psiW, mag, us, vs, ts, wr, q, nunwrapped, nx, ny, nz)
    requires forall j :: 0 <= j < nx * ny * nz ==> ts[j] == (if magth <= mag[j] then 1.0 else 0.0)
    requires ntrust == |TrustedSet(ts)| && ntrust <= nunwrapped
    requires ntrust == 0 ==> wr == seq(nx * ny * nz, i => 0)
    requires 0 < ntrust ==> us[0] == psiW[0]
    ensures forall i :: 0 <= i < nx * ny * nz && vs[i] != 2 ==> us[i] == psiW[i]
    ensures forall i :: 0 < i < nx * ny * nz && vs[i] == 2 ==> magth <= mag[i]
    ensures forall i :: 0 <= i < nx * ny * nz && magth <= mag[i] && 0.0 < mag[i] ==> vs[i] == 2
    ensures us[0] == psiW[0]
    ensures (forall i :: 0 <= i < nx * ny * nz ==> mag[i] < magth) ==> us == psiW
  {
    if forall i :: 0 <= i < nx * ny * nz ==> mag[i] < magth {
      assert TrustedSet(ts) == {};
      assert forall i :: 0 <= i < nx * ny * nz ==> us[i] == psiW[i];
    }
    Completion(mag, vs, ts, nunwrapped, ntrust);
    if ntrust == 0 {
      assert wr[0] == 0;
    }
  }

  /**
   * The first find_seed of mexFunction, before the main loop: the seed keeps
   * its wrapped phase and nunwrapped is then reset to 0, so the count lags
   * one behind the resolved trusted voxels.
   */
  method FirstSeed(psiW: seq<real>, mag: seq<real>, psiUwA: array<real>, visited: array<int>, trust: array<real>,
                   stack: array<int>, nx: int, ny: int, nz: int)
    returns (nstack: int, ghost wr: seq<int>)
    requires 0 < nx && 0 < ny && 0 < nz && |psiW| == nx * ny * nz && |mag| == nx * ny * nz
    requires stack != visited
    requires stack.Length == nx * ny * nz && psiUwA.Length == nx * ny * nz && visited.Length == nx * ny * nz && trust.Length == nx * ny * nz
    requires psiUwA[..] == psiW && visited[..] == seq(nx * ny * nz, i => 0) && TrustFlags(trust[..])
    modifies visited, stack
    ensures 0 <= nstack <= stack.Length && wr == seq(nx * ny * nz, i => 0)
    ensures Inv(psiW, mag, psiUwA[..], visited[..], trust[..], wr, stack[..nstack], 0, nx, ny, nz)
  {
    wr := seq(nx * ny * nz, i => 0);
    InitialInv(psiW, mag, trust[..], nx, ny, nz);
    SeedStep(psiW, mag, psiUwA[..], visited[..], trust[..], wr, -1, nx, ny, nz, 0);
    ghost var s0 := Seed(mag, visited[..], trust[..]);
    assert psiUwA[..][s0 := psiW[s0] + Turns(0)] == psiUwA[..];
    assert wr[s0 := 0] == wr;
    var seed, counted;
    seed, nstack, counted := FindSeed(mag, visited, trust, stack, 0, nx, ny, nz);
  }

  /**
   * The main region-growing loop of mexFunction, from nunwrapped = 0 until
   * nunwrapped reaches ntrust: drain the queue, then reseed. The last
   * reseed falls back to voxel 0 and gives it back its wrapped phase.
   */
  method Grow(psiW: seq<real>, mag: seq<real>, psiUwA: array<real>, visited: array<int>, trust: array<real>,
              stack: array<int>, nstack0: int, ntrust: int, nx: int, ny: int, nz: int, ghost wr0: seq<int>)
    returns (nstack: int, nunwrapped: int, ghost wr: seq<int>)
    requires stack != visited && psiUwA != trust
    requires stack.Length == nx * ny * nz && psiUwA.Length == nx * ny * nz && visited.Length == nx * ny * nz && trust.Length == nx * ny * nz
    requires 0 <= nstack0 <= stack.Length && ntrust == |TrustedSet(trust[..])|
    requires Inv(psiW, mag, psiUwA[..], visited[..], trust[..], wr0, stack[..nstack0], 0, nx, ny, nz)
    modifies psiUwA, visited, stack
    ensures 0 <= nstack <= stack.Length && ntrust <= nunwrapped
    ensures Inv(psiW, mag, psiUwA[..], visited[..], trust[..], wr, stack[..nstack], nunwrapped, nx, ny, nz)
    ensures ntrust == 0 ==> wr == wr0
    ensures 0 < ntrust ==> psiUwA[0] == psiW[0]
  {
    ghost var ts := trust[..];
    var n := nx * ny * nz;
    nstack, wr := nstack0, wr0;
    var seed;
    nunwrapped := 0;
    while nunwrapped < ntrust
      invariant 0 <= nunwrapped && 0 <= nstack <= stack.Length
      invariant Inv(psiW, mag, psiUwA[..], visited[..], ts, wr, stack[..nstack], nunwrapped, nx, ny, nz)
      invariant ntrust == 0 ==> wr == wr0
      invariant 0 < ntrust <= nunwrapped ==> psiUwA[0] == psiW[0]
      modifies psiUwA, visited, stack
      decreases ntrust - nunwrapped
    {
      ghost var start := nunwrapped;
      while 0 < nstack < n
        invariant 0 <= nstack <= stack.Length && start <= nunwrapped
        invariant Inv(psiW, mag, psiUwA[..], visited[..], ts, wr, stack[..nstack], nunwrapped, nx, ny, nz)
        modifies psiUwA, visited, stack
        decreases Unresolved(visited[..])
      {
        var c;
        c, nstack, wr := ResolveFront(psiW, mag, psiUwA, visited, trust, stack, nstack, nunwrapped, nx, ny, nz, wr);
        nunwrapped := nunwrapped + 1;
      }
      assert stack[..nstack] == [];
      ghost var vs := visited[..];
      ghost var before := nunwrapped;
      seed, nstack, nunwrapped, wr := Reseed(psiW, mag, psiUwA, visited, trust, stack, nunwrapped, nx, ny, nz, wr);
      if ntrust <= nunwrapped {
        FinalSeed(mag, vs, ts, before, ntrust);
      }
    }
  }

  /**
   * mexFunction: [psi_uw, trust] = MEX_Unwrap3D(psi_w, mag, magth) on an
   * nx-by-ny-by-nz volume. Every output phase differs from the input by a
   * whole number of turns; trust marks the voxels whose magnitude reaches
   * the threshold; untrusted voxels keep their wrapped phase, except voxel
   * 0, which the fallback seed may resolve but ends with its wrapped phase;
   * the queue never overflows; and every trusted voxel of positive
   * magnitude is resolved.
   */
  method Unwrap(psiW: seq<real>, mag: seq<real>, magth: real, nx: int, ny: int, nz: int)
    returns (psiUw: seq<real>, trust: seq<real>, overflow: bool, ghost wraps: seq<int>, ghost resolved: set<int>)
    requires 0 < nx && 0 < ny && 0 < nz && |psiW| == nx * ny * nz && |mag| == nx * ny * nz
    ensures |psiUw| == nx * ny * nz && |trust| == nx * ny * nz && |wraps| == nx * ny * nz
    ensures forall i :: 0 <= i < nx * ny * nz ==> trust[i] == if magth <= mag[i] then 1.0 else 0.0
    ensures forall i :: 0 <= i < nx * ny * nz ==> psiUw[i] == psiW[i] + Turns(wraps[i])
    ensures forall i :: 0 <= i < nx * ny * nz && i !in resolved ==> psiUw[i] == psiW[i]
    ensures forall i :: i in resolved ==> 0 <= i < nx * ny * nz && (i == 0 || magth <= mag[i])
    ensures forall i :: 0 <= i < nx * ny * nz && magth <= mag[i] && 0.0 < mag[i] ==> i in resolved
    ensures psiUw[0] == psiW[0]
    ensures (forall i :: 0 <= i < nx * ny * nz ==> mag[i] < magth) ==> psiUw == psiW
    ensures !overflow
  {
    var n := nx * ny * nz;
    var psiUwA, trustA, visited, stack, ntrust := Initialise(psiW, mag, magth, nx, ny, nz);
    ghost var ts := trustA[..];
    ghost var wr;
    var nstack;
    nstack, wr := FirstSeed(psiW, mag, psiUwA, visited, trustA, stack, nx, ny, nz);
    var nunwrapped;
    nstack, nunwrapped, wr := Grow(psiW, mag, psiUwA, visited, trustA, stack, nstack, ntrust, nx, ny, nz, wr);
    overflow := nstack >= n;
    psiUw := psiUwA[..];
    trust := trustA[..];
    wraps := wr;
    ghost var vs := visited[..];
    resolved := set i | 0 <= i < n && vs[i] == 2;
    Outcome(psiW, mag, magth, psiUw, vs, ts, wr, stack[..nstack], nunwrapped, ntrust, nx, ny, nz);
  }
}
