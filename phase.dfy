/**
 * Phase arithmetic shared by the 2D and 3D region-growing unwrappers:
 * the wrap count ("ambiguity") that brings a wrapped phase closest to a
 * predicted one, and the weighted mean used to predict a voxel's phase
 * from its already resolved neighbours.
 *
 * Phases are modelled as exact reals; floating-point rounding is not.
 */
module Phase {
  import opened Wrappers

  /**
   * m whole turns: m times 2.0 * M_PI as a double (any positive constant
   * would do for the proofs). The constant is written as a literal so that
   * every product with it is linear.
   */
  function Turns(m: int): real {
    m as real * 6.283185307179586
  }

  function Abs(x: real): real {
    if x < 0.0 then -x else x
  }

  /**
   * `(int)(x + 0.5)` for a non-negative x: the C cast truncates toward zero,
   * which for a non-negative operand is the floor.
   */
  function RoundHalfUp(x: real): (n: int)
    requires 0.0 <= x
    ensures 0 <= n
    ensures x - 0.5 < n as real <= x + 0.5
  {
    (x + 0.5).Floor
  }

  /**
   * The wrap count m for a phase difference dp = predicted - wrapped:
   * m = round(|dp| / 2pi) with the sign of dp restored afterwards.
   * m * 2pi is within half a turn of dp, and m has the sign of dp.
   */
  function Ambiguity(dp: real): (m: int)
    ensures dp < 0.0 ==> m <= 0
    ensures 0.0 <= dp ==> 0 <= m
    ensures Abs(dp - Turns(m)) <= Turns(1) / 2.0
  {
    var n := RoundHalfUp(Abs(dp) / 6.283185307179586);
    if dp < 0.0 then -n else n
  }

  /**
   * m * 2pi is a multiple of 2pi nearest to dp: adding it to the wrapped
   * phase gives the candidate closest to the prediction.
   */
  lemma AmbiguityIsNearest(dp: real, k: int)
    ensures Abs(dp - Turns(Ambiguity(dp))) <= Abs(dp - Turns(k))
  {
    var m := Ambiguity(dp);
    if k != m {
      var e := dp - Turns(m);
      assert dp - Turns(k) == e - Turns(k - m);
      if k > m {
        assert Turns(k - m) >= Turns(1);
      } else {
        assert Turns(k - m) <= -Turns(1);
      }
    }
  }

  /**
   * At an exact tie (|dp| an odd multiple of pi) the wrap count is rounded
   * away from zero: no equally near multiple has a larger magnitude.
   */
  lemma AmbiguityTieAwayFromZero(dp: real, k: int)
    requires Abs(dp - Turns(k)) == Abs(dp - Turns(Ambiguity(dp)))
    ensures k == Ambiguity(dp) || (if k < 0 then -k else k) < (if Ambiguity(dp) < 0 then -Ambiguity(dp) else Ambiguity(dp))
  {
    var m := Ambiguity(dp);
    var n := RoundHalfUp(Abs(dp) / 6.283185307179586);
    if k != m {
      // equal distance on opposite sides: k = 2 dp / 2pi - m
      assert dp - Turns(k) == -(dp - Turns(m));
      assert Turns(k + m) == 2.0 * dp;
    }
  }

  /** Sum of the first k weights, accumulated left to right as the C loop does. */
  function Sum(ws: seq<real>, k: nat): real
    requires k <= |ws|
  {
    if k == 0 then 0.0 else Sum(ws, k - 1) + ws[k - 1]
  }

  /** Sum of the first k phase * weight products, accumulated left to right. */
  function WeightedSum(ps: seq<real>, ws: seq<real>, k: nat): real
    requires |ps| == |ws| && k <= |ws|
  {
    if k == 0 then 0.0 else WeightedSum(ps, ws, k - 1) + ps[k - 1] * ws[k - 1]
  }

  /**
   * The weighted mean sum(p*w)/sum(w); None stands for the C code's 0/0,
   * which yields NaN when no direction contributed.
   */
  function WeightedMean(ps: seq<real>, ws: seq<real>): Option<real>
    requires |ps| == |ws|
  {
    if Sum(ws, |ws|) == 0.0 then None else Some(WeightedSum(ps, ws, |ws|) / Sum(ws, |ws|))
  }

  /** The closing loop of predict_phase: accumulate sum(p * w) and sum(w), then divide. */
  method MeanOf(p: array<real>, w: array<real>) returns (r: Option<real>)
    requires p.Length == w.Length
    ensures r == WeightedMean(p[..], w[..])
  {
    var sumPw, sumW := 0.0, 0.0;
    for i := 0 to p.Length
      invariant sumW == Sum(w[..], i) && sumPw == WeightedSum(p[..], w[..], i)
    {
      sumPw := sumPw + p[i] * w[i];
      sumW := sumW + w[i];
    }
    if sumW == 0.0 {
      r := None;
    } else {
      r := Some(sumPw / sumW);
    }
  }

  ghost predicate NonNegative(ws: seq<real>) {
    forall i :: 0 <= i < |ws| ==> 0.0 <= ws[i]
  }

  /** Every contributing (positive-weight) phase lies in [lo, hi]. */
  ghost predicate ContributorsWithin(ps: seq<real>, ws: seq<real>, lo: real, hi: real)
    requires |ps| == |ws|
  {
    forall i :: 0 <= i < |ws| && 0.0 < ws[i] ==> lo <= ps[i] <= hi
  }

  /** a <= b scaled by a non-negative factor. */
  lemma ScaleLe(a: real, b: real, w: real)
    requires a <= b && 0.0 <= w
    ensures a * w <= b * w
  {
    assert (b - a) * w >= 0.0;
  }

  /** Non-negative weights have a non-negative sum, zero exactly when every weight is. */
  lemma {:induction false} SumNonNegative(ws: seq<real>, k: nat)
    requires k <= |ws| && NonNegative(ws)
    ensures 0.0 <= Sum(ws, k)
    ensures Sum(ws, k) == 0.0 <==> forall i :: 0 <= i < k ==> ws[i] == 0.0
  {
    if k > 0 {
      SumNonNegative(ws, k - 1);
    }
  }

  lemma {:induction false} SumAbove(ps: seq<real>, ws: seq<real>, lo: real, k: nat)
    requires |ps| == |ws| && k <= |ws| && NonNegative(ws)
    requires forall i :: 0 <= i < |ws| && 0.0 < ws[i] ==> lo <= ps[i]
    ensures lo * Sum(ws, k) <= WeightedSum(ps, ws, k)
  {
    if k > 0 {
      SumAbove(ps, ws, lo, k - 1);
      StepAbove(Sum(ws, k - 1), WeightedSum(ps, ws, k - 1), ps[k - 1], ws[k - 1], lo, Sum(ws, k), WeightedSum(ps, ws, k));
    }
  }

  lemma {:induction false} SumBelow(ps: seq<real>, ws: seq<real>, hi: real, k: nat)
    requires |ps| == |ws| && k <= |ws| && NonNegative(ws)
    requires forall i :: 0 <= i < |ws| && 0.0 < ws[i] ==> ps[i] <= hi
    ensures WeightedSum(ps, ws, k) <= hi * Sum(ws, k)
  {
    if k > 0 {
      SumBelow(ps, ws, hi, k - 1);
      StepBelow(Sum(ws, k - 1), WeightedSum(ps, ws, k - 1), ps[k - 1], ws[k - 1], hi, Sum(ws, k), WeightedSum(ps, ws, k));
    }
  }

  /** One accumulation step keeps lo * sum(w) <= sum(p * w). */
  lemma StepAbove(s: real, t: real, p: real, w: real, lo: real, s': real, t': real)
    requires lo * s <= t
    requires 0.0 <= w && (0.0 < w ==> lo <= p)
    requires s' == s + w && t' == t + p * w
    ensures lo * s' <= t'
  {
    if 0.0 < w { ScaleLe(lo, p, w); }
  }

  /** One accumulation step keeps sum(p * w) <= hi * sum(w). */
  lemma StepBelow(s: real, t: real, p: real, w: real, hi: real, s': real, t': real)
    requires t <= hi * s
    requires 0.0 <= w && (0.0 < w ==> p <= hi)
    requires s' == s + w && t' == t + p * w
    ensures t' <= hi * s'
  {
    if 0.0 < w { ScaleLe(p, hi, w); }
  }

  /** lo * s <= t with s > 0 gives lo <= t / s. */
  lemma DivideBounds(t: real, s: real, lo: real, hi: real)
    requires 0.0 < s && lo * s <= t <= hi * s
    ensures lo <= t / s <= hi
  {
    var q := t / s;
    assert q * s == t;
  }

  /**
   * With non-negative weights the mean exists exactly when some weight is
   * positive, and it lies between the least and the greatest contributing
   * phase.
   */
  lemma MeanWithin(ps: seq<real>, ws: seq<real>, lo: real, hi: real)
    requires |ps| == |ws| && NonNegative(ws) && ContributorsWithin(ps, ws, lo, hi)
    ensures WeightedMean(ps, ws).Some? <==> exists i :: 0 <= i < |ws| && 0.0 < ws[i]
    ensures WeightedMean(ps, ws).Some? ==> lo <= WeightedMean(ps, ws).value <= hi
  {
    SumNonNegative(ws, |ws|);
    SumAbove(ps, ws, lo, |ws|);
    SumBelow(ps, ws, hi, |ws|);
    if Sum(ws, |ws|) != 0.0 {
      DivideBounds(WeightedSum(ps, ws, |ws|), Sum(ws, |ws|), lo, hi);
    }
  }
}
