/**
 * The cubic spline with optional distances (cubic_spline.py).
 *
 * Without distances it behaves like the uniform-only version: every segment
 * covers the same share of the parameter range. With distances, segment i
 * covers the share dt[i] = distances[i] / sum(distances) and starts at
 * t0[i] = dt[0] + ... + dt[i-1]; the slopes d[k] are then derivatives with
 * respect to the global parameter t, the rows of the system are scaled by
 * 1/dt, and the stored cubics, still in the local parameter u in [0, 1], use
 * the end slopes d[i]·dt[i] and d[i+1]·dt[i].
 */
module Spline {

  import opened Common
  import opened LinearSystem
  import opened Cubics
  import UniformSpline

  // ---------------------------------------------------------------------------
  // Parameter spacing: dt and t0
  // ---------------------------------------------------------------------------

  function Sum(s: seq<real>): real
  {
    if |s| == 0 then 0.0 else Sum(s[..|s| - 1]) + s[|s| - 1]
  }

  predicate Positive(s: seq<real>)
  {
    forall k :: 0 <= k < |s| ==> s[k] > 0.0
  }

  lemma {:induction false} SumPositive(s: seq<real>)
    requires Positive(s) && |s| > 0
    ensures Sum(s) > 0.0
    decreases |s|
  {
    if |s| > 1 {
      SumPositive(s[..|s| - 1]);
    }
  }

  /** Extending a prefix by one element adds that element to its sum. */
  lemma SumPrefixStep(s: seq<real>, k: nat)
    requires k < |s|
    ensures Sum(s[..k + 1]) == Sum(s[..k]) + s[k]
  {
    assert s[..k + 1][..k] == s[..k];
  }

  /** Dividing every element by c divides the sum by c. */
  lemma {:induction false} SumDivided(s: seq<real>, c: real, r: seq<real>)
    requires c != 0.0 && |r| == |s| && forall k :: 0 <= k < |s| ==> r[k] == s[k] / c
    ensures Sum(r) == Sum(s) / c
    decreases |s|
  {
    if |s| > 0 {
      var n := |s|;
      SumDivided(s[..n - 1], c, r[..n - 1]);
      assert (Sum(s[..n - 1]) + s[n - 1]) / c == Sum(s[..n - 1]) / c + s[n - 1] / c;
    }
  }

  /** The sum of k copies of v. */
  lemma {:induction false} SumConstant(s: seq<real>, v: real)
    requires forall k :: 0 <= k < |s| ==> s[k] == v
    ensures Sum(s) == |s| as real * v
    decreases |s|
  {
    if |s| > 0 {
      SumConstant(s[..|s| - 1], v);
    }
  }

  /** `distances / np.sum(distances)`. */
  function Normalize(ds: seq<real>): (dt: seq<real>)
    requires Positive(ds)
    ensures |dt| == |ds| && Positive(dt)
    ensures |ds| > 0 ==> Sum(dt) == 1.0
    ensures forall k :: 0 <= k < |ds| ==> dt[k] * Sum(ds) == ds[k]
  {
    if |ds| == 0 then []
    else
      SumPositive(ds);
      var total := Sum(ds);
      var dt := seq(|ds|, k requires 0 <= k < |ds| => ds[k] / total);
      SumDivided(ds, total, dt);
      assert total > 0.0 && total / total == 1.0;
      assert Sum(dt) == 1.0;
      dt
  }

  /**
   * dt: `np.ones(N-1)` when no distances are given, the given distances
   * otherwise, normalised to sum to one.
   */
  function Steps(n: nat, distances: Option<seq<real>>): (dt: seq<real>)
    requires n >= 1
    requires distances.Some? ==> |distances.value| == n - 1 && Positive(distances.value)
    ensures |dt| == n - 1 && Positive(dt)
    ensures n >= 2 ==> Sum(dt) == 1.0
    ensures distances.None? ==> forall k :: 0 <= k < n - 1 ==> dt[k] == 1.0 / (n - 1) as real
  {
    if distances.None? then
      var ones := seq(n - 1, k => 1.0);
      SumConstant(ones, 1.0);
      Normalize(ones)
    else
      Normalize(distances.value)
  }

  /** `np.cumsum(s)`. */
  function CumSum(s: seq<real>): (c: seq<real>)
    ensures |c| == |s|
  {
    seq(|s|, k requires 0 <= k < |s| => Sum(s[..k + 1]))
  }

  /** t0: `np.insert(np.cumsum(dt[:-1]), 0, 0)`, the start of every segment. */
  function Offsets(dt: seq<real>): (t0: seq<real>)
    ensures |t0| == if |dt| == 0 then 1 else |dt|
    ensures t0[0] == 0.0
  {
    [0.0] + CumSum(if |dt| == 0 then [] else dt[..|dt| - 1])
  }

  /** Segment k starts after the shares of the segments before it. */
  lemma OffsetsAreSums(dt: seq<real>, k: nat)
    requires k < |Offsets(dt)|
    ensures Offsets(dt)[k] == Sum(dt[..k])
  {
    if k > 0 {
      var front := dt[..|dt| - 1];
      assert Offsets(dt)[k] == Sum(front[..k]);
      assert front[..k] == dt[..k];
    }
  }

  /** Each segment ends where the next begins, and the last one ends at 1. */
  lemma OffsetsChain(dt: seq<real>, k: nat)
    requires k < |dt|
    ensures k + 1 < |dt| ==> Offsets(dt)[k + 1] == Offsets(dt)[k] + dt[k]
    ensures k + 1 == |dt| ==> Offsets(dt)[k] + dt[k] == Sum(dt)
  {
    OffsetsAreSums(dt, k);
    SumPrefixStep(dt, k);
    if k + 1 < |dt| {
      OffsetsAreSums(dt, k + 1);
    } else {
      assert dt[..k + 1] == dt;
    }
  }

  /** With positive shares the segment starts are strictly increasing, from 0 and below the total. */
  lemma {:induction false} OffsetsIncreasing(dt: seq<real>, i: nat, j: nat)
    requires Positive(dt) && i < j < |dt|
    ensures 0.0 <= Offsets(dt)[i] < Offsets(dt)[j] < Sum(dt)
    decreases j - i
  {
    OffsetsChain(dt, j - 1);
    OffsetsStart(dt, j);
    if i < j - 1 {
      OffsetsIncreasing(dt, i, j - 1);
    } else {
      OffsetsStart(dt, i);
    }
  }

  lemma {:induction false} OffsetsStart(dt: seq<real>, k: nat)
    requires Positive(dt) && k < |dt|
    ensures 0.0 <= Offsets(dt)[k] < Sum(dt)
    decreases k
  {
    OffsetsChain(dt, k);
    if k > 0 {
      OffsetsStart(dt, k - 1);
      OffsetsChain(dt, k - 1);
    }
    var last := |dt| - 1;
    if k < last {
      OffsetsBelowEnd(dt, k);
    }
  }

  lemma {:induction false} OffsetsBelowEnd(dt: seq<real>, k: nat)
    requires Positive(dt) && k < |dt|
    ensures Offsets(dt)[k] + dt[k] <= Sum(dt)
    decreases |dt| - k
  {
    OffsetsChain(dt, k);
    if k + 1 < |dt| {
      OffsetsBelowEnd(dt, k + 1);
    }
  }

  // ---------------------------------------------------------------------------
  // Derivatives with respect to the global parameter
  // ---------------------------------------------------------------------------

  /** Slope along t of a cubic that covers a share h of the parameter range. */
  function GlobalSlope(c: Cubic, u: real, h: real): real
    requires h > 0.0
  {
    Slope(c, u) / h
  }

  /** Second derivative along t of a cubic that covers a share h of the parameter range. */
  function GlobalCurvature(c: Cubic, u: real, h: real): real
    requires h > 0.0
  {
    Curvature(c, u) / (h * h)
  }

  // ---------------------------------------------------------------------------
  // The system when distances are given ('natural' only)
  // ---------------------------------------------------------------------------

  /**
   * Coefficient of the slope at point j in row i: the end rows (2, 1)/dt and
   * (1, 2)/dt, and the rows (h0, 2(h0 + h1), h1) inside, with h0 and h1 the
   * reciprocals of the shares of the two segments meeting at point i.
   */
  function ScaledEntry(dt: seq<real>, i: nat, j: nat): real
    requires |dt| >= 1 && Positive(dt) && i <= |dt|
  {
    var n := |dt| + 1;
    if i == 0 then
      if j == 0 then 2.0 / dt[0] else if j == 1 then 1.0 / dt[0] else 0.0
    else if i == n - 1 then
      if j == n - 2 then 1.0 / dt[n - 2] else if j == n - 1 then 2.0 / dt[n - 2] else 0.0
    else
      var h0, h1 := 1.0 / dt[i - 1], 1.0 / dt[i];
      if j == i - 1 then h0 else if j == i then 2.0 * (h0 + h1) else if j == i + 1 then h1 else 0.0
  }

  function ScaledRhsEntry(p: seq<real>, dt: seq<real>, i: nat): real
    requires |p| == |dt| + 1 >= 2 && Positive(dt) && i < |p|
  {
    var n := |p|;
    if i == 0 then 3.0 * (p[1] - p[0]) / (dt[0] * dt[0])
    else if i == n - 1 then 3.0 * (p[n - 1] - p[n - 2]) / (dt[n - 2] * dt[n - 2])
    else
      var h0, h1 := 1.0 / dt[i - 1], 1.0 / dt[i];
      3.0 * (p[i] - p[i - 1]) * (h0 * h0) + 3.0 * (p[i + 1] - p[i]) * (h1 * h1)
  }

  function ScaledMatrix(dt: seq<real>): (a: seq<seq<real>>)
    requires |dt| >= 1 && Positive(dt)
    ensures |a| == |dt| + 1 && IsSquare(a)
    ensures forall i, j :: 0 <= i < |a| && 0 <= j < |a| ==> a[i][j] == ScaledEntry(dt, i, j)
  {
    var n := |dt| + 1;
    seq(n, i requires 0 <= i < n => seq(n, j requires 0 <= j < n => ScaledEntry(dt, i, j)))
  }

  /** A coordinate that never changes asks for no slope anywhere, whatever the shares. */
  lemma ScaledConstantRhsZero(p: seq<real>, dt: seq<real>)
    requires |p| == |dt| + 1 >= 2 && Positive(dt) && forall k :: 0 <= k < |p| ==> p[k] == p[0]
    ensures ScaledRhs(p, dt) == Zeros(|p|)
  {
    var r := ScaledRhs(p, dt);
    forall i | 0 <= i < |p| ensures r[i] == 0.0 {
      if i == 0 {
        assert p[1] - p[0] == 0.0;
      } else if i == |p| - 1 {
        assert p[i] - p[i - 1] == 0.0;
      } else {
        assert p[i] - p[i - 1] == 0.0 && p[i + 1] - p[i] == 0.0;
      }
    }
  }

  /** Every scaled row outweighs its neighbours, as every share is positive. */
  lemma ScaledRowDominant(dt: seq<real>, i: nat)
    requires |dt| >= 1 && Positive(dt) && i <= |dt|
    ensures DominantRow(ScaledMatrix(dt), i)
  {
    var n := |dt| + 1;
    if i == 0 {
      assert 1.0 / dt[0] > 0.0;
    } else if i == n - 1 {
      assert 1.0 / dt[n - 2] > 0.0;
    } else {
      assert 1.0 / dt[i - 1] > 0.0 && 1.0 / dt[i] > 0.0;
    }
  }

  /** Whatever the positive shares, the scaled 'natural' system has one solution. */
  lemma ScaledNonSingular(dt: seq<real>)
    requires |dt| >= 1 && Positive(dt)
    ensures NonSingular(ScaledMatrix(dt))
  {
    forall i | 0 <= i < |dt| + 1 ensures DominantRow(ScaledMatrix(dt), i) {
      ScaledRowDominant(dt, i);
    }
    DominantNonSingular(ScaledMatrix(dt));
  }

  function ScaledRhs(p: seq<real>, dt: seq<real>): (r: seq<real>)
    requires |p| == |dt| + 1 >= 2 && Positive(dt)
    ensures |r| == |p| && forall i :: 0 <= i < |p| ==> r[i] == ScaledRhsEntry(p, dt, i)
  {
    seq(|p|, i requires 0 <= i < |p| => ScaledRhsEntry(p, dt, i))
  }

  /**
   * The cubic, in its local parameter, of a segment that covers a share h of
   * the parameter range and has slopes d0 and d1 along t at its ends.
   */
  function ScaledHermite(p0: real, p1: real, d0: real, d1: real, h: real): (c: Cubic)
    ensures Eval(c, 0.0) == p0 && Eval(c, 1.0) == p1
    ensures Slope(c, 0.0) == d0 * h && Slope(c, 1.0) == d1 * h
  {
    Hermite(p0, p1, d0 * h, d1 * h)
  }

  /** The segments of one coordinate for slopes d along t. */
  function ScaledSegments(p: seq<real>, d: seq<real>, dt: seq<real>): (s: seq<Cubic>)
    requires |d| == |p| == |dt| + 1
    ensures |s| == |dt|
    ensures forall i {:trigger s[i]} :: 0 <= i < |s| ==> s[i] == ScaledHermite(p[i], p[i + 1], d[i], d[i + 1], dt[i])
  {
    seq(|dt|, i requires 0 <= i < |dt| => ScaledHermite(p[i], p[i + 1], d[i], d[i + 1], dt[i]))
  }

  /**
   * Whatever d is, the segments pass through the points and d[k] is the
   * slope along t at point k from either side, so slopes along t are
   * continuous.
   */
  lemma ScaledSegmentsJoin(p: seq<real>, d: seq<real>, dt: seq<real>)
    requires |d| == |p| == |dt| + 1 && Positive(dt)
    ensures var s := ScaledSegments(p, d, dt);
      && (forall i {:trigger s[i]} :: 0 <= i < |s| ==> Eval(s[i], 0.0) == p[i] && Eval(s[i], 1.0) == p[i + 1])
      && (forall i {:trigger s[i]} :: 0 <= i < |s| ==>
            GlobalSlope(s[i], 0.0, dt[i]) == d[i] && GlobalSlope(s[i], 1.0, dt[i]) == d[i + 1])
      && (forall i {:trigger GlobalSlope(s[i], 0.0, dt[i])} :: 0 < i < |s| ==>
            GlobalSlope(s[i - 1], 1.0, dt[i - 1]) == GlobalSlope(s[i], 0.0, dt[i]))
  {
    var s := ScaledSegments(p, d, dt);
    forall i | 0 <= i < |s|
      ensures Eval(s[i], 0.0) == p[i] && Eval(s[i], 1.0) == p[i + 1]
      ensures GlobalSlope(s[i], 0.0, dt[i]) == d[i] && GlobalSlope(s[i], 1.0, dt[i]) == d[i + 1]
    {
      assert s[i] == ScaledHermite(p[i], p[i + 1], d[i], d[i + 1], dt[i]);
      assert Slope(s[i], 0.0) == d[i] * dt[i] && Slope(s[i], 1.0) == d[i + 1] * dt[i];
      MulDivCancel(d[i], dt[i]);
      MulDivCancel(d[i + 1], dt[i]);
      assert GlobalSlope(s[i], 0.0, dt[i]) == d[i] * dt[i] / dt[i];
      assert GlobalSlope(s[i], 1.0, dt[i]) == d[i + 1] * dt[i] / dt[i];
    }
  }

  lemma MulDivCancel(x: real, h: real)
    requires h > 0.0
    ensures x * h / h == x
  {
  }

  /** The smoothness condition that row i of the scaled system stands for. */
  ghost predicate ScaledRowCondition(p: seq<real>, d: seq<real>, dt: seq<real>, i: nat)
    requires |d| == |p| == |dt| + 1 >= 2 && Positive(dt) && i < |p|
  {
    var s, n := ScaledSegments(p, d, dt), |p|;
    if i == 0 then Curvature(s[0], 0.0) == 0.0
    else if i == n - 1 then Curvature(s[n - 2], 1.0) == 0.0
    else GlobalCurvature(s[i - 1], 1.0, dt[i - 1]) == GlobalCurvature(s[i], 0.0, dt[i])
  }

  /** End curvatures along t of a segment of share a, with h = 1/a. */
  lemma ScaledHermiteCurvatures(p0: real, p1: real, x: real, y: real, a: real)
    requires a > 0.0
    ensures var c, h := ScaledHermite(p0, p1, x, y, a), 1.0 / a;
      && GlobalCurvature(c, 0.0, a) == 6.0 * (p1 - p0) * (h * h) - 4.0 * x * h - 2.0 * y * h
      && GlobalCurvature(c, 1.0, a) == 2.0 * x * h + 4.0 * y * h - 6.0 * (p1 - p0) * (h * h)
  {
    var h := 1.0 / a;
    HermiteHigherDerivatives(p0, p1, x * a, y * a);
    assert a * h == 1.0;
    assert 1.0 / (a * a) == h * h;
    assert x * a * (h * h) == x * h;
    assert y * a * (h * h) == y * h;
  }

  lemma ScaledFirstRowMeans(p: seq<real>, d: seq<real>, dt: seq<real>)
    requires |d| == |p| == |dt| + 1 >= 2 && Positive(dt)
    ensures Dot(ScaledMatrix(dt)[0], d) == ScaledRhs(p, dt)[0] <==> ScaledRowCondition(p, d, dt, 0)
  {
    var a := dt[0];
    DotWindow2(ScaledMatrix(dt)[0], d, 0, 2.0 / a, 1.0 / a);
    ScaledFirstRowCurvature(p[0], p[1], d[0], d[1], a);
    var s := ScaledSegments(p, d, dt);
    assert s[0] == ScaledHermite(p[0], p[1], d[0], d[1], a);
  }

  lemma ScaledFirstRowCurvature(p0: real, p1: real, x: real, y: real, a: real)
    requires a > 0.0
    ensures Curvature(ScaledHermite(p0, p1, x, y, a), 0.0) == 0.0 <==>
      2.0 / a * x + 1.0 / a * y == 3.0 * (p1 - p0) / (a * a)
  {
    var h := 1.0 / a;
    ScaledHermiteCurvatures(p0, p1, x, y, a);
    assert 2.0 / a == 2.0 * h && 3.0 * (p1 - p0) / (a * a) == 3.0 * (p1 - p0) * (h * h);
    var c := ScaledHermite(p0, p1, x, y, a);
    assert Curvature(c, 0.0) == 0.0 <==> GlobalCurvature(c, 0.0, a) == 0.0;
  }

  lemma ScaledLastRowMeans(p: seq<real>, d: seq<real>, dt: seq<real>)
    requires |d| == |p| == |dt| + 1 >= 2 && Positive(dt)
    ensures Dot(ScaledMatrix(dt)[|p| - 1], d) == ScaledRhs(p, dt)[|p| - 1] <==> ScaledRowCondition(p, d, dt, |p| - 1)
  {
    ScaledLastRowDot(p, d, dt);
    ScaledRhsLast(p, dt);
    ScaledLastRowCondition(p, d, dt);
  }

  lemma ScaledLastRowCondition(p: seq<real>, d: seq<real>, dt: seq<real>)
    requires |d| == |p| == |dt| + 1 >= 2 && Positive(dt)
    ensures ScaledRowCondition(p, d, dt, |p| - 1) <==>
      1.0 / dt[|p| - 2] * d[|p| - 2] + 2.0 / dt[|p| - 2] * d[|p| - 1] ==
      3.0 * (p[|p| - 1] - p[|p| - 2]) / (dt[|p| - 2] * dt[|p| - 2])
  {
    var n := |p|;
    ScaledLastRowCurvature(p[n - 2], p[n - 1], d[n - 2], d[n - 1], dt[n - 2]);
    var s := ScaledSegments(p, d, dt);
    assert s[n - 2] == ScaledHermite(p[n - 2], p[n - 1], d[n - 2], d[n - 1], dt[n - 2]);
  }

  lemma ScaledLastRowDot(p: seq<real>, d: seq<real>, dt: seq<real>)
    requires |d| == |p| == |dt| + 1 >= 2 && Positive(dt)
    ensures Dot(ScaledMatrix(dt)[|p| - 1], d) == 1.0 / dt[|p| - 2] * d[|p| - 2] + 2.0 / dt[|p| - 2] * d[|p| - 1]
  {
    var n := |p|;
    DotWindow2(ScaledMatrix(dt)[n - 1], d, n - 2, 1.0 / dt[n - 2], 2.0 / dt[n - 2]);
  }

  lemma ScaledRhsLast(p: seq<real>, dt: seq<real>)
    requires |p| == |dt| + 1 >= 2 && Positive(dt)
    ensures ScaledRhs(p, dt)[|p| - 1] == 3.0 * (p[|p| - 1] - p[|p| - 2]) / (dt[|p| - 2] * dt[|p| - 2])
  {
    var n := |p|;
    assert ScaledRhs(p, dt)[n - 1] == ScaledRhsEntry(p, dt, n - 1);
    assert n - 1 != 0;
  }

  lemma ScaledLastRowCurvature(p0: real, p1: real, x: real, y: real, a: real)
    requires a > 0.0
    ensures Curvature(ScaledHermite(p0, p1, x, y, a), 1.0) == 0.0 <==>
      1.0 / a * x + 2.0 / a * y == 3.0 * (p1 - p0) / (a * a)
  {
    var h := 1.0 / a;
    ScaledHermiteCurvatures(p0, p1, x, y, a);
    assert 2.0 / a == 2.0 * h && 3.0 * (p1 - p0) / (a * a) == 3.0 * (p1 - p0) * (h * h);
    var c := ScaledHermite(p0, p1, x, y, a);
    assert Curvature(c, 1.0) == 0.0 <==> GlobalCurvature(c, 1.0, a) == 0.0;
  }

  lemma ScaledInteriorRowMeans(p: seq<real>, d: seq<real>, dt: seq<real>, i: nat)
    requires |d| == |p| == |dt| + 1 >= 2 && Positive(dt) && 0 < i < |p| - 1
    ensures Dot(ScaledMatrix(dt)[i], d) == ScaledRhs(p, dt)[i] <==> ScaledRowCondition(p, d, dt, i)
  {
    ScaledInteriorRowDot(d, dt, i);
    ScaledInteriorRowCurvature(p, d, dt, i);
  }

  lemma ScaledInteriorRowCurvature(p: seq<real>, d: seq<real>, dt: seq<real>, i: nat)
    requires |d| == |p| == |dt| + 1 >= 2 && Positive(dt) && 0 < i < |p| - 1
    ensures ScaledRowCondition(p, d, dt, i) <==>
      1.0 / dt[i - 1] * d[i - 1] + 2.0 * (1.0 / dt[i - 1] + 1.0 / dt[i]) * d[i] + 1.0 / dt[i] * d[i + 1] == ScaledRhs(p, dt)[i]
  {
    ScaledInteriorCondition(p, d, dt, i);
    ScaledInteriorRhs(p, dt, i);
    ScaledInteriorJoin(p, d, dt, i);
  }

  /** Where segments i-1 and i meet, equal curvature along t is the interior row's equation. */
  lemma ScaledInteriorJoin(p: seq<real>, d: seq<real>, dt: seq<real>, i: nat)
    requires |d| == |p| == |dt| + 1 >= 2 && Positive(dt) && 0 < i < |p| - 1
    ensures (GlobalCurvature(ScaledHermite(p[i - 1], p[i], d[i - 1], d[i], dt[i - 1]), 1.0, dt[i - 1]) ==
             GlobalCurvature(ScaledHermite(p[i], p[i + 1], d[i], d[i + 1], dt[i]), 0.0, dt[i])) <==>
      1.0 / dt[i - 1] * d[i - 1] + 2.0 * (1.0 / dt[i - 1] + 1.0 / dt[i]) * d[i] + 1.0 / dt[i] * d[i + 1] ==
      3.0 * (p[i] - p[i - 1]) * (1.0 / dt[i - 1] * (1.0 / dt[i - 1])) + 3.0 * (p[i + 1] - p[i]) * (1.0 / dt[i] * (1.0 / dt[i]))
  {
    ScaledInteriorCurvature(p[i - 1], p[i], p[i + 1], d[i - 1], d[i], d[i + 1], dt[i - 1], dt[i]);
  }

  lemma ScaledInteriorCondition(p: seq<real>, d: seq<real>, dt: seq<real>, i: nat)
    requires |d| == |p| == |dt| + 1 >= 2 && Positive(dt) && 0 < i < |p| - 1
    ensures ScaledRowCondition(p, d, dt, i) <==>
      GlobalCurvature(ScaledHermite(p[i - 1], p[i], d[i - 1], d[i], dt[i - 1]), 1.0, dt[i - 1]) ==
      GlobalCurvature(ScaledHermite(p[i], p[i + 1], d[i], d[i + 1], dt[i]), 0.0, dt[i])
  {
    var s := ScaledSegments(p, d, dt);
    assert s[i - 1] == ScaledHermite(p[i - 1], p[i], d[i - 1], d[i], dt[i - 1]);
    assert s[i] == ScaledHermite(p[i], p[i + 1], d[i], d[i + 1], dt[i]);
  }

  lemma ScaledInteriorRhs(p: seq<real>, dt: seq<real>, i: nat)
    requires |p| == |dt| + 1 >= 2 && Positive(dt) && 0 < i < |p| - 1
    ensures ScaledRhs(p, dt)[i] == 3.0 * (p[i] - p[i - 1]) * (1.0 / dt[i - 1] * (1.0 / dt[i - 1]))
      + 3.0 * (p[i + 1] - p[i]) * (1.0 / dt[i] * (1.0 / dt[i]))
  {
    assert ScaledRhs(p, dt)[i] == ScaledRhsEntry(p, dt, i);
  }

  lemma ScaledInteriorRowDot(d: seq<real>, dt: seq<real>, i: nat)
    requires |d| == |dt| + 1 >= 2 && Positive(dt) && 0 < i < |d| - 1
    ensures Dot(ScaledMatrix(dt)[i], d) ==
      1.0 / dt[i - 1] * d[i - 1] + 2.0 * (1.0 / dt[i - 1] + 1.0 / dt[i]) * d[i] + 1.0 / dt[i] * d[i + 1]
  {
    DotWindow3(ScaledMatrix(dt)[i], d, i - 1, 1.0 / dt[i - 1], 2.0 * (1.0 / dt[i - 1] + 1.0 / dt[i]), 1.0 / dt[i]);
  }

  /** Equal curvature along t where two segments of shares a and b meet is the interior row. */
  lemma ScaledInteriorCurvature(p0: real, p1: real, p2: real, x: real, y: real, z: real, a: real, b: real)
    requires a > 0.0 && b > 0.0
    ensures GlobalCurvature(ScaledHermite(p0, p1, x, y, a), 1.0, a) == GlobalCurvature(ScaledHermite(p1, p2, y, z, b), 0.0, b) <==>
      1.0 / a * x + 2.0 * (1.0 / a + 1.0 / b) * y + 1.0 / b * z ==
      3.0 * (p1 - p0) * (1.0 / a * (1.0 / a)) + 3.0 * (p2 - p1) * (1.0 / b * (1.0 / b))
  {
    ScaledHermiteCurvatures(p0, p1, x, y, a);
    ScaledHermiteCurvatures(p1, p2, y, z, b);
  }

  /** The scaled system says exactly that the segments are smooth along t and flat at the ends. */
  lemma ScaledSystemMeansSmooth(p: seq<real>, d: seq<real>, dt: seq<real>)
    requires |d| == |p| == |dt| + 1 >= 2 && Positive(dt)
    ensures Solves(ScaledMatrix(dt), ScaledRhs(p, dt), d) <==>
      forall i :: 0 <= i < |p| ==> ScaledRowCondition(p, d, dt, i)
  {
    forall i | 0 <= i < |p|
      ensures Dot(ScaledMatrix(dt)[i], d) == ScaledRhs(p, dt)[i] <==> ScaledRowCondition(p, d, dt, i)
    {
      if i == 0 {
        ScaledFirstRowMeans(p, d, dt);
      } else if i == |p| - 1 {
        ScaledLastRowMeans(p, d, dt);
      } else {
        ScaledInteriorRowMeans(p, d, dt, i);
      }
    }
  }

  // ---------------------------------------------------------------------------
  // The system of either kind
  // ---------------------------------------------------------------------------

  /**
   * The boundary conditions the builder accepts for n points: 'natural' from
   * two points on, 'd_equal' from four points on and only without distances.
   */
  predicate Fits(n: nat, b: Boundary, uniform: bool)
  {
    (b == Natural && n >= 2) || (b == DEqual && n >= 4 && uniform)
  }

  /**
   * The exception raised while the end rows are written, if any. Without
   * distances a 'natural' matrix of one row refuses the (2, 1) slice; with
   * distances dt[0] does not exist below two points.
   */
  function EndRowsError(n: nat, bc: string, uniform: bool): (e: Option<Error>)
    ensures e.None? <==> ParseBoundary(bc).Some? && Fits(n, ParseBoundary(bc).value, uniform)
    ensures ParseBoundary(bc).None? ==> e == Some(UnknownBoundaryCondition)
    ensures bc == "natural" && n < 2 ==> e == Some(if uniform then ShapeError else IndexOutOfRange)
    ensures bc == "d_equal" && n <= 3 ==> e == Some(DEqualNeedsFourPoints)
    ensures bc == "d_equal" && n > 3 && !uniform ==> e == Some(DEqualNeedsUniform)
  {
    match ParseBoundary(bc)
    case None => Some(UnknownBoundaryCondition)
    case Some(Natural) =>
      if n >= 2 then None else if uniform then Some(ShapeError) else Some(IndexOutOfRange)
    case Some(DEqual) =>
      if n <= 3 then Some(DEqualNeedsFourPoints) else if !uniform then Some(DEqualNeedsUniform) else None
  }

  /** Coefficient of the slope at point j in row i: the uniform rows, or the scaled ones. */
  function Entry(b: Boundary, uniform: bool, dt: seq<real>, i: nat, j: nat): real
    requires Fits(|dt| + 1, b, uniform) && Positive(dt) && i <= |dt|
  {
    if uniform then UniformSpline.Entry(|dt| + 1, b, i, j) else ScaledEntry(dt, i, j)
  }

  function RhsEntry(p: seq<real>, b: Boundary, uniform: bool, dt: seq<real>, i: nat): real
    requires |p| == |dt| + 1 && Fits(|p|, b, uniform) && Positive(dt) && i < |p|
  {
    if uniform then UniformSpline.RhsEntry(p, b, i) else ScaledRhsEntry(p, dt, i)
  }

  function Matrix(b: Boundary, uniform: bool, dt: seq<real>): (a: seq<seq<real>>)
    requires Fits(|dt| + 1, b, uniform) && Positive(dt)
    ensures |a| == |dt| + 1 && IsSquare(a)
    ensures forall i, j :: 0 <= i < |a| && 0 <= j < |a| ==> a[i][j] == Entry(b, uniform, dt, i, j)
  {
    if uniform then UniformSpline.Matrix(|dt| + 1, b) else ScaledMatrix(dt)
  }

  function Rhs(p: seq<real>, b: Boundary, uniform: bool, dt: seq<real>): (r: seq<real>)
    requires |p| == |dt| + 1 && Fits(|p|, b, uniform) && Positive(dt)
    ensures |r| == |p| && forall i :: 0 <= i < |p| ==> r[i] == RhsEntry(p, b, uniform, dt, i)
  {
    if uniform then UniformSpline.Rhs(p, b) else ScaledRhs(p, dt)
  }

  /** The segments of one coordinate for slopes d: local slopes without distances, slopes along t with them. */
  function Pieces(p: seq<real>, d: seq<real>, uniform: bool, dt: seq<real>): (s: seq<Cubic>)
    requires |d| == |p| == |dt| + 1
    ensures |s| == |dt|
  {
    if uniform then UniformSpline.Segments(p, d) else ScaledSegments(p, d, dt)
  }

  // ---------------------------------------------------------------------------
  // The table a successful build produces
  // ---------------------------------------------------------------------------

  /** The slopes for coordinate j: the one solution of its system. */
  ghost function Derivs(points: seq<seq<real>>, b: Boundary, uniform: bool, dt: seq<real>, j: nat): (d: seq<real>)
    requires Rectangular(points, Width(points)) && j < Width(points)
    requires |points| == |dt| + 1 && Fits(|points|, b, uniform) && Positive(dt)
    requires NonSingular(Matrix(b, uniform, dt))
    ensures |d| == |points| && Solves(Matrix(b, uniform, dt), Rhs(Column(points, j), b, uniform, dt), d)
  {
    var a, r := Matrix(b, uniform, dt), Rhs(Column(points, j), b, uniform, dt);
    SolveCorrect(a, r);
    Solve(a, r).value
  }

  ghost function SpecTable(points: seq<seq<real>>, b: Boundary, uniform: bool, dt: seq<real>): (t: seq<seq<Cubic>>)
    requires Rectangular(points, Width(points))
    requires |points| == |dt| + 1 && Fits(|points|, b, uniform) && Positive(dt)
    requires NonSingular(Matrix(b, uniform, dt))
    ensures |t| == |points| - 1 && Rectangular(t, Width(points))
  {
    seq(|points| - 1, i requires 0 <= i < |points| - 1 =>
      seq(Width(points), j requires 0 <= j < Width(points) =>
        Pieces(Column(points, j), Derivs(points, b, uniform, dt, j), uniform, dt)[i]))
  }

  lemma SpecTableCell(points: seq<seq<real>>, b: Boundary, uniform: bool, dt: seq<real>, i: nat, j: nat)
    requires Rectangular(points, Width(points))
    requires |points| == |dt| + 1 && Fits(|points|, b, uniform) && Positive(dt)
    requires NonSingular(Matrix(b, uniform, dt))
    requires i < |points| - 1 && j < Width(points)
    ensures SpecTable(points, b, uniform, dt)[i][j] == Pieces(Column(points, j), Derivs(points, b, uniform, dt, j), uniform, dt)[i]
  {
  }

  /** A table whose every cell is the cell SpecTable describes is SpecTable. */
  lemma SpecTableFromColumns(points: seq<seq<real>>, b: Boundary, uniform: bool, dt: seq<real>, t: seq<seq<Cubic>>)
    requires Rectangular(points, Width(points))
    requires |points| == |dt| + 1 && Fits(|points|, b, uniform) && Positive(dt)
    requires NonSingular(Matrix(b, uniform, dt))
    requires |t| == |points| - 1 && Rectangular(t, Width(points))
    requires forall i, j :: 0 <= i < |t| && 0 <= j < Width(points) ==>
      t[i][j] == Pieces(Column(points, j), Derivs(points, b, uniform, dt, j), uniform, dt)[i]
    ensures t == SpecTable(points, b, uniform, dt)
  {
    var e := SpecTable(points, b, uniform, dt);
    forall i | 0 <= i < |t| ensures t[i] == e[i] {
      forall j | 0 <= j < Width(points) ensures t[i][j] == e[i][j] {
        SpecTableCell(points, b, uniform, dt, i, j);
      }
    }
  }

  /**
   * What `CubicSpline(points, distances, bc_type)` yields: the table, or the
   * exception raised. np.ones(-1) refuses an empty point set when no
   * distances are given; the length assertion comes next; with no
   * coordinates the loop never runs, so nothing else is checked.
   */
  ghost function Spec(points: seq<seq<real>>, distances: Option<seq<real>>, bc: string): (r: Result<seq<seq<Cubic>>>)
    requires Rectangular(points, Width(points))
    requires distances.Some? ==> Positive(distances.value)
    ensures r.Ok? ==> LengthsAgree(|points|, distances) && |r.value| == |points| - 1 && Rectangular(r.value, Width(points))
  {
    var n, m := |points|, Width(points);
    if distances.None? && n == 0 then Err(ShapeError)
    else if distances.Some? && |distances.value| != n - 1 then Err(DistancesLengthMismatch)
    else if m == 0 then Ok(seq(n - 1, i => []))
    else
      var uniform, dt := distances.None?, Steps(n, distances);
      if EndRowsError(n, bc, uniform).Some? then Err(EndRowsError(n, bc, uniform).value)
      else if !NonSingular(Matrix(ParseBoundary(bc).value, uniform, dt)) then Err(SingularMatrix)
      else Ok(SpecTable(points, ParseBoundary(bc).value, uniform, dt))
  }

  /** Spec once the arguments have passed the length checks and there is a coordinate. */
  lemma SpecAfterLengthChecks(points: seq<seq<real>>, distances: Option<seq<real>>, bc: string)
    requires Rectangular(points, Width(points)) && |points| >= 1 && Width(points) > 0
    requires distances.Some? ==> Positive(distances.value) && |distances.value| == |points| - 1
    ensures var n, uniform, dt := |points|, distances.None?, Steps(|points|, distances);
      Spec(points, distances, bc) ==
        if EndRowsError(n, bc, uniform).Some? then Err(EndRowsError(n, bc, uniform).value)
        else if !NonSingular(Matrix(ParseBoundary(bc).value, uniform, dt)) then Err(SingularMatrix)
        else Ok(SpecTable(points, ParseBoundary(bc).value, uniform, dt))
  {
  }

  /** Two tables with the same cells are the same table. */
  lemma TableFromCells(t: seq<seq<Cubic>>, e: seq<seq<Cubic>>, m: nat)
    requires |t| == |e| && Rectangular(t, m) && Rectangular(e, m)
    requires forall i, j :: 0 <= i < |t| && 0 <= j < m ==> t[i][j] == e[i][j]
    ensures t == e
  {
    forall i | 0 <= i < |t| ensures t[i] == e[i] {
    }
  }

  // ---------------------------------------------------------------------------
  // What a solution of the system means
  // ---------------------------------------------------------------------------

  /** Whatever the slopes, the segments start and end at the points. */
  lemma PiecesPassThrough(p: seq<real>, d: seq<real>, uniform: bool, dt: seq<real>)
    requires |d| == |p| == |dt| + 1 && Positive(dt)
    ensures var s := Pieces(p, d, uniform, dt);
      forall i {:trigger s[i]} :: 0 <= i < |s| ==> Eval(s[i], 0.0) == p[i] && Eval(s[i], 1.0) == p[i + 1]
  {
    if uniform {
      UniformSpline.SegmentsJoin(p, d);
    } else {
      ScaledSegmentsJoin(p, d, dt);
    }
  }

  /**
   * Segments built from a solution of the system are smooth along t at every
   * interior point: the slopes and the second derivatives with respect to t
   * of the two segments meeting there agree.
   */
  lemma SolvedPiecesJoin(p: seq<real>, b: Boundary, uniform: bool, dt: seq<real>, d: seq<real>, i: nat)
    requires |d| == |p| == |dt| + 1 && Fits(|p|, b, uniform) && Positive(dt)
    requires uniform ==> dt == Steps(|p|, None)
    requires Solves(Matrix(b, uniform, dt), Rhs(p, b, uniform, dt), d)
    requires 0 < i < |p| - 1
    ensures var s := Pieces(p, d, uniform, dt);
      && GlobalSlope(s[i - 1], 1.0, dt[i - 1]) == GlobalSlope(s[i], 0.0, dt[i])
      && GlobalCurvature(s[i - 1], 1.0, dt[i - 1]) == GlobalCurvature(s[i], 0.0, dt[i])
  {
    var s := Pieces(p, d, uniform, dt);
    if uniform {
      UniformSpline.SolvedSegmentsJoin(p, b, d, i);
      assert dt[i - 1] == dt[i];
      assert Slope(s[i - 1], 1.0) == Slope(s[i], 0.0);
      assert Curvature(s[i - 1], 1.0) == Curvature(s[i], 0.0);
    } else {
      ScaledSegmentsJoin(p, d, dt);
      ScaledSystemMeansSmooth(p, d, dt);
      assert ScaledRowCondition(p, d, dt, i);
    }
  }

  /**
   * The ends of segments built from a solution meet the boundary condition:
   * no curvature at either end under 'natural', equal third derivatives on
   * the first two and on the last two segments under 'd_equal'.
   */
  lemma SolvedPiecesEnds(p: seq<real>, b: Boundary, uniform: bool, dt: seq<real>, d: seq<real>)
    requires |d| == |p| == |dt| + 1 && Fits(|p|, b, uniform) && Positive(dt)
    requires Solves(Matrix(b, uniform, dt), Rhs(p, b, uniform, dt), d)
    ensures var s, n := Pieces(p, d, uniform, dt), |p|;
      && (b == Natural ==> Curvature(s[0], 0.0) == 0.0 && Curvature(s[n - 2], 1.0) == 0.0)
      && (b == DEqual ==> Jerk(s[0]) == Jerk(s[1]) && Jerk(s[n - 3]) == Jerk(s[n - 2]))
  {
    if uniform {
      UniformSpline.SolvedSegmentsEnds(p, b, d);
    } else {
      ScaledSystemMeansSmooth(p, d, dt);
      assert ScaledRowCondition(p, d, dt, 0);
      assert ScaledRowCondition(p, d, dt, |p| - 1);
    }
  }

  // ---------------------------------------------------------------------------
  // The outcome of a build
  // ---------------------------------------------------------------------------

  /** The length checks pass: there is a point, and one distance per segment when distances are given. */
  predicate LengthsAgree(n: nat, distances: Option<seq<real>>)
  {
    n >= 1 && (distances.Some? ==> |distances.value| == n - 1)
  }

  /** A successful build of at least one coordinate solved a nonsingular system of a kind that fits. */
  lemma SpecOk(points: seq<seq<real>>, distances: Option<seq<real>>, bc: string)
    requires Rectangular(points, Width(points)) && (distances.Some? ==> Positive(distances.value))
    requires Spec(points, distances, bc).Ok? && Width(points) > 0
    ensures LengthsAgree(|points|, distances)
    ensures ParseBoundary(bc).Some? && Fits(|points|, ParseBoundary(bc).value, distances.None?)
    ensures NonSingular(Matrix(ParseBoundary(bc).value, distances.None?, Steps(|points|, distances)))
    ensures Spec(points, distances, bc).value ==
      SpecTable(points, ParseBoundary(bc).value, distances.None?, Steps(|points|, distances))
  {
  }

  /** Construction fails exactly where, and with the exception, the source raises. */
  lemma SpecErrors(points: seq<seq<real>>, distances: Option<seq<real>>, bc: string)
    requires Rectangular(points, Width(points)) && (distances.Some? ==> Positive(distances.value))
    ensures distances.None? && |points| == 0 ==> Spec(points, distances, bc) == Err(ShapeError)
    ensures distances.Some? && |distances.value| != |points| - 1 ==>
      Spec(points, distances, bc) == Err(DistancesLengthMismatch)
    ensures LengthsAgree(|points|, distances) && Width(points) == 0 ==>
      Spec(points, distances, bc) == Ok(seq(|points| - 1, i => []))
    ensures LengthsAgree(|points|, distances) && Width(points) > 0 && bc != "natural" && bc != "d_equal" ==>
      Spec(points, distances, bc) == Err(UnknownBoundaryCondition)
    ensures LengthsAgree(|points|, distances) && Width(points) > 0 && bc == "natural" && |points| == 1 ==>
      Spec(points, distances, bc) == Err(if distances.None? then ShapeError else IndexOutOfRange)
    ensures LengthsAgree(|points|, distances) && Width(points) > 0 && bc == "d_equal" && |points| <= 3 ==>
      Spec(points, distances, bc) == Err(DEqualNeedsFourPoints)
    ensures (LengthsAgree(|points|, distances) && distances.Some? && Width(points) > 0 && bc == "d_equal" &&
             |points| > 3) ==> Spec(points, distances, bc) == Err(DEqualNeedsUniform)
    ensures LengthsAgree(|points|, distances) && bc == "natural" && |points| >= 2 ==> Spec(points, distances, bc).Ok?
    ensures distances.None? && bc == "d_equal" && |points| >= 4 ==> Spec(points, distances, bc).Ok?
    ensures Spec(points, distances, bc) != Err(SingularMatrix)
    ensures Spec(points, distances, bc).Ok? && Width(points) > 0 ==>
      (bc == "natural" && |points| >= 2) || (bc == "d_equal" && |points| >= 4 && distances.None?)
  {
    var n := |points|;
    if LengthsAgree(n, distances) && ParseBoundary(bc).Some? && Fits(n, ParseBoundary(bc).value, distances.None?) {
      MatrixNonSingular(ParseBoundary(bc).value, distances.None?, Steps(n, distances));
    }
  }

  /** Every system the builder gets as far as inverting has one solution. */
  lemma MatrixNonSingular(b: Boundary, uniform: bool, dt: seq<real>)
    requires Fits(|dt| + 1, b, uniform) && Positive(dt)
    ensures NonSingular(Matrix(b, uniform, dt))
  {
    if !uniform {
      ScaledNonSingular(dt);
    } else if b == Natural {
      UniformSpline.NaturalNonSingular(|dt| + 1);
    } else {
      UniformSpline.DEqualNonSingular(|dt| + 1);
    }
  }

  /** Cell (i, j) of a built table is segment i of coordinate j's solved chain of cubics. */
  lemma BuiltCell(points: seq<seq<real>>, distances: Option<seq<real>>, bc: string, t: seq<seq<Cubic>>, i: nat, j: nat)
    requires Rectangular(points, Width(points)) && (distances.Some? ==> Positive(distances.value))
    requires Spec(points, distances, bc) == Ok(t)
    requires i < |points| - 1 && j < Width(points)
    ensures LengthsAgree(|points|, distances)
    ensures ParseBoundary(bc).Some? && Fits(|points|, ParseBoundary(bc).value, distances.None?)
    ensures NonSingular(Matrix(ParseBoundary(bc).value, distances.None?, Steps(|points|, distances)))
    ensures var b, dt := ParseBoundary(bc).value, Steps(|points|, distances);
      t[i][j] == Pieces(Column(points, j), Derivs(points, b, distances.None?, dt, j), distances.None?, dt)[i]
  {
    SpecOk(points, distances, bc);
    SpecTableCell(points, ParseBoundary(bc).value, distances.None?, Steps(|points|, distances), i, j);
  }

  /** A built table has one row of m cubics per segment. */
  lemma BuiltTableShape(points: seq<seq<real>>, distances: Option<seq<real>>, bc: string)
    requires Rectangular(points, Width(points)) && (distances.Some? ==> Positive(distances.value))
    requires Spec(points, distances, bc).Ok?
    ensures LengthsAgree(|points|, distances)
    ensures |Spec(points, distances, bc).value| == |points| - 1
    ensures Rectangular(Spec(points, distances, bc).value, Width(points))
  {
  }

  /** A built table starts and ends every segment at the right points. */
  lemma BuiltTablePassesThrough(points: seq<seq<real>>, distances: Option<seq<real>>, bc: string)
    requires Rectangular(points, Width(points)) && (distances.Some? ==> Positive(distances.value))
    requires Spec(points, distances, bc).Ok?
    ensures PassesThrough(points, Spec(points, distances, bc).value, Width(points))
  {
    BuiltTableShape(points, distances, bc);
    var n, m := |points|, Width(points);
    var t := Spec(points, distances, bc).value;
    forall i, k | 0 <= i < n - 1 && 0 <= k < m
      ensures Eval(t[i][k], 0.0) == points[i][k] && Eval(t[i][k], 1.0) == points[i + 1][k]
    {
      BuiltCell(points, distances, bc, t, i, k);
      var b, dt := ParseBoundary(bc).value, Steps(n, distances);
      var p, d := Column(points, k), Derivs(points, b, distances.None?, dt, k);
      PiecesPassThrough(p, d, distances.None?, dt);
      assert t[i][k] == Pieces(p, d, distances.None?, dt)[i];
    }
  }

  /**
   * A 1-D input of N numbers, read as N points of one coordinate, builds
   * with matching distances from two numbers on under 'natural', and
   * without distances from four on under 'd_equal'; the curve runs through
   * the numbers in order.
   */
  lemma ValuesBuild(values: seq<real>, distances: Option<seq<real>>, bc: string)
    requires distances.Some? ==> Positive(distances.value)
    requires LengthsAgree(|values|, distances)
    requires (bc == "natural" && |values| >= 2) || (bc == "d_equal" && |values| >= 4 && distances.None?)
    ensures Width(AsPoints(values)) == 1 && Spec(AsPoints(values), distances, bc).Ok?
    ensures var t := Spec(AsPoints(values), distances, bc).value;
      |t| == |values| - 1 &&
      forall i :: 0 <= i < |t| ==> |t[i]| == 1 && Eval(t[i][0], 0.0) == values[i] && Eval(t[i][0], 1.0) == values[i + 1]
  {
    var points := AsPoints(values);
    assert points[0] == [values[0]];
    SpecErrors(points, distances, bc);
    BuiltTablePassesThrough(points, distances, bc);
  }

  /**
   * At every interior point of a built table, the slope and the second
   * derivative with respect to the global parameter are continuous, in every
   * coordinate.
   */
  lemma BuiltTableJoinsSmoothly(points: seq<seq<real>>, distances: Option<seq<real>>, bc: string,
                                t: seq<seq<Cubic>>, i: nat, j: nat)
    requires Rectangular(points, Width(points)) && (distances.Some? ==> Positive(distances.value))
    requires Spec(points, distances, bc) == Ok(t)
    requires 0 < i < |points| - 1 && j < Width(points)
    ensures LengthsAgree(|points|, distances) && |t| == |points| - 1 && Rectangular(t, Width(points))
    ensures var dt := Steps(|points|, distances);
      && GlobalSlope(t[i - 1][j], 1.0, dt[i - 1]) == GlobalSlope(t[i][j], 0.0, dt[i])
      && GlobalCurvature(t[i - 1][j], 1.0, dt[i - 1]) == GlobalCurvature(t[i][j], 0.0, dt[i])
  {
    BuiltTableShape(points, distances, bc);
    BuiltCell(points, distances, bc, t, i - 1, j);
    BuiltCell(points, distances, bc, t, i, j);
    var b, dt := ParseBoundary(bc).value, Steps(|points|, distances);
    var p, d := Column(points, j), Derivs(points, b, distances.None?, dt, j);
    var s := Pieces(p, d, distances.None?, dt);
    assert t[i - 1][j] == s[i - 1];
    assert t[i][j] == s[i];
    SolvedPiecesJoin(p, b, distances.None?, dt, d, i);
  }

  /** Under 'natural' a built table has no curvature at either end, in every coordinate. */
  lemma BuiltTableNaturalEnds(points: seq<seq<real>>, distances: Option<seq<real>>, t: seq<seq<Cubic>>, j: nat)
    requires Rectangular(points, Width(points)) && (distances.Some? ==> Positive(distances.value))
    requires Spec(points, distances, "natural") == Ok(t) && j < Width(points)
    ensures |points| >= 2 && |t| == |points| - 1 && Rectangular(t, Width(points))
    ensures Curvature(t[0][j], 0.0) == 0.0 && Curvature(t[|points| - 2][j], 1.0) == 0.0
  {
    SpecOk(points, distances, "natural");
    SolvedTableNaturalEnds(points, distances.None?, Steps(|points|, distances), j);
  }

  lemma SolvedTableNaturalEnds(points: seq<seq<real>>, uniform: bool, dt: seq<real>, j: nat)
    requires Rectangular(points, Width(points)) && j < Width(points)
    requires |points| == |dt| + 1 && Fits(|points|, Natural, uniform) && Positive(dt)
    requires NonSingular(Matrix(Natural, uniform, dt))
    ensures var t := SpecTable(points, Natural, uniform, dt);
      Curvature(t[0][j], 0.0) == 0.0 && Curvature(t[|points| - 2][j], 1.0) == 0.0
  {
    var n := |points|;
    SpecTableCell(points, Natural, uniform, dt, 0, j);
    SpecTableCell(points, Natural, uniform, dt, n - 2, j);
    SolvedPiecesEnds(Column(points, j), Natural, uniform, dt, Derivs(points, Natural, uniform, dt, j));
  }

  /**
   * Under 'd_equal' (which needs uniform spacing) the first two segments of a
   * built table share their third derivative, as do its last two, in every
   * coordinate.
   */
  lemma BuiltTableDEqualEnds(points: seq<seq<real>>, t: seq<seq<Cubic>>, j: nat)
    requires Rectangular(points, Width(points))
    requires Spec(points, None, "d_equal") == Ok(t) && j < Width(points)
    ensures |points| >= 4 && |t| == |points| - 1 && Rectangular(t, Width(points))
    ensures Jerk(t[0][j]) == Jerk(t[1][j]) && Jerk(t[|points| - 3][j]) == Jerk(t[|points| - 2][j])
  {
    BuiltTableShape(points, None, "d_equal");
    SpecErrors(points, None, "d_equal");
    SpecWithoutDistances(points, "d_equal");
    UniformSpline.BuiltTableDEqualEnds(points, t, j);
  }

  // ---------------------------------------------------------------------------
  // The spline object and its builder
  // ---------------------------------------------------------------------------

  class CubicSpline {
    const N: nat
    const M: nat
    const bcType: string
    /** True when no distances were given. */
    const uniform: bool
    /** dt[i]: the share of the parameter range covered by segment i. */
    const dt: seq<real>
    /** t0[i]: the parameter at which segment i starts. */
    const t0: seq<real>
    /** coef[i, j] is the cubic of segment i in coordinate j. */
    const coef: array2<Cubic>
    /** The arguments the spline was built from (the source keeps neither). */
    ghost const points: seq<seq<real>>
    ghost const distances: Option<seq<real>>

    /** The fields agree with the arguments; the coefficients may still be unset. */
    ghost predicate Shaped()
      reads this
    {
      && N == |points| && N >= 1 && M == Width(points) && Rectangular(points, M)
      && (distances.Some? ==> Positive(distances.value) && |distances.value| == N - 1)
      && uniform == distances.None?
      && dt == Steps(N, distances) && t0 == Offsets(dt)
      && coef.Length0 == N - 1 && coef.Length1 == M
    }

    /** A built spline: its coefficients are the specified table. */
    ghost predicate Valid()
      reads this, coef
    {
      Shaped() && Spec(points, distances, bcType) == Ok(Table())
    }

    /** Sets N, M, bc_type, uniform, dt and t0 and allocates the zero coefficient table. */
    constructor (points: seq<seq<real>>, distances: Option<seq<real>>, bcType: string)
      requires |points| >= 1 && Rectangular(points, Width(points))
      requires distances.Some? ==> Positive(distances.value) && |distances.value| == |points| - 1
      ensures this.points == points && this.distances == distances && this.bcType == bcType
      ensures Shaped() && fresh(coef)
    {
      this.points := points;
      this.distances := distances;
      this.bcType := bcType;
      N := |points|;
      M := Width(points);
      uniform := distances.None?;
      dt := Steps(|points|, distances);
      t0 := Offsets(Steps(|points|, distances));
      coef := new Cubic[|points| - 1, Width(points)]((i, j) => Cubic(0.0, 0.0, 0.0, 0.0));
    }

    /**
     * The loop over the coordinates in `__init__`: solve each coordinate's
     * system and store its cubics, or report the exception raised.
     */
    method Fill(points: seq<seq<real>>) returns (err: Option<Error>)
      requires Shaped() && points == this.points
      modifies coef
      ensures Shaped()
      ensures err.Some? ==> Spec(points, distances, bcType) == Err(err.value)
      ensures err.None? ==> Valid()
    {
      var j := 0;
      while j < M
        invariant 0 <= j <= M
        invariant j > 0 ==> Solvable()
        invariant j > 0 ==> forall i, k :: 0 <= i < N - 1 && 0 <= k < j ==> coef[i, k] == SolvedTable()[i][k]
      {
        err := FillColumn(points, j);
        if err.Some? {
          return;
        }
        j := j + 1;
      }
      if M > 0 {
        SpecAfterLengthChecks(points, distances, bcType);
        TableFromCells(Table(), SolvedTable(), M);
      } else {
        assert Table() == seq(N - 1, i => []);
      }
      return None;
    }

    /** Every coordinate's system has a solution: the boundary condition fits and the matrix is invertible. */
    ghost predicate Solvable()
      reads this
      requires Shaped()
    {
      EndRowsError(N, bcType, uniform).None? && NonSingular(Matrix(ParseBoundary(bcType).value, uniform, dt))
    }

    /** The table the solved systems give. */
    ghost function SolvedTable(): (t: seq<seq<Cubic>>)
      reads this
      requires Shaped() && Solvable()
      ensures |t| == N - 1 && Rectangular(t, M)
    {
      SpecTable(points, ParseBoundary(bcType).value, uniform, dt)
    }

    /** One pass of the loop over the coordinates: coordinate j of every segment. */
    method FillColumn(points: seq<seq<real>>, j: nat) returns (err: Option<Error>)
      requires Shaped() && points == this.points && j < M
      modifies coef
      ensures err.Some? ==> Spec(points, distances, bcType) == Err(err.value)
      ensures err.None? ==> Solvable()
      ensures err.None? ==> forall i, k :: 0 <= i < N - 1 && 0 <= k < M ==>
        coef[i, k] == if k == j then SolvedTable()[i][j] else old(coef[i, k])
    {
      var derivs := SolveDimension(points, bcType, uniform, dt, j);
      if derivs.Err? {
        SpecAfterLengthChecks(points, distances, bcType);
        return Some(derivs.error);
      }
      StoreSegments(coef, j, Column(points, j), derivs.value, uniform, dt);
      forall i | 0 <= i < N - 1 ensures coef[i, j] == SolvedTable()[i][j] {
        SpecTableCell(points, ParseBoundary(bcType).value, uniform, dt, i, j);
      }
      return None;
    }

    function Table(): (t: seq<seq<Cubic>>)
      reads this, coef
      ensures |t| == coef.Length0 && Rectangular(t, coef.Length1)
      ensures forall i, j :: 0 <= i < coef.Length0 && 0 <= j < coef.Length1 ==> t[i][j] == coef[i, j]
    {
      seq(coef.Length0, i requires 0 <= i < coef.Length0 reads coef =>
        seq(coef.Length1, j requires 0 <= j < coef.Length1 reads coef => coef[i, j]))
    }

    /** `fn(t)`: the spline at every query parameter, with length-one axes dropped. */
    function Fn(ts: seq<real>): (r: Result<Output>)
      reads this, coef
      requires Valid()
      ensures r.Ok? <==> |ts| > 0 && forall k :: 0 <= k < |ts| ==> EvalPoint(Table(), dt, t0, M, ts[k]).Ok?
      ensures r.Err? ==> r.error == IndexOutOfRange
      ensures r.Ok? ==> |Expand(r.value)| == |ts|
      ensures r.Ok? ==> forall k :: 0 <= k < |ts| ==> Ok(Expand(r.value)[k]) == EvalPoint(Table(), dt, t0, M, ts[k])
      ensures r.Ok? ==> Rectangular(Expand(r.value), M) && r.value == Collapse(M, Expand(r.value))
      ensures r.Ok? ==> ((r.value.Value? || r.value.Values?) <==> M == 1)
      ensures r.Ok? ==> ((r.value.Value? || r.value.Point?) <==> |ts| == 1)
    {
      match Evaluate(Table(), dt, t0, M, ts)
      case Err(e) => Err(e)
      case Ok(rows) =>
        CollapseRoundTrip(M, rows);
        Ok(Collapse(M, rows))
    }

    /** `interpolate(n)`: the spline at n evenly spaced parameters, and those parameters. */
    function Interpolate(count: int): (r: Result<(Output, seq<real>)>)
      reads this, coef
      requires Valid()
      ensures count < 0 ==> r == Err(NegativeSampleCount)
      ensures r.Ok? <==> Linspace(count).Ok? && Fn(Linspace(count).value).Ok?
      ensures r.Ok? ==> Linspace(count).Ok? && r.value.1 == Linspace(count).value
      ensures r.Ok? ==> Fn(r.value.1) == Ok(r.value.0) && |Expand(r.value.0)| == count
    {
      match Linspace(count)
      case Err(e) => Err(e)
      case Ok(ts) =>
        match Fn(ts)
        case Err(e) => Err(e)
        case Ok(o) => Ok((o, ts))
    }
  }

  /** Fills one coordinate's system: the end rows, then the rows inside. */
  method AssembleSystem(dim: seq<real>, bc: string, uniform: bool, dt: seq<real>)
      returns (err: Option<Error>, mat: array2<real>, row: array<real>)
    requires |dim| == |dt| + 1 && Positive(dt)
    ensures err == EndRowsError(|dim|, bc, uniform)
    ensures fresh(mat) && fresh(row)
    ensures err.None? ==> RowsOf(mat) == Matrix(ParseBoundary(bc).value, uniform, dt)
    ensures err.None? ==> row[..] == Rhs(dim, ParseBoundary(bc).value, uniform, dt)
  {
    var n := |dim|;
    mat := new real[n, n]((i, j) => 0.0);
    row := new real[n](i => 0.0);
    err := SetEndRows(dim, bc, uniform, dt, mat, row);
    if err.None? {
      var b := ParseBoundary(bc).value;
      FillInteriorRows(dim, b, uniform, dt, mat, row);
      MatrixFromEntries(mat, b, uniform, dt);
    }
  }

  /**
   * The `if bc_type == ...` chain with its `if uniform` branches: writes the
   * first and last rows, or reports the exception raised.
   */
  method SetEndRows(dim: seq<real>, bc: string, uniform: bool, dt: seq<real>, mat: array2<real>, row: array<real>)
      returns (err: Option<Error>)
    requires |dim| == |dt| + 1 && Positive(dt)
    requires mat.Length0 == |dim| && mat.Length1 == |dim| && row.Length == |dim|
    requires forall r, c :: 0 <= r < |dim| && 0 <= c < |dim| ==> mat[r, c] == 0.0
    requires forall r :: 0 <= r < |dim| ==> row[r] == 0.0
    modifies mat, row
    ensures err == EndRowsError(|dim|, bc, uniform)
    ensures err.None? ==> forall r, c :: 0 <= r < |dim| && 0 <= c < |dim| ==>
      mat[r, c] == if r == 0 || r == |dim| - 1 then Entry(ParseBoundary(bc).value, uniform, dt, r, c) else 0.0
    ensures err.None? ==> forall r :: 0 <= r < |dim| ==>
      row[r] == if r == 0 || r == |dim| - 1 then RhsEntry(dim, ParseBoundary(bc).value, uniform, dt, r) else 0.0
  {
    var n := |dim|;
    if bc == "natural" {
      if uniform {
        if n < 2 {
          return Some(ShapeError);
        }
        mat[0, 0], mat[0, 1] := 2.0, 1.0;
        mat[n - 1, n - 2], mat[n - 1, n - 1] := 1.0, 2.0;
        row[0] := 3.0 * (dim[1] - dim[0]);
        row[n - 1] := 3.0 * (dim[n - 1] - dim[n - 2]);
      } else {
        if n < 2 {
          return Some(IndexOutOfRange);
        }
        mat[0, 0], mat[0, 1] := 2.0 / dt[0], 1.0 / dt[0];
        mat[n - 1, n - 2], mat[n - 1, n - 1] := 1.0 / dt[n - 2], 2.0 / dt[n - 2];
        row[0] := 3.0 * (dim[1] - dim[0]) / (dt[0] * dt[0]);
        row[n - 1] := 3.0 * (dim[n - 1] - dim[n - 2]) / (dt[n - 2] * dt[n - 2]);
      }
    } else if bc == "d_equal" {
      if n <= 3 {
        return Some(DEqualNeedsFourPoints);
      }
      if !uniform {
        return Some(DEqualNeedsUniform);
      }
      mat[0, 0], mat[0, 1], mat[0, 2] := 1.0, 0.0, -1.0;
      mat[n - 1, n - 3], mat[n - 1, n - 2], mat[n - 1, n - 1] := -1.0, 0.0, 1.0;
      row[0] := 4.0 * dim[1] - 2.0 * dim[0] - 2.0 * dim[2];
      row[n - 1] := 2.0 * dim[n - 1] + 2.0 * dim[n - 3] - 4.0 * dim[n - 2];
    } else {
      return Some(UnknownBoundaryCondition);
    }
    return None;
  }

  /** The loop over the interior rows: (1, 4, 1) without distances, (h0, 2(h0 + h1), h1) with them. */
  method FillInteriorRows(dim: seq<real>, b: Boundary, uniform: bool, dt: seq<real>, mat: array2<real>, row: array<real>)
    requires |dim| == |dt| + 1 && Fits(|dim|, b, uniform) && Positive(dt)
    requires mat.Length0 == |dim| && mat.Length1 == |dim| && row.Length == |dim|
    requires forall r, c :: 0 <= r < |dim| && 0 <= c < |dim| ==>
      mat[r, c] == if r == 0 || r == |dim| - 1 then Entry(b, uniform, dt, r, c) else 0.0
    requires forall r :: 0 <= r < |dim| ==>
      row[r] == if r == 0 || r == |dim| - 1 then RhsEntry(dim, b, uniform, dt, r) else 0.0
    modifies mat, row
    ensures forall r, c :: 0 <= r < |dim| && 0 <= c < |dim| ==> mat[r, c] == Entry(b, uniform, dt, r, c)
    ensures forall r :: 0 <= r < |dim| ==> row[r] == RhsEntry(dim, b, uniform, dt, r)
  {
    var n := |dim|;
    var i := 1;
    while i < n - 1
      invariant 1 <= i <= n - 1
      invariant forall r, c :: 0 <= r < n && 0 <= c < n && (r < i || r == n - 1) ==> mat[r, c] == Entry(b, uniform, dt, r, c)
      invariant forall r, c :: i <= r < n - 1 && 0 <= c < n ==> mat[r, c] == 0.0
      invariant forall r :: 0 <= r < n && (r < i || r == n - 1) ==> row[r] == RhsEntry(dim, b, uniform, dt, r)
      invariant forall r :: i <= r < n - 1 ==> row[r] == 0.0
    {
      SetInteriorRow(dim, b, uniform, dt, mat, row, i);
      i := i + 1;
    }
  }

  /** One pass of the loop over the interior rows: row i of the matrix and of the right-hand side. */
  method SetInteriorRow(dim: seq<real>, b: Boundary, uniform: bool, dt: seq<real>, mat: array2<real>, row: array<real>, i: nat)
    requires |dim| == |dt| + 1 && Fits(|dim|, b, uniform) && Positive(dt) && 1 <= i < |dim| - 1
    requires mat.Length0 == |dim| && mat.Length1 == |dim| && row.Length == |dim|
    requires forall c :: 0 <= c < |dim| ==> mat[i, c] == 0.0
    modifies mat, row
    ensures forall r, c :: 0 <= r < |dim| && 0 <= c < |dim| ==>
      mat[r, c] == if r == i then Entry(b, uniform, dt, i, c) else old(mat[r, c])
    ensures forall r :: 0 <= r < |dim| ==> row[r] == if r == i then RhsEntry(dim, b, uniform, dt, i) else old(row[r])
  {
    if uniform {
      mat[i, i - 1], mat[i, i], mat[i, i + 1] := 1.0, 4.0, 1.0;
      row[i] := 3.0 * (dim[i + 1] - dim[i - 1]);
    } else {
      var h0 := 1.0 / dt[i - 1];
      var h1 := 1.0 / dt[i];
      mat[i, i - 1], mat[i, i], mat[i, i + 1] := h0, 2.0 * (h0 + h1), h1;
      row[i] := 3.0 * (dim[i] - dim[i - 1]) * (h0 * h0) + 3.0 * (dim[i + 1] - dim[i]) * (h1 * h1);
    }
  }

  lemma MatrixFromEntries(mat: array2<real>, b: Boundary, uniform: bool, dt: seq<real>)
    requires Fits(|dt| + 1, b, uniform) && Positive(dt)
    requires mat.Length0 == |dt| + 1 && mat.Length1 == |dt| + 1
    requires forall r, c :: 0 <= r < mat.Length0 && 0 <= c < mat.Length1 ==> mat[r, c] == Entry(b, uniform, dt, r, c)
    ensures RowsOf(mat) == Matrix(b, uniform, dt)
  {
    var a, e := RowsOf(mat), Matrix(b, uniform, dt);
    forall r | 0 <= r < |a| ensures a[r] == e[r] {
    }
  }

  /** The rows of a matrix held in an array. */
  function RowsOf(mat: array2<real>): (a: seq<seq<real>>)
    reads mat
    ensures |a| == mat.Length0 && Rectangular(a, mat.Length1)
    ensures forall i, j :: 0 <= i < mat.Length0 && 0 <= j < mat.Length1 ==> a[i][j] == mat[i, j]
  {
    UniformSpline.RowsOf(mat)
  }

  /**
   * The coefficients as the source writes them with distances: the factor
   * dt[i] applied to the slopes along t. They are the Hermite cubic with end
   * slopes d0·h and d1·h.
   */
  lemma ScaledCoefficients(p0: real, p1: real, d0: real, d1: real, h: real)
    ensures Cubic(p0, d0 * h, 3.0 * (p1 - p0) - (2.0 * d0 + d1) * h, 2.0 * (p0 - p1) + (d0 + d1) * h)
      == ScaledHermite(p0, p1, d0, d1, h)
  {
    assert (2.0 * d0 + d1) * h == 2.0 * (d0 * h) + d1 * h;
    assert (d0 + d1) * h == d0 * h + d1 * h;
  }

  /** Writes the cubics of coordinate j, one segment at a time. */
  method StoreSegments(coef: array2<Cubic>, j: nat, dim: seq<real>, d: seq<real>, uniform: bool, dt: seq<real>)
    requires |d| == |dim| == |dt| + 1 && coef.Length0 == |dt| && j < coef.Length1
    modifies coef
    ensures forall i, k :: 0 <= i < coef.Length0 && 0 <= k < coef.Length1 ==>
      coef[i, k] == if k == j then Pieces(dim, d, uniform, dt)[i] else old(coef[i, k])
  {
    var i := 0;
    while i < |dt|
      invariant 0 <= i <= |dt|
      invariant forall i', k :: 0 <= i' < coef.Length0 && 0 <= k < coef.Length1 ==>
        coef[i', k] == if k == j && i' < i then Pieces(dim, d, uniform, dt)[i'] else old(coef[i', k])
    {
      if uniform {
        coef[i, j] := Hermite(dim[i], dim[i + 1], d[i], d[i + 1]);
      } else {
        ScaledCoefficients(dim[i], dim[i + 1], d[i], d[i + 1], dt[i]);
        coef[i, j] := Cubic(dim[i], d[i] * dt[i], 3.0 * (dim[i + 1] - dim[i]) - (2.0 * d[i] + d[i + 1]) * dt[i],
                            2.0 * (dim[i] - dim[i + 1]) + (d[i] + d[i + 1]) * dt[i]);
      }
      i := i + 1;
    }
  }

  /**
   * One pass of the loop over coordinates: assemble the system of coordinate
   * j and solve it for the slopes, or report the exception raised.
   */
  method SolveDimension(points: seq<seq<real>>, bc: string, uniform: bool, dt: seq<real>, j: nat)
      returns (r: Result<seq<real>>)
    requires Rectangular(points, Width(points)) && j < Width(points)
    requires |points| == |dt| + 1 && Positive(dt)
    ensures r.Err? <==> (EndRowsError(|points|, bc, uniform).Some? ||
      !NonSingular(Matrix(ParseBoundary(bc).value, uniform, dt)))
    ensures r.Err? ==> (r.error ==
      if EndRowsError(|points|, bc, uniform).Some? then EndRowsError(|points|, bc, uniform).value else SingularMatrix)
    ensures r.Ok? ==> r.value == Derivs(points, ParseBoundary(bc).value, uniform, dt, j)
  {
    var dim := Column(points, j);
    var err, mat, row := AssembleSystem(dim, bc, uniform, dt);
    if err.Some? {
      return Err(err.value);
    }
    var b := ParseBoundary(bc).value;
    SolveCorrect(Matrix(b, uniform, dt), Rhs(dim, b, uniform, dt));
    var derivs := Solve(RowsOf(mat), row[..]);
    if derivs.None? {
      return Err(SingularMatrix);
    }
    SolutionUnique(Matrix(b, uniform, dt), Rhs(dim, b, uniform, dt), derivs.value, Derivs(points, b, uniform, dt, j));
    return Ok(derivs.value);
  }

  /**
   * `CubicSpline(points, distances, bc_type)`: builds the spline or reports
   * the exception raised.
   */
  method Build(points: seq<seq<real>>, distances: Option<seq<real>>, bc: string) returns (r: Result<CubicSpline>)
    requires Rectangular(points, Width(points))
    requires distances.Some? ==> Positive(distances.value)
    ensures r.Err? ==> Spec(points, distances, bc) == Err(r.error)
    ensures r.Ok? ==> fresh(r.value) && fresh(r.value.coef) && r.value.Valid()
    ensures r.Ok? ==> r.value.points == points && r.value.distances == distances && r.value.bcType == bc
  {
    var n := |points|;
    if distances.None? && n == 0 {
      return Err(ShapeError);
    }
    if distances.Some? && |distances.value| != n - 1 {
      return Err(DistancesLengthMismatch);
    }
    var spline := new CubicSpline(points, distances, bc);
    var err := spline.Fill(points);
    if err.Some? {
      return Err(err.value);
    }
    r := Ok(spline);
  }

  // ---------------------------------------------------------------------------
  // Evaluation
  // ---------------------------------------------------------------------------

  /** `np.argwhere(t >= t0)[-1]`: the last segment starting at or before t, if there is one. */
  function LastAtMost(t0: seq<real>, t: real): (k: Option<nat>)
    ensures k.Some? <==> exists i :: 0 <= i < |t0| && t0[i] <= t
    ensures k.Some? ==> k.value < |t0| && t0[k.value] <= t
    ensures k.Some? ==> forall i :: k.value < i < |t0| ==> t < t0[i]
  {
    if |t0| == 0 then None
    else if t0[|t0| - 1] <= t then Some(|t0| - 1)
    else LastAtMost(t0[..|t0| - 1], t)
  }

  /**
   * One query: the segment located by LastAtMost and the local parameter
   * (t - t0[k]) / dt[k]; an IndexError when no segment starts at or before
   * t, or when the located index has no step (a single point).
   */
  function EvalPoint(table: seq<seq<Cubic>>, dt: seq<real>, t0: seq<real>, m: nat, t: real): (r: Result<seq<real>>)
    requires Rectangular(table, m) && |table| == |dt| && Positive(dt)
    ensures r.Ok? ==> |r.value| == m
    ensures r.Err? <==> LastAtMost(t0, t).None? || LastAtMost(t0, t).value >= |dt|
  {
    match LastAtMost(t0, t)
    case None => Err(IndexOutOfRange)
    case Some(k) =>
      if k >= |dt| then Err(IndexOutOfRange)
      else Ok(seq(m, j requires 0 <= j < m => Eval(table[k][j], (t - t0[k]) / dt[k])))
  }

  /**
   * All queries. No query at all fails too: the empty index array numpy
   * builds then is of float type and cannot index.
   */
  function Evaluate(table: seq<seq<Cubic>>, dt: seq<real>, t0: seq<real>, m: nat, ts: seq<real>)
      : (r: Result<seq<seq<real>>>)
    requires Rectangular(table, m) && |table| == |dt| && Positive(dt)
    ensures r.Err? <==> |ts| == 0 || exists k :: 0 <= k < |ts| && EvalPoint(table, dt, t0, m, ts[k]).Err?
    ensures r.Ok? ==> |r.value| == |ts| && Rectangular(r.value, m)
    ensures r.Ok? ==> forall k :: 0 <= k < |ts| ==> Ok(r.value[k]) == EvalPoint(table, dt, t0, m, ts[k])
  {
    if |ts| == 0 then Err(IndexOutOfRange)
    else if exists k :: 0 <= k < |ts| && EvalPoint(table, dt, t0, m, ts[k]).Err? then Err(IndexOutOfRange)
    else Ok(seq(|ts|, k requires 0 <= k < |ts| => EvalPoint(table, dt, t0, m, ts[k]).value))
  }

  /** LastAtMost finds k exactly when segment k starts at or before t and every later one after t. */
  lemma LastAtMostIs(t0: seq<real>, t: real, k: nat)
    requires k < |t0| && t0[k] <= t
    requires forall i :: k < i < |t0| ==> t < t0[i]
    ensures LastAtMost(t0, t) == Some(k)
  {
  }

  lemma DivAtMostOne(x: real, d: real)
    requires 0.0 <= x <= d && d > 0.0
    ensures 0.0 <= x / d <= 1.0
  {
  }

  /**
   * For t in [0, 1] the segment found is one of the segments and the local
   * parameter lies in [0, 1], below 1 on every segment but the last.
   */
  lemma LocateInRange(dt: seq<real>, t: real)
    requires |dt| >= 1 && Positive(dt) && Sum(dt) == 1.0 && 0.0 <= t <= 1.0
    ensures LastAtMost(Offsets(dt), t).Some?
    ensures var k := LastAtMost(Offsets(dt), t).value;
      && k < |dt|
      && 0.0 <= (t - Offsets(dt)[k]) / dt[k] <= 1.0
      && (k < |dt| - 1 ==> (t - Offsets(dt)[k]) / dt[k] < 1.0)
  {
    var t0 := Offsets(dt);
    assert t0[0] == 0.0;
    var k := LastAtMost(t0, t).value;
    OffsetsChain(dt, k);
    if k + 1 < |dt| {
      assert t < t0[k + 1];
      DivBelowOne(t - t0[k], dt[k]);
    } else {
      DivAtMostOne(t - t0[k], dt[k]);
    }
  }

  /** At the start t0[k] of segment k the evaluator returns point k. */
  lemma EvalAtStart(points: seq<seq<real>>, table: seq<seq<Cubic>>, dt: seq<real>, m: nat, k: nat)
    requires PassesThrough(points, table, m) && |points| == |dt| + 1 && Positive(dt) && k < |dt|
    ensures EvalPoint(table, dt, Offsets(dt), m, Offsets(dt)[k]) == Ok(points[k])
  {
    var t0 := Offsets(dt);
    forall i | k < i < |t0| ensures t0[k] < t0[i] {
      OffsetsIncreasing(dt, k, i);
    }
    LastAtMostIs(t0, t0[k], k);
    assert (t0[k] - t0[k]) / dt[k] == 0.0;
    var r := EvalPoint(table, dt, t0, m, t0[k]);
    assert r.value == points[k];
  }

  /** At t = 1 the evaluator returns the last point, at the end of the last segment. */
  lemma EvalAtEnd(points: seq<seq<real>>, table: seq<seq<Cubic>>, dt: seq<real>, m: nat)
    requires PassesThrough(points, table, m) && |points| == |dt| + 1 >= 2 && Positive(dt) && Sum(dt) == 1.0
    ensures EvalPoint(table, dt, Offsets(dt), m, 1.0) == Ok(points[|points| - 1])
  {
    var t0, k := Offsets(dt), |dt| - 1;
    OffsetsChain(dt, k);
    LastAtMostIs(t0, 1.0, k);
    assert 1.0 - t0[k] == dt[k];
    DivSelf(1.0 - t0[k], dt[k]);
    var r := EvalPoint(table, dt, t0, m, 1.0);
    assert r.value == points[k + 1];
  }

  lemma DivSelf(x: real, y: real)
    requires x == y && y > 0.0
    ensures x / y == 1.0
  {
  }

  /** No segment starts before 0: a negative query fails. */
  lemma EvalBeforeStartFails(table: seq<seq<Cubic>>, dt: seq<real>, m: nat, t: real)
    requires Rectangular(table, m) && |table| == |dt| && Positive(dt) && t < 0.0
    ensures EvalPoint(table, dt, Offsets(dt), m, t) == Err(IndexOutOfRange)
  {
    var t0 := Offsets(dt);
    forall i | 0 <= i < |t0| ensures 0.0 <= t0[i] {
      if i > 0 {
        OffsetsStart(dt, i);
      }
    }
  }

  /** Every query in [0, 1] succeeds; 0 gives the first point and 1 the last. */
  lemma EvaluateInDomain(points: seq<seq<real>>, table: seq<seq<Cubic>>, dt: seq<real>, m: nat, ts: seq<real>)
    requires PassesThrough(points, table, m) && |points| == |dt| + 1 >= 2 && Positive(dt) && Sum(dt) == 1.0
    requires |ts| > 0 && forall k :: 0 <= k < |ts| ==> 0.0 <= ts[k] <= 1.0
    ensures Evaluate(table, dt, Offsets(dt), m, ts).Ok?
    ensures forall k :: 0 <= k < |ts| && ts[k] == 0.0 ==> Evaluate(table, dt, Offsets(dt), m, ts).value[k] == points[0]
    ensures forall k :: 0 <= k < |ts| && ts[k] == 1.0 ==>
      Evaluate(table, dt, Offsets(dt), m, ts).value[k] == points[|points| - 1]
  {
    forall k | 0 <= k < |ts| ensures EvalPoint(table, dt, Offsets(dt), m, ts[k]).Ok? {
      LocateInRange(dt, ts[k]);
    }
    EvalAtStart(points, table, dt, m, 0);
    EvalAtEnd(points, table, dt, m);
  }

  // ---------------------------------------------------------------------------
  // The built spline, end to end
  // ---------------------------------------------------------------------------

  /** `fn` at the start of segment k gives point k, and `fn(1)` gives the last point. */
  lemma FnAtPoints(spline: CubicSpline, k: nat)
    requires spline.Valid() && spline.N >= 2 && k < spline.N
    ensures spline.Fn([if k < spline.N - 1 then spline.t0[k] else 1.0]) == Ok(Collapse(spline.M, [spline.points[k]]))
  {
    BuiltTablePassesThrough(spline.points, spline.distances, spline.bcType);
    var t := if k < spline.N - 1 then spline.t0[k] else 1.0;
    if k < spline.N - 1 {
      EvalAtStart(spline.points, spline.Table(), spline.dt, spline.M, k);
    } else {
      EvalAtEnd(spline.points, spline.Table(), spline.dt, spline.M);
    }
    assert Evaluate(spline.Table(), spline.dt, spline.t0, spline.M, [t]).value == [spline.points[k]];
  }

  /**
   * `interpolate(n)` of a built spline succeeds for every n >= 1, returns n
   * values, and starts and ends at the first and last points.
   */
  lemma InterpolateSpansPoints(spline: CubicSpline, count: int)
    requires spline.Valid() && spline.N >= 2 && count >= 1
    ensures spline.Interpolate(count).Ok?
    ensures var rows := Expand(spline.Interpolate(count).value.0);
      |rows| == count &&
      rows[0] == spline.points[0] &&
      (count >= 2 ==> rows[count - 1] == spline.points[spline.N - 1])
  {
    BuiltTablePassesThrough(spline.points, spline.distances, spline.bcType);
    var ts := Linspace(count).value;
    EvaluateInDomain(spline.points, spline.Table(), spline.dt, spline.M, ts);
    var rows := Evaluate(spline.Table(), spline.dt, spline.t0, spline.M, ts).value;
    CollapseRoundTrip(spline.M, rows);
  }

  /**
   * The queries `fn` refuses: an empty query list (so `interpolate(0)`), a
   * negative parameter, and any query on a spline of a single point.
   */
  lemma FnFailures(spline: CubicSpline, ts: seq<real>, k: nat)
    requires spline.Valid()
    ensures spline.Fn([]) == Err(IndexOutOfRange)
    ensures spline.Interpolate(0) == Err(IndexOutOfRange)
    ensures k < |ts| && ts[k] < 0.0 ==> spline.Fn(ts) == Err(IndexOutOfRange)
    ensures spline.N == 1 && |ts| > 0 ==> spline.Fn(ts) == Err(IndexOutOfRange)
  {
    assert Linspace(0) == Ok([]);
    if k < |ts| && ts[k] < 0.0 {
      EvalBeforeStartFails(spline.Table(), spline.dt, spline.M, ts[k]);
    }
    if spline.N == 1 && |ts| > 0 {
      assert EvalPoint(spline.Table(), spline.dt, spline.t0, spline.M, ts[0]).Err?;
    }
  }

  // ---------------------------------------------------------------------------
  // Without distances: the uniform-only version
  // ---------------------------------------------------------------------------

  /** Without distances segment k starts at k/(N-1), as in the uniform-only version. */
  lemma OffsetsUniform(n: nat, k: nat)
    requires n >= 2 && k < n - 1
    ensures Offsets(Steps(n, None))[k] == k as real / (n - 1) as real
  {
    OffsetsOfConstant(Steps(n, None), 1.0 / (n - 1) as real, k);
    MulRecip(k as real, (n - 1) as real);
  }

  /** With every share equal to v, segment k starts at k·v. */
  lemma OffsetsOfConstant(dt: seq<real>, v: real, k: nat)
    requires k < |dt| && forall i :: 0 <= i < |dt| ==> dt[i] == v
    ensures Offsets(dt)[k] == k as real * v
  {
    OffsetsAreSums(dt, k);
    SumConstant(dt[..k], v);
  }

  lemma MulRecip(a: real, d: real)
    requires d > 0.0
    ensures a * (1.0 / d) == a / d
  {
  }

  /**
   * Without distances the builder yields what the uniform-only builder
   * yields, except that 'd_equal' on three points or fewer fails its new
   * `N > 3` assertion instead of a numpy error.
   */
  lemma SpecWithoutDistances(points: seq<seq<real>>, bc: string)
    requires Rectangular(points, Width(points))
    ensures if bc == "d_equal" && 1 <= |points| <= 3 && Width(points) > 0 then
        Spec(points, None, bc) == Err(DEqualNeedsFourPoints) && UniformSpline.Spec(points, bc).Err?
      else
        Spec(points, None, bc) == UniformSpline.Spec(points, bc)
  {
    var n, m := |points|, Width(points);
    if n == 0 {
    } else if m == 0 {
      var e: seq<seq<Cubic>> := seq(n - 1, i => []);
      assert Spec(points, None, bc) == Ok(e);
      assert UniformSpline.Spec(points, bc) == Ok(e);
    } else if bc == "d_equal" && n <= 3 {
      if n == 3 {
        UniformSpline.DEqualThreePointsSingular();
      }
    } else if ParseBoundary(bc).Some? && Fits(n, ParseBoundary(bc).value, true) {
      var b, dt := ParseBoundary(bc).value, Steps(n, None);
      assert Matrix(b, true, dt) == UniformSpline.Matrix(n, b);
      if NonSingular(Matrix(b, true, dt)) {
        var t, e := SpecTable(points, b, true, dt), UniformSpline.SpecTable(points, b);
        forall i, j | 0 <= i < n - 1 && 0 <= j < m ensures t[i][j] == e[i][j] {
          SpecTableCell(points, b, true, dt, i, j);
          UniformSpline.SpecTableCell(points, b, i, j);
          assert Rhs(Column(points, j), b, true, dt) == UniformSpline.Rhs(Column(points, j), b);
          assert Derivs(points, b, true, dt, j) == UniformSpline.Derivs(points, b, j);
        }
        TableFromCells(t, e, m);
      }
    }
  }

  // ---------------------------------------------------------------------------
  // Equal distances
  // ---------------------------------------------------------------------------

  /** Equal distances normalise to the shares used when no distances are given. */
  lemma StepsOfEqual(n: nat, c: real)
    requires n >= 2 && c > 0.0
    ensures Positive(seq(n - 1, k => c))
    ensures Steps(n, Some(seq(n - 1, k => c))) == Steps(n, None)
  {
    var cs := seq(n - 1, k => c);
    NormalizeEqual(cs, c);
    var dt, e := Steps(n, Some(cs)), Steps(n, None);
    assert dt == Normalize(cs);
    assert forall k :: 0 <= k < n - 1 ==> dt[k] == e[k];
  }

  /** k equal positive distances normalise to k shares of 1/k. */
  lemma NormalizeEqual(cs: seq<real>, c: real)
    requires |cs| >= 1 && c > 0.0 && forall k :: 0 <= k < |cs| ==> cs[k] == c
    ensures Positive(cs)
    ensures forall k :: 0 <= k < |cs| ==> Normalize(cs)[k] == 1.0 / |cs| as real
  {
    var w := |cs| as real;
    SumConstant(cs, c);
    var dt := Normalize(cs);
    forall k | 0 <= k < |cs| ensures dt[k] == 1.0 / w {
      ShareOfEqual(dt[k], Sum(cs), w, c);
    }
  }

  lemma ShareOfEqual(x: real, total: real, w: real, c: real)
    requires w > 0.0 && c > 0.0 && total == w * c && x * total == c
    ensures x == 1.0 / w
  {
    assert x * total == (x * w) * c;
    assert x * w == 1.0;
  }

  /** Every share is 1/w: the spacing of w equal segments. */
  predicate SharesOf(dt: seq<real>, w: real)
  {
    w > 0.0 && forall k :: 0 <= k < |dt| ==> dt[k] == 1.0 / w
  }

  lemma SharesPositive(dt: seq<real>, w: real)
    requires SharesOf(dt, w)
    ensures Positive(dt)
  {
  }

  /** With equal shares every scaled row is the uniform 'natural' row times w. */
  lemma ScaledRowOfEqual(dt: seq<real>, w: real, i: nat)
    requires |dt| >= 1 && Positive(dt) && SharesOf(dt, w) && i <= |dt|
    ensures ScaledMatrix(dt)[i] == Scale(UniformSpline.Matrix(|dt| + 1, Natural)[i], w)
  {
    var n := |dt| + 1;
    var a, u := ScaledMatrix(dt), Scale(UniformSpline.Matrix(n, Natural)[i], w);
    forall k | 0 <= k < n - 1 ensures 1.0 / dt[k] == w {
      RecipRecip(w);
    }
    forall j | 0 <= j < n ensures a[i][j] == u[j] {
    }
  }

  lemma RecipRecip(w: real)
    requires w > 0.0
    ensures 1.0 / (1.0 / w) == w
  {
  }

  /** With equal shares every scaled right-hand side is the uniform one times w². */
  lemma ScaledRhsOfEqual(p: seq<real>, dt: seq<real>, w: real, i: nat)
    requires |p| == |dt| + 1 >= 2 && Positive(dt) && SharesOf(dt, w) && i < |p|
    ensures ScaledRhsEntry(p, dt, i) == w * w * UniformSpline.RhsEntry(p, Natural, i)
  {
    var n := |p|;
    if i == 0 {
      OverSquaredShare(3.0 * (p[1] - p[0]), dt[0], w);
    } else if i == n - 1 {
      OverSquaredShare(3.0 * (p[n - 1] - p[n - 2]), dt[n - 2], w);
    } else {
      RecipRecip(w);
      assert 1.0 / dt[i - 1] == w && 1.0 / dt[i] == w;
      InteriorRhsScaled(p[i - 1], p[i], p[i + 1], w);
    }
  }

  lemma OverSquaredShare(x: real, d: real, w: real)
    requires w > 0.0 && d == 1.0 / w
    ensures x / (d * d) == w * w * x
  {
    assert d * d * (w * w) == 1.0;
  }

  lemma InteriorRhsScaled(x: real, y: real, z: real, w: real)
    ensures 3.0 * (y - x) * (w * w) + 3.0 * (z - y) * (w * w) == w * w * (3.0 * z - 3.0 * x)
  {
  }

  /** With equal shares 1/w the slopes along t are the uniform local slopes times w. */
  lemma SlopesOfEqual(p: seq<real>, du: seq<real>, dt: seq<real>, w: real)
    requires |p| == |dt| + 1 >= 2 && |du| == |p| && Positive(dt) && SharesOf(dt, w)
    requires Solves(UniformSpline.Matrix(|p|, Natural), UniformSpline.Rhs(p, Natural), du)
    ensures Solves(ScaledMatrix(dt), ScaledRhs(p, dt), Scale(du, w))
  {
    forall i | 0 <= i < |p| ensures Dot(ScaledMatrix(dt)[i], Scale(du, w)) == ScaledRhs(p, dt)[i] {
      var r := UniformSpline.Rhs(p, Natural)[i];
      ScaledDotOfEqual(du, dt, w, i, r);
      ScaledRhsOfEqual(p, dt, w, i);
    }
  }

  lemma ScaledDotOfEqual(du: seq<real>, dt: seq<real>, w: real, i: nat, r: real)
    requires |du| == |dt| + 1 >= 2 && Positive(dt) && SharesOf(dt, w) && i < |du|
    requires Dot(UniformSpline.Matrix(|du|, Natural)[i], du) == r
    ensures Dot(ScaledMatrix(dt)[i], Scale(du, w)) == w * w * r
  {
    ScaledRowOfEqual(dt, w, i);
    DotOfScaled(UniformSpline.Matrix(|du|, Natural)[i], ScaledMatrix(dt)[i], du, w, r);
  }

  lemma DotOfScaled(row: seq<real>, scaled: seq<real>, x: seq<real>, w: real, r: real)
    requires |row| == |x| && scaled == Scale(row, w) && Dot(row, x) == r
    ensures Dot(scaled, Scale(x, w)) == w * w * r
  {
    DotToScaled(row, x, w, w, |row|);
    assert |scaled| == |row|;
  }

  /** Slopes along t times the shares 1/w are the local slopes: the same cubics. */
  lemma PiecesOfEqual(p: seq<real>, du: seq<real>, dt: seq<real>, w: real)
    requires |du| == |p| == |dt| + 1 && SharesOf(dt, w)
    ensures Pieces(p, Scale(du, w), false, dt) == Pieces(p, du, true, dt)
  {
    var s, u := ScaledSegments(p, Scale(du, w), dt), UniformSpline.Segments(p, du);
    forall i | 0 <= i < |s| ensures s[i] == u[i] {
      ScaledSegmentOfEqual(p, du, dt, w, i);
    }
  }

  /** One segment of PiecesOfEqual. */
  lemma ScaledSegmentOfEqual(p: seq<real>, du: seq<real>, dt: seq<real>, w: real, i: nat)
    requires |du| == |p| == |dt| + 1 && SharesOf(dt, w) && i < |dt|
    ensures ScaledSegments(p, Scale(du, w), dt)[i] == UniformSpline.Segments(p, du)[i]
  {
    var sd := Scale(du, w);
    assert sd[i] == w * du[i] && sd[i + 1] == w * du[i + 1] && dt[i] == 1.0 / w;
    ScaledHermiteOfEqual(p[i], p[i + 1], du[i], du[i + 1], w);
  }

  lemma ScaledHermiteOfEqual(p0: real, p1: real, x: real, y: real, w: real)
    requires w > 0.0
    ensures ScaledHermite(p0, p1, w * x, w * y, 1.0 / w) == Hermite(p0, p1, x, y)
  {
    assert (w * x) * (1.0 / w) == x && (w * y) * (1.0 / w) == y;
  }

  /**
   * Under 'natural', N-1 equal distances build the same table as no
   * distances, except on one point, where dt[0] does not exist.
   */
  lemma EqualDistancesNatural(points: seq<seq<real>>, c: real)
    requires Rectangular(points, Width(points)) && |points| >= 1 && c > 0.0
    ensures Positive(seq(|points| - 1, k => c))
    ensures if |points| == 1 && Width(points) > 0 then
        Spec(points, Some(seq(|points| - 1, k => c)), "natural") == Err(IndexOutOfRange) &&
        Spec(points, None, "natural") == Err(ShapeError)
      else
        Spec(points, Some(seq(|points| - 1, k => c)), "natural") == Spec(points, None, "natural")
  {
    var n, m := |points|, Width(points);
    var cs := seq(n - 1, k => c);
    if n >= 2 && m > 0 {
      StepsOfEqual(n, c);
      var dt, w := Steps(n, None), (n - 1) as real;
      assert SharesOf(dt, w);
      SpecAfterLengthChecks(points, Some(cs), "natural");
      SpecAfterLengthChecks(points, None, "natural");
      MatrixNonSingular(Natural, false, dt);
      MatrixNonSingular(Natural, true, dt);
      var t, e := SpecTable(points, Natural, false, dt), SpecTable(points, Natural, true, dt);
      forall i, j | 0 <= i < n - 1 && 0 <= j < m ensures t[i][j] == e[i][j] {
        EqualSharesCell(points, dt, w, i, j);
      }
      TableFromCells(t, e, m);
    } else if m == 0 {
      var e: seq<seq<Cubic>> := seq(n - 1, i => []);
      assert Spec(points, Some(cs), "natural") == Ok(e);
      assert Spec(points, None, "natural") == Ok(e);
    }
  }

  /** Cell (i, j) of the 'natural' table is the same with equal shares read as distances or not. */
  lemma EqualSharesCell(points: seq<seq<real>>, dt: seq<real>, w: real, i: nat, j: nat)
    requires Rectangular(points, Width(points)) && |points| == |dt| + 1 >= 2 && Positive(dt) && SharesOf(dt, w)
    requires i < |points| - 1 && j < Width(points)
    requires NonSingular(Matrix(Natural, false, dt)) && NonSingular(Matrix(Natural, true, dt))
    ensures SpecTable(points, Natural, false, dt)[i][j] == SpecTable(points, Natural, true, dt)[i][j]
  {
    var p := Column(points, j);
    var ds, du := Derivs(points, Natural, false, dt, j), Derivs(points, Natural, true, dt, j);
    SlopesOfEqual(p, du, dt, w);
    SolutionUnique(ScaledMatrix(dt), ScaledRhs(p, dt), ds, Scale(du, w));
    PiecesOfEqual(p, du, dt, w);
    SpecTableCell(points, Natural, false, dt, i, j);
    SpecTableCell(points, Natural, true, dt, i, j);
  }

  /**
   * Under 'd_equal', N-1 equal distances describe the spacing the uniform
   * rows assume, yet the build refuses them while it succeeds without them.
   */
  lemma EqualDistancesDEqualRefused(points: seq<seq<real>>, c: real)
    requires Rectangular(points, Width(points)) && |points| >= 4 && Width(points) > 0 && c > 0.0
    ensures Positive(seq(|points| - 1, k => c))
    ensures Spec(points, Some(seq(|points| - 1, k => c)), "d_equal") == Err(DEqualNeedsUniform)
    ensures Spec(points, None, "d_equal").Ok?
  {
    SpecErrors(points, Some(seq(|points| - 1, k => c)), "d_equal");
    SpecErrors(points, None, "d_equal");
  }

  /** Every distance is the first one. */
  predicate EqualShares(ds: seq<real>)
  {
    forall k :: 0 <= k < |ds| ==> ds[k] == ds[0]
  }

  /**
   * The build with 'd_equal' open to equal distances, which describe the
   * uniform spacing its end rows assume: equal distances are read as none.
   */
  ghost function SpecEqualAsUniform(points: seq<seq<real>>, distances: Option<seq<real>>, bc: string): Result<seq<seq<Cubic>>>
    requires Rectangular(points, Width(points)) && (distances.Some? ==> Positive(distances.value))
  {
    if distances.Some? && |points| >= 2 && |distances.value| == |points| - 1 && EqualShares(distances.value) then
      Spec(points, None, bc)
    else
      Spec(points, distances, bc)
  }

  /**
   * Reading equal distances as none changes nothing under 'natural', and
   * lets 'd_equal' build from four points on with equal distances, as it
   * does without distances.
   */
  lemma EqualAsUniformKeepsNatural(points: seq<seq<real>>, distances: Option<seq<real>>, bc: string)
    requires Rectangular(points, Width(points)) && (distances.Some? ==> Positive(distances.value))
    ensures bc == "natural" ==> SpecEqualAsUniform(points, distances, bc) == Spec(points, distances, bc)
    ensures (distances.Some? && |points| >= 4 && |distances.value| == |points| - 1 && EqualShares(distances.value) &&
             bc == "d_equal") ==> SpecEqualAsUniform(points, distances, bc).Ok?
    ensures (distances.Some? && |points| >= 4 && |distances.value| == |points| - 1 && !EqualShares(distances.value) &&
             bc == "d_equal" && Width(points) > 0) ==> SpecEqualAsUniform(points, distances, bc) == Err(DEqualNeedsUniform)
  {
    var n := |points|;
    if distances.Some? && n >= 2 && |distances.value| == n - 1 && EqualShares(distances.value) {
      var ds := distances.value;
      assert ds == seq(n - 1, k => ds[0]);
      EqualDistancesNatural(points, ds[0]);
      SpecErrors(points, None, bc);
    } else {
      SpecErrors(points, distances, bc);
    }
  }

  /** The fractional part of a real is below 1 unless t·(N-1) is N-1 itself. */
  lemma LocateShape(n: nat, t: real)
    requires n >= 2 && 0.0 <= t <= 1.0
    ensures var (i, u) := UniformSpline.Locate(n, t);
      0 <= i <= n - 2 && 0.0 <= u <= 1.0 && i as real + u == t * (n - 1) as real && (u < 1.0 || i == n - 2)
  {
    UniformSpline.LocateInRange(n, t);
  }

  /** A start i/d and a share 1/d turn t into the local parameter t·d - i. */
  lemma RescaleLocal(t: real, i: real, u: real, d: real, start: real, share: real)
    requires d > 0.0 && start == i / d && share == 1.0 / d && i + u == t * d
    ensures (t - start) / share == u
  {
    assert (t - i / d) * d == t * d - i;
  }

  lemma BelowScaled(a: real, t: real, d: real)
    requires d > 0.0 && a <= t * d
    ensures a / d <= t
  {
    assert t * d / d == t;
  }

  lemma AboveScaled(t: real, b: real, d: real)
    requires d > 0.0 && t * d < b
    ensures t < b / d
  {
    assert t * d / d == t;
  }

  /** Without distances the segment at the truncation of t·(N-1) starts at or before t. */
  lemma UniformStartAtOrBefore(n: nat, t: real)
    requires n >= 2 && 0.0 <= t <= 1.0
    ensures var i := UniformSpline.Locate(n, t).0;
      0 <= i < n - 1 && Offsets(Steps(n, None))[i] <= t
  {
    var (i, u) := UniformSpline.Locate(n, t);
    LocateShape(n, t);
    OffsetsUniform(n, i);
    BelowScaled(i as real, t, (n - 1) as real);
  }

  /** Without distances every later segment starts after t. */
  lemma UniformLaterStartsAfter(n: nat, t: real, j: nat)
    requires n >= 2 && 0.0 <= t <= 1.0 && UniformSpline.Locate(n, t).0 < j < n - 1
    ensures t < Offsets(Steps(n, None))[j]
  {
    LocateShape(n, t);
    OffsetsUniform(n, j);
    AboveScaled(t, j as real, (n - 1) as real);
  }

  /** Without distances the last segment starting at or before t is the truncation of t·(N-1). */
  lemma LookupWithoutDistances(n: nat, t: real)
    requires n >= 2 && 0.0 <= t <= 1.0
    ensures LastAtMost(Offsets(Steps(n, None)), t) == Some(UniformSpline.Locate(n, t).0)
  {
    var t0 := Offsets(Steps(n, None));
    var i := UniformSpline.Locate(n, t).0;
    UniformStartAtOrBefore(n, t);
    forall j | i < j < |t0| ensures t < t0[j] {
      UniformLaterStartsAfter(n, t, j);
    }
    LastAtMostIs(t0, t, i);
  }

  /** Without distances (t - t0[i]) / dt[i] is the fractional part the uniform-only version uses. */
  lemma LocalWithoutDistances(n: nat, t: real)
    requires n >= 2 && 0.0 <= t <= 1.0
    ensures var (i, u) := UniformSpline.Locate(n, t);
      0 <= i < n - 1 && (t - Offsets(Steps(n, None))[i]) / Steps(n, None)[i] == u
  {
    var (i, u) := UniformSpline.Locate(n, t);
    var d := (n - 1) as real;
    LocateShape(n, t);
    OffsetsUniform(n, i);
    RescaleLocal(t, i as real, u, d, Offsets(Steps(n, None))[i], Steps(n, None)[i]);
  }

  /**
   * Without distances, on a query in [0, 1], the lookup through t0 finds the
   * same segment and local parameter as the uniform-only version's truncation
   * of t·(N-1), so both evaluate the same cubic at the same place.
   */
  lemma EvalPointWithoutDistances(table: seq<seq<Cubic>>, n: nat, m: nat, t: real)
    requires n >= 2 && Rectangular(table, m) && |table| == n - 1 && 0.0 <= t <= 1.0
    ensures EvalPoint(table, Steps(n, None), Offsets(Steps(n, None)), m, t) == UniformSpline.EvalPoint(table, n, m, t)
  {
    LookupWithoutDistances(n, t);
    LocalWithoutDistances(n, t);
    var r := EvalPoint(table, Steps(n, None), Offsets(Steps(n, None)), m, t);
    var o := UniformSpline.EvalPoint(table, n, m, t);
    assert r.value == o.value;
  }

  /** Without distances, on queries in [0, 1], both evaluators give the same values. */
  lemma EvaluateWithoutDistances(table: seq<seq<Cubic>>, n: nat, m: nat, ts: seq<real>)
    requires n >= 2 && Rectangular(table, m) && |table| == n - 1
    requires |ts| > 0 && forall k :: 0 <= k < |ts| ==> 0.0 <= ts[k] <= 1.0
    ensures Evaluate(table, Steps(n, None), Offsets(Steps(n, None)), m, ts) == UniformSpline.Evaluate(table, n, m, ts)
  {
    var dt := Steps(n, None);
    forall k | 0 <= k < |ts|
      ensures EvalPoint(table, dt, Offsets(dt), m, ts[k]) == UniformSpline.EvalPoint(table, n, m, ts[k])
    {
      EvalPointWithoutDistances(table, n, m, ts[k]);
    }
    var r, o := Evaluate(table, dt, Offsets(dt), m, ts), UniformSpline.Evaluate(table, n, m, ts);
    if r.Ok? {
      assert r.value == o.value;
    }
  }

  /**
   * A spline built without distances and a uniform-only spline built from
   * the same points and boundary condition answer every non-empty list of
   * queries in [0, 1] alike, and so every `interpolate(n)` with n >= 1;
   * `fn([])` and `interpolate(0)` fail here where the uniform-only version
   * returns nothing.
   */
  lemma FnWithoutDistances(spline: CubicSpline, uniform: UniformSpline.CubicSpline, ts: seq<real>, count: int)
    requires spline.Valid() && uniform.Valid() && spline.distances.None?
    requires spline.points == uniform.points && spline.bcType == uniform.bcType && spline.N >= 2
    ensures |ts| > 0 && (forall k :: 0 <= k < |ts| ==> 0.0 <= ts[k] <= 1.0) ==> spline.Fn(ts) == uniform.Fn(ts)
    ensures count >= 1 ==> spline.Interpolate(count) == uniform.Interpolate(count)
    ensures spline.Interpolate(0).Err? && uniform.Interpolate(0).Ok?
    ensures spline.Fn([]).Err? && uniform.Fn([]).Ok?
  {
    SpecWithoutDistances(spline.points, spline.bcType);
    assert spline.Table() == uniform.Table();
    if |ts| > 0 && forall k :: 0 <= k < |ts| ==> 0.0 <= ts[k] <= 1.0 {
      EvaluateWithoutDistances(spline.Table(), spline.N, spline.M, ts);
    }
    if count >= 1 {
      var qs := Linspace(count).value;
      EvaluateWithoutDistances(spline.Table(), spline.N, spline.M, qs);
    }
    assert Linspace(0) == Ok([]);
  }
}
