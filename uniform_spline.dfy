/**
 * The uniform-only cubic spline (CubicSpline.py).
 *
 * Points are placed at the parameters k/(N-1). For every coordinate the
 * builder assembles an N×N system for the slopes d[k] at the points (end rows
 * from the boundary condition, (1, 4, 1) rows inside), solves it, and stores
 * segment k as the Hermite cubic through p[k], p[k+1] with end slopes d[k],
 * d[k+1], in the segment's own parameter u in [0, 1].
 *
 * What is proved: the table passes through every point and has continuous
 * slopes whatever the slopes are; each row of the system holds exactly when
 * the condition it stands for holds (continuous curvature inside, zero end
 * curvature for 'natural', equal end jerks for 'd_equal'), so a built table
 * meets them all; and the evaluator maps [0, 1] onto valid segments and hits
 * every point at its parameter.
 */
module UniformSpline {

  import opened Common
  import opened LinearSystem
  import opened Cubics

  // ---------------------------------------------------------------------------
  // The slope system
  // ---------------------------------------------------------------------------

  /** Fewest points whose end rows fit in the matrix. */
  function MinPoints(b: Boundary): nat
  {
    match b
    case Natural => 2
    case DEqual => 3
  }

  /**
   * The exception raised while the end rows are written, if any: numpy
   * refuses a slice assignment that does not fit, and an unknown `bc_type`
   * is a ValueError.
   */
  function EndRowsError(n: nat, bc: string): (e: Option<Error>)
    ensures e.None? <==> ParseBoundary(bc).Some? && n >= MinPoints(ParseBoundary(bc).value)
    ensures ParseBoundary(bc).None? ==> e == Some(UnknownBoundaryCondition)
  {
    match ParseBoundary(bc)
    case None => Some(UnknownBoundaryCondition)
    case Some(b) => if n < MinPoints(b) then Some(ShapeError) else None
  }

  /** Coefficient of the slope at point j in row i. */
  function Entry(n: nat, b: Boundary, i: nat, j: nat): real
    requires n >= MinPoints(b)
  {
    if i == 0 then
      if b == Natural then (if j == 0 then 2.0 else if j == 1 then 1.0 else 0.0)
      else (if j == 0 then 1.0 else if j == 2 then -1.0 else 0.0)
    else if i == n - 1 then
      if b == Natural then (if j == n - 2 then 1.0 else if j == n - 1 then 2.0 else 0.0)
      else (if j == n - 3 then -1.0 else if j == n - 1 then 1.0 else 0.0)
    else if j == i - 1 || j == i + 1 then 1.0
    else if j == i then 4.0
    else 0.0
  }

  /** Right-hand side of row i, for one coordinate p of the points. */
  function RhsEntry(p: seq<real>, b: Boundary, i: nat): real
    requires |p| >= MinPoints(b) && i < |p|
  {
    var n := |p|;
    if i == 0 then
      if b == Natural then 3.0 * p[1] - 3.0 * p[0]
      else 4.0 * p[1] - 2.0 * p[0] - 2.0 * p[2]
    else if i == n - 1 then
      if b == Natural then 3.0 * p[n - 1] - 3.0 * p[n - 2]
      else 2.0 * p[n - 1] + 2.0 * p[n - 3] - 4.0 * p[n - 2]
    else 3.0 * p[i + 1] - 3.0 * p[i - 1]
  }

  function Matrix(n: nat, b: Boundary): (a: seq<seq<real>>)
    requires n >= MinPoints(b)
    ensures |a| == n && IsSquare(a)
    ensures forall i, j :: 0 <= i < n && 0 <= j < n ==> a[i][j] == Entry(n, b, i, j)
  {
    seq(n, i requires 0 <= i < n => seq(n, j requires 0 <= j < n => Entry(n, b, i, j)))
  }

  function Rhs(p: seq<real>, b: Boundary): (r: seq<real>)
    requires |p| >= MinPoints(b)
    ensures |r| == |p| && forall i :: 0 <= i < |p| ==> r[i] == RhsEntry(p, b, i)
  {
    seq(|p|, i requires 0 <= i < |p| => RhsEntry(p, b, i))
  }

  /** A coordinate that never changes asks for no slope anywhere: its right-hand side is zero. */
  lemma ConstantRhsZero(p: seq<real>, b: Boundary)
    requires |p| >= MinPoints(b) && forall k :: 0 <= k < |p| ==> p[k] == p[0]
    ensures Rhs(p, b) == Zeros(|p|)
  {
  }

  // ---------------------------------------------------------------------------
  // Coefficients from slopes
  // ---------------------------------------------------------------------------

  /**
   * The segments of one coordinate for slopes d. They pass through the points
   * and their slopes agree where they meet, whatever d is.
   */
  function Segments(p: seq<real>, d: seq<real>): (s: seq<Cubic>)
    requires |d| == |p| >= 1
    ensures |s| == |p| - 1
    ensures forall i {:trigger s[i]} :: 0 <= i < |s| ==> s[i] == Hermite(p[i], p[i + 1], d[i], d[i + 1])
  {
    seq(|p| - 1, i requires 0 <= i < |p| - 1 => Hermite(p[i], p[i + 1], d[i], d[i + 1]))
  }

  /**
   * Whatever the slopes, the segments pass through the points and their
   * slopes agree where they meet.
   */
  lemma SegmentsJoin(p: seq<real>, d: seq<real>)
    requires |d| == |p| >= 1
    ensures var s := Segments(p, d);
      && (forall i {:trigger s[i]} :: 0 <= i < |s| ==> Eval(s[i], 0.0) == p[i] && Eval(s[i], 1.0) == p[i + 1])
      && (forall i {:trigger Slope(s[i], 0.0)} :: 0 < i < |s| ==> Slope(s[i - 1], 1.0) == Slope(s[i], 0.0))
  {
    HermiteChain(p, d, Segments(p, d));
  }

  /** Consecutive Hermite cubics sharing their end data join with equal value and slope. */
  lemma HermiteChain(p: seq<real>, d: seq<real>, s: seq<Cubic>)
    requires |d| == |p| >= 1 && |s| == |p| - 1
    requires forall i {:trigger s[i]} :: 0 <= i < |s| ==> s[i] == Hermite(p[i], p[i + 1], d[i], d[i + 1])
    ensures forall i {:trigger s[i]} :: 0 <= i < |s| ==> Eval(s[i], 0.0) == p[i] && Eval(s[i], 1.0) == p[i + 1]
    ensures forall i {:trigger Slope(s[i], 0.0)} :: 0 < i < |s| ==> Slope(s[i - 1], 1.0) == Slope(s[i], 0.0)
  {
    forall i | 0 <= i < |s| ensures Eval(s[i], 0.0) == p[i] && Eval(s[i], 1.0) == p[i + 1] {
      var c := Hermite(p[i], p[i + 1], d[i], d[i + 1]);
      assert s[i] == c;
    }
    forall i | 0 < i < |s| ensures Slope(s[i - 1], 1.0) == Slope(s[i], 0.0) {
      var c := Hermite(p[i - 1], p[i], d[i - 1], d[i]);
      var e := Hermite(p[i], p[i + 1], d[i], d[i + 1]);
      assert s[i - 1] == c && s[i] == e;
    }
  }

  /** The smoothness condition that row i of the system stands for. */
  ghost predicate RowCondition(p: seq<real>, b: Boundary, d: seq<real>, i: nat)
    requires |p| >= MinPoints(b) && |d| == |p| && i < |p|
  {
    var s, n := Segments(p, d), |p|;
    if i == 0 then
      if b == Natural then Curvature(s[0], 0.0) == 0.0 else Jerk(s[0]) == Jerk(s[1])
    else if i == n - 1 then
      if b == Natural then Curvature(s[n - 2], 1.0) == 0.0 else Jerk(s[n - 3]) == Jerk(s[n - 2])
    else Curvature(s[i - 1], 1.0) == Curvature(s[i], 0.0)
  }

  /** An interior row: the second derivatives of the two segments meeting at point i agree. */
  lemma InteriorRowMeans(p: seq<real>, b: Boundary, d: seq<real>, i: nat)
    requires |p| >= MinPoints(b) && |d| == |p| && 0 < i < |p| - 1
    ensures Dot(Matrix(|p|, b)[i], d) == Rhs(p, b)[i] <==> RowCondition(p, b, d, i)
  {
    InteriorRowDot(p, b, d, i);
    InteriorRowCurvature(p, b, d, i);
  }

  lemma InteriorRowDot(p: seq<real>, b: Boundary, d: seq<real>, i: nat)
    requires |p| >= MinPoints(b) && |d| == |p| && 0 < i < |p| - 1
    ensures Dot(Matrix(|p|, b)[i], d) == d[i - 1] + 4.0 * d[i] + d[i + 1]
  {
    DotWindow3(Matrix(|p|, b)[i], d, i - 1, 1.0, 4.0, 1.0);
  }

  lemma InteriorRowCurvature(p: seq<real>, b: Boundary, d: seq<real>, i: nat)
    requires |p| >= MinPoints(b) && |d| == |p| && 0 < i < |p| - 1
    ensures RowCondition(p, b, d, i) <==> d[i - 1] + 4.0 * d[i] + d[i + 1] == 3.0 * p[i + 1] - 3.0 * p[i - 1]
  {
    var s := Segments(p, d);
    HermiteHigherDerivatives(p[i - 1], p[i], d[i - 1], d[i]);
    HermiteHigherDerivatives(p[i], p[i + 1], d[i], d[i + 1]);
    assert RowCondition(p, b, d, i) <==> Curvature(s[i - 1], 1.0) == Curvature(s[i], 0.0);
  }

  /** The first row: zero curvature at the start, or equal jerk on the first two segments. */
  lemma FirstRowMeans(p: seq<real>, b: Boundary, d: seq<real>)
    requires |p| >= MinPoints(b) && |d| == |p|
    ensures Dot(Matrix(|p|, b)[0], d) == Rhs(p, b)[0] <==> RowCondition(p, b, d, 0)
  {
    var r := Matrix(|p|, b)[0];
    HermiteHigherDerivatives(p[0], p[1], d[0], d[1]);
    if b == Natural {
      DotWindow2(r, d, 0, 2.0, 1.0);
      assert Dot(r, d) == 2.0 * d[0] + d[1];
    } else {
      DotWindow3(r, d, 0, 1.0, 0.0, -1.0);
      assert Dot(r, d) == d[0] - d[2];
      HermiteHigherDerivatives(p[1], p[2], d[1], d[2]);
    }
  }

  /** The last row: zero curvature at the end, or equal jerk on the last two segments. */
  lemma LastRowMeans(p: seq<real>, b: Boundary, d: seq<real>)
    requires |p| >= MinPoints(b) && |d| == |p|
    ensures Dot(Matrix(|p|, b)[|p| - 1], d) == Rhs(p, b)[|p| - 1] <==> RowCondition(p, b, d, |p| - 1)
  {
    var n := |p|;
    var r := Matrix(n, b)[n - 1];
    HermiteHigherDerivatives(p[n - 2], p[n - 1], d[n - 2], d[n - 1]);
    if b == Natural {
      DotWindow2(r, d, n - 2, 1.0, 2.0);
      assert Dot(r, d) == d[n - 2] + 2.0 * d[n - 1];
    } else {
      DotWindow3(r, d, n - 3, -1.0, 0.0, 1.0);
      assert Dot(r, d) == d[n - 1] - d[n - 3];
      HermiteHigherDerivatives(p[n - 3], p[n - 2], d[n - 3], d[n - 2]);
    }
  }

  /**
   * The assembled system says exactly that the segments are smooth: d solves
   * it if and only if every row's condition holds.
   */
  lemma SystemMeansSmooth(p: seq<real>, b: Boundary, d: seq<real>)
    requires |p| >= MinPoints(b) && |d| == |p|
    ensures Solves(Matrix(|p|, b), Rhs(p, b), d) <==>
      forall i :: 0 <= i < |p| ==> RowCondition(p, b, d, i)
  {
    forall i | 0 <= i < |p| ensures Dot(Matrix(|p|, b)[i], d) == Rhs(p, b)[i] <==> RowCondition(p, b, d, i) {
      if i == 0 {
        FirstRowMeans(p, b, d);
      } else if i == |p| - 1 {
        LastRowMeans(p, b, d);
      } else {
        InteriorRowMeans(p, b, d, i);
      }
    }
  }

  // ---------------------------------------------------------------------------
  // The table a successful build produces
  // ---------------------------------------------------------------------------

  /** The slopes for coordinate j: the one solution of its system. */
  ghost function Derivs(points: seq<seq<real>>, b: Boundary, j: nat): (d: seq<real>)
    requires Rectangular(points, Width(points)) && j < Width(points)
    requires |points| >= MinPoints(b) && NonSingular(Matrix(|points|, b))
    ensures |d| == |points| && Solves(Matrix(|points|, b), Rhs(Column(points, j), b), d)
  {
    var a, r := Matrix(|points|, b), Rhs(Column(points, j), b);
    SolveCorrect(a, r);
    Solve(a, r).value
  }

  ghost function SpecTable(points: seq<seq<real>>, b: Boundary): (t: seq<seq<Cubic>>)
    requires Rectangular(points, Width(points))
    requires |points| >= MinPoints(b) && NonSingular(Matrix(|points|, b))
    ensures |t| == |points| - 1 && Rectangular(t, Width(points))
  {
    seq(|points| - 1, i requires 0 <= i < |points| - 1 =>
      seq(Width(points), j requires 0 <= j < Width(points) =>
        Segments(Column(points, j), Derivs(points, b, j))[i]))
  }

  lemma SpecTableCell(points: seq<seq<real>>, b: Boundary, i: nat, j: nat)
    requires Rectangular(points, Width(points))
    requires |points| >= MinPoints(b) && NonSingular(Matrix(|points|, b))
    requires i < |points| - 1 && j < Width(points)
    ensures SpecTable(points, b)[i][j] == Segments(Column(points, j), Derivs(points, b, j))[i]
  {
  }

  /** A table whose every cell is the cell SpecTable describes is SpecTable. */
  lemma SpecTableFromColumns(points: seq<seq<real>>, b: Boundary, t: seq<seq<Cubic>>)
    requires Rectangular(points, Width(points))
    requires |points| >= MinPoints(b) && NonSingular(Matrix(|points|, b))
    requires |t| == |points| - 1 && Rectangular(t, Width(points))
    requires forall i, j :: 0 <= i < |t| && 0 <= j < Width(points) ==>
      t[i][j] == Segments(Column(points, j), Derivs(points, b, j))[i]
    ensures t == SpecTable(points, b)
  {
    var e := SpecTable(points, b);
    forall i | 0 <= i < |t| ensures t[i] == e[i] {
      forall j | 0 <= j < Width(points) ensures t[i][j] == e[i][j] {
        SpecTableCell(points, b, i, j);
      }
    }
  }

  /** What `CubicSpline(points, bc_type)` yields: the table, or the exception raised. */
  ghost function Spec(points: seq<seq<real>>, bc: string): (r: Result<seq<seq<Cubic>>>)
    requires Rectangular(points, Width(points))
    ensures r.Ok? ==> |points| >= 1 && |r.value| == |points| - 1 && Rectangular(r.value, Width(points))
  {
    var n, m := |points|, Width(points);
    if n == 0 then Err(ShapeError)
    else if m == 0 then Ok(seq(n - 1, i => []))
    else if EndRowsError(n, bc).Some? then Err(EndRowsError(n, bc).value)
    else if !NonSingular(Matrix(n, ParseBoundary(bc).value)) then Err(SingularMatrix)
    else Ok(SpecTable(points, ParseBoundary(bc).value))
  }

  /** A successful build of at least one coordinate solved a nonsingular system. */
  lemma SpecOk(points: seq<seq<real>>, bc: string)
    requires Rectangular(points, Width(points)) && Spec(points, bc).Ok? && Width(points) > 0
    ensures ParseBoundary(bc).Some? && |points| >= MinPoints(ParseBoundary(bc).value)
    ensures NonSingular(Matrix(|points|, ParseBoundary(bc).value))
    ensures Spec(points, bc).value == SpecTable(points, ParseBoundary(bc).value)
  {
  }

  /** With 'd_equal' and three points the first and last rows are opposite: no unique solution. */
  lemma DEqualThreePointsSingular()
    ensures !NonSingular(Matrix(3, DEqual))
  {
    var a := Matrix(3, DEqual);
    var y := [1.0, -0.5, 1.0];
    forall i | 0 <= i < 3 ensures Dot(a[i], y) == Zeros(3)[i] {
      if i == 0 {
        DotWindow3(a[i], y, 0, 1.0, 0.0, -1.0);
      } else if i == 1 {
        DotWindow3(a[i], y, 0, 1.0, 4.0, 1.0);
      } else {
        DotWindow3(a[i], y, 0, -1.0, 0.0, 1.0);
      }
    }
    assert Solves(a, Zeros(3), y);
    assert y[0] != Zeros(3)[0];
  }

  /** Every row (1, 4, 1) inside the matrix outweighs its neighbours. */
  lemma InteriorRowDominant(n: nat, b: Boundary, i: nat)
    requires n >= MinPoints(b) && 0 < i < n - 1
    ensures DominantRow(Matrix(n, b), i)
  {
  }

  /** The 'natural' rows (2, 1), (1, 4, 1) and (1, 2) are all dominant: the system has one solution. */
  lemma NaturalNonSingular(n: nat)
    requires n >= 2
    ensures NonSingular(Matrix(n, Natural))
  {
    var a := Matrix(n, Natural);
    forall i | 0 <= i < n ensures DominantRow(a, i) {
      if 0 < i < n - 1 {
        InteriorRowDominant(n, Natural, i);
      }
    }
    DominantNonSingular(a);
  }

  /**
   * From four points on, the 'd_equal' system has one solution: its end rows
   * make a kernel vector equal at 0 and 2 and at n-3 and n-1, so a largest
   * entry also sits in a dominant interior row.
   */
  lemma DEqualNonSingular(n: nat)
    requires n >= 4
    ensures NonSingular(Matrix(n, DEqual))
  {
    var a := Matrix(n, DEqual);
    forall y {:trigger Solves(a, Zeros(n), y)} | |y| == n && Solves(a, Zeros(n), y) ensures y == Zeros(n) {
      var k := ArgMaxAbs(y);
      DEqualEndRows(n, y);
      var inside := if k == 0 then 2 else if k == n - 1 then n - 3 else k;
      InteriorRowDominant(n, DEqual, inside);
      KernelZeroAtDominantMax(a, y, inside);
    }
  }

  /** The 'd_equal' end rows make a kernel vector equal at 0 and 2, and at n-3 and n-1. */
  lemma DEqualEndRows(n: nat, y: seq<real>)
    requires n >= 4 && |y| == n && Solves(Matrix(n, DEqual), Zeros(n), y)
    ensures y[0] == y[2] && y[n - 1] == y[n - 3]
  {
    var a := Matrix(n, DEqual);
    assert Dot(a[0], y) == 0.0;
    DotWindow3(a[0], y, 0, 1.0, 0.0, -1.0);
    assert Dot(a[n - 1], y) == 0.0;
    DotWindow3(a[n - 1], y, n - 3, -1.0, 0.0, 1.0);
  }

  /**
   * Which inputs build and which raise, and what: no points, an unknown
   * boundary condition, too few points for the end rows, and 'd_equal' on
   * three points fail; 'natural' from two points on and 'd_equal' from four
   * points on build.
   */
  lemma SpecErrors(points: seq<seq<real>>, bc: string)
    requires Rectangular(points, Width(points))
    ensures |points| == 0 ==> Spec(points, bc) == Err(ShapeError)
    ensures |points| > 0 && Width(points) == 0 ==> Spec(points, bc).Ok?
    ensures |points| > 0 && Width(points) > 0 && bc != "natural" && bc != "d_equal" ==>
      Spec(points, bc) == Err(UnknownBoundaryCondition)
    ensures |points| == 1 && Width(points) > 0 && bc == "natural" ==> Spec(points, bc) == Err(ShapeError)
    ensures 0 < |points| < 3 && Width(points) > 0 && bc == "d_equal" ==> Spec(points, bc) == Err(ShapeError)
    ensures |points| == 3 && Width(points) > 0 && bc == "d_equal" ==> Spec(points, bc) == Err(SingularMatrix)
    ensures |points| >= 2 && bc == "natural" ==> Spec(points, bc).Ok?
    ensures |points| >= 4 && bc == "d_equal" ==> Spec(points, bc).Ok?
    ensures Spec(points, bc).Ok? && Width(points) > 0 ==>
      (bc == "natural" && |points| >= 2) || (bc == "d_equal" && |points| >= 4)
  {
    if |points| == 3 && bc == "d_equal" {
      DEqualThreePointsSingular();
    } else if |points| >= 2 && bc == "natural" {
      NaturalNonSingular(|points|);
    } else if |points| >= 4 && bc == "d_equal" {
      DEqualNonSingular(|points|);
    }
  }

  /** A built table starts and ends every segment at the right points. */
  lemma BuiltTablePassesThrough(points: seq<seq<real>>, bc: string)
    requires Rectangular(points, Width(points)) && Spec(points, bc).Ok?
    ensures PassesThrough(points, Spec(points, bc).value, Width(points))
  {
    var n, m := |points|, Width(points);
    if m > 0 {
      var b := ParseBoundary(bc).value;
      var t := Spec(points, bc).value;
      forall i, k | 0 <= i < n - 1 && 0 <= k < m
        ensures Eval(t[i][k], 0.0) == points[i][k] && Eval(t[i][k], 1.0) == points[i + 1][k]
      {
        SpecTableCell(points, b, i, k);
      }
    }
  }

  /** At interior point i, segments built from a solution join with equal slope and curvature. */
  lemma SolvedSegmentsJoin(p: seq<real>, b: Boundary, d: seq<real>, i: nat)
    requires |p| >= MinPoints(b) && |d| == |p| && Solves(Matrix(|p|, b), Rhs(p, b), d)
    requires 0 < i < |p| - 1
    ensures var s := Segments(p, d);
      Slope(s[i - 1], 1.0) == Slope(s[i], 0.0) && Curvature(s[i - 1], 1.0) == Curvature(s[i], 0.0)
  {
    InteriorRowMeans(p, b, d, i);
    assert Dot(Matrix(|p|, b)[i], d) == Rhs(p, b)[i];
    var s := Segments(p, d);
    assert Slope(s[i - 1], 1.0) == d[i] == Slope(s[i], 0.0);
  }

  /**
   * The ends of segments built from a solution meet the boundary condition:
   * no curvature at either end under 'natural', equal third derivatives on
   * the first two and on the last two segments under 'd_equal'.
   */
  lemma SolvedSegmentsEnds(p: seq<real>, b: Boundary, d: seq<real>)
    requires |p| >= MinPoints(b) && |d| == |p| && Solves(Matrix(|p|, b), Rhs(p, b), d)
    ensures var s, n := Segments(p, d), |p|;
      && (b == Natural ==> Curvature(s[0], 0.0) == 0.0 && Curvature(s[n - 2], 1.0) == 0.0)
      && (b == DEqual ==> Jerk(s[0]) == Jerk(s[1]) && Jerk(s[n - 3]) == Jerk(s[n - 2]))
  {
    FirstRowMeans(p, b, d);
    LastRowMeans(p, b, d);
    assert Dot(Matrix(|p|, b)[0], d) == Rhs(p, b)[0];
    assert Dot(Matrix(|p|, b)[|p| - 1], d) == Rhs(p, b)[|p| - 1];
  }

  /**
   * Segments built from a solution of the system have continuous slopes and
   * curvatures at every interior point, and their ends meet the boundary
   * condition.
   */
  lemma SolvedSegmentsSmooth(p: seq<real>, b: Boundary, d: seq<real>)
    requires |p| >= MinPoints(b) && |d| == |p| && Solves(Matrix(|p|, b), Rhs(p, b), d)
    ensures var s, n := Segments(p, d), |p|;
      && (forall i {:trigger Slope(s[i], 0.0)} :: 1 <= i < n - 1 ==> Slope(s[i - 1], 1.0) == Slope(s[i], 0.0))
      && (forall i {:trigger Curvature(s[i], 0.0)} :: 1 <= i < n - 1 ==>
            Curvature(s[i - 1], 1.0) == Curvature(s[i], 0.0))
      && (b == Natural ==> Curvature(s[0], 0.0) == 0.0 && Curvature(s[n - 2], 1.0) == 0.0)
      && (b == DEqual ==> Jerk(s[0]) == Jerk(s[1]) && Jerk(s[n - 3]) == Jerk(s[n - 2]))
  {
    var s, n := Segments(p, d), |p|;
    forall i | 1 <= i < n - 1
      ensures Slope(s[i - 1], 1.0) == Slope(s[i], 0.0) && Curvature(s[i - 1], 1.0) == Curvature(s[i], 0.0)
    {
      SolvedSegmentsJoin(p, b, d, i);
    }
    SolvedSegmentsEnds(p, b, d);
  }

  /** Cell (i, j) of a built table is segment i of coordinate j's solved Hermite chain. */
  lemma BuiltCell(points: seq<seq<real>>, bc: string, t: seq<seq<Cubic>>, i: nat, j: nat)
    requires Rectangular(points, Width(points)) && Spec(points, bc) == Ok(t)
    requires i < |points| - 1 && j < Width(points)
    ensures ParseBoundary(bc).Some? && |points| >= MinPoints(ParseBoundary(bc).value)
    ensures NonSingular(Matrix(|points|, ParseBoundary(bc).value))
    ensures t[i][j] == Segments(Column(points, j), Derivs(points, ParseBoundary(bc).value, j))[i]
  {
    SpecOk(points, bc);
    SpecTableCell(points, ParseBoundary(bc).value, i, j);
  }

  /**
   * A 1-D input of N numbers, read as N points of one coordinate, builds
   * from two numbers on under 'natural' and from four on under 'd_equal',
   * and the curve runs through the numbers in order.
   */
  lemma ValuesBuild(values: seq<real>, bc: string)
    requires (bc == "natural" && |values| >= 2) || (bc == "d_equal" && |values| >= 4)
    ensures Width(AsPoints(values)) == 1 && Spec(AsPoints(values), bc).Ok?
    ensures var t := Spec(AsPoints(values), bc).value;
      |t| == |values| - 1 &&
      forall i :: 0 <= i < |t| ==> |t[i]| == 1 && Eval(t[i][0], 0.0) == values[i] && Eval(t[i][0], 1.0) == values[i + 1]
  {
    var points := AsPoints(values);
    assert points[0] == [values[0]];
    SpecErrors(points, bc);
    BuiltTablePassesThrough(points, bc);
  }

  /** At every interior point of a built table, slope and curvature are continuous in every coordinate. */
  lemma BuiltTableJoinsSmoothly(points: seq<seq<real>>, bc: string, t: seq<seq<Cubic>>, i: nat, j: nat)
    requires Rectangular(points, Width(points)) && Spec(points, bc) == Ok(t)
    requires 0 < i < |points| - 1 && j < Width(points)
    ensures Slope(t[i - 1][j], 1.0) == Slope(t[i][j], 0.0)
    ensures Curvature(t[i - 1][j], 1.0) == Curvature(t[i][j], 0.0)
  {
    BuiltCell(points, bc, t, i - 1, j);
    BuiltCell(points, bc, t, i, j);
    var b := ParseBoundary(bc).value;
    var s := Segments(Column(points, j), Derivs(points, b, j));
    assert t[i - 1][j] == s[i - 1];
    assert t[i][j] == s[i];
    SolvedSegmentsJoin(Column(points, j), b, Derivs(points, b, j), i);
    assert Slope(s[i - 1], 1.0) == Slope(s[i], 0.0);
  }

  /** Under 'natural' a built table has no curvature at either end, in every coordinate. */
  lemma BuiltTableNaturalEnds(points: seq<seq<real>>, t: seq<seq<Cubic>>, j: nat)
    requires Rectangular(points, Width(points)) && Spec(points, "natural") == Ok(t) && j < Width(points)
    ensures Curvature(t[0][j], 0.0) == 0.0 && Curvature(t[|points| - 2][j], 1.0) == 0.0
  {
    SpecOk(points, "natural");
    BuiltCell(points, "natural", t, 0, j);
    BuiltCell(points, "natural", t, |points| - 2, j);
    SolvedSegmentsEnds(Column(points, j), Natural, Derivs(points, Natural, j));
  }

  /**
   * Under 'd_equal' the first two segments of a built table share their
   * third derivative, and so do the last two, in every coordinate.
   */
  lemma BuiltTableDEqualEnds(points: seq<seq<real>>, t: seq<seq<Cubic>>, j: nat)
    requires Rectangular(points, Width(points)) && Spec(points, "d_equal") == Ok(t) && j < Width(points)
    ensures Jerk(t[0][j]) == Jerk(t[1][j]) && Jerk(t[|points| - 3][j]) == Jerk(t[|points| - 2][j])
  {
    var n := |points|;
    BuiltCell(points, "d_equal", t, 0, j);
    BuiltCell(points, "d_equal", t, 1, j);
    BuiltCell(points, "d_equal", t, n - 3, j);
    BuiltCell(points, "d_equal", t, n - 2, j);
    SolvedSegmentsEnds(Column(points, j), DEqual, Derivs(points, DEqual, j));
  }


  // ---------------------------------------------------------------------------
  // The spline object and its builder
  // ---------------------------------------------------------------------------

  class CubicSpline {
    const N: nat
    const M: nat
    const bcType: string
    /** coef[i, j] is the cubic of segment i in coordinate j. */
    const coef: array2<Cubic>
    /** The points the spline was built from (the source does not keep them). */
    ghost const points: seq<seq<real>>

    ghost predicate Valid()
      reads this, coef
    {
      && N == |points| && N >= 1 && M == Width(points) && Rectangular(points, M)
      && coef.Length0 == N - 1 && coef.Length1 == M
      && Spec(points, bcType) == Ok(Table())
    }

    /** Sets N, M and bc_type and allocates the zero coefficient table. */
    constructor (points: seq<seq<real>>, bcType: string)
      requires |points| >= 1 && Rectangular(points, Width(points))
      ensures this.points == points && this.bcType == bcType
      ensures N == |points| && M == Width(points)
      ensures fresh(coef) && coef.Length0 == N - 1 && coef.Length1 == M
    {
      this.points := points;
      this.bcType := bcType;
      N := |points|;
      M := Width(points);
      coef := new Cubic[|points| - 1, Width(points)]((i, j) => Cubic(0.0, 0.0, 0.0, 0.0));
    }

    function Table(): (t: seq<seq<Cubic>>)
      reads this, coef
      ensures |t| == coef.Length0 && Rectangular(t, coef.Length1)
      ensures forall i, j :: 0 <= i < coef.Length0 && 0 <= j < coef.Length1 ==> t[i][j] == coef[i, j]
    {
      seq(coef.Length0, i requires 0 <= i < coef.Length0 reads coef =>
        seq(coef.Length1, j requires 0 <= j < coef.Length1 reads coef => coef[i, j]))
    }

    /** `fn(t)`: the spline at every query parameter, with length-one axes dropped. */
    function Fn(ts: seq<real>): (r: Result<Output>)
      reads this, coef
      requires Valid()
      ensures r.Ok? <==> forall k :: 0 <= k < |ts| ==> EvalPoint(Table(), N, M, ts[k]).Ok?
      ensures r.Err? ==> r.error == IndexOutOfRange
      ensures r.Ok? ==> |Expand(r.value)| == |ts|
      ensures r.Ok? ==> forall k :: 0 <= k < |ts| ==> Ok(Expand(r.value)[k]) == EvalPoint(Table(), N, M, ts[k])
      ensures r.Ok? ==> Rectangular(Expand(r.value), M) && r.value == Collapse(M, Expand(r.value))
      ensures r.Ok? ==> ((r.value.Value? || r.value.Values?) <==> M == 1)
      ensures r.Ok? ==> ((r.value.Value? || r.value.Point?) <==> |ts| == 1)
    {
      match Evaluate(Table(), N, M, ts)
      case Err(e) => Err(e)
      case Ok(rows) =>
        CollapseRoundTrip(M, rows);
        Ok(Collapse(M, rows))
    }

    /** `interpolate(n)`: the spline at n evenly spaced parameters, and those parameters. */
    function Interpolate(count: int): (r: Result<(Output, seq<real>)>)
      reads this, coef
      requires Valid()
      ensures count < 0 ==> r == Err(NegativeSampleCount)
      ensures r.Ok? <==> Linspace(count).Ok? && Fn(Linspace(count).value).Ok?
      ensures r.Ok? ==> Linspace(count).Ok? && r.value.1 == Linspace(count).value
      ensures r.Ok? ==> Fn(r.value.1) == Ok(r.value.0) && |Expand(r.value.0)| == count
    {
      match Linspace(count)
      case Err(e) => Err(e)
      case Ok(ts) =>
        match Fn(ts)
        case Err(e) => Err(e)
        case Ok(o) => Ok((o, ts))
    }
  }

  /** Fills the end rows and the (1, 4, 1) rows of one coordinate's system. */
  method AssembleSystem(dim: seq<real>, bc: string) returns (err: Option<Error>, mat: array2<real>, row: array<real>)
    ensures err == EndRowsError(|dim|, bc)
    ensures fresh(mat) && fresh(row)
    ensures err.None? ==> RowsOf(mat) == Matrix(|dim|, ParseBoundary(bc).value)
    ensures err.None? ==> row[..] == Rhs(dim, ParseBoundary(bc).value)
  {
    var n := |dim|;
    mat := new real[n, n]((i, j) => 0.0);
    row := new real[n](i => 0.0);
    err := SetEndRows(dim, bc, mat, row);
    if err.None? {
      var b := ParseBoundary(bc).value;
      FillInteriorRows(dim, b, mat, row);
      MatrixFromEntries(mat, n, b);
    }
  }

  /**
   * The `if bc_type == ...` chain: writes the first and last rows, or reports
   * the exception raised.
   */
  method SetEndRows(dim: seq<real>, bc: string, mat: array2<real>, row: array<real>) returns (err: Option<Error>)
    requires mat.Length0 == |dim| && mat.Length1 == |dim| && row.Length == |dim|
    requires forall r, c :: 0 <= r < |dim| && 0 <= c < |dim| ==> mat[r, c] == 0.0
    requires forall r :: 0 <= r < |dim| ==> row[r] == 0.0
    modifies mat, row
    ensures err == EndRowsError(|dim|, bc)
    ensures err.None? ==> forall r, c :: 0 <= r < |dim| && 0 <= c < |dim| ==>
      mat[r, c] == if r == 0 || r == |dim| - 1 then Entry(|dim|, ParseBoundary(bc).value, r, c) else 0.0
    ensures err.None? ==> forall r :: 0 <= r < |dim| ==>
      row[r] == if r == 0 || r == |dim| - 1 then RhsEntry(dim, ParseBoundary(bc).value, r) else 0.0
  {
    var n := |dim|;
    if bc == "natural" {
      if n < 2 {
        return Some(ShapeError);
      }
      mat[0, 0], mat[0, 1] := 2.0, 1.0;
      mat[n - 1, n - 2], mat[n - 1, n - 1] := 1.0, 2.0;
      row[0] := 3.0 * dim[1] - 3.0 * dim[0];
      row[n - 1] := 3.0 * dim[n - 1] - 3.0 * dim[n - 2];
    } else if bc == "d_equal" {
      if n < 3 {
        return Some(ShapeError);
      }
      mat[0, 0], mat[0, 1], mat[0, 2] := 1.0, 0.0, -1.0;
      mat[n - 1, n - 3], mat[n - 1, n - 2], mat[n - 1, n - 1] := -1.0, 0.0, 1.0;
      row[0] := 4.0 * dim[1] - 2.0 * dim[0] - 2.0 * dim[2];
      row[n - 1] := 2.0 * dim[n - 1] + 2.0 * dim[n - 3] - 4.0 * dim[n - 2];
    } else {
      return Some(UnknownBoundaryCondition);
    }
    return None;
  }

  /** The loop over the interior rows: 1, 4, 1 around the diagonal. */
  method FillInteriorRows(dim: seq<real>, b: Boundary, mat: array2<real>, row: array<real>)
    requires |dim| >= MinPoints(b)
    requires mat.Length0 == |dim| && mat.Length1 == |dim| && row.Length == |dim|
    requires forall r, c :: 0 <= r < |dim| && 0 <= c < |dim| ==>
      mat[r, c] == if r == 0 || r == |dim| - 1 then Entry(|dim|, b, r, c) else 0.0
    requires forall r :: 0 <= r < |dim| ==>
      row[r] == if r == 0 || r == |dim| - 1 then RhsEntry(dim, b, r) else 0.0
    modifies mat, row
    ensures forall r, c :: 0 <= r < |dim| && 0 <= c < |dim| ==> mat[r, c] == Entry(|dim|, b, r, c)
    ensures forall r :: 0 <= r < |dim| ==> row[r] == RhsEntry(dim, b, r)
  {
    var n := |dim|;
    var i := 1;
    while i < n - 1
      invariant 1 <= i <= n - 1
      invariant forall r, c :: 0 <= r < n && 0 <= c < n && (r < i || r == n - 1) ==> mat[r, c] == Entry(n, b, r, c)
      invariant forall r, c :: i <= r < n - 1 && 0 <= c < n ==> mat[r, c] == 0.0
      invariant forall r :: 0 <= r < n && (r < i || r == n - 1) ==> row[r] == RhsEntry(dim, b, r)
      invariant forall r :: i <= r < n - 1 ==> row[r] == 0.0
    {
      mat[i, i - 1], mat[i, i], mat[i, i + 1] := 1.0, 4.0, 1.0;
      row[i] := 3.0 * dim[i + 1] - 3.0 * dim[i - 1];
      i := i + 1;
    }
  }

  lemma MatrixFromEntries(mat: array2<real>, n: nat, b: Boundary)
    requires n >= MinPoints(b) && mat.Length0 == n && mat.Length1 == n
    requires forall r, c :: 0 <= r < n && 0 <= c < n ==> mat[r, c] == Entry(n, b, r, c)
    ensures RowsOf(mat) == Matrix(n, b)
  {
    var a, e := RowsOf(mat), Matrix(n, b);
    forall r | 0 <= r < n ensures a[r] == e[r] {
    }
  }

  /** The rows of a matrix held in an array. */
  function RowsOf(mat: array2<real>): (a: seq<seq<real>>)
    reads mat
    ensures |a| == mat.Length0 && Rectangular(a, mat.Length1)
    ensures forall i, j :: 0 <= i < mat.Length0 && 0 <= j < mat.Length1 ==> a[i][j] == mat[i, j]
  {
    seq(mat.Length0, i requires 0 <= i < mat.Length0 reads mat =>
      seq(mat.Length1, j requires 0 <= j < mat.Length1 reads mat => mat[i, j]))
  }

  /** Writes the cubics of coordinate j, one segment at a time. */
  method StoreSegments(coef: array2<Cubic>, j: nat, dim: seq<real>, d: seq<real>)
    requires |d| == |dim| >= 1 && coef.Length0 == |dim| - 1 && j < coef.Length1
    modifies coef
    ensures forall i, k :: 0 <= i < coef.Length0 && 0 <= k < coef.Length1 ==>
      coef[i, k] == if k == j then Segments(dim, d)[i] else old(coef[i, k])
  {
    var i := 0;
    while i < |dim| - 1
      invariant 0 <= i <= |dim| - 1
      invariant forall i', k :: 0 <= i' < coef.Length0 && 0 <= k < coef.Length1 ==>
        coef[i', k] == if k == j && i' < i then Segments(dim, d)[i'] else old(coef[i', k])
    {
      coef[i, j] := Hermite(dim[i], dim[i + 1], d[i], d[i + 1]);
      i := i + 1;
    }
  }

  /**
   * One pass of the loop over coordinates: assemble the system of coordinate
   * j and solve it for the slopes, or report the exception raised.
   */
  method SolveDimension(points: seq<seq<real>>, bc: string, j: nat) returns (r: Result<seq<real>>)
    requires Rectangular(points, Width(points)) && j < Width(points)
    ensures r.Err? <==> EndRowsError(|points|, bc).Some? || !NonSingular(Matrix(|points|, ParseBoundary(bc).value))
    ensures r.Err? ==> r.error == if EndRowsError(|points|, bc).Some? then EndRowsError(|points|, bc).value else SingularMatrix
    ensures r.Ok? ==> r.value == Derivs(points, ParseBoundary(bc).value, j)
  {
    var n := |points|;
    var dim := Column(points, j);
    var err, mat, row := AssembleSystem(dim, bc);
    if err.Some? {
      return Err(err.value);
    }
    var b := ParseBoundary(bc).value;
    SolveCorrect(Matrix(n, b), Rhs(dim, b));
    var derivs := Solve(RowsOf(mat), row[..]);
    if derivs.None? {
      return Err(SingularMatrix);
    }
    SolutionUnique(Matrix(n, b), Rhs(dim, b), derivs.value, Derivs(points, b, j));
    return Ok(derivs.value);
  }

  /** `CubicSpline(points, bc_type)`: builds the spline or reports the exception raised. */
  method Build(points: seq<seq<real>>, bc: string) returns (r: Result<CubicSpline>)
    requires Rectangular(points, Width(points))
    ensures r.Err? ==> Spec(points, bc) == Err(r.error)
    ensures r.Ok? ==> fresh(r.value) && fresh(r.value.coef) && r.value.Valid()
    ensures r.Ok? ==> r.value.points == points && r.value.bcType == bc
  {
    var n := |points|;
    if n == 0 {
      return Err(ShapeError);
    }
    var spline := new CubicSpline(points, bc);
    var m := spline.M;
    var j := 0;
    while j < m
      invariant 0 <= j <= m
      invariant j > 0 ==> EndRowsError(n, bc).None? && NonSingular(Matrix(n, ParseBoundary(bc).value))
      invariant j > 0 ==> forall i, k :: 0 <= i < n - 1 && 0 <= k < j ==>
        spline.coef[i, k] == Segments(Column(points, k), Derivs(points, ParseBoundary(bc).value, k))[i]
      modifies spline.coef
    {
      var derivs := SolveDimension(points, bc, j);
      if derivs.Err? {
        return Err(derivs.error);
      }
      StoreSegments(spline.coef, j, Column(points, j), derivs.value);
      j := j + 1;
    }
    if m > 0 {
      SpecTableFromColumns(points, ParseBoundary(bc).value, spline.Table());
    } else {
      assert spline.Table() == seq(n - 1, i => []);
    }
    r := Ok(spline);
  }

  // ---------------------------------------------------------------------------
  // The evaluator
  // ---------------------------------------------------------------------------

  /**
   * Segment index and local parameter of t: the integer and fractional parts
   * of t·(N-1), with index N-1 moved to the end of segment N-2.
   */
  function Locate(n: nat, t: real): (int, real)
  {
    var x := t * (n - 1) as real;
    var i := Trunc(x);
    if i == n - 1 then (n - 2, 1.0) else (i, FracPart(x))
  }

  /**
   * What Locate makes of x = t·(N-1): from 0 up, its integer and fractional
   * parts, except that index N-1 becomes the end of segment N-2; below 0, an
   * index of 0 or less (which numpy reads from the end) and a local
   * parameter one above x's offset from it unless x is whole.
   */
  lemma LocateParts(n: nat, t: real)
    requires n >= 1
    ensures var (i, u) := Locate(n, t); 0.0 <= u <= 1.0
    ensures var (i, u) := Locate(n, t); var x := t * (n - 1) as real;
      0.0 <= x && x.Floor != n - 1 ==> i == x.Floor && u < 1.0 && i as real + u == x
    ensures var x := t * (n - 1) as real;
      0.0 <= x && x.Floor == n - 1 ==> Locate(n, t) == (n - 2, 1.0)
    ensures var (i, u) := Locate(n, t); var x := t * (n - 1) as real;
      x < 0.0 ==> i <= 0 && i as real + u == x + (if u == 0.0 then 0.0 else 1.0)
  {
    var x := t * (n - 1) as real;
    if x < 0.0 {
      TruncBelowZero(x);
    }
  }

  /** One query: the located cubic of every coordinate at the local parameter. */
  function EvalPoint(table: seq<seq<Cubic>>, n: nat, m: nat, t: real): (r: Result<seq<real>>)
    requires Rectangular(table, m)
    ensures r.Ok? ==> |r.value| == m
    ensures r.Err? <==> NumpyIndex(Locate(n, t).0, |table|).None?
  {
    var (i, u) := Locate(n, t);
    match NumpyIndex(i, |table|)
    case None => Err(IndexOutOfRange)
    case Some(k) => Ok(seq(m, j requires 0 <= j < m => Eval(table[k][j], u)))
  }

  /** All queries; a single query outside the table fails the whole call. */
  function Evaluate(table: seq<seq<Cubic>>, n: nat, m: nat, ts: seq<real>): (r: Result<seq<seq<real>>>)
    requires Rectangular(table, m)
    ensures r.Err? <==> exists k :: 0 <= k < |ts| && EvalPoint(table, n, m, ts[k]).Err?
    ensures r.Ok? ==> |r.value| == |ts| && Rectangular(r.value, m)
    ensures r.Ok? ==> forall k :: 0 <= k < |ts| ==> Ok(r.value[k]) == EvalPoint(table, n, m, ts[k])
  {
    if exists k :: 0 <= k < |ts| && EvalPoint(table, n, m, ts[k]).Err? then Err(IndexOutOfRange)
    else Ok(seq(|ts|, k requires 0 <= k < |ts| => EvalPoint(table, n, m, ts[k]).value))
  }

  /**
   * For t in [0, 1] the located segment exists and the local parameter is in
   * [0, 1]; together they give back t, since index + local = t·(N-1).
   */
  lemma LocateInRange(n: nat, t: real)
    requires n >= 2 && 0.0 <= t <= 1.0
    ensures var (i, u) := Locate(n, t);
      0 <= i <= n - 2 && 0.0 <= u <= 1.0 && i as real + u == t * (n - 1) as real
  {
    var x := t * (n - 1) as real;
    assert 0.0 <= x <= (n - 1) as real by {
      assert (1.0 - t) * (n - 1) as real >= 0.0;
    }
    assert Trunc(x) == x.Floor;
  }

  /** At the parameter k/(N-1) of point k the evaluator starts segment k, or ends the last one. */
  lemma LocateKnot(n: nat, k: nat)
    requires n >= 2 && k < n
    ensures Locate(n, k as real / (n - 1) as real) == if k == n - 1 then (n - 2, 1.0) else (k, 0.0)
  {
    var t := k as real / (n - 1) as real;
    DivMulCancel(k as real, (n - 1) as real);
    LocateWhole(n, t, k);
  }

  /** When t·(N-1) is the whole number k, there is nothing after the point. */
  lemma LocateWhole(n: nat, t: real, k: int)
    requires n >= 2 && t * (n - 1) as real == k as real
    ensures Locate(n, t) == if k == n - 1 then (n - 2, 1.0) else (k, 0.0)
  {
    var x := t * (n - 1) as real;
    assert x.Floor == k;
    assert Trunc(x) == k;
  }

  lemma DivMulCancel(a: real, b: real)
    requires b != 0.0
    ensures a / b * b == a
  {
  }

  /** The evaluator returns point k at the parameter k/(N-1). */
  lemma EvalAtKnot(points: seq<seq<real>>, table: seq<seq<Cubic>>, m: nat, k: nat)
    requires PassesThrough(points, table, m) && |points| >= 2 && k < |points|
    ensures EvalPoint(table, |points|, m, k as real / (|points| - 1) as real) == Ok(points[k])
  {
    var n := |points|;
    LocateKnot(n, k);
    var r := EvalPoint(table, n, m, k as real / (n - 1) as real);
    if k < n - 1 {
      assert r.value == points[k];
    } else {
      assert r.value == points[n - 1];
    }
  }

  /** Every query in [0, 1] succeeds, and the first and last samples are the end points. */
  lemma EvaluateInDomain(points: seq<seq<real>>, table: seq<seq<Cubic>>, m: nat, ts: seq<real>)
    requires PassesThrough(points, table, m) && |points| >= 2
    requires forall k :: 0 <= k < |ts| ==> 0.0 <= ts[k] <= 1.0
    ensures Evaluate(table, |points|, m, ts).Ok?
    ensures forall k :: 0 <= k < |ts| && ts[k] == 0.0 ==> Evaluate(table, |points|, m, ts).value[k] == points[0]
    ensures forall k :: 0 <= k < |ts| && ts[k] == 1.0 ==>
      Evaluate(table, |points|, m, ts).value[k] == points[|points| - 1]
  {
    var n := |points|;
    forall k | 0 <= k < |ts| ensures EvalPoint(table, n, m, ts[k]).Ok? {
      LocateInRange(n, ts[k]);
    }
    EvalAtKnot(points, table, m, 0);
    EvalAtKnot(points, table, m, n - 1);
    assert 0 as real / (n - 1) as real == 0.0;
    assert (n - 1) as real / (n - 1) as real == 1.0;
  }

  // ---------------------------------------------------------------------------
  // The built spline, end to end
  // ---------------------------------------------------------------------------

  /** `fn(k/(N-1))` of a built spline is point k (a single query, so one axis is dropped). */
  lemma FnAtPoints(spline: CubicSpline, k: nat)
    requires spline.Valid() && spline.N >= 2 && k < spline.N
    ensures spline.Fn([k as real / (spline.N - 1) as real]) == Ok(Collapse(spline.M, [spline.points[k]]))
  {
    BuiltTablePassesThrough(spline.points, spline.bcType);
    var t := k as real / (spline.N - 1) as real;
    EvalAtKnot(spline.points, spline.Table(), spline.M, k);
    assert Evaluate(spline.Table(), spline.N, spline.M, [t]).value == [spline.points[k]];
  }

  /**
   * `interpolate(n)` of a built spline succeeds for every n >= 0, returns n
   * values, and starts and ends at the first and last points.
   */
  lemma InterpolateSpansPoints(spline: CubicSpline, count: int)
    requires spline.Valid() && spline.N >= 2 && count >= 0
    ensures spline.Interpolate(count).Ok?
    ensures var rows := Expand(spline.Interpolate(count).value.0);
      |rows| == count &&
      (count >= 1 ==> rows[0] == spline.points[0]) &&
      (count >= 2 ==> rows[count - 1] == spline.points[spline.N - 1])
  {
    BuiltTablePassesThrough(spline.points, spline.bcType);
    var ts := Linspace(count).value;
    EvaluateInDomain(spline.points, spline.Table(), spline.M, ts);
    var rows := Evaluate(spline.Table(), spline.N, spline.M, ts).value;
    CollapseRoundTrip(spline.M, rows);
  }
}
