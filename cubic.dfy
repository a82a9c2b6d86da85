/**
 * One cubic piece of a spline, in its local parameter u (0 at the start of
 * the segment, 1 at its end), and the Hermite form both builders use to turn
 * two end values and two end slopes into the four coefficients.
 */
module Cubics {

  import opened Common

  /** c0 + c1·u + c2·u² + c3·u³: one (segment, dimension) entry of the coefficient table. */
  datatype Cubic = Cubic(c0: real, c1: real, c2: real, c3: real)

  function Eval(c: Cubic, u: real): real
  {
    c.c0 + c.c1 * u + c.c2 * (u * u) + c.c3 * (u * u * u)
  }

  /** At the start of its segment a cubic is c0, at the end the sum of its coefficients. */
  lemma EvalEnds(c: Cubic)
    ensures Eval(c, 0.0) == c.c0
    ensures Eval(c, 1.0) == c.c0 + c.c1 + c.c2 + c.c3
  {
  }

  /** First derivative with respect to u. */
  function Slope(c: Cubic, u: real): real
  {
    c.c1 + 2.0 * c.c2 * u + 3.0 * c.c3 * (u * u)
  }

  /** Second derivative with respect to u. */
  function Curvature(c: Cubic, u: real): real
  {
    2.0 * c.c2 + 6.0 * c.c3 * u
  }

  /** Third derivative with respect to u (constant on a cubic). */
  function Jerk(c: Cubic): real
  {
    6.0 * c.c3
  }

  /**
   * The cubic with value p0 and slope m0 at u = 0, value p1 and slope m1 at
   * u = 1, written the way the builders write it:
   * c2 = 3(p1 - p0) - 2 m0 - m1 and c3 = 2(p0 - p1) + m0 + m1.
   */
  function Hermite(p0: real, p1: real, m0: real, m1: real): (c: Cubic)
    ensures Eval(c, 0.0) == p0 && Eval(c, 1.0) == p1
    ensures Slope(c, 0.0) == m0 && Slope(c, 1.0) == m1
  {
    Cubic(p0, m0, 3.0 * (p1 - p0) - 2.0 * m0 - m1, 2.0 * (p0 - p1) + m0 + m1)
  }

  /** The four end conditions determine the cubic: Hermite is the only one meeting them. */
  lemma HermiteUnique(c: Cubic, p0: real, p1: real, m0: real, m1: real)
    requires Eval(c, 0.0) == p0 && Eval(c, 1.0) == p1
    requires Slope(c, 0.0) == m0 && Slope(c, 1.0) == m1
    ensures c == Hermite(p0, p1, m0, m1)
  {
    assert c.c2 + c.c3 == p1 - p0 - m0;
    assert 2.0 * c.c2 + 3.0 * c.c3 == m1 - m0;
  }

  /** End curvatures and jerk of a Hermite cubic, in terms of its data. */
  lemma HermiteHigherDerivatives(p0: real, p1: real, m0: real, m1: real)
    ensures Curvature(Hermite(p0, p1, m0, m1), 0.0) == 6.0 * (p1 - p0) - 4.0 * m0 - 2.0 * m1
    ensures Curvature(Hermite(p0, p1, m0, m1), 1.0) == 2.0 * m0 + 4.0 * m1 - 6.0 * (p1 - p0)
    ensures Jerk(Hermite(p0, p1, m0, m1)) == 6.0 * (2.0 * (p0 - p1) + m0 + m1)
  {
  }

  /**
   * Slope, Curvature and Jerk are the derivatives of Eval: the cubic's exact
   * Taylor expansion around any u.
   */
  lemma Taylor(c: Cubic, u: real, h: real)
    ensures Eval(c, u + h) ==
      Eval(c, u) + Slope(c, u) * h + Curvature(c, u) / 2.0 * (h * h) + Jerk(c) / 6.0 * (h * h * h)
  {
    var a, b, d, e := c.c0, c.c1, c.c2, c.c3;
    assert (u + h) * (u + h) == u * u + 2.0 * u * h + h * h;
    assert (u + h) * (u + h) * (u + h) == u * u * u + 3.0 * (u * u) * h + 3.0 * u * (h * h) + h * h * h;
    assert d * ((u + h) * (u + h)) == d * (u * u) + 2.0 * d * u * h + d * (h * h);
    assert e * ((u + h) * (u + h) * (u + h)) ==
      e * (u * u * u) + 3.0 * e * (u * u) * h + 3.0 * e * u * (h * h) + e * (h * h * h);
  }

  /**
   * A coefficient table (one row per segment, one cubic per coordinate) that
   * starts segment i at point i and ends it at point i+1 in every coordinate.
   */
  ghost predicate PassesThrough(points: seq<seq<real>>, table: seq<seq<Cubic>>, m: nat)
  {
    && |points| == |table| + 1
    && Rectangular(points, m) && Rectangular(table, m)
    && forall i, j :: 0 <= i < |table| && 0 <= j < m ==>
         Eval(table[i][j], 0.0) == points[i][j] && Eval(table[i][j], 1.0) == points[i + 1][j]
  }
}
