/**
 * Definitions shared by both spline versions and the slicing helper: the
 * error outcomes of the Python code, Python's integer conversion and `% 1`
 * on non-integers, `numpy.linspace(0, 1, n)`, and the way `fn` drops array
 * axes of length one from its result.
 */
module Common {

  datatype Option<+T> = None | Some(value: T)

  /** The exceptions the modelled code raises, directly or through numpy. */
  datatype Error =
    | DistancesLengthMismatch   // `assert len(distances) == N-1`
    | UnknownBoundaryCondition  // `raise ValueError('Unknown boundary condition type.')`
    | DEqualNeedsFourPoints     // `assert self.N > 3` under 'd_equal'
    | DEqualNeedsUniform        // `assert self.uniform` under 'd_equal'
    | SingularMatrix            // numpy.linalg.LinAlgError from the inversion
    | ShapeError                // numpy refuses a shape: negative size, slice too short
    | IndexOutOfRange           // numpy or Python IndexError
    | NegativeSampleCount       // numpy.linspace with n < 0
    | NotAnArray                // `assert isinstance(data, np.ndarray)`

  datatype Result<+T> = Ok(value: T) | Err(error: Error)

  /** The two values of `bc_type` the builders accept. */
  datatype Boundary =
    | Natural  // zero second derivative at both ends
    | DEqual   // equal third derivative on the first two and on the last two segments

  /** Reads `bc_type`; any other string is refused by the builders. */
  function ParseBoundary(bc: string): (b: Option<Boundary>)
    ensures b == Some(Natural) <==> bc == "natural"
    ensures b == Some(DEqual) <==> bc == "d_equal"
    ensures b.None? <==> bc != "natural" && bc != "d_equal"
  {
    if bc == "natural" then Some(Natural)
    else if bc == "d_equal" then Some(DEqual)
    else None
  }

  // ---------------------------------------------------------------------------
  // The point array
  // ---------------------------------------------------------------------------

  /** `points.shape[1]`: the number of coordinates of each point. */
  function Width(points: seq<seq<real>>): nat
  {
    if |points| == 0 then 0 else |points[0]|
  }

  /** `points[:, np.newaxis]`: a 1-D input of N numbers read as N points of one coordinate. */
  function AsPoints(values: seq<real>): (points: seq<seq<real>>)
    ensures |points| == |values| && Rectangular(points, 1)
    ensures forall i :: 0 <= i < |values| ==> points[i] == [values[i]]
  {
    seq(|values|, i requires 0 <= i < |values| => [values[i]])
  }

  /** `points.T[j]`: coordinate j of every point. */
  function Column(points: seq<seq<real>>, j: nat): (dim: seq<real>)
    requires Rectangular(points, Width(points)) && j < Width(points)
    ensures |dim| == |points| && forall i :: 0 <= i < |points| ==> dim[i] == points[i][j]
  {
    seq(|points|, i requires 0 <= i < |points| => points[i][j])
  }

  // ---------------------------------------------------------------------------
  // Number conversions
  // ---------------------------------------------------------------------------

  /** `int(x)` and `astype(int)`: truncation toward zero. */
  function Trunc(x: real): (k: int)
    ensures 0.0 <= x ==> k as real <= x < k as real + 1.0
    ensures x <= 0.0 ==> k as real - 1.0 < x <= k as real
    ensures 0.0 <= x ==> 0 <= k
    ensures x <= 0.0 ==> k <= 0
  {
    if x >= 0.0 then x.Floor else -((-x).Floor)
  }

  /** Below zero truncation rounds up: one above the floor unless x is whole. */
  lemma TruncBelowZero(x: real)
    requires x < 0.0
    ensures Trunc(x) == x.Floor + (if FracPart(x) == 0.0 then 0 else 1)
  {
    var k := (-x).Floor;
    if FracPart(x) == 0.0 {
      assert x.Floor as real == x;
      assert (-x).Floor == -x.Floor;
    } else {
      assert (-x).Floor as real <= -x < (-x).Floor as real + 1.0;
      assert k as real != -x;
      assert (-k - 1) as real < x < (-k) as real;
      assert x.Floor == -k - 1;
    }
  }

  /** Python's `x % 1` on floats: the remainder takes the divisor's sign. */
  function FracPart(x: real): (f: real)
    ensures 0.0 <= f < 1.0
    ensures (x - f).Floor as real == x - f
  {
    x - x.Floor as real
  }

  /** Indexing an axis of length len: -len <= i < len, negative i counts from the end. */
  function NumpyIndex(i: int, len: nat): (k: Option<nat>)
    ensures k.Some? <==> -(len as int) <= i < len
    ensures k.Some? ==> k.value < len && k.value as int == (if i < 0 then i + len else i)
  {
    if 0 <= i < len then Some(i) else if -(len as int) <= i < 0 then Some(i + len) else None
  }

  // ---------------------------------------------------------------------------
  // numpy.linspace(0, 1, n)
  // ---------------------------------------------------------------------------

  /** n evenly spaced values from 0 to 1, both included. */
  function Linspace(n: int): (r: Result<seq<real>>)
    ensures r.Err? <==> n < 0
    ensures r.Err? ==> r.error == NegativeSampleCount
    ensures r.Ok? ==> |r.value| == n
    ensures r.Ok? && n >= 1 ==> r.value[0] == 0.0
    ensures r.Ok? && n >= 2 ==> r.value[n - 1] == 1.0
    ensures r.Ok? ==> forall k :: 0 <= k < n ==> 0.0 <= r.value[k] <= 1.0
    ensures r.Ok? && n >= 2 ==>
      forall k :: 0 <= k < n - 1 ==> r.value[k + 1] - r.value[k] == 1.0 / (n - 1) as real
  {
    if n < 0 then Err(NegativeSampleCount)
    else if n == 1 then Ok([0.0])
    else
      SamplesFacts(n);
      Ok(seq(n, k requires 0 <= k < n => Sample(n, k)))
  }

  /** Sample k of n >= 2: k/(n-1), with the last one exactly 1. */
  function Sample(n: int, k: int): real
    requires n >= 2
  {
    if k == n - 1 then 1.0 else k as real / (n - 1) as real
  }

  /** Every sample lies in [0, 1], and consecutive samples are 1/(n-1) apart. */
  lemma SamplesFacts(n: int)
    ensures n >= 2 ==> forall k :: 0 <= k < n ==> 0.0 <= Sample(n, k) <= 1.0
    ensures n >= 2 ==> forall k :: 0 <= k < n - 1 ==> Sample(n, k + 1) - Sample(n, k) == 1.0 / (n - 1) as real
  {
    if n >= 2 {
      var d := (n - 1) as real;
      forall k | 0 <= k < n ensures 0.0 <= Sample(n, k) <= 1.0 {
        if k < n - 1 {
          DivBelowOne(k as real, d);
        }
      }
      forall k | 0 <= k < n - 1 ensures Sample(n, k + 1) - Sample(n, k) == 1.0 / d {
        DivStep(k as real, d);
        if k + 1 == n - 1 {
          assert (k + 1) as real == d;
          assert d / d == 1.0;
        }
      }
    }
  }

  lemma DivBelowOne(x: real, d: real)
    requires 0.0 <= x < d
    ensures 0.0 <= x / d < 1.0
  {
  }

  lemma DivStep(x: real, d: real)
    requires d > 0.0
    ensures (x + 1.0) / d - x / d == 1.0 / d
  {
  }

  /** The samples are strictly increasing. */
  lemma LinspaceIncreasing(n: int, i: nat, j: nat)
    requires Linspace(n).Ok? && i < j < n
    ensures Linspace(n).value[i] < Linspace(n).value[j]
  {
    var v := Linspace(n).value;
    var d := (n - 1) as real;
    assert v[i] == Sample(n, i) == i as real / d;
    if j < n - 1 {
      assert v[j] == Sample(n, j) == j as real / d;
      DivLess(i as real, j as real, d);
    } else {
      assert v[j] == Sample(n, j) == 1.0;
      DivBelowOne(i as real, d);
    }
  }

  lemma DivLess(x: real, y: real, d: real)
    requires x < y && d > 0.0
    ensures x / d < y / d
  {
  }

  // ---------------------------------------------------------------------------
  // Result shape of `fn`
  // ---------------------------------------------------------------------------

  /** The array `fn` returns, after dropping axes of length one. */
  datatype Output =
    | Points(rows: seq<seq<real>>)  // shape (n, M)
    | Point(p: seq<real>)           // shape (M,): a single query
    | Values(v: seq<real>)          // shape (n,): one coordinate
    | Value(x: real)                // a single query on a single coordinate

  /** Every row has m entries. */
  predicate Rectangular<T>(rows: seq<seq<T>>, m: nat)
  {
    forall k :: 0 <= k < |rows| ==> |rows[k]| == m
  }

  /**
   * `if M == 1: interpolation = interpolation[:,0]` followed by
   * `if size == 1: interpolation = interpolation[0]`.
   */
  function Collapse(m: nat, rows: seq<seq<real>>): (o: Output)
    requires Rectangular(rows, m)
    ensures o.Value? <==> m == 1 && |rows| == 1
    ensures o.Values? <==> m == 1 && |rows| != 1
    ensures o.Point? <==> m != 1 && |rows| == 1
    ensures o.Points? <==> m != 1 && |rows| != 1
  {
    if m == 1 then
      var column := seq(|rows|, k requires 0 <= k < |rows| => rows[k][0]);
      if |rows| == 1 then Value(column[0]) else Values(column)
    else if |rows| == 1 then Point(rows[0])
    else Points(rows)
  }

  /** Puts the dropped axes back. */
  function Expand(o: Output): seq<seq<real>>
  {
    match o
    case Points(rows) => rows
    case Point(p) => [p]
    case Values(v) => seq(|v|, k requires 0 <= k < |v| => [v[k]])
    case Value(x) => [[x]]
  }

  /** Dropping the axes loses nothing: Expand undoes Collapse. */
  lemma CollapseRoundTrip(m: nat, rows: seq<seq<real>>)
    requires Rectangular(rows, m)
    ensures Expand(Collapse(m, rows)) == rows
  {
    if m == 1 {
      var e := Expand(Collapse(m, rows));
      assert |e| == |rows|;
      forall k | 0 <= k < |rows| ensures e[k] == rows[k] {
        assert |rows[k]| == 1;
      }
    }
  }
}
