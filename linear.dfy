/**
 * Exact dense linear solve over `real`, standing in for the inversion and
 * matrix product both spline builders use to find the knot slopes.
 *
 * `Solve` is Gauss-Jordan elimination with a nonzero pivot. It either returns
 * the one vector x with A·x == b, or reports that A is singular, and both
 * outcomes are proved: a returned vector is the UNIQUE solution, and a failure
 * comes with a nonzero vector in the kernel of A.
 */
module LinearSystem {

  import opened Common

  // ---------------------------------------------------------------------------
  // Vectors and matrices
  // ---------------------------------------------------------------------------

  /** Sum of r[j] * x[j] over the first n positions. */
  function DotTo(r: seq<real>, x: seq<real>, n: nat): real
    requires n <= |r| && n <= |x|
  {
    if n == 0 then 0.0 else DotTo(r, x, n - 1) + r[n - 1] * x[n - 1]
  }

  function Dot(r: seq<real>, x: seq<real>): real
    requires |r| == |x|
  {
    DotTo(r, x, |r|)
  }

  function Zeros(n: nat): (z: seq<real>)
    ensures |z| == n && forall i :: 0 <= i < n ==> z[i] == 0.0
  {
    seq(n, i => 0.0)
  }

  function Scale(r: seq<real>, c: real): (s: seq<real>)
    ensures |s| == |r| && forall j :: 0 <= j < |r| ==> s[j] == c * r[j]
  {
    seq(|r|, j requires 0 <= j < |r| => c * r[j])
  }

  /** r + c * s, entrywise. */
  function AddScaled(r: seq<real>, c: real, s: seq<real>): (t: seq<real>)
    requires |r| == |s|
    ensures |t| == |r| && forall j :: 0 <= j < |r| ==> t[j] == r[j] + c * s[j]
  {
    seq(|r|, j requires 0 <= j < |r| => r[j] + c * s[j])
  }

  /** An n×n matrix given as its rows. */
  predicate IsSquare(a: seq<seq<real>>)
  {
    forall i :: 0 <= i < |a| ==> |a[i]| == |a|
  }

  /** The product a·x. */
  function MatVec(a: seq<seq<real>>, x: seq<real>): (v: seq<real>)
    requires IsSquare(a) && |x| == |a|
    ensures |v| == |a| && forall i :: 0 <= i < |a| ==> v[i] == Dot(a[i], x)
  {
    seq(|a|, i requires 0 <= i < |a| => Dot(a[i], x))
  }

  /** x solves a·x == b, row by row. */
  predicate Solves(a: seq<seq<real>>, b: seq<real>, x: seq<real>)
    requires IsSquare(a) && |b| == |a| && |x| == |a|
  {
    forall i :: 0 <= i < |a| ==> Dot(a[i], x) == b[i]
  }

  /** The only vector a maps to zero is zero. */
  ghost predicate NonSingular(a: seq<seq<real>>)
    requires IsSquare(a)
  {
    forall y {:trigger Solves(a, Zeros(|a|), y)} :: |y| == |a| && Solves(a, Zeros(|a|), y) ==> y == Zeros(|a|)
  }

  // ---------------------------------------------------------------------------
  // Facts about Dot
  // ---------------------------------------------------------------------------

  /** Terms that vanish on [lo, hi) do not change the running sum. */
  lemma {:induction false} DotSkip(r: seq<real>, x: seq<real>, lo: nat, hi: nat)
    requires lo <= hi <= |r| && hi <= |x|
    requires forall j :: lo <= j < hi ==> r[j] * x[j] == 0.0
    ensures DotTo(r, x, hi) == DotTo(r, x, lo)
    decreases hi - lo
  {
    if lo < hi {
      DotSkip(r, x, lo, hi - 1);
    }
  }

  /** Scaling the row by w and the vector by v scales their products by w·v. */
  lemma {:induction false} DotToScaled(r: seq<real>, x: seq<real>, w: real, v: real, n: nat)
    requires n <= |r| && n <= |x|
    ensures DotTo(Scale(r, w), Scale(x, v), n) == w * v * DotTo(r, x, n)
  {
    if n > 0 {
      DotToScaled(r, x, w, v, n - 1);
      assert (w * r[n - 1]) * (v * x[n - 1]) == w * v * (r[n - 1] * x[n - 1]);
    }
  }

  /** A row whose only nonzero terms are c0 at lo and c1 at lo+1. */
  lemma DotWindow2(r: seq<real>, x: seq<real>, lo: nat, c0: real, c1: real)
    requires |r| == |x| && lo + 2 <= |r| && r[lo] == c0 && r[lo + 1] == c1
    requires forall j :: 0 <= j < |r| && (j < lo || lo + 2 <= j) ==> r[j] == 0.0
    ensures Dot(r, x) == c0 * x[lo] + c1 * x[lo + 1]
  {
    DotSkip(r, x, lo + 2, |r|);
    DotSkip(r, x, 0, lo);
  }

  /** A row whose only nonzero terms are c0, c1, c2 at lo, lo+1, lo+2. */
  lemma DotWindow3(r: seq<real>, x: seq<real>, lo: nat, c0: real, c1: real, c2: real)
    requires |r| == |x| && lo + 3 <= |r| && r[lo] == c0 && r[lo + 1] == c1 && r[lo + 2] == c2
    requires forall j :: 0 <= j < |r| && (j < lo || lo + 3 <= j) ==> r[j] == 0.0
    ensures Dot(r, x) == c0 * x[lo] + c1 * x[lo + 1] + c2 * x[lo + 2]
  {
    DotSkip(r, x, lo + 3, |r|);
    DotSkip(r, x, 0, lo);
    assert DotTo(r, x, lo + 3) == DotTo(r, x, lo + 2) + r[lo + 2] * x[lo + 2];
    assert DotTo(r, x, lo + 2) == DotTo(r, x, lo + 1) + r[lo + 1] * x[lo + 1];
  }

  lemma {:induction false} DotAddScaled(r: seq<real>, c: real, s: seq<real>, x: seq<real>, n: nat)
    requires |r| == |s| && n <= |r| && n <= |x|
    ensures DotTo(AddScaled(r, c, s), x, n) == DotTo(r, x, n) + c * DotTo(s, x, n)
  {
    if n > 0 {
      DotAddScaled(r, c, s, x, n - 1);
      var t := AddScaled(r, c, s);
      calc {
        DotTo(t, x, n);
        DotTo(t, x, n - 1) + t[n - 1] * x[n - 1];
        DotTo(r, x, n - 1) + c * DotTo(s, x, n - 1) + (r[n - 1] + c * s[n - 1]) * x[n - 1];
        { assert (r[n - 1] + c * s[n - 1]) * x[n - 1] == r[n - 1] * x[n - 1] + c * (s[n - 1] * x[n - 1]); }
        DotTo(r, x, n) + c * DotTo(s, x, n);
      }
    }
  }

  lemma {:induction false} DotScaleRow(r: seq<real>, c: real, x: seq<real>, n: nat)
    requires n <= |r| && n <= |x|
    ensures DotTo(Scale(r, c), x, n) == c * DotTo(r, x, n)
  {
    if n > 0 {
      DotScaleRow(r, c, x, n - 1);
      assert Scale(r, c)[n - 1] * x[n - 1] == c * (r[n - 1] * x[n - 1]);
    }
  }

  lemma {:induction false} DotScaleVector(r: seq<real>, c: real, x: seq<real>, n: nat)
    requires n <= |r| && n <= |x|
    ensures DotTo(r, Scale(x, c), n) == c * DotTo(r, x, n)
  {
    if n > 0 {
      DotScaleVector(r, c, x, n - 1);
      assert r[n - 1] * Scale(x, c)[n - 1] == c * (r[n - 1] * x[n - 1]);
    }
  }

  /** Dot is additive in its vector argument. */
  lemma {:induction false} DotAddVector(r: seq<real>, x: seq<real>, y: seq<real>, n: nat)
    requires |x| == |y| && n <= |r| && n <= |x|
    ensures DotTo(r, AddScaled(x, 1.0, y), n) == DotTo(r, x, n) + DotTo(r, y, n)
  {
    if n > 0 {
      DotAddVector(r, x, y, n - 1);
      assert r[n - 1] * AddScaled(x, 1.0, y)[n - 1] == r[n - 1] * x[n - 1] + r[n - 1] * y[n - 1];
    }
  }

  // ---------------------------------------------------------------------------
  // Gauss-Jordan elimination
  // ---------------------------------------------------------------------------

  /** Columns 0..k-1 of a are the unit vectors e_0..e_{k-1}. */
  predicate UnitColumns(a: seq<seq<real>>, k: nat)
    requires IsSquare(a) && k <= |a|
  {
    forall i, j :: 0 <= i < |a| && 0 <= j < k ==> a[i][j] == if i == j then 1.0 else 0.0
  }

  /** The first row at or below `from` with a nonzero entry in column k. */
  function FindPivot(a: seq<seq<real>>, k: nat, from: nat): (p: Option<nat>)
    requires IsSquare(a) && k < |a| && k <= from <= |a|
    ensures p.Some? ==> from <= p.value < |a| && a[p.value][k] != 0.0
    ensures p.None? ==> forall i :: from <= i < |a| ==> a[i][k] == 0.0
    decreases |a| - from
  {
    if from == |a| then None
    else if a[from][k] != 0.0 then Some(from)
    else FindPivot(a, k, from + 1)
  }

  /** Row i of the matrix after rows k and p are exchanged. */
  function Swapped(i: nat, k: nat, p: nat): nat
  {
    if i == k then p else if i == p then k else i
  }

  /**
   * One elimination step on column k with pivot row p: exchange rows k and p,
   * divide the pivot row by its pivot, and subtract multiples of it from every
   * other row so that column k becomes e_k.
   */
  function StepMatrix(a: seq<seq<real>>, k: nat, p: nat): (a': seq<seq<real>>)
    requires IsSquare(a) && k <= p < |a| && a[p][k] != 0.0
    ensures IsSquare(a') && |a'| == |a|
  {
    var pivotRow := Scale(a[p], 1.0 / a[p][k]);
    seq(|a|, i requires 0 <= i < |a| =>
      if i == k then pivotRow
      else AddScaled(a[Swapped(i, k, p)], -a[Swapped(i, k, p)][k], pivotRow))
  }

  /** The same step applied to the right-hand side. */
  function StepRhs(a: seq<seq<real>>, b: seq<real>, k: nat, p: nat): (b': seq<real>)
    requires IsSquare(a) && |b| == |a| && k <= p < |a| && a[p][k] != 0.0
    ensures |b'| == |b|
  {
    var pivotRhs := b[p] / a[p][k];
    seq(|a|, i requires 0 <= i < |a| =>
      if i == k then pivotRhs
      else b[Swapped(i, k, p)] - a[Swapped(i, k, p)][k] * pivotRhs)
  }

  /** Eliminates columns k.., assuming columns ..k-1 are already unit columns. */
  function Reduce(a: seq<seq<real>>, b: seq<real>, k: nat): Option<seq<real>>
    requires IsSquare(a) && |b| == |a| && k <= |a|
    decreases |a| - k
  {
    if k == |a| then Some(b)
    else match FindPivot(a, k, k)
      case None => None
      case Some(p) => Reduce(StepMatrix(a, k, p), StepRhs(a, b, k, p), k + 1)
  }

  /** The exact solution of a·x == b, or None when a is singular. */
  function Solve(a: seq<seq<real>>, b: seq<real>): (x: Option<seq<real>>)
    requires IsSquare(a) && |b| == |a|
    ensures x.Some? ==> |x.value| == |a| && Solves(a, b, x.value)
    ensures x.None? ==> !NonSingular(a)
  {
    var r := Reduce(a, b, 0);
    if r.Some? then
      ReduceSound(a, b, 0);
      r
    else
      ReduceFailsSingular(a, b);
      r
  }

  /** A failed elimination leaves a nonzero vector in the kernel. */
  lemma ReduceFailsSingular(a: seq<seq<real>>, b: seq<real>)
    requires IsSquare(a) && |b| == |a| && Reduce(a, b, 0).None?
    ensures !NonSingular(a)
  {
    var y := ReduceComplete(a, b, 0);
  }

  // ---------------------------------------------------------------------------
  // Correctness of one step
  // ---------------------------------------------------------------------------

  /** Row i of the stepped matrix, applied to x, in terms of the old rows. */
  lemma StepRowDot(a: seq<seq<real>>, k: nat, p: nat, x: seq<real>, i: nat)
    requires IsSquare(a) && |x| == |a| && k <= p < |a| && a[p][k] != 0.0 && i < |a|
    ensures var s := Swapped(i, k, p);
      Dot(StepMatrix(a, k, p)[i], x) ==
        if i == k then Dot(a[p], x) / a[p][k]
        else Dot(a[s], x) - a[s][k] * (Dot(a[p], x) / a[p][k])
  {
    var pivot := a[p][k];
    var pivotRow := Scale(a[p], 1.0 / pivot);
    DotScaleRow(a[p], 1.0 / pivot, x, |a|);
    assert Dot(pivotRow, x) == Dot(a[p], x) / pivot by {
      assert (1.0 / pivot) * Dot(a[p], x) == Dot(a[p], x) / pivot;
    }
    if i == k {
      assert StepMatrix(a, k, p)[i] == pivotRow;
    } else {
      var s := Swapped(i, k, p);
      assert StepMatrix(a, k, p)[i] == AddScaled(a[s], -a[s][k], pivotRow);
      DotAddScaled(a[s], -a[s][k], pivotRow, x, |a|);
    }
  }

  /** A solution of the old system solves the stepped one. */
  lemma StepForward(a: seq<seq<real>>, b: seq<real>, k: nat, p: nat, x: seq<real>)
    requires IsSquare(a) && |b| == |a| && |x| == |a| && k <= p < |a| && a[p][k] != 0.0
    requires Solves(a, b, x)
    ensures Solves(StepMatrix(a, k, p), StepRhs(a, b, k, p), x)
  {
    forall i | 0 <= i < |a| ensures Dot(StepMatrix(a, k, p)[i], x) == StepRhs(a, b, k, p)[i] {
      StepRowDot(a, k, p, x, i);
    }
  }

  /** A solution of the stepped system solves the old one. */
  lemma StepBackward(a: seq<seq<real>>, b: seq<real>, k: nat, p: nat, x: seq<real>)
    requires IsSquare(a) && |b| == |a| && |x| == |a| && k <= p < |a| && a[p][k] != 0.0
    requires Solves(StepMatrix(a, k, p), StepRhs(a, b, k, p), x)
    ensures Solves(a, b, x)
  {
    var a', b' := StepMatrix(a, k, p), StepRhs(a, b, k, p);
    var piv := a[p][k];
    StepRowDot(a, k, p, x, k);
    assert Dot(a[p], x) / piv == b[p] / piv;
    assert Dot(a[p], x) == b[p];
    forall m | 0 <= m < |a| ensures Dot(a[m], x) == b[m] {
      if m != p {
        var i := Swapped(m, k, p);
        assert Swapped(i, k, p) == m && i != k;
        StepRowDot(a, k, p, x, i);
        assert Dot(a'[i], x) == b'[i];
      }
    }
  }

  /** An elimination step keeps the solution set of the system. */
  lemma StepKeepsSolutions(a: seq<seq<real>>, b: seq<real>, k: nat, p: nat, x: seq<real>)
    requires IsSquare(a) && |b| == |a| && |x| == |a| && k <= p < |a| && a[p][k] != 0.0
    ensures Solves(StepMatrix(a, k, p), StepRhs(a, b, k, p), x) <==> Solves(a, b, x)
  {
    if Solves(a, b, x) {
      StepForward(a, b, k, p, x);
    }
    if Solves(StepMatrix(a, k, p), StepRhs(a, b, k, p), x) {
      StepBackward(a, b, k, p, x);
    }
  }

  /** The step maps a zero right-hand side to zero. */
  lemma StepKeepsZeroRhs(a: seq<seq<real>>, k: nat, p: nat)
    requires IsSquare(a) && k <= p < |a| && a[p][k] != 0.0
    ensures StepRhs(a, Zeros(|a|), k, p) == Zeros(|a|)
  {
  }

  /** After the step, columns 0..k are unit columns. */
  lemma StepExtendsUnitColumns(a: seq<seq<real>>, k: nat, p: nat)
    requires IsSquare(a) && k <= p < |a| && a[p][k] != 0.0 && UnitColumns(a, k)
    ensures UnitColumns(StepMatrix(a, k, p), k + 1)
  {
    var a' := StepMatrix(a, k, p);
    var piv := a[p][k];
    forall i, j | 0 <= i < |a| && 0 <= j < k + 1
      ensures a'[i][j] == if i == j then 1.0 else 0.0
    {
      var pivotRow := Scale(a[p], 1.0 / piv);
      if j < k {
        assert a[p][j] == 0.0;
        assert pivotRow[j] == 0.0;
      } else {
        assert pivotRow[k] == 1.0;
      }
    }
  }

  // ---------------------------------------------------------------------------
  // Correctness of Solve
  // ---------------------------------------------------------------------------

  /** When every column is a unit column, a is the identity. */
  lemma IdentitySolves(a: seq<seq<real>>, x: seq<real>)
    requires IsSquare(a) && |x| == |a| && UnitColumns(a, |a|)
    ensures MatVec(a, x) == x
  {
    forall i | 0 <= i < |a| ensures Dot(a[i], x) == x[i] {
      DotSkip(a[i], x, i + 1, |a|);
      DotSkip(a[i], x, 0, i);
    }
  }

  /** No pivot in column k: a has a nonzero kernel vector. */
  lemma NoPivotGivesKernel(a: seq<seq<real>>, k: nat) returns (y: seq<real>)
    requires IsSquare(a) && k < |a| && UnitColumns(a, k)
    requires forall i :: k <= i < |a| ==> a[i][k] == 0.0
    ensures |y| == |a| && y != Zeros(|a|) && Solves(a, Zeros(|a|), y)
  {
    var n := |a|;
    y := seq(n, j requires 0 <= j < n => if j < k then -a[j][k] else if j == k then 1.0 else 0.0);
    assert y[k] != Zeros(n)[k];
    forall i | 0 <= i < n ensures Dot(a[i], y) == 0.0 {
      DotSkip(a[i], y, k + 1, n);
      assert DotTo(a[i], y, k + 1) == DotTo(a[i], y, k) + a[i][k];
      if i < k {
        DotSkip(a[i], y, i + 1, k);
        assert DotTo(a[i], y, i + 1) == DotTo(a[i], y, i) - a[i][k];
        DotSkip(a[i], y, 0, i);
      } else {
        DotSkip(a[i], y, 0, k);
      }
    }
  }

  /** What Reduce returns is the one solution of the system. */
  lemma {:induction false} ReduceSound(a: seq<seq<real>>, b: seq<real>, k: nat)
    requires IsSquare(a) && |b| == |a| && k <= |a| && UnitColumns(a, k)
    requires Reduce(a, b, k).Some?
    ensures |Reduce(a, b, k).value| == |a|
    ensures forall x {:trigger Solves(a, b, x)} :: |x| == |a| ==> (Solves(a, b, x) <==> x == Reduce(a, b, k).value)
    decreases |a| - k
  {
    if k == |a| {
      forall x {:trigger Solves(a, b, x)} | |x| == |a| ensures Solves(a, b, x) <==> x == b {
        IdentitySolves(a, x);
      }
    } else {
      var p := FindPivot(a, k, k).value;
      var a', b' := StepMatrix(a, k, p), StepRhs(a, b, k, p);
      StepExtendsUnitColumns(a, k, p);
      ReduceSound(a', b', k + 1);
      forall x {:trigger Solves(a, b, x)} | |x| == |a| ensures Solves(a, b, x) <==> x == Reduce(a, b, k).value {
        StepKeepsSolutions(a, b, k, p, x);
      }
    }
  }

  /** When Reduce fails, a maps some nonzero vector to zero. */
  lemma {:induction false} ReduceComplete(a: seq<seq<real>>, b: seq<real>, k: nat) returns (y: seq<real>)
    requires IsSquare(a) && |b| == |a| && k <= |a| && UnitColumns(a, k)
    requires Reduce(a, b, k).None?
    ensures |y| == |a| && y != Zeros(|a|) && Solves(a, Zeros(|a|), y)
    decreases |a| - k
  {
    match FindPivot(a, k, k)
    case None =>
      y := NoPivotGivesKernel(a, k);
    case Some(p) =>
      var a', b' := StepMatrix(a, k, p), StepRhs(a, b, k, p);
      StepExtendsUnitColumns(a, k, p);
      y := ReduceComplete(a', b', k + 1);
      StepKeepsZeroRhs(a, k, p);
      StepKeepsSolutions(a, Zeros(|a|), k, p, y);
  }

  /** A vector Solve returns solves the system, and no other vector does. */
  lemma SolveUnique(a: seq<seq<real>>, b: seq<real>)
    requires IsSquare(a) && |b| == |a| && Solve(a, b).Some?
    ensures |Solve(a, b).value| == |a|
    ensures MatVec(a, Solve(a, b).value) == b
    ensures forall x {:trigger MatVec(a, x)} :: |x| == |a| && MatVec(a, x) == b ==> x == Solve(a, b).value
  {
    ReduceSound(a, b, 0);
    var x := Solve(a, b).value;
    assert Solves(a, b, x);
    forall x' {:trigger MatVec(a, x')} | |x'| == |a| && MatVec(a, x') == b ensures x' == x {
      assert Solves(a, b, x');
    }
  }

  /** Adding a kernel vector to a solution gives a solution. */
  lemma AddKernelVector(a: seq<seq<real>>, b: seq<real>, x: seq<real>, y: seq<real>)
    requires IsSquare(a) && |b| == |a| && |x| == |a| && |y| == |a|
    requires Solves(a, b, x) && Solves(a, Zeros(|a|), y)
    ensures Solves(a, b, AddScaled(x, 1.0, y))
  {
    forall i | 0 <= i < |a| ensures Dot(a[i], AddScaled(x, 1.0, y)) == b[i] {
      DotAddVector(a[i], x, y, |a|);
    }
  }

  /** If Solve succeeds, the kernel of a is zero. */
  lemma SolveSomeNonSingular(a: seq<seq<real>>, b: seq<real>)
    requires IsSquare(a) && |b| == |a| && Solve(a, b).Some?
    ensures NonSingular(a)
  {
    var n := |a|;
    ReduceSound(a, b, 0);
    var x := Solve(a, b).value;
    forall y {:trigger Solves(a, Zeros(n), y)} | |y| == n && Solves(a, Zeros(n), y) ensures y == Zeros(n) {
      AddKernelVector(a, b, x, y);
      var z := AddScaled(x, 1.0, y);
      assert z == x;
      forall i | 0 <= i < n ensures y[i] == 0.0 {
        assert z[i] == x[i] + 1.0 * y[i];
      }
    }
  }

  /**
   * Solve's contract: a returned vector x satisfies a·x == b and is the only
   * vector that does; None is returned exactly when a is singular.
   */
  lemma SolveCorrect(a: seq<seq<real>>, b: seq<real>)
    requires IsSquare(a) && |b| == |a|
    ensures Solve(a, b).Some? <==> NonSingular(a)
    ensures Solve(a, b).Some? ==>
      |Solve(a, b).value| == |a| && MatVec(a, Solve(a, b).value) == b &&
      Solves(a, b, Solve(a, b).value) &&
      forall x {:trigger MatVec(a, x)} :: |x| == |a| && MatVec(a, x) == b ==> x == Solve(a, b).value
  {
    if Solve(a, b).Some? {
      SolveUnique(a, b);
      SolveSomeNonSingular(a, b);
    } else {
      var y := ReduceComplete(a, b, 0);
    }
  }

  /** Whether Solve succeeds depends on the matrix only. */
  lemma SolveOutcomeIgnoresRhs(a: seq<seq<real>>, b: seq<real>, b': seq<real>)
    requires IsSquare(a) && |b| == |a| && |b'| == |a|
    ensures Solve(a, b).Some? <==> Solve(a, b').Some?
  {
    SolveCorrect(a, b);
    SolveCorrect(a, b');
  }

  /** Any vector that satisfies every row is what Solve returns. */
  lemma SolveFindsSolution(a: seq<seq<real>>, b: seq<real>, x: seq<real>)
    requires IsSquare(a) && |b| == |a| && |x| == |a|
    requires Solve(a, b).Some? && Solves(a, b, x)
    ensures Solve(a, b).value == x
  {
    ReduceSound(a, b, 0);
  }

  /** A nonsingular system has at most one solution. */
  lemma SolutionUnique(a: seq<seq<real>>, b: seq<real>, x: seq<real>, y: seq<real>)
    requires IsSquare(a) && |b| == |a| && |x| == |a| && |y| == |a|
    requires NonSingular(a) && Solves(a, b, x) && Solves(a, b, y)
    ensures x == y
  {
    SolveCorrect(a, b);
    SolveFindsSolution(a, b, x);
    SolveFindsSolution(a, b, y);
  }

  // ---------------------------------------------------------------------------
  // Diagonally dominant band matrices
  // ---------------------------------------------------------------------------

  function Abs(x: real): real
  {
    if x < 0.0 then -x else x
  }

  /** An index of an entry of largest magnitude. */
  function ArgMaxAbs(y: seq<real>): (k: nat)
    requires |y| > 0
    ensures k < |y| && forall j :: 0 <= j < |y| ==> Abs(y[j]) <= Abs(y[k])
  {
    if |y| == 1 then 0
    else
      var k := ArgMaxAbs(y[..|y| - 1]);
      assert forall j :: 0 <= j < |y| - 1 ==> y[..|y| - 1][j] == y[j];
      if Abs(y[|y| - 1]) > Abs(y[k]) then |y| - 1 else k
  }

  /**
   * Row i is zero outside columns i-1..i+1, its two neighbours are not
   * negative, and its diagonal entry exceeds their sum.
   */
  predicate DominantRow(a: seq<seq<real>>, i: nat)
    requires IsSquare(a) && i < |a|
  {
    && (forall j :: 0 <= j < |a| && (j + 1 < i || i + 1 < j) ==> a[i][j] == 0.0)
    && (0 < i ==> a[i][i - 1] >= 0.0)
    && (i + 1 < |a| ==> a[i][i + 1] >= 0.0)
    && a[i][i] > (if 0 < i then a[i][i - 1] else 0.0) + (if i + 1 < |a| then a[i][i + 1] else 0.0)
  }

  /** A row that is zero outside columns i-1..i+1 only sees those three entries of x. */
  lemma DotBand(r: seq<real>, x: seq<real>, i: nat)
    requires |r| == |x| && i < |r|
    requires forall j :: 0 <= j < |r| && (j + 1 < i || i + 1 < j) ==> r[j] == 0.0
    ensures Dot(r, x) ==
      (if 0 < i then r[i - 1] * x[i - 1] else 0.0) + r[i] * x[i] + (if i + 1 < |r| then r[i + 1] * x[i + 1] else 0.0)
  {
    var lo := if 0 < i then i - 1 else 0;
    var hi := if i + 1 < |r| then i + 2 else |r|;
    DotSkip(r, x, hi, |r|);
    DotSkip(r, x, 0, lo);
    if i + 1 < |r| {
      assert DotTo(r, x, i + 2) == DotTo(r, x, i + 1) + r[i + 1] * x[i + 1];
    }
    assert DotTo(r, x, i + 1) == DotTo(r, x, i) + r[i] * x[i];
    if 0 < i {
      assert DotTo(r, x, i) == DotTo(r, x, i - 1) + r[i - 1] * x[i - 1];
    }
  }

  /**
   * p·xp + c·xk + q·xn == 0 with c > p + q, p and q not negative, forces xk
   * to zero when xk has the largest magnitude of the three.
   */
  lemma DominantTermZero(p: real, c: real, q: real, xp: real, xk: real, xn: real)
    requires p >= 0.0 && q >= 0.0 && c > p + q
    requires Abs(xp) <= Abs(xk) && Abs(xn) <= Abs(xk)
    requires p * xp + c * xk + q * xn == 0.0
    ensures xk == 0.0
  {
    AbsScale(p, xp);
    AbsScale(q, xn);
    AbsScale(c, xk);
    AbsAdd(p * xp, q * xn);
    assert p * (Abs(xk) - Abs(xp)) >= 0.0;
    assert q * (Abs(xk) - Abs(xn)) >= 0.0;
    assert c * xk == -(p * xp + q * xn);
    assert c * Abs(xk) <= p * Abs(xk) + q * Abs(xk);
    NoRoomLeft(c - p - q, Abs(xk));
  }

  lemma AbsScale(p: real, x: real)
    requires p >= 0.0
    ensures Abs(p * x) == p * Abs(x)
  {
    if x < 0.0 {
      assert p * x == -(p * -x);
    }
  }

  lemma AbsAdd(x: real, y: real)
    ensures Abs(x + y) <= Abs(x) + Abs(y)
  {
  }

  lemma NoRoomLeft(g: real, x: real)
    requires g > 0.0 && x >= 0.0 && g * x <= 0.0
    ensures x == 0.0
  {
  }

  /** A kernel vector vanishes at a largest entry whose row is dominant, and hence everywhere. */
  lemma KernelZeroAtDominantMax(a: seq<seq<real>>, y: seq<real>, k: nat)
    requires IsSquare(a) && |y| == |a| && k < |a| && DominantRow(a, k)
    requires Solves(a, Zeros(|a|), y)
    requires forall j :: 0 <= j < |y| ==> Abs(y[j]) <= Abs(y[k])
    ensures y == Zeros(|a|)
  {
    assert Dot(a[k], y) == 0.0;
    DominantEntryZero(a[k], y, k);
    forall j | 0 <= j < |y| ensures y[j] == 0.0 {
      assert Abs(y[j]) <= 0.0;
    }
  }

  /** The same for one row r, read as row k of a matrix. */
  lemma DominantEntryZero(r: seq<real>, y: seq<real>, k: nat)
    requires |r| == |y| && k < |r| && Dot(r, y) == 0.0
    requires forall j :: 0 <= j < |r| && (j + 1 < k || k + 1 < j) ==> r[j] == 0.0
    requires 0 < k ==> r[k - 1] >= 0.0
    requires k + 1 < |r| ==> r[k + 1] >= 0.0
    requires r[k] > (if 0 < k then r[k - 1] else 0.0) + (if k + 1 < |r| then r[k + 1] else 0.0)
    requires forall j :: 0 <= j < |y| ==> Abs(y[j]) <= Abs(y[k])
    ensures y[k] == 0.0
  {
    DotBand(r, y, k);
    if 0 < k && k + 1 < |r| {
      DominantInsideZero(r, y, k);
    } else if 0 < k {
      assert r[k - 1] * y[k - 1] + r[k] * y[k] == 0.0;
      DominantTermZero(r[k - 1], r[k], 0.0, y[k - 1], y[k], 0.0);
    } else if k + 1 < |r| {
      assert r[k] * y[k] + r[k + 1] * y[k + 1] == 0.0;
      DominantTermZero(0.0, r[k], r[k + 1], 0.0, y[k], y[k + 1]);
    } else {
      DominantTermZero(0.0, r[k], 0.0, 0.0, y[k], 0.0);
    }
  }

  lemma DominantInsideZero(r: seq<real>, y: seq<real>, k: nat)
    requires |r| == |y| && 0 < k && k + 1 < |r|
    requires r[k - 1] * y[k - 1] + r[k] * y[k] + r[k + 1] * y[k + 1] == 0.0
    requires r[k - 1] >= 0.0 && r[k + 1] >= 0.0 && r[k] > r[k - 1] + r[k + 1]
    requires Abs(y[k - 1]) <= Abs(y[k]) && Abs(y[k + 1]) <= Abs(y[k])
    ensures y[k] == 0.0
  {
    DominantTermZero(r[k - 1], r[k], r[k + 1], y[k - 1], y[k], y[k + 1]);
  }

  /** A matrix whose every row is dominant is nonsingular. */
  lemma DominantNonSingular(a: seq<seq<real>>)
    requires IsSquare(a) && forall i :: 0 <= i < |a| ==> DominantRow(a, i)
    ensures NonSingular(a)
  {
    forall y {:trigger Solves(a, Zeros(|a|), y)} | |y| == |a| && Solves(a, Zeros(|a|), y) ensures y == Zeros(|a|) {
      if |a| > 0 {
        KernelZeroAtDominantMax(a, y, ArgMaxAbs(y));
      }
    }
  }
}
