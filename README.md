# Cubic spline interpolation and array slicing, in Dafny

This project models the spline interpolator of the repository in two versions.

- `CubicSpline.py` is the uniform-only spline. Every segment covers an equal share of the parameter range [0, 1].
- `cubic_spline.py` is its successor. It also takes optional `distances` between the points. Segment i then covers the share `dt[i] = distances[i] / sum(distances)` and starts at `t0[i] = dt[0] + … + dt[i-1]`.

Both builders do the same work for each coordinate of the points.

- They write a linear system for the end slopes of the segments. Its end rows encode the boundary condition: `'natural'` asks for zero curvature at the ends, and `'d_equal'` for equal third derivatives on the first two and on the last two segments. Its inner rows encode equal curvature where two segments meet.
- They solve the system.
- They store one cubic per segment and coordinate in the Hermite form.

`fn(t)` finds the segment of each query and evaluates its cubic at the local parameter. `interpolate(n)` evaluates `fn` at `numpy.linspace(0, 1, n)`.

The project also models `get_slice.py`. It turns a dictionary of per-axis positions into a numpy index tuple, and reads a fraction strictly between 0 and 1 as a position along the axis.

## Files

- `common.dfy` (`Common`) holds what the other modules share:
  - the error outcomes and the boundary-condition names;
  - Python's `int()` and `% 1`, and numpy's negative indexing;
  - `numpy.linspace(0, 1, n)`;
  - the dropping of length-one axes in `fn`.
- `cubic.dfy` (`Cubics`) holds the cubic pieces, their derivatives, and the Hermite form.
- `linear.dfy` (`LinearSystem`) holds an exact Gauss-Jordan solver over `real`. It stands in for `np.matmul(np.linalg.inv(mat), row)`. Its contract says that it returns the unique solution exactly when the matrix is nonsingular.
- `uniform_spline.dfy` (`UniformSpline`) models `CubicSpline.py`.
- `spline.dfy` (`Spline`) models `cubic_spline.py`. It also proves where, without distances, the new version agrees with `CubicSpline.py`: on every build except 'd_equal' on one to three points with at least one coordinate, where both fail but with different exceptions, and on `fn` for every non-empty list of queries in [0, 1]. `fn([])` and `interpolate(0)` differ, and so do queries outside [0, 1].
- `get_slice.dfy` (`Slicing`) models `get_slice.py`.

Each builder is a method. It creates a `CubicSpline` object and then, one coordinate at a time, does three things:

1. it assembles the system into an `array2<real>` matrix and an `array<real>` right-hand side;
2. it solves the system;
3. it writes the cubics into the object's `array2<Cubic>` coefficient table.

Each method is proved against a ghost specification `Spec`. `Spec` gives the exception the source raises, or else the table built from the solutions of the systems. The lemmas then prove what that table means: the curve passes through the points, it is smooth, and it meets the end conditions. They also prove what `fn` and `interpolate` return on a built spline.

## Model

| member | source | states |
|---|---|---|
| Common.ParseBoundary | cubic_spline.py:66-85 | only 'natural' and 'd_equal' are accepted; every other string is refused |
| Common.AsPoints | cubic_spline.py:45-47 | a 1-D input of N numbers becomes N points of one coordinate |
| Common.Column | cubic_spline.py:61 | `points.T[j]` has one entry per point, namely coordinate j of that point |
| Common.Trunc | CubicSpline.py:102 | `int()` truncates toward zero; the result lies within 1 of x, on the same side of zero |
| Common.FracPart | CubicSpline.py:103 | `x % 1` lies in [0, 1) and differs from x by a whole number |
| Common.NumpyIndex | CubicSpline.py:110 | an index is valid exactly in [-len, len); a negative one counts from the end |
| Common.Linspace | cubic_spline.py:158 | n samples for n ≥ 0, an error for n < 0; they run from 0 to 1 in steps of 1/(n-1), all within [0, 1] |
| Common.LinspaceIncreasing | cubic_spline.py:158 | the samples are strictly increasing |
| Common.Collapse | cubic_spline.py:136-137 | drops the coordinate axis exactly when M == 1 and the sample axis exactly when there is one query, independently |
| Common.CollapseRoundTrip | cubic_spline.py:136-137 | dropping the axes loses nothing: Expand restores the rows |
| Cubics.EvalEnds | CubicSpline.py:110 | the cubic `fn` evaluates equals c0 at local parameter 0 and the sum of its four coefficients at 1 |
| Cubics.Hermite | cubic_spline.py:101-105 | the stored cubic has the end values p0, p1 and the end slopes m0, m1 |
| Cubics.HermiteUnique | CubicSpline.py:77-80 | any cubic with those end values and slopes is the stored one |
| Cubics.HermiteHigherDerivatives | CubicSpline.py:79-80 | end curvatures and third derivative of the stored cubic, in terms of its data |
| Cubics.Taylor | CubicSpline.py:110 | Slope, Curvature and Jerk are the derivatives of the polynomial `fn` evaluates |
| LinearSystem.Solve | cubic_spline.py:98 | a returned vector has one entry per unknown and satisfies mat·x = row; when no vector is returned the matrix is singular, which is when `np.linalg.inv` raises |
| LinearSystem.KernelZeroAtDominantMax | CubicSpline.py:75 | a vector the matrix sends to zero vanishes everywhere once its largest entry sits in a row whose diagonal outweighs its two neighbours |
| LinearSystem.DominantNonSingular | CubicSpline.py:75 | a band matrix whose every row is diagonally dominant is nonsingular, so its inversion succeeds |
| LinearSystem.SolveCorrect | cubic_spline.py:98 | the solver returns a vector exactly when the matrix is nonsingular; that vector satisfies mat·x = row and is the only one that does |
| LinearSystem.SolveUnique | CubicSpline.py:75 | a returned vector solves the system and no other vector does |
| LinearSystem.SolutionUnique | CubicSpline.py:75 | a nonsingular system has at most one solution |
| LinearSystem.SolveFindsSolution | CubicSpline.py:75 | any solution of a solvable system is the one returned |
| LinearSystem.SolveOutcomeIgnoresRhs | CubicSpline.py:75 | whether the inversion fails depends on the matrix only, not on the coordinate |
| LinearSystem.ReduceSound | cubic_spline.py:98 | elimination keeps exactly the solutions of the system |
| LinearSystem.ReduceComplete | cubic_spline.py:98 | when elimination finds no pivot, the matrix maps a nonzero vector to zero |
| UniformSpline.EndRowsError | CubicSpline.py:57-68 | an unknown bc_type raises ValueError; too few points for the end rows fail |
| UniformSpline.Matrix | CubicSpline.py:53-73 | an N×N matrix whose rows 0 and N-1 hold the end-row coefficients of the chosen bc_type and whose inner rows hold (1, 4, 1) around the diagonal |
| UniformSpline.Rhs | CubicSpline.py:54-73 | one right-hand side per point, namely the end-row or inner-row value of that coordinate |
| UniformSpline.ConstantRhsZero | CubicSpline.py:57-73 | a coordinate with the same value at every point has an all-zero right-hand side under either bc_type |
| UniformSpline.Segments | CubicSpline.py:77-80 | N-1 segments, segment i being the Hermite cubic from point i to point i+1 with end slopes d[i] and d[i+1] |
| UniformSpline.SegmentsJoin | CubicSpline.py:77-80 | for any slopes, segment i runs from point i to point i+1, and neighbouring slopes agree |
| UniformSpline.InteriorRowMeans | CubicSpline.py:71-73 | the row d[i-1] + 4d[i] + d[i+1] = 3(p[i+1] - p[i-1]) holds exactly when the curvatures meeting at point i agree |
| UniformSpline.FirstRowMeans | CubicSpline.py:57-66 | row 0 holds exactly when the first segment has zero start curvature ('natural') or the first two jerks agree ('d_equal') |
| UniformSpline.LastRowMeans | CubicSpline.py:57-66 | row N-1 holds exactly when the last segment has zero end curvature ('natural') or the last two jerks agree ('d_equal') |
| UniformSpline.SystemMeansSmooth | CubicSpline.py:56-73 | the slopes solve the system exactly when every row's smoothness or end condition holds |
| UniformSpline.SpecOk | CubicSpline.py:43-80 | a successful build used a known boundary condition with enough points and a nonsingular matrix |
| UniformSpline.DEqualThreePointsSingular | CubicSpline.py:62-66 | with 'd_equal' and three points the matrix is singular, so the inversion fails |
| UniformSpline.InteriorRowDominant | CubicSpline.py:71-73 | every inner row (1, 4, 1) is diagonally dominant |
| UniformSpline.NaturalNonSingular | CubicSpline.py:57-75 | from two points on, the 'natural' matrix is nonsingular, so `np.linalg.inv` succeeds |
| UniformSpline.DEqualEndRows | CubicSpline.py:62-64 | a vector the 'd_equal' matrix sends to zero has equal entries at 0 and 2 and at N-3 and N-1 |
| UniformSpline.DEqualNonSingular | CubicSpline.py:62-75 | from four points on, the 'd_equal' matrix is nonsingular, so `np.linalg.inv` succeeds |
| UniformSpline.Spec | CubicSpline.py:43-80 | a successful build has at least one point and a table of N-1 rows with one cubic per coordinate |
| UniformSpline.SpecErrors | CubicSpline.py:43-75 | no points raise; with a coordinate, an unknown bc_type raises ValueError, 'natural' on one point and 'd_equal' on fewer than three fail on the end rows, and 'd_equal' on three points fails the inversion; 'natural' from two points and 'd_equal' from four points always build, and nothing else does |
| UniformSpline.BuiltTablePassesThrough | CubicSpline.py:77-80 | every built segment starts at its point and ends at the next one |
| UniformSpline.SolvedSegmentsJoin | CubicSpline.py:71-80 | segments built from a solution have equal slope and curvature at each interior point |
| UniformSpline.SolvedSegmentsEnds | CubicSpline.py:57-80 | segments built from a solution meet the end condition of the chosen bc_type |
| UniformSpline.SolvedSegmentsSmooth | CubicSpline.py:57-80 | continuity of slope and curvature at every interior point, together with the end conditions |
| UniformSpline.ValuesBuild | CubicSpline.py:43-80 | a 1-D input of N numbers, read as N one-coordinate points, builds under 'natural' from two numbers and under 'd_equal' from four, and each segment runs from one number to the next |
| UniformSpline.BuiltTableJoinsSmoothly | CubicSpline.py:52-80 | in a built table, slope and curvature are continuous at each interior point in every coordinate |
| UniformSpline.BuiltTableNaturalEnds | CubicSpline.py:57-61 | a 'natural' table has zero curvature at both ends |
| UniformSpline.BuiltTableDEqualEnds | CubicSpline.py:62-66 | a 'd_equal' table has equal jerks on its first two and on its last two segments |
| UniformSpline.CubicSpline.constructor | CubicSpline.py:43-51 | sets N, M and bc_type and allocates an (N-1)×M coefficient table |
| UniformSpline.CubicSpline.Fn | CubicSpline.py:98-114 | succeeds exactly when every query's index exists in the table, and otherwise raises IndexError; one result row per query, each the evaluation of that query; the coordinate axis is dropped exactly when M = 1 and the query axis exactly when there is one query |
| UniformSpline.CubicSpline.Interpolate | CubicSpline.py:134-136 | a negative count raises; otherwise it succeeds exactly when `fn` succeeds on the linspace samples, and returns those samples with `fn`'s result on them, one row per sample |
| UniformSpline.AssembleSystem | CubicSpline.py:53-73 | fills the matrix and right-hand side of one coordinate, or reports the end-row error |
| UniformSpline.SetEndRows | CubicSpline.py:56-68 | writes rows 0 and N-1 for the chosen bc_type, or raises |
| UniformSpline.FillInteriorRows | CubicSpline.py:71-73 | the loop writes the (1, 4, 1) row and its right-hand side for every inner point |
| UniformSpline.StoreSegments | CubicSpline.py:77-80 | writes the Hermite cubics of coordinate j and leaves every other coordinate alone |
| UniformSpline.SolveDimension | CubicSpline.py:52-75 | assembles and solves one coordinate's system: the slopes, or the error raised |
| UniformSpline.Build | CubicSpline.py:43-80 | the constructor fails as Spec says, or yields a fresh spline whose table is Spec's |
| UniformSpline.EvalPoint | CubicSpline.py:98-110 | a query fails exactly when its truncated index has no row in the table |
| UniformSpline.Evaluate | CubicSpline.py:98-110 | all queries succeed, with one row per query, or one of them fails |
| UniformSpline.LocateParts | CubicSpline.py:102-108 | the local parameter lies in [0, 1]; for t·(N-1) ≥ 0 the index and local parameter are its integer and fractional parts, except that index N-1 becomes the end of segment N-2; below 0 the index is t·(N-1) rounded toward zero, so 0 or less, and index plus local parameter exceed t·(N-1) by one unless t·(N-1) is whole |
| UniformSpline.LocateInRange | CubicSpline.py:98-108 | for t in [0, 1] the index lies in [0, N-2] and the local parameter in [0, 1], and together they give back t·(N-1) |
| UniformSpline.LocateKnot | CubicSpline.py:102-108 | at k/(N-1) the lookup starts segment k, or ends segment N-2 when k = N-1 |
| UniformSpline.EvalAtKnot | CubicSpline.py:98-110 | at the parameter k/(N-1) the evaluator returns point k |
| UniformSpline.EvaluateInDomain | CubicSpline.py:98-110 | every query in [0, 1] succeeds; 0 gives the first point and 1 the last |
| UniformSpline.FnAtPoints | CubicSpline.py:98-114 | `fn(k/(N-1))` of a built spline is point k |
| UniformSpline.InterpolateSpansPoints | CubicSpline.py:134-136 | `interpolate(n)` succeeds for n ≥ 0 and runs from the first point to the last |
| Spline.Normalize | cubic_spline.py:57 | the shares are positive, sum to 1, and are proportional to the distances |
| Spline.Steps | cubic_spline.py:51-57 | dt has N-1 positive shares summing to 1, each 1/(N-1) when no distances are given |
| Spline.Offsets | cubic_spline.py:58 | one start per share, the first being 0 |
| Spline.OffsetsAreSums | cubic_spline.py:58 | t0[k] is the sum of the shares before segment k |
| Spline.OffsetsChain | cubic_spline.py:57-58 | each segment ends where the next begins, and the last one ends at the total, 1 |
| Spline.OffsetsIncreasing | cubic_spline.py:58 | the segment starts are strictly increasing from 0 and stay below the total |
| Spline.ScaledSegmentsJoin | cubic_spline.py:107-110 | for any slopes along t, segments pass through the points and have slope d[i] along t at both sides of point i |
| Spline.ScaledCoefficients | cubic_spline.py:107-110 | the coefficients written with the factor dt are the Hermite cubic with end slopes d·dt |
| Spline.ScaledHermiteCurvatures | cubic_spline.py:107-110 | end curvatures along t of a scaled segment, in terms of its data |
| Spline.ScaledMatrix | cubic_spline.py:72-95 | an N×N matrix with the end rows (2, 1)/dt[0] and (1, 2)/dt[N-2] and the inner rows (h0, 2(h0+h1), h1) around the diagonal, h being the reciprocal shares |
| Spline.ScaledRhs | cubic_spline.py:75-96 | one right-hand side per point: the end values 3Δp/dt² and the inner values 3Δp·h² summed over the two neighbouring segments |
| Spline.ScaledConstantRhsZero | cubic_spline.py:75-96 | with distances, a coordinate with the same value at every point has an all-zero right-hand side |
| Spline.ScaledRowDominant | cubic_spline.py:73-95 | every scaled row is diagonally dominant, since every share is positive |
| Spline.ScaledNonSingular | cubic_spline.py:73-98 | for any positive shares the scaled 'natural' matrix is nonsingular |
| Spline.ScaledFirstRowMeans | cubic_spline.py:73-75 | the scaled row 0 holds exactly when the first segment has zero start curvature |
| Spline.ScaledLastRowMeans | cubic_spline.py:74-76 | the scaled row N-1 holds exactly when the last segment has zero end curvature |
| Spline.ScaledInteriorRowMeans | cubic_spline.py:93-96 | the row (h0, 2(h0+h1), h1) holds exactly when the curvatures along t meeting at point i agree |
| Spline.ScaledInteriorCurvature | cubic_spline.py:93-96 | equal curvature along t where segments of shares a and b meet is the interior row's equation |
| Spline.ScaledSystemMeansSmooth | cubic_spline.py:66-96 | the slopes solve the scaled system exactly when every row's smoothness or end condition holds |
| Spline.Matrix | cubic_spline.py:62-95 | an N×N matrix whose rows are the uniform rows without distances and the scaled rows with them |
| Spline.Rhs | cubic_spline.py:63-96 | one right-hand side per point, uniform or scaled as the matrix |
| Spline.Pieces | cubic_spline.py:100-110 | N-1 segments, one per share |
| Spline.MatrixNonSingular | cubic_spline.py:66-98 | every matrix the builder gets as far as inverting is nonsingular: 'natural' in either branch, 'd_equal' from four points on |
| Spline.EndRowsError | cubic_spline.py:66-85 | unknown bc_type, 'natural' below two points, 'd_equal' below four points, and 'd_equal' with distances each raise their own exception |
| Spline.PiecesPassThrough | cubic_spline.py:101-110 | in both branches, and for any slopes, segments start and end at the points |
| Spline.SolvedPiecesJoin | cubic_spline.py:88-110 | segments built from a solution have equal slope and curvature along t at each interior point |
| Spline.SolvedPiecesEnds | cubic_spline.py:66-110 | segments built from a solution meet the end condition of the chosen bc_type |
| Spline.SpecAfterLengthChecks | cubic_spline.py:61-98 | once the length checks pass, the outcome is the end-row error, then the singular-matrix error, then the table |
| Spline.Spec | cubic_spline.py:45-110 | a successful build passed the length checks and has a table of N-1 rows with one cubic per coordinate |
| Spline.SpecOk | cubic_spline.py:48-98 | a successful build passed the length checks and used a fitting boundary condition with a nonsingular matrix |
| Spline.SpecErrors | cubic_spline.py:51-98 | each exception the constructor raises, on the inputs that raise it; the inversion never fails; 'natural' with 2+ points and uniform 'd_equal' with 4+ points always build, and nothing else with a coordinate does |
| Spline.BuiltTableShape | cubic_spline.py:60 | a built table has N-1 rows of M cubics |
| Spline.BuiltTablePassesThrough | cubic_spline.py:101-110 | every built segment starts at its point and ends at the next one |
| Spline.ValuesBuild | cubic_spline.py:45-110 | a 1-D input of N numbers, read as N one-coordinate points, builds under 'natural' from two numbers with or without matching distances, and under 'd_equal' from four without distances; each segment runs from one number to the next |
| Spline.BuiltTableJoinsSmoothly | cubic_spline.py:88-110 | in a built table, slope and curvature with respect to t are continuous at each interior point |
| Spline.BuiltTableNaturalEnds | cubic_spline.py:66-76 | a 'natural' table, with or without distances, has zero curvature at both ends |
| Spline.SolvedTableNaturalEnds | cubic_spline.py:66-76 | the same, for the table of a solvable 'natural' system |
| Spline.BuiltTableDEqualEnds | cubic_spline.py:77-83 | a 'd_equal' table has equal jerks on its first two and on its last two segments |
| Spline.CubicSpline.constructor | cubic_spline.py:45-60 | sets N, M, bc_type, uniform, dt and t0 from the arguments and allocates the coefficient table |
| Spline.CubicSpline.Fill | cubic_spline.py:61-110 | the loop over coordinates either leaves the spline Valid, holding Spec's table, or reports Spec's error |
| Spline.CubicSpline.FillColumn | cubic_spline.py:61-110 | one coordinate: its column becomes Spec's column and the other columns are unchanged, or Spec's error is reported |
| Spline.CubicSpline.Fn | cubic_spline.py:113-138 | succeeds exactly when the query list is non-empty and every query finds a segment, and otherwise raises IndexError; one result row per query, each the evaluation of that query; the coordinate axis is dropped exactly when M = 1 and the query axis exactly when there is one query |
| Spline.CubicSpline.Interpolate | cubic_spline.py:158-160 | a negative count raises; otherwise it succeeds exactly when `fn` succeeds on the linspace samples, and returns those samples with `fn`'s result on them, one row per sample |
| Spline.AssembleSystem | cubic_spline.py:62-96 | fills one coordinate's matrix and right-hand side in either branch, or reports the end-row error |
| Spline.SetEndRows | cubic_spline.py:65-85 | writes rows 0 and N-1 for the chosen bc_type and spacing, or raises |
| Spline.FillInteriorRows | cubic_spline.py:88-96 | the loop writes every inner row, uniform or scaled |
| Spline.SetInteriorRow | cubic_spline.py:89-96 | writes row i and leaves every other row unchanged |
| Spline.StoreSegments | cubic_spline.py:100-110 | writes the cubics of coordinate j in either branch and leaves every other coordinate alone |
| Spline.SolveDimension | cubic_spline.py:61-98 | assembles and solves one coordinate's system: the slopes, or the error raised |
| Spline.Build | cubic_spline.py:45-110 | the constructor fails as Spec says, or yields a fresh Valid spline built from the arguments |
| Spline.LastAtMost | cubic_spline.py:130 | `argwhere(t >= t0)[-1]` finds the last start at or before t, and fails when there is none |
| Spline.LastAtMostIs | cubic_spline.py:130 | that last start is unique |
| Spline.EvalPoint | cubic_spline.py:130-134 | a query fails exactly when no segment starts at or before it, or when the start found has no share in dt, as on a one-point spline |
| Spline.Evaluate | cubic_spline.py:128-134 | an empty query list fails, as does a list with any failing query; otherwise one row per query |
| Spline.LocateInRange | cubic_spline.py:130-131 | for t in [0, 1] a segment is found, and its local parameter lies in [0, 1] (below 1 except on the last segment) |
| Spline.EvalAtStart | cubic_spline.py:130-134 | at the start t0[k] of segment k the evaluator returns point k |
| Spline.EvalAtEnd | cubic_spline.py:130-134 | at t = 1 the evaluator returns the last point |
| Spline.EvalBeforeStartFails | cubic_spline.py:130 | a negative query fails with IndexError |
| Spline.EvaluateInDomain | cubic_spline.py:128-134 | every non-empty list of queries in [0, 1] succeeds; 0 gives the first point and 1 the last |
| Spline.FnAtPoints | cubic_spline.py:113-138 | `fn(t0[k])` is point k and `fn(1)` is the last point |
| Spline.InterpolateSpansPoints | cubic_spline.py:158-160 | `interpolate(n)` succeeds for n ≥ 1 and runs from the first point to the last |
| Spline.FnFailures | cubic_spline.py:128-134 | `fn([])`, `interpolate(0)`, any negative query, and any query on a one-point spline raise IndexError |
| Spline.OffsetsUniform | cubic_spline.py:51-58 | without distances, segment k starts at k/(N-1) |
| Spline.SpecWithoutDistances | cubic_spline.py:51-110 | without distances the build equals the uniform-only build, except 'd_equal' on at most three points (now the N > 3 assertion) |
| Spline.LookupWithoutDistances | cubic_spline.py:130 | without distances the segment found is the truncation of t·(N-1) that the uniform-only version uses |
| Spline.LocalWithoutDistances | cubic_spline.py:131 | without distances the local parameter is the uniform-only version's fractional part |
| Spline.EvalPointWithoutDistances | cubic_spline.py:130-134 | without distances a query in [0, 1] evaluates exactly as in the uniform-only version |
| Spline.EvaluateWithoutDistances | cubic_spline.py:128-134 | the same for every non-empty list of queries in [0, 1] |
| Spline.FnWithoutDistances | cubic_spline.py:113-160 | a spline without distances and a uniform-only spline from the same points agree on `fn` for every non-empty list of queries in [0, 1] and on `interpolate(n)` for n ≥ 1; `fn([])` and `interpolate(0)` differ, raising IndexError here and returning nothing in the uniform-only version |
| Spline.StepsOfEqual | cubic_spline.py:51-57 | N-1 equal distances normalise to the same shares 1/(N-1) as no distances |
| Spline.SlopesOfEqual | cubic_spline.py:66-98 | with equal shares 1/w, w times the uniform 'natural' slopes solve the scaled system |
| Spline.PiecesOfEqual | cubic_spline.py:101-110 | with equal shares 1/w, the scaled cubics from w times the uniform slopes are the uniform cubics |
| Spline.EqualDistancesNatural | cubic_spline.py:51-110 | under 'natural', N-1 equal distances build the same table as no distances, except on one point, where the builds fail differently |
| Spline.EqualDistancesDEqualRefused | cubic_spline.py:77-79 | under 'd_equal' with four or more points, equal distances fail the uniformity assertion while no distances build |
| Spline.EqualAsUniformKeepsNatural | cubic_spline.py:51-110 | the build that reads equal distances as none agrees with the source under 'natural', builds 'd_equal' from four points with equal distances, and still refuses unequal ones |
| Slicing.Resolve | get_slice.py:6-12 | a position strictly between 0 and 1 becomes the largest whole index at or below position·(len-1), which lies in [0, len-1] (0 on an empty axis); any other position is kept unchanged |
| Slicing.FractionInAxis | get_slice.py:12 | `int(idx*(shape-1))` of a fraction lies on the axis |
| Slicing.GetSlice | get_slice.py:4-14 | a non-array input fails the assertion; a position on a missing axis raises IndexError; otherwise each slot is the one the last applicable entry chose |
| Slicing.UntouchedAxisIsFull | get_slice.py:8-11 | an axis that is not named, or is named with None, keeps the full slice |
| Slicing.LastEntryDecides | get_slice.py:9-13 | when two entries name the same axis, the later one wins |
| Slicing.SlotComesFromEntry | get_slice.py:8-13 | each slot is either the full slice or the resolved position of some entry for that axis |

## Left out

- Floating point: all spline quantities are `real`, so there is no rounding. In particular the shares dt sum to exactly 1.
- Non-positive distances: the source does not check them. The model requires positive distances, since a zero share would divide by zero in `fn`.
- Vectorised numpy is written out element by element. The boolean-mask update of the index and local parameter in `CubicSpline.py` at lines 106-108 becomes a per-query function (`UniformSpline.Locate`).
- Point arrays of three or more dimensions are not modelled. The builders take the 2-D form, a rectangular list of rows. A 1-D input is first read through `Common.AsPoints`, and the `ValuesBuild` lemmas state what such an input builds.
- A scalar query to `fn` is modelled as a one-element list, which is how the source treats it.
- `np.linalg.inv` followed by `np.matmul` is replaced by an exact linear solve with the same success condition.
- The final `data[tuple(slc)]` of `get_slice` is not modelled, because array contents are not. `Slicing.GetSlice` returns the index tuple.
- `Slicing.GetSlice` takes only integer axis keys. With a float or string key the source raises TypeError: at `data.shape[ax]` (get_slice.py:12) when the value lies strictly between 0 and 1, and otherwise at `slc[ax] = idx` (get_slice.py:13); a key whose value is None is skipped and raises nothing. These TypeErrors are not modelled.
- `Slicing.GetSlice` keeps any position that is not a fraction, so a position numpy cannot index with (out of range, or not a whole number) fails only in the omitted final indexing.
- The plotting demos under `__main__`, and every other file of the repository, are not part of this model.
- Spline.FnWithoutDistances: the lemma says nothing outside [0, 1], where the two versions differ. Below 0 the new version raises IndexError. In the old one, x = t·(N-1) truncates toward zero and numpy reads a negative index from the end of the table (`UniformSpline.LocateParts`, `Common.NumpyIndex`). For -1 < x < 0 the index is 0, and segment 0 is evaluated at the local parameter 1 + x. For -N < x ≤ -1 a segment counted from the end is evaluated; for N = 3 and t = -0.5 this gives the middle point. IndexError comes only for x ≤ -N, that is t ≤ -N/(N-1). Above 1 the new version extrapolates the last segment. The old one returns the last point while t·(N-1) < N, because index N-1 is moved to the end of segment N-2, and raises IndexError from there on.

## Findings

| source | as written | input that shows it | evidently intended | confidence | as-written member | corrected member |
|---|---|---|---|---|---|---|
| cubic_spline.py:79 | `assert(self.uniform)` refuses 'd_equal' whenever distances are given, even when they are all equal and so describe the uniform spacing the 'd_equal' end rows assume | four points, distances [1, 1, 1], bc_type 'd_equal': AssertionError, while the same points without distances build | equal distances accepted as uniform spacing, as they already are under 'natural' | medium, not executed | Spline.EqualDistancesDEqualRefused | Spline.EqualAsUniformKeepsNatural |
