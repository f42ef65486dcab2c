# pde-solvers in Dafny

A model of the numerical core of pde-solvers, a one-dimensional
finite-difference solver for equations of the form

    M(x,t,U)·∂²U/∂t² + L(x,t,U)·∂U/∂t = ∂/∂x(K(x,t,U)·∂U/∂x) + V(x,t,U)·∂U/∂x + F(x,t,U)

on a rectangle [x1, x2] × [0, t2]. There is an initial value U0(x), an initial
velocity dU/dt(x) and a border condition on each side. The solver builds a
grid with one row per time layer. Row 0 is U0. Every later row is the answer
of a tridiagonal system ("progonka", the Thomas algorithm) whose rows come
from the rows already computed.

Arithmetic is over `real`. The coefficient functions and the border-condition
data are function-valued parameters. The model is split by component:

- **RowMajor**: the flat row-major buffer. Cell (i, j) sits at offset i·n + j.
  This module holds the functions that say what each buffer operation leaves
  behind, and the cell-by-cell lemmas about them.
- **Matrices**: the dense `Matrix2D` and the two-row `MatrixXY`, as classes
  over one `array<real>`.
- **LegacyMatrix**: the older `Matrix`, with its x (row 0) and y (row 1)
  accessors.
- **Discretisation**: the arithmetic of a uniform grid.
  - A step h gives n = ⌊(right − left)/h⌋ steps.
  - A count n gives the step (right − left)/n.
  - Node i sits at left + i·h.
  - A point maps to its node by ⌊(x − left)/h⌋. Java's `(int)` cast truncates,
    which equals the floor because the quotient is never negative.
- **Space** and **LegacySpace**: the newer and the older `Interval` (classes
  rebuilt in place) and `Area` (a record of two intervals).
  - The newer index lookup folds the right end onto cell n − 1.
  - The older lookup gives n there.
- **Border**: the border conditions (Dirichlet, Neumann, Robin, or a condition
  of any other class), with both translations into the relation
  y_border = κ·y_neighbour + ν.
  - The newest solver uses one translation on both sides.
  - The older revisions mirror the signs on the right.
- **Thomas**: the tridiagonal algorithm.
  - As a specification function, `Solve`.
  - As methods on arrays: `Progonka`, and the in-place `ProgonkaInto`.
- **Equations**: the coefficient bundle, the newest equation record and each
  revision's defaults.
- **Schemes**: the two difference schemes and the sequence of layers they
  define.
  - The interior rows of each layer's system.
  - The bootstrap of layer 1 for the hyperbolic scheme.
  - What a layer means: the balance each interior node keeps and the border
    relations.
- **Solver** and **Solutions**: the newest solver package.
  - `AbstractEquationSolver`, `ParabolicEquationSolver`, `HyperbolicEquationSolver`
    and its `Solution` record.
  - Each solver is proved to fill row j of its grid with layer j of its scheme.
- **EquationRevision**: the middle revision (`by/andd3dfx/math/pde/equation`).
  - Its equation rebuilds the area in place.
  - Its solution record slices the grid.
- **OldestEquation**: the oldest revision (`by/andd3dfx/math/pde`).
  - The equation owns the grid `arr`.
  - The tridiagonal step writes into a caller's array, which is then copied
    into the next row.
  - The hyperbolic equation selects its borders by integer codes and starts
    layer 1 from the Dirichlet border values.

The revisions disagree with each other. Each file is modelled as written:

| point of difference | newest solvers | older revisions |
|---|---|---|
| clamp of the index lookup | `Space.Interval.I` (clamped) | `LegacySpace.Interval.I` (not clamped) |
| right-border translation | `Border.Forward` on both sides (`Scheme.mirrored` false) | `Border.Mirrored` on the right (`Scheme.mirrored` true) |
| hyperbolic layer-1 border cells | the first-layer formula at the area's ends (`Start.Extrapolated`) | the Dirichlet values lu(τ), ru(τ) (`Start.Prescribed`) |
| slice loop bounds | correct | the defects listed under Findings |

Where the documentation comments and the code disagree, the model follows the
code. There are four such places:

- **Parabolic scheme.** The comment at
  src/main/java/by/andd3dfx/math/pde/equation/ParabolicEquation.java:5-9
  gives the equation M·dU/dt = (K·U_x)_x + V·U_x + F. The solver uses that M as
  its time weight Γ, at ParabolicEquationSolver.java:42.
  - The comment does not name a time discretisation.
  - The row the code builds averages the second differences of the old and the
    new layer. That makes the computed scheme a Crank–Nicolson scheme.
  - `Schemes.ParabolicBalance` states this balance.
- **Hyperbolic scheme.** The comment at
  src/main/java/by/andd3dfx/math/pde/equation/HyperbolicEquation.java:8 gives
  M·U_tt + L·U_t = (K·U_x)_x + V·U_x + F.
  - The code's row equation, `Schemes.HyperbolicBalance`, is
    M·(y − 2w + u)/τ² − L·(y − u)/(2τ) = average of the outer second
    differences + F.
  - The damping term therefore enters with the opposite sign to L·U_t in that
    comment.
- **Equation constructor.** The comment at
  src/main/java/io/github/andreipunko/math/pde/equation/Equation.java:39
  promises an IllegalArgumentException when x1 ≥ x2 or t2 ≤ 0. The constructor
  at lines 41-49 only stores its arguments.
  `Equations.ConstructorStoresUnchecked` states this.
- **Index lookup.** The comment at
  src/main/java/by/andd3dfx/math/space/Interval.java:146-152 says twice that
  `i(x)` returns the index of the closest grid point. Its own middle lines say
  the leftmost one.
  - The body at lines 155-163 floors, which gives the node at or left of x,
    and then clamps n to n − 1.
  - `Space.Interval.I` states this floored and clamped index.
  - For example, x = left + 0.9·h gives 0, not the closer node 1.

## Model

| member | source | states |
|---|---|---|
| Matrices.Matrix2D.constructor | src/main/java/by/andd3dfx/math/matrix/Matrix2D.java:26-32 | both sizes must be positive; the new matrix is m×n with every cell 0 |
| Matrices.Matrix2D.SetFlat | src/main/java/by/andd3dfx/math/matrix/Matrix2D.java:40-43 | the index must lie inside the buffer; exactly that position changes |
| Matrices.Matrix2D.Set | src/main/java/by/andd3dfx/math/matrix/Matrix2D.java:52-55 | indices must be in range; the cell then reads back as the value and every other cell is unchanged |
| Matrices.Matrix2D.SetRow | src/main/java/by/andd3dfx/math/matrix/Matrix2D.java:63-66 | the row index must be in range and arr must have n values; row i then reads back as arr and every other row is unchanged |
| Matrices.Matrix2D.Min | src/main/java/by/andd3dfx/math/matrix/Matrix2D.java:96-98 | the result is one of the stored values and no stored value is smaller |
| Matrices.Matrix2D.Max | src/main/java/by/andd3dfx/math/matrix/Matrix2D.java:105-107 | the result is one of the stored values and no stored value is larger |
| Matrices.Matrix2D.Fill | src/main/java/by/andd3dfx/math/matrix/Matrix2D.java:115-118 | every cell becomes d and the same matrix is returned |
| Matrices.Matrix2D.SwapRows | src/main/java/by/andd3dfx/math/matrix/Matrix2D.java:126-133 | the two rows must be distinct and in range; rows m1 and m2 are exchanged and every other cell is unchanged |
| Matrices.Matrix2D.SwapCols | src/main/java/by/andd3dfx/math/matrix/Matrix2D.java:141-149 | as written: the call completes exactly when n ≤ m, and the buffer afterwards has the two columns exchanged in the first min(n, m) rows only |
| Matrices.Matrix2D.SwapInRowAt | src/main/java/by/andd3dfx/math/matrix/Matrix2D.java:144-148 | one pass of the swap loop exchanges cells (r, n1) and (r, n2) |
| Matrices.OutOfBufferOnlyPastLastRow | src/main/java/by/andd3dfx/math/matrix/Matrix2D.java:144-148 | offset i·n + j of a pass falls outside the buffer exactly when i = m, so the loop fails first at pass m |
| Matrices.MatrixXY.constructor | src/main/java/by/andd3dfx/math/matrix/MatrixXY.java:20-22 | a 2×n matrix of zeros; n must be positive; likewise src/main/java/by/andd3dfx/math/MatrixXY.java:13-15: the duplicate class: the same 2×n matrix of zeros |
| Matrices.MatrixXY.SetX | src/main/java/by/andd3dfx/math/matrix/MatrixXY.java:31-33 | x number i reads back as the value; no other x and no y changes; likewise src/main/java/by/andd3dfx/math/MatrixXY.java:23-25: the duplicate class: the same write of row 0 |
| Matrices.MatrixXY.SetY | src/main/java/by/andd3dfx/math/matrix/MatrixXY.java:53-55 | y number i reads back as the value; no other y and no x changes; likewise src/main/java/by/andd3dfx/math/MatrixXY.java:43-45: the duplicate class: the same write of row 1 |
| RowMajor.OffsetInRange | src/main/java/by/andd3dfx/math/matrix/Matrix2D.java:52-55 | the offset i·n + j of an in-range cell lies inside the m·n buffer |
| RowMajor.OffsetInjective | src/main/java/by/andd3dfx/math/matrix/Matrix2D.java:52-55 | distinct cells have distinct offsets |
| RowMajor.Least | src/main/java/by/andd3dfx/math/matrix/Matrix2D.java:96-98 | the minimum of a non-empty sequence is an element of it and no element is smaller |
| RowMajor.Greatest | src/main/java/by/andd3dfx/math/matrix/Matrix2D.java:105-107 | the maximum of a non-empty sequence is an element of it and no element is larger |
| RowMajor.CellOfWithCell | src/main/java/by/andd3dfx/math/matrix/Matrix2D.java:52-55 | writing a cell changes that cell and no other |
| RowMajor.CellOfWithRow | src/main/java/by/andd3dfx/math/matrix/Matrix2D.java:63-66 | copying a row replaces exactly that row's cells |
| RowMajor.RowOfWithRow | src/main/java/by/andd3dfx/math/matrix/Matrix2D.java:63-77 | the row just copied reads back as the copied values; every other row reads as before |
| RowMajor.RowsOfWithRow | src/main/java/by/andd3dfx/math/matrix/Matrix2D.java:63-77 | the same for all rows at once |
| RowMajor.WithOwnRow | src/main/java/by/andd3dfx/math/matrix/Matrix2D.java:63-77 | copying a row's own values back over it leaves the buffer as it was |
| RowMajor.WithRowFromOffsets | src/main/java/by/andd3dfx/math/matrix/Matrix2D.java:63-66 | a buffer that holds r at offsets i·n … i·n + n − 1 and the old values elsewhere is the row copy, which is what the array copy does |
| RowMajor.RowCell | src/main/java/by/andd3dfx/math/matrix/Matrix2D.java:74-89 | the two readers agree: element j of row i is cell (i, j) |
| RowMajor.CellOfFilled | src/main/java/by/andd3dfx/math/matrix/Matrix2D.java:115-118 | every cell of a filled buffer holds the fill value |
| RowMajor.CellOfRowsSwapped | src/main/java/by/andd3dfx/math/matrix/Matrix2D.java:126-133 | the two copies of swapRows exchange rows m1 and m2 and leave every other cell alone |
| RowMajor.CellOfSwapInRow | src/main/java/by/andd3dfx/math/matrix/Matrix2D.java:144-148 | one pass exchanges the two cells of its row and leaves every other cell alone |
| RowMajor.CellOfColsSwappedPrefix | src/main/java/by/andd3dfx/math/matrix/Matrix2D.java:141-149 | after k passes, columns n1 and n2 are exchanged in rows 0..k − 1 and every other cell is unchanged |
| RowMajor.ColsSwapped | src/main/java/by/andd3dfx/math/matrix/Matrix2D.java:141-149 | the intended swap: columns n1 and n2 exchanged in every row, every other cell kept |
| RowMajor.TallColsSwapIncomplete | src/main/java/by/andd3dfx/math/matrix/Matrix2D.java:144 | on [[1,2],[3,4],[5,6]] the loop's two passes leave row 2 as [5,6], where the intended swap gives [6,5] |
| LegacyMatrix.Matrix.constructor | src/main/java/by/andd3dfx/math/Matrix.java:35-41 | both sizes must be positive; the new matrix is m×n of zeros |
| LegacyMatrix.Matrix.OneRow | src/main/java/by/andd3dfx/math/Matrix.java:25-27 | Matrix(n) is a 1×n matrix of zeros |
| LegacyMatrix.Matrix.SetX | src/main/java/by/andd3dfx/math/Matrix.java:59-61 | writes cell (0, i), which x(i) then reads back |
| LegacyMatrix.Matrix.SetY | src/main/java/by/andd3dfx/math/Matrix.java:84-86 | writes cell (1, i), which y(i) then reads back; the matrix needs a second row |
| LegacyMatrix.Matrix.SetFlat | src/main/java/by/andd3dfx/math/Matrix.java:63-66 | the index must lie inside the buffer; exactly that position changes |
| LegacyMatrix.Matrix.Set | src/main/java/by/andd3dfx/math/Matrix.java:95-98 | indices in range; the buffer changes at offset i·n + j only, and the cell reads back as the value |
| LegacyMatrix.Matrix.SetRow | src/main/java/by/andd3dfx/math/Matrix.java:100-103 | arr must have n values; row i reads back as arr and every other row is unchanged |
| LegacyMatrix.Matrix.Min | src/main/java/by/andd3dfx/math/Matrix.java:127-129 | a stored value that no stored value undercuts |
| LegacyMatrix.Matrix.Max | src/main/java/by/andd3dfx/math/Matrix.java:136-138 | a stored value that no stored value exceeds |
| LegacyMatrix.Matrix.Fill | src/main/java/by/andd3dfx/math/Matrix.java:146-149 | every cell becomes d and the same matrix is returned |
| LegacyMatrix.Matrix.SwapRows | src/main/java/by/andd3dfx/math/Matrix.java:157-164 | distinct in-range rows are exchanged; every other cell is unchanged |
| LegacyMatrix.Matrix.SwapCols | src/main/java/by/andd3dfx/math/Matrix.java:172-180 | as written: completes exactly when n ≤ m and swaps the columns in the first min(n, m) rows only |
| LegacyMatrix.Matrix.SwapInRowAt | src/main/java/by/andd3dfx/math/Matrix.java:175-179 | one pass exchanges cells (r, n1) and (r, n2) |
| Discretisation.StepCountBounds | src/main/java/by/andd3dfx/math/space/Interval.java:102-109 | with 0 < h ≤ right − left the step count is at least 1, node n lies in [left, right] and node n + 1 lies beyond right |
| Discretisation.StepSizeRoundTrip | src/main/java/by/andd3dfx/math/space/Interval.java:122-129 | a count n gives a step in (0, right − left] whose node n is exactly right and whose step count is n again |
| Discretisation.CoordInside | src/main/java/by/andd3dfx/math/space/Interval.java:139-143 | nodes 0..n lie in [left, right] |
| Discretisation.CoordMonotone | src/main/java/by/andd3dfx/math/space/Interval.java:139-143 | nodes increase strictly with their index |
| Discretisation.IndexCell | src/main/java/by/andd3dfx/math/Interval.java:62-66 | the index of x is the one whole k with node k ≤ x < node k + 1 (both directions) |
| Discretisation.IndexOfCoord | src/main/java/by/andd3dfx/math/Interval.java:62-66 | every node maps back to its own index |
| Discretisation.IndexInside | src/main/java/by/andd3dfx/math/Interval.java:62-66 | points of [left, right] map to 0..n, and right itself to n |
| Discretisation.ClampedIndexInside | src/main/java/by/andd3dfx/math/space/Interval.java:155-163 | the clamped index of a point of [left, right] is one of 0..n − 1, and right lands in n − 1 |
| Discretisation.ClampedCell | src/main/java/by/andd3dfx/math/space/Interval.java:155-163 | the clamped cell k has node k ≤ x, x < node k + 1 unless k is the last cell, and right lands in the last cell |
| Discretisation.GridExamples | src/test/java/io/github/andreipunko/math/space/AreaTest.java:44-77 | on [3, 8] in 10 steps node 3 is 4.5 and 5.5 is in cell 5; on [0, 10] in 20 steps node 3 is 1.5 and 5.5 is in cell 11; likewise src/test/java/io/github/andreipunko/math/pde/solver/SolutionTest.java:95-128: on [2, 6] in 3 steps the moment 5.0 is layer 2; on [10, 13] in 4 steps the point 10.75 is column 1 |
| Space.Interval.Default | src/main/java/by/andd3dfx/math/space/Interval.java:26-28 | the interval [0, 1] in one step of 1 |
| Space.Interval.FromStep | src/main/java/by/andd3dfx/math/space/Interval.java:38-40 | requires 0 < h ≤ right − left; keeps the bounds and the step |
| Space.Interval.FromCount | src/main/java/by/andd3dfx/math/space/Interval.java:51-53 | requires left < right and n > 0; n steps of (right − left)/n cover the interval exactly |
| Space.Interval.RebornStep | src/main/java/by/andd3dfx/math/space/Interval.java:98-100 | keeps both bounds, sets the step and recomputes n = ⌊(right − left)/h⌋ |
| Space.Interval.RebornStepOver | src/main/java/by/andd3dfx/math/space/Interval.java:102-109 | the private rebuild: new bounds and step, n = ⌊(right − left)/h⌋ ≥ 1 |
| Space.Interval.RebornCount | src/main/java/by/andd3dfx/math/space/Interval.java:118-120 | keeps both bounds, sets n and recomputes h = (right − left)/n |
| Space.Interval.RebornCountOver | src/main/java/by/andd3dfx/math/space/Interval.java:122-129 | the private rebuild: new bounds and count, h = (right − left)/n |
| Space.Interval.X | src/main/java/by/andd3dfx/math/space/Interval.java:139-143 | requires 0 ≤ i ≤ n; node 0 is left, every node lies in [left, right], node n is right when n steps cover the interval |
| Space.Interval.I | src/main/java/by/andd3dfx/math/space/Interval.java:155-163 | requires left ≤ x ≤ right; the result is one of 0..n − 1, its node is at or before x, the next node is after x unless it is the last cell, and right maps to n − 1 |
| Space.Interval.IOfX | src/main/java/by/andd3dfx/math/space/Interval.java:139-163 | looking up node k gives k back for every k < n |
| Space.Area.TX | src/main/java/io/github/andreipunko/math/space/Area.java:49-51 | time node i lies in [tLeft, tRight] and node 0 is tLeft |
| Space.Area.TI | src/main/java/io/github/andreipunko/math/space/Area.java:60-62 | a moment of [tLeft, tRight] selects a layer 0..tn − 1 at or before it, with the next node after it unless it is the last layer, and tRight selects tn − 1 |
| Space.Area.XX | src/main/java/io/github/andreipunko/math/space/Area.java:98-100 | space node i lies in [xLeft, xRight] and node 0 is xLeft |
| Space.Area.XI | src/main/java/io/github/andreipunko/math/space/Area.java:109-111 | a point of [xLeft, xRight] selects a cell 0..xn − 1 at or left of it, with the next node right of it unless it is the last cell, and xRight selects xn − 1 |
| Space.AreaExamples | src/test/java/io/github/andreipunko/math/space/AreaTest.java:44-77 | for x = [3, 8] in 10 steps and t = [0, 10] in 20: xx(3) = 4.5, xi(5.5) = 5, tx(3) = 1.5, ti(5.5) = 11 |
| LegacySpace.Interval.Default | src/main/java/by/andd3dfx/math/Interval.java:14-16 | the interval [0, 1] in one step of 1 |
| LegacySpace.Interval.FromStep | src/main/java/by/andd3dfx/math/Interval.java:18-20 | requires x1 < x2 and 0 < h ≤ x2 − x1; keeps the bounds and the step |
| LegacySpace.Interval.FromCount | src/main/java/by/andd3dfx/math/Interval.java:22-24 | requires x1 < x2 and n > 0; n steps of (x2 − x1)/n cover the interval |
| LegacySpace.Interval.RebornStep | src/main/java/by/andd3dfx/math/Interval.java:38-45 | requires x1 < x2 and 0 < h ≤ x2 − x1; sets the bounds and step, n = ⌊(x2 − x1)/h⌋ ≥ 1 |
| LegacySpace.Interval.RebornCount | src/main/java/by/andd3dfx/math/Interval.java:47-54 | requires x1 < x2 and n > 0; sets the bounds and count, h = (x2 − x1)/n |
| LegacySpace.Interval.X | src/main/java/by/andd3dfx/math/Interval.java:56-60 | requires 0 ≤ i ≤ n; node 0 is x1, nodes lie in [x1, x2], node n is x2 when n steps cover the interval |
| LegacySpace.Interval.I | src/main/java/by/andd3dfx/math/Interval.java:62-66 | requires x1 ≤ x ≤ x2; unclamped: the result is in 0..n, its node is at or before x, the next node is after x, and x2 maps to n |
| LegacySpace.Interval.IOfX | src/main/java/by/andd3dfx/math/Interval.java:56-66 | looking up node k gives k back for every k ≤ n, the last node included |
| LegacySpace.Area.TX | src/main/java/by/andd3dfx/math/Area.java:44-46 | time node i lies in [tLeft, tRight] and node 0 is tLeft |
| LegacySpace.Area.TI | src/main/java/by/andd3dfx/math/Area.java:54-56 | a moment of [tLeft, tRight] selects 0..tn at or before it and before the next node, and tRight selects tn |
| LegacySpace.Area.XX | src/main/java/by/andd3dfx/math/Area.java:91-93 | space node i lies in [xLeft, xRight] and node 0 is xLeft |
| LegacySpace.Area.XI | src/main/java/by/andd3dfx/math/Area.java:101-103 | a point of [xLeft, xRight] selects 0..xn at or left of it and left of the next node, and xRight selects xn |
| Border.ForwardMeaning | src/main/java/by/andd3dfx/math/pde/solver/AbstractEquationSolver.java:76-89 | y0 = κ·y1 + ν holds exactly when the condition holds with the one-sided quotient (y1 − y0)/h taken inwards: U = u(t), that slope = dU/dx(t), that slope = hr·(U − Θ(t)), or U = 0 for an unrecognised condition |
| Border.MirroredMeaning | src/main/java/by/andd3dfx/math/pde/equation/Equation.java:122-131 | y[N] = κ·y[N−1] + ν of the mirrored pair holds exactly when the condition holds with the quotient (y[N] − y[N−1])/h taken along x |
| Border.MirrorDifference | src/main/java/by/andd3dfx/math/pde/equation/Equation.java:111-131 | the two translations agree on Dirichlet and unrecognised conditions and differ on a Neumann condition with a nonzero derivative |
| Border.RobinLeft | src/main/java/by/andd3dfx/math/pde/equation/Equation.java:116-120 | the pair (1/(1 + h·hr), h·hr·Θ/(1 + h·hr)) means (y1 − y0)/h = hr·(y0 − Θ) |
| Border.RobinRight | src/main/java/by/andd3dfx/math/pde/equation/Equation.java:127-131 | the pair (1/(1 − h·hr), −h·hr·Θ/(1 − h·hr)) means (yN − yN−1)/h = hr·(yN − Θ) |
| Border.CodedDispatch | src/main/java/by/andd3dfx/math/pde/HyperbolicEquation.java:103-128 | codes 1, 2, 3 select Dirichlet, Neumann, Robin; any other code leaves κ = ν = 0 on either side |
| Equations.PackageDefaults | src/main/java/io/github/andreipunko/math/pde/equation/Equation.java:59-136 | U0 = 0, M = 0, L = 0, K = 1, V = 0, F = 0; likewise src/main/java/io/github/andreipunko/math/pde/equation/ParabolicEquation.java:51-53: a parabolic equation has L = 1 |
| Equations.LegacyDefaults | src/main/java/by/andd3dfx/math/pde/Equation.java:41-71 | U0 = 0, M = 1, K = 1, V = 0, F = 0; likewise src/main/java/by/andd3dfx/math/pde/equation/Equation.java:43-73: the middle revision's same defaults; likewise src/main/java/by/andd3dfx/math/pde/HyperbolicEquation.java:140-149: the hyperbolic defaults dU/dt = 0 and L = 0 |
| Equations.ConstructorStoresUnchecked | src/main/java/io/github/andreipunko/math/pde/equation/Equation.java:41-49 | the record stores x1, x2, t2 as given, even when x1 < x2 or t2 > 0 fails |
| Thomas.Solve | src/main/java/by/andd3dfx/math/pde/solver/AbstractEquationSolver.java:57-73 | the algorithm returns N + 1 values, N = A.length |
| Thomas.SolveCharacterised | src/main/java/by/andd3dfx/math/pde/solver/AbstractEquationSolver.java:57-73 | with every divisor nonzero, the result satisfies both border relations and every interior row, and it is the only sequence that does |
| Thomas.SolveSatisfies | src/main/java/by/andd3dfx/math/pde/solver/AbstractEquationSolver.java:61-72 | with nonzero divisors, y[0] = κ1·y[1] + ν1, y[N] = κ2·y[N−1] + ν2 and A[i]·y[i−1] − C[i]·y[i] + B[i]·y[i+1] = −F[i] for 0 < i < N |
| Thomas.SatisfiesIsSolve | src/main/java/by/andd3dfx/math/pde/solver/AbstractEquationSolver.java:61-72 | with nonzero divisors, any sequence that solves the system is the algorithm's answer |
| Thomas.ForwardStep | src/main/java/by/andd3dfx/math/pde/solver/AbstractEquationSolver.java:63-66 | one forward step turns relation i and row i into relation i + 1 (both directions) |
| Thomas.ClosingStep | src/main/java/by/andd3dfx/math/pde/solver/AbstractEquationSolver.java:69 | the right relation together with the last sweep pair pins down y[N] |
| Thomas.BackRelation | src/main/java/by/andd3dfx/math/pde/solver/AbstractEquationSolver.java:70-72 | the backward-sweep values obey y[i−1] = Alpha[i]·y[i] + Beta[i] |
| Thomas.SweepNext | src/main/java/by/andd3dfx/math/pde/solver/AbstractEquationSolver.java:63-66 | pair i + 1 is built from pair i and row i |
| Thomas.BackRow | src/main/java/by/andd3dfx/math/pde/solver/AbstractEquationSolver.java:63-72 | with a nonzero pivot, the backward-sweep values satisfy interior row i |
| Thomas.SolutionFollowsSweep | src/main/java/by/andd3dfx/math/pde/solver/AbstractEquationSolver.java:61-66 | any solution obeys every forward-sweep relation |
| Thomas.SolutionIsBack | src/main/java/by/andd3dfx/math/pde/solver/AbstractEquationSolver.java:69-72 | any solution agrees with the backward sweep at every index |
| Thomas.SweepIgnoresIndexZero | src/main/java/by/andd3dfx/math/pde/solver/AbstractEquationSolver.java:61-66 | the forward sweep never reads entry 0 of A, B, C, F |
| Thomas.BackIgnoresIndexZero | src/main/java/by/andd3dfx/math/pde/solver/AbstractEquationSolver.java:68-72 | neither does the backward sweep |
| Thomas.SolveIgnoresUnusedEntries | src/main/java/by/andd3dfx/math/pde/solver/AbstractEquationSolver.java:57-73 | two systems that agree on rows 1..N − 1 and on the border pairs get the same answer |
| Thomas.WorkedExample | src/test/java/by/andd3dfx/math/pde/solver/AbstractEquationSolverTest.java:10-37 | A = B = [0,1,1], C = [0,−3,−3], F = [0,−3,−4], pairs (0,12), (0,24) give [12, −0.875, −6.375, 24] |
| Thomas.Progonka | src/main/java/by/andd3dfx/math/pde/solver/AbstractEquationSolver.java:57-73 | the array algorithm returns a fresh array equal to Solve of its inputs |
| Thomas.ForwardSweep | src/main/java/by/andd3dfx/math/pde/solver/AbstractEquationSolver.java:58-66 | Alpha[k], Beta[k] hold forward-sweep pair k for every 1 ≤ k ≤ N |
| Thomas.SweptExtend | src/main/java/by/andd3dfx/math/pde/solver/AbstractEquationSolver.java:64-65 | storing one forward step at index i + 1 extends the swept prefix |
| Thomas.SolvedExtend | src/main/java/by/andd3dfx/math/pde/solver/AbstractEquationSolver.java:71 | storing one backward step at index i extends the solved suffix |
| Thomas.SolvedAll | src/main/java/by/andd3dfx/math/pde/solver/AbstractEquationSolver.java:68-73 | once every index is solved, Y is the answer |
| Thomas.ProgonkaInto | src/main/java/by/andd3dfx/math/pde/Equation.java:198-214 | Y must hold N + 1 values; Y[0..N] becomes Solve of the inputs with pairs (m1, n1), (m2, n2), and every later entry of Y is unchanged |
| Schemes.InitialLayer | src/main/java/by/andd3dfx/math/pde/solver/AbstractEquationSolver.java:44-46 | layer 0 has n + 1 values and value i is U0 at node x1 + i·h |
| Schemes.ParabolicBalance | src/main/java/by/andd3dfx/math/pde/solver/ParabolicEquationSolver.java:40-47 | the row A = Beta, B = Alpha, C = Alpha + Beta + Gamma, F = … holds for the new values exactly when the Crank–Nicolson balance does |
| Schemes.HyperbolicBalance | src/main/java/by/andd3dfx/math/pde/solver/HyperbolicEquationSolver.java:53-62 | the row A = Alpha, B = Beta, C = Alpha + Beta − Gamma + Delta, F = … holds exactly when the three-layer balance does |
| Schemes.FirstLayerInteriorIsTaylor | src/main/java/by/andd3dfx/math/pde/solver/HyperbolicEquationSolver.java:30-39 | where M ≠ 0, the interior layer-1 formula is the Taylor step u + τ·u_t + τ²/2·(K·u_xx + V·u_x + F)/M with centred differences |
| Schemes.FirstLayerBorderIsTaylor | src/main/java/by/andd3dfx/math/pde/solver/HyperbolicEquationSolver.java:73-75 | where M ≠ 0, calcFirstLayerValue is the Taylor step with u_tt = F/M |
| Schemes.FirstLayer | src/main/java/by/andd3dfx/math/pde/solver/HyperbolicEquationSolver.java:24-39 | layer 1: the border cells as the start rule says, the interior formula from layer 0's neighbours at every interior node; likewise src/main/java/by/andd3dfx/math/pde/HyperbolicEquation.java:59-73: the oldest start rule: the border cells are lu(τ) and ru(τ) |
| Schemes.FirstLayerFromNodes | src/main/java/by/andd3dfx/math/pde/solver/HyperbolicEquationSolver.java:24-39 | a row whose every node agrees with the layer-1 rule is layer 1 |
| Schemes.LayerSystem | src/main/java/by/andd3dfx/math/pde/solver/AbstractEquationSolver.java:53-57 | the layer system is well formed, has N rows and carries the scheme's border pairs at time t |
| Schemes.LayerSystemRow | src/main/java/by/andd3dfx/math/pde/solver/ParabolicEquationSolver.java:44-47 | row i of the layer system holds band i |
| Schemes.ParabolicBandOfWeights | src/main/java/by/andd3dfx/math/pde/solver/ParabolicEquationSolver.java:35-47 | row i is built from Alpha = (K(x) + K(x+) + V·h)/2, Beta = (K(x) + K(x−) − V·h)/2, Gamma = 2h²/τ·M and 2h²·F at the old time t_j |
| Schemes.HyperbolicBandOfWeights | src/main/java/by/andd3dfx/math/pde/solver/HyperbolicEquationSolver.java:46-62 | row i is built from Alpha = K − V·h/2, Beta = K + V·h/2, Gamma = h²/τ·L, Delta = 2(h/τ)²·M and F·h² at t_j, with row j + 1 at column i in the Delta term |
| Schemes.ParabolicNodeMeaning | src/main/java/by/andd3dfx/math/pde/solver/ParabolicEquationSolver.java:29-47 | parabolic row i holds exactly when node i keeps the Crank–Nicolson balance |
| Schemes.HyperbolicNodeMeaning | src/main/java/by/andd3dfx/math/pde/solver/HyperbolicEquationSolver.java:44-62 | hyperbolic row i holds exactly when node i keeps the three-layer balance |
| Schemes.ParabolicSystemMeaning | src/main/java/by/andd3dfx/math/pde/solver/ParabolicEquationSolver.java:28-53 | solving the system of layer j is the same as meeting both border relations at t_{j+1} and the balance at every interior node |
| Schemes.HyperbolicSystemMeaning | src/main/java/by/andd3dfx/math/pde/solver/HyperbolicEquationSolver.java:43-68 | solving the system of layer j + 2 is the same as meeting both border relations at t_{j+2} and the three-layer balance at every interior node |
| Schemes.ParabolicLayerCharacterised | src/main/java/by/andd3dfx/math/pde/solver/ParabolicEquationSolver.java:28-54 | with nonzero pivots, layer j + 1 continues layer j by the scheme and is the only row that does |
| Schemes.HyperbolicLayerCharacterised | src/main/java/by/andd3dfx/math/pde/solver/HyperbolicEquationSolver.java:43-69 | with nonzero pivots, layer j + 2 continues layers j and j + 1 and is the only row that does |
| Schemes.ScratchSystem | src/main/java/by/andd3dfx/math/pde/solver/AbstractEquationSolver.java:57-73 | scratch arrays that agree with the bands on 1..N − 1 give the same answer as the bands' system, whatever entry 0 holds |
| Schemes.ParabolicStep | src/main/java/by/andd3dfx/math/pde/solver/ParabolicEquationSolver.java:50-53 | the scratch rows of layer j solved with the border pairs at t_{j+1} give the next layer |
| Schemes.HyperbolicStep | src/main/java/by/andd3dfx/math/pde/solver/HyperbolicEquationSolver.java:65-68 | the scratch rows of layers j, j + 1 solved with the border pairs at t_{j+2} give the next layer |
| Schemes.ParabolicLayerFollows | src/main/java/by/andd3dfx/math/pde/solver/ParabolicEquationSolver.java:28-54 | layer j + 1 is the step from layer j |
| Schemes.HyperbolicLayerFollows | src/main/java/by/andd3dfx/math/pde/solver/HyperbolicEquationSolver.java:43-69 | layer j + 2 is the step from layers j and j + 1 |
| Solver.SchemeOf | src/main/java/by/andd3dfx/math/pde/solver/AbstractEquationSolver.java:53-55 | the newest solvers translate both borders forwards (no mirroring), with the equation's own conditions |
| Solver.CoveredCounts | src/main/java/by/andd3dfx/math/pde/solver/AbstractEquationSolver.java:26-31 | an area built from valid steps has at least one space step and one time step |
| Solver.BuildArea | src/main/java/by/andd3dfx/math/pde/solver/AbstractEquationSolver.java:26-31 | requires x1 < x2, 0 < h ≤ x2 − x1 and 0 < τ ≤ t2; the area is [x1, x2] with step h by [0, t2] with step τ |
| Solver.Prepare | src/main/java/by/andd3dfx/math/pde/solver/AbstractEquationSolver.java:40-48 | a fresh (tn + 1)×(xn + 1) grid whose row 0 is U0 at every space node and whose other cells are 0 |
| Solver.InitialRow | src/main/java/by/andd3dfx/math/pde/solver/AbstractEquationSolver.java:44-46 | the loop writes U0 at nodes 0..xn into row 0 and leaves the zeros elsewhere |
| Solver.Progonka | src/main/java/by/andd3dfx/math/pde/solver/AbstractEquationSolver.java:53-74 | the answer is Solve of the arrays with calcMN's pairs for both borders at the given time |
| Solver.ParabolicRowAt | src/main/java/by/andd3dfx/math/pde/solver/ParabolicEquationSolver.java:29-47 | the coefficients of node i read from row j of the grid are row i of the layer-j system |
| Solver.HyperbolicRowAt | src/main/java/by/andd3dfx/math/pde/solver/HyperbolicEquationSolver.java:44-62 | the coefficients of node i read from rows j and j + 1 are row i of the layer-(j + 2) system |
| Solver.StoreBand | src/main/java/by/andd3dfx/math/pde/solver/ParabolicEquationSolver.java:44-47 | storing row i into A, B, C, F keeps the rows stored before it |
| Solver.ParabolicRows | src/main/java/by/andd3dfx/math/pde/solver/ParabolicEquationSolver.java:29-48 | after the inner loop, A, B, C, F hold the rows of the layer-j system at every interior node |
| Solver.HyperbolicRows | src/main/java/by/andd3dfx/math/pde/solver/HyperbolicEquationSolver.java:44-63 | after the inner loop, A, B, C, F hold the rows of the layer-(j + 2) system at every interior node |
| Solver.FirstLayerInto | src/main/java/by/andd3dfx/math/pde/solver/HyperbolicEquationSolver.java:24-39 | row 1 becomes layer 1 computed from the old row 0; nothing else changes |
| Solver.FirstLayerEnds | src/main/java/by/andd3dfx/math/pde/solver/HyperbolicEquationSolver.java:25-26 | cells (1, 0) and (1, N) get the layer-1 border values; only row 1 changes |
| Solver.FirstLayerInside | src/main/java/by/andd3dfx/math/pde/solver/HyperbolicEquationSolver.java:30-39 | after the interior loop, row 1 is layer 1 |
| Solver.FirstLayerCell | src/main/java/by/andd3dfx/math/pde/solver/HyperbolicEquationSolver.java:31-38 | pass i writes the interior formula at node i, from row 0's neighbours, into cell (1, i) |
| Solver.OtherRowCells | src/main/java/by/andd3dfx/math/pde/solver/HyperbolicEquationSolver.java:31-35 | writing row 1 leaves the row-0 neighbours the loop reads intact |
| Solver.StartLayers | src/main/java/by/andd3dfx/math/pde/solver/HyperbolicEquationSolver.java:24-39 | over a grid whose row 0 is layer 0, rows 0 and 1 become layers 0 and 1 |
| Solver.ParabolicStepInto | src/main/java/by/andd3dfx/math/pde/solver/ParabolicEquationSolver.java:29-53 | one pass writes the next layer over row j + 1 and changes no other row |
| Solver.ParabolicLoop | src/main/java/by/andd3dfx/math/pde/solver/ParabolicEquationSolver.java:28-54 | the loop leaves every row j equal to parabolic layer j |
| Solver.SolveParabolic | src/main/java/by/andd3dfx/math/pde/solver/ParabolicEquationSolver.java:10-56 | the grid is (tn + 1)×(xn + 1) over [x1, x2] × [0, t2] and every row j is parabolic layer j of the unmirrored scheme |
| Solver.HyperbolicStepInto | src/main/java/by/andd3dfx/math/pde/solver/HyperbolicEquationSolver.java:44-68 | one pass writes the next layer over row j + 2 and changes no other row |
| Solver.HyperbolicLoop | src/main/java/by/andd3dfx/math/pde/solver/HyperbolicEquationSolver.java:43-69 | the loop leaves every row j equal to hyperbolic layer j |
| Solver.SolveHyperbolic | src/main/java/by/andd3dfx/math/pde/solver/HyperbolicEquationSolver.java:8-71 | every row j is hyperbolic layer j, whose layer 1 extrapolates to the ends of the area |
| Solutions.Solution.GUt | src/main/java/by/andd3dfx/math/pde/solver/Solution.java:127-138 | requires 0 ≤ it < M; a fresh matrix of N pairs (xx(i), grid[it][i]); the grid is not written |
| Solutions.Solution.GUtAt | src/main/java/by/andd3dfx/math/pde/solver/Solution.java:115-117 | the slice of layer ti(t) |
| Solutions.Solution.GUx | src/main/java/by/andd3dfx/math/pde/solver/Solution.java:160-171 | requires 0 ≤ ix < N; a fresh matrix of M pairs (tx(i), grid[i][ix]) |
| Solutions.Solution.GUxAt | src/main/java/by/andd3dfx/math/pde/solver/Solution.java:148-150 | the slice of column xi(x) |
| Solutions.Solution.TimesSelectRows | src/main/java/by/andd3dfx/math/pde/solver/Solution.java:41-55 | once every moment passes the range check, each selects a row of the grid and every printed space node a column |
| Solutions.Solution.PointsSelectColumns | src/main/java/by/andd3dfx/math/pde/solver/Solution.java:79-93 | once every point passes the range check, each selects a column and every printed time node a row |
| EquationRevision.PairWritten | src/main/java/by/andd3dfx/math/Matrix.java:59-86 | setX(i) then setY(i) on a two-row matrix changes pair i only |
| EquationRevision.LayerSlice | src/main/java/by/andd3dfx/math/pde/equation/Solution.java:100-111 | a fresh 2×N matrix whose pair i is (x(i), grid[it][i]) for every column |
| EquationRevision.ColumnSlice | src/main/java/by/andd3dfx/math/pde/equation/Solution.java:129-140 | the corrected column slice: a fresh 2×M matrix whose pair i is (t(i), grid[i][ix]) for every row |
| EquationRevision.Equation.constructor | src/main/java/by/andd3dfx/math/pde/equation/Equation.java:29-35 | the area starts as [x1, x2] and [0, t2] in one step each; the conditions are stored |
| EquationRevision.Equation.Prepare | src/main/java/by/andd3dfx/math/pde/equation/Equation.java:90-102 | both intervals are rebuilt in place with their bounds kept and the new steps; the grid is (tn + 1)×(xn + 1) with U0 in row 0 and zeros elsewhere |
| EquationRevision.Equation.Progonka | src/main/java/by/andd3dfx/math/pde/equation/Equation.java:107-150 | the answer is Solve of the arrays with the left pair as written and the right pair mirrored, both at time node nj |
| EquationRevision.Solution.GUt | src/main/java/by/andd3dfx/math/pde/equation/Solution.java:100-111 | requires 0 ≤ it < M; the layer slice of row it |
| EquationRevision.Solution.GUtAt | src/main/java/by/andd3dfx/math/pde/equation/Solution.java:90-92 | the layer slice of row ti(t) |
| EquationRevision.Solution.GUx | src/main/java/by/andd3dfx/math/pde/equation/Solution.java:129-140 | as written: never completes; the M pairs it writes before failing are (t(i), grid[i][ix]) |
| EquationRevision.Solution.GUxAt | src/main/java/by/andd3dfx/math/pde/equation/Solution.java:119-121 | as written: the column slice of xi(x), which never completes either |
| OldestEquation.CopyRow | src/main/java/by/andd3dfx/math/pde/ParabolicEquation.java:92-94 | U[0..N] is copied into row nj; nothing outside that row changes |
| OldestEquation.ParabolicStepInto | src/main/java/by/andd3dfx/math/pde/ParabolicEquation.java:43-94 | one pass writes the next layer, with the right pair mirrored, over row j + 1 and changes no other row |
| OldestEquation.ParabolicLoop | src/main/java/by/andd3dfx/math/pde/ParabolicEquation.java:42-95 | the loop leaves every row j equal to parabolic layer j of the mirrored scheme |
| OldestEquation.ParabolicRun | src/main/java/by/andd3dfx/math/pde/ParabolicEquation.java:34-95 | with its own scratch arrays, the same |
| OldestEquation.HyperbolicStepInto | src/main/java/by/andd3dfx/math/pde/HyperbolicEquation.java:78-133 | one pass writes the next layer, with the right pair mirrored, over row j + 2 and changes no other row |
| OldestEquation.HyperbolicLoop | src/main/java/by/andd3dfx/math/pde/HyperbolicEquation.java:77-134 | the loop leaves every row j equal to hyperbolic layer j |
| OldestEquation.HyperbolicRun | src/main/java/by/andd3dfx/math/pde/HyperbolicEquation.java:45-134 | layer 1 by the start rule, then the loop: every row j is hyperbolic layer j |
| OldestEquation.Equation.constructor | src/main/java/by/andd3dfx/math/pde/Equation.java:27-33 | the area starts as [x1, x2] and [0, t2] in one step each; the conditions are stored |
| OldestEquation.Equation.Prepare | src/main/java/by/andd3dfx/math/pde/Equation.java:81-90 | both intervals are rebuilt over their own bounds with the new steps; arr becomes a fresh (tn + 1)×(xn + 1) grid with U0 in row 0 and zeros elsewhere |
| OldestEquation.Equation.GUt | src/main/java/by/andd3dfx/math/pde/Equation.java:157-167 | as written: it is checked against the column count and the call never completes; within the grid the pairs written are the layer's |
| OldestEquation.Equation.GUtAt | src/main/java/by/andd3dfx/math/pde/Equation.java:172-174 | as written: the slice of ti(t), which never completes |
| OldestEquation.Equation.GUx | src/main/java/by/andd3dfx/math/pde/Equation.java:176-186 | as written: ix is checked against the row count and the call never completes; within the grid the pairs written are the column's |
| OldestEquation.Equation.GUxAt | src/main/java/by/andd3dfx/math/pde/Equation.java:191-193 | as written: the slice of xi(x), which never completes |
| OldestEquation.Equation.SchemeFor | src/main/java/by/andd3dfx/math/pde/ParabolicEquation.java:64-89 | the oldest solvers mirror the right pair and use the equation's conditions and coefficients |
| OldestEquation.Equation.SolveParabolic | src/main/java/by/andd3dfx/math/pde/ParabolicEquation.java:31-96 | after solve, arr has one row per time node and every row j is parabolic layer j of the mirrored scheme |
| OldestEquation.HyperbolicEquation.constructor | src/main/java/by/andd3dfx/math/pde/HyperbolicEquation.java:20-22 | the border conditions are the ones the codes lbt, rbt select, with lH and rH |
| OldestEquation.HyperbolicEquation.Default | src/main/java/by/andd3dfx/math/pde/HyperbolicEquation.java:31-33 | codes 1 and 1 with lH = rH = 1: both borders are Dirichlet conditions |
| OldestEquation.HyperbolicEquation.Solve | src/main/java/by/andd3dfx/math/pde/HyperbolicEquation.java:42-135 | after solve, every row j of arr is hyperbolic layer j of the mirrored scheme whose layer 1 takes lu(τ), ru(τ) at the borders |

## Left out

- File output is left out: the `sUt`/`sUx` methods of all three revisions,
  `Interval.saveFunc` and `FileUtil`.
  - Of the newest `sUt`/`sUx`, only the range checks are kept
    (`Solutions.Solution.TimesSelectRows`, `PointsSelectColumns`).
  - The older revisions' identical checks are not modelled separately.
- The web layer, the frontend, `Main`, and the accuracy tests against
  analytic series are not part of this model.
- Java `assert` guards are modelled as preconditions. This covers the guards
  of the matrix constructors and accessors, the interval constructors, `x`, `i`
  and `reborn`, `buildArea`, and the solution slices. Examples are
  Matrix2D.java:27, 53, 127 and 142, and Interval.java:39, 48, 57 and 63.
  - A `requires` states the guard, and the model covers only the calls that
    pass it.
  - The `AssertionError` thrown under `-ea` is not modelled.
  - With assertions disabled, Java runs on without checking. That run is not
    modelled either.
- Floating point: every number is a `real`, and no bit-exact double result is
  stated.
- Division by zero: a zero divisor gives 0 (`Thomas.Div`), where doubles would
  give an infinity or NaN. This applies in four places:
  - the pivots of the tridiagonal algorithm;
  - M in the first-layer formula;
  - the Robin divisor 1 + h·hr of the left pair (`Border.Forward`);
  - the Robin divisor 1 − h·hr of the mirrored right pair (`Border.Mirrored`).

  So at h·hr = −1 (left) or h·hr = 1 (mirrored right), the model's pair is
  κ = ν = 0. The properties that need nonzero divisors say so (`Thomas.Regular`,
  M ≠ 0, the requires of `Border.RobinLeft` and `Border.RobinRight`).
- Schemes.FirstLayerInterior: with M = 0 (the newest package's default) the
  model gives a finite value where Java divides by zero.
- Overflow of `(int)` casts is not modelled. The index is the floor of a
  non-negative real.
- Row copies are sequences: `get(i)` returns a fresh copy in Java, and the
  model's `GetRow` is a function value. Aliasing of a returned row array is
  not modelled.
- Both MatrixXY classes are modelled by one class, `Matrices.MatrixXY`. They
  have the same fields and accessors.
- The older equation classes call members that do not exist in the older
  `Interval`, `Area` and `Matrix`. Each is modelled by the member it evidently
  means:
  - `reborn(h)` on the older interval becomes a rebuild over its own bounds.
  - `left()`/`right()` become `x1`/`x2`.
  - `arr.data(i, j)` becomes `get(i, j)`.
  - The field initialiser `new Matrix()` becomes a 1×1 placeholder, which
    `prepare` replaces.
- The oldest hyperbolic equation calls a super constructor with codes and
  Robin coefficients that the oldest `Equation` does not declare, and it calls
  `progonka(N, …)` with an extra count.
  - The model composes an `Equation` with the coded border conditions.
  - It uses the in-place `ProgonkaInto`, whose N is A.length.
- The border functions `gLU`, `gRU`, `gLdU_dx`, `gRdU_dx`, `gLTeta` and
  `gRTeta` are not defined in the source. They become the parameters of
  `OldestEquation.Borders`.
- The middle revision's `ParabolicEquation` and `HyperbolicEquation`
  subclasses (`by/andd3dfx/math/pde/equation/`) are not part of this model.
  Their shared `prepare` and `progonka` are.
- A coefficient method overridden in a subclass is a different `Coefficients`
  value. Dynamic dispatch itself is not modelled.

## Findings

| source | as written | input that shows it | evidently intended | confidence | as-written member | corrected member |
|---|---|---|---|---|---|---|
| src/main/java/by/andd3dfx/math/matrix/Matrix2D.java:144 | `swapCols` loops `i < n` (the column count) over the rows | a 3×2 matrix [[1,2],[3,4],[5,6]], swapCols(0, 1): row 2 stays [5,6]; a 2×3 matrix reads past the buffer at pass 2 | `i < m`, every row swapped | high, proved; not executed | Matrices.Matrix2D.SwapCols, RowMajor.TallColsSwapIncomplete | RowMajor.ColsSwapped |
| src/main/java/by/andd3dfx/math/Matrix.java:175 | the same loop bound in the older matrix | the same 3×2 matrix | `i < m` | high, proved; not executed | LegacyMatrix.Matrix.SwapCols | RowMajor.ColsSwapped |
| src/main/java/by/andd3dfx/math/pde/equation/Solution.java:135 | `gUx(ix)` loops `i <= M` into a 2×M matrix | any solution: pass i = M asks for time node M of an interval of M − 1 steps | `i < M` | high, proved; not executed | EquationRevision.Solution.GUx | EquationRevision.ColumnSlice |
| src/main/java/by/andd3dfx/math/pde/Equation.java:158-162 | `gUt(it)` checks `it < N` (columns) and loops `i <= N` | any grid: pass i = N asks for space node N of N − 1 steps; an it with M ≤ it < N reads past the last row | check `it < M`, loop `i < N` | high, proved; not executed | OldestEquation.Equation.GUt | EquationRevision.LayerSlice |
| src/main/java/by/andd3dfx/math/pde/Equation.java:177-181 | `gUx(ix)` checks `ix < M` (rows) and loops `i <= M` | any grid: pass i = M asks for time node M of M − 1 steps; an ix with N ≤ ix < M reads past the row | check `ix < N`, loop `i < M` | high, proved; not executed | OldestEquation.Equation.GUx | EquationRevision.ColumnSlice |
