/**
 * The oldest revision of the equation classes (by.andd3dfx.math.pde): the
 * equation object owns its area and its grid `arr`, which prepare replaces;
 * the tridiagonal step writes into a caller's array, and the solvers copy
 * that array cell by cell into the next row.  The right border's signs are
 * mirrored; the hyperbolic equation selects its border conditions by integer
 * codes and starts layer 1 from the Dirichlet border values.
 */
module OldestEquation {
  import opened RowMajor
  import opened Thomas
  import opened Border
  import opened Equations
  import opened Discretisation
  import opened Schemes
  import LegacySpace
  import LegacyMatrix
  import Solver
  import EquationRevision

  // ------------------------------------------------------------ row copy and layer steps

  /** The copy loop of both solvers: U[i] goes into cell (row, i) for i = 0..N; nothing outside the row changes. */
  method CopyRow(grid: LegacyMatrix.Matrix, row: int, U: array<real>)
    requires grid.Valid() && 0 <= row < grid.m && U.Length >= grid.n && U != grid.data
    modifies grid.data
    ensures grid.data[..] == WithRow(old(grid.data[..]), grid.m, grid.n, row, U[..grid.n])
  {
    ghost var d0 := grid.data[..];
    ghost var r := Row(d0, grid.m, grid.n, row);
    WithOwnRow(d0, grid.m, grid.n, row);
    var N := grid.n - 1;
    var i := 0;
    while i <= N
      invariant 0 <= i <= N + 1 && |r| == grid.n
      invariant grid.data[..] == WithRow(d0, grid.m, grid.n, row, r)
      invariant forall c :: 0 <= c < i ==> r[c] == U[c]
    {
      WithCellOfWithRow(d0, grid.m, grid.n, row, r, i, U[i]);
      grid.Set(row, i, U[i]);
      r := r[i := U[i]];
      i := i + 1;
    }
    assert r == U[..grid.n];
  }

  /** The arrays of a layer step: four scratch arrays and U, all distinct from each other and from the grid. */
  predicate Workspace(A: array<real>, B: array<real>, C: array<real>, F: array<real>, U: array<real>, d: array<real>) {
    Solver.Scratch(A, B, C, F, d) && U != A && U != B && U != C && U != F && U != d
  }

  /**
   * One pass of the parabolic layer loop: the rows built from layer j, the
   * border pairs at time node j + 1 (left as written, right mirrored), the
   * in-place tridiagonal step into U and U's copy into row j + 1.
   */
  method ParabolicStepInto(s: Scheme, j: nat, grid: LegacyMatrix.Matrix, area: LegacySpace.Area,
                           A: array<real>, B: array<real>, C: array<real>, F: array<real>, U: array<real>)
    requires s.mirrored && s.Valid() && Solver.Fits(s, area)
    requires grid.Valid() && grid.n == s.n + 1 && grid.m == area.TN() + 1 && j + 1 < grid.m
    requires Workspace(A, B, C, F, U, grid.data)
    requires A.Length == s.n && B.Length == s.n && C.Length == s.n && F.Length == s.n && U.Length == s.n + 1
    modifies grid.data, A, B, C, F, U
    ensures grid.data[..] == WithRow(old(grid.data[..]), grid.m, grid.n, j + 1, ParabolicNext(s, j, old(grid.GetRow(j))))
  {
    ghost var u := grid.GetRow(j);
    Solver.ParabolicRows(s, j, grid, area, A, B, C, F);
    var nj := j + 1;
    var t := area.TX(nj);
    Solver.TimeNode(s, area, nj);
    var mu1, mu2 := Forward(s.left, s.h, t), Mirrored(s.right, s.h, t);
    ProgonkaInto(A, B, C, F, mu1.kappa, mu1.nu, mu2.kappa, mu2.nu, U);
    ParabolicStep(s, j, u, A[..], B[..], C[..], F[..]);
    CopyRow(grid, nj, U);
  }

  /** The layer loop of ParabolicEquation.solve, for j = 0 .. tn - 1, over a grid whose row 0 is layer 0. */
  method ParabolicLoop(s: Scheme, grid: LegacyMatrix.Matrix, area: LegacySpace.Area,
                       A: array<real>, B: array<real>, C: array<real>, F: array<real>, U: array<real>)
    requires s.mirrored && s.Valid() && Solver.Fits(s, area)
    requires grid.Valid() && grid.n == s.n + 1 && grid.m == area.TN() + 1
    requires Workspace(A, B, C, F, U, grid.data)
    requires A.Length == s.n && B.Length == s.n && C.Length == s.n && F.Length == s.n && U.Length == s.n + 1
    requires grid.GetRow(0) == ParabolicLayer(s, 0)
    modifies grid.data, A, B, C, F, U
    ensures forall j :: 0 <= j < grid.m ==> grid.GetRow(j) == ParabolicLayer(s, j)
  {
    var j := 0;
    while j < area.TN()
      invariant 0 <= j <= area.TN()
      invariant forall k :: 0 <= k <= j ==> grid.GetRow(k) == ParabolicLayer(s, k)
    {
      ghost var d := grid.data[..];
      ParabolicStepInto(s, j, grid, area, A, B, C, F, U);
      ParabolicLayerFollows(s, j);
      RowsOfWithRow(d, grid.m, grid.n, j + 1, ParabolicLayer(s, j + 1));
      j := j + 1;
    }
  }

  /**
   * One pass of the hyperbolic layer loop: the rows built from layers j and
   * j + 1, the border pairs at time node j + 2 (right mirrored), the
   * in-place tridiagonal step into U and U's copy into row j + 2.
   */
  method HyperbolicStepInto(s: Scheme, j: nat, grid: LegacyMatrix.Matrix, area: LegacySpace.Area,
                            A: array<real>, B: array<real>, C: array<real>, F: array<real>, U: array<real>)
    requires s.mirrored && s.Valid() && Solver.Fits(s, area)
    requires grid.Valid() && grid.n == s.n + 1 && grid.m == area.TN() + 1 && j + 2 < grid.m
    requires Workspace(A, B, C, F, U, grid.data)
    requires A.Length == s.n && B.Length == s.n && C.Length == s.n && F.Length == s.n && U.Length == s.n + 1
    modifies grid.data, A, B, C, F, U
    ensures grid.data[..] ==
      WithRow(old(grid.data[..]), grid.m, grid.n, j + 2, HyperbolicNext(s, j, old(grid.GetRow(j)), old(grid.GetRow(j + 1))))
  {
    ghost var u, w := grid.GetRow(j), grid.GetRow(j + 1);
    Solver.HyperbolicRows(s, j, grid, area, A, B, C, F);
    var nj := j + 2;
    var t := area.TX(nj);
    Solver.TimeNode(s, area, nj);
    var mu1, mu2 := Forward(s.left, s.h, t), Mirrored(s.right, s.h, t);
    ProgonkaInto(A, B, C, F, mu1.kappa, mu1.nu, mu2.kappa, mu2.nu, U);
    HyperbolicStep(s, j, u, w, A[..], B[..], C[..], F[..]);
    CopyRow(grid, nj, U);
  }

  /** The layer loop of HyperbolicEquation.solve, for j = 0 .. tn - 2, over a grid whose rows 0 and 1 are layers 0 and 1. */
  method HyperbolicLoop(s: Scheme, start: Start, grid: LegacyMatrix.Matrix, area: LegacySpace.Area,
                        A: array<real>, B: array<real>, C: array<real>, F: array<real>, U: array<real>)
    requires s.mirrored && s.Valid() && Solver.Fits(s, area)
    requires grid.Valid() && grid.n == s.n + 1 && grid.m == area.TN() + 1 && grid.m >= 2
    requires Workspace(A, B, C, F, U, grid.data)
    requires A.Length == s.n && B.Length == s.n && C.Length == s.n && F.Length == s.n && U.Length == s.n + 1
    requires grid.GetRow(0) == HyperbolicLayer(s, start, 0) && grid.GetRow(1) == HyperbolicLayer(s, start, 1)
    modifies grid.data, A, B, C, F, U
    ensures forall j :: 0 <= j < grid.m ==> grid.GetRow(j) == HyperbolicLayer(s, start, j)
  {
    var j := 0;
    while j <= area.TN() - 2
      invariant 0 <= j <= area.TN() - 1
      invariant forall k :: 0 <= k <= j + 1 ==> grid.GetRow(k) == HyperbolicLayer(s, start, k)
    {
      ghost var d := grid.data[..];
      HyperbolicStepInto(s, j, grid, area, A, B, C, F, U);
      HyperbolicLayerFollows(s, start, j);
      RowsOfWithRow(d, grid.m, grid.n, j + 2, HyperbolicLayer(s, start, j + 2));
      j := j + 1;
    }
  }

  /** The body of ParabolicEquation.solve after prepare: the scratch arrays, then the layer loop. */
  method ParabolicRun(s: Scheme, grid: LegacyMatrix.Matrix, area: LegacySpace.Area)
    requires s.mirrored && s.Valid() && Solver.Fits(s, area)
    requires grid.Valid() && grid.n == s.n + 1 && grid.m == area.TN() + 1
    requires grid.GetRow(0) == ParabolicLayer(s, 0)
    modifies grid.data
    ensures forall j :: 0 <= j < grid.m ==> grid.GetRow(j) == ParabolicLayer(s, j)
  {
    var N := s.n;
    var A, B, C, F := new real[N], new real[N], new real[N], new real[N];
    var U := new real[N + 1];
    ParabolicLoop(s, grid, area, A, B, C, F, U);
  }

  /**
   * The body of HyperbolicEquation.solve after prepare: the scratch arrays,
   * layer 1 as start says, then the layer loop.
   */
  method HyperbolicRun(s: Scheme, start: Start, grid: LegacyMatrix.Matrix, area: LegacySpace.Area)
    requires s.mirrored && s.Valid() && Solver.Fits(s, area)
    requires grid.Valid() && grid.n == s.n + 1 && grid.m == area.TN() + 1 && grid.m >= 2
    requires grid.GetRow(0) == HyperbolicLayer(s, start, 0)
    modifies grid.data
    ensures forall j :: 0 <= j < grid.m ==> grid.GetRow(j) == HyperbolicLayer(s, start, j)
  {
    var N := s.n;
    var A, B, C, F := new real[N], new real[N], new real[N], new real[N];
    var U := new real[N + 1];
    Solver.StartLayers(s, start, grid, area);
    HyperbolicLoop(s, start, grid, area, A, B, C, F, U);
  }

  // ------------------------------------------------------------ Equation

  /**
   * The oldest equation: its area, its grid arr, the two border conditions
   * and the coefficients (a subclass overriding gU0, gM, gK, gV, gF, gdU_dt
   * or gL is a different q).
   */
  class Equation {
    const area: LegacySpace.Area
    var arr: LegacyMatrix.Matrix
    const left: BC
    const right: BC
    const q: Coefficients

    /** The area is well formed, each interval has at least one step and time starts at 0. */
    ghost predicate Valid()
      reads area.x, area.t
    {
      area.Valid() && area.TLeft() == 0.0 && area.XN() >= 1 && area.TN() >= 1
    }

    /** The grid has one row per time node and one column per space node. */
    ghost predicate Shaped()
      reads this, arr, area.x, area.t
    {
      Valid() && arr.Valid() && arr.m == area.TN() + 1 && arr.n == area.XN() + 1
    }

    /** Both intervals start as one step: [x1, x2] and [0, t2]; the interval constructor demands x1 < x2 and t2 > 0. */
    constructor (x1: real, x2: real, t2: real, left: BC, right: BC, q: Coefficients)
      requires x1 < x2 && 0.0 < t2
      ensures fresh(area.x) && fresh(area.t) && Valid()
      ensures area.XLeft() == x1 && area.XRight() == x2 && area.XN() == 1 && area.TRight() == t2 && area.TN() == 1
      ensures this.left == left && this.right == right && this.q == q
    {
      var x := new LegacySpace.Interval.FromCount(x1, x2, 1);
      var t := new LegacySpace.Interval.FromCount(0.0, t2, 1);
      area := LegacySpace.Area(x, t);
      arr := new LegacyMatrix.Matrix(1, 1);
      this.left := left;
      this.right := right;
      this.q := q;
    }

    /**
     * prepare: both intervals are rebuilt in place over their own bounds
     * with the new steps, arr becomes a fresh (tn + 1) x (xn + 1) grid and
     * setX writes U0 at every space node into row 0; every other cell is zero.
     */
    method Prepare(h: real, tau: real)
      requires Valid()
      requires 0.0 < h <= area.XRight() - area.XLeft() && 0.0 < tau <= area.TRight() - area.TLeft()
      modifies this, area.x, area.t
      ensures Shaped() && fresh(arr) && fresh(arr.data)
      ensures area.XLeft() == old(area.XLeft()) && area.XRight() == old(area.XRight()) && area.x.h == h
      ensures area.TRight() == old(area.TRight()) && area.t.h == tau
      ensures area.XN() == StepCount(area.XLeft(), area.XRight(), h) && area.TN() == StepCount(0.0, area.TRight(), tau)
      ensures arr.data[..] == InitialLayer(q.u0, area.XLeft(), h, area.XN()) + Filled(area.TN() * (area.XN() + 1), 0.0)
    {
      area.x.RebornStep(area.x.x1, area.x.x2, h);
      area.t.RebornStep(area.t.x1, area.t.x2, tau);
      var n := area.XN() + 1;
      arr := new LegacyMatrix.Matrix(area.TN() + 1, n);
      Solver.ZeroRowsBelow(area.TN(), n);
      // setX(i, v) is set(0, i, v): the same loop as the newest prepare
      Solver.InitialRow(q.u0, area, arr);
    }

    /**
     * gUt(it) as written: it checks it against the column count N, then runs
     * i = 0..N into a 2 x N matrix.  For a row of the grid, passes 0..N-1
     * write the layer's pairs and the pass i = N asks for space node N of an
     * interval of N - 1 steps; past the last row, pass 0 writes x(0) and
     * then reads outside the grid.  Either way the call never completes.
     */
    method GUt(it: int) returns (r: LegacyMatrix.Matrix, completed: bool)
      requires Shaped() && 0 <= it < arr.n
      ensures !completed
      ensures fresh(r) && fresh(r.data) && r.Valid() && r.m == 2 && r.n == arr.n
      ensures it < arr.m ==> forall i :: 0 <= i < arr.n ==> r.X(i) == area.XX(i) && r.Y(i) == arr.Get(it, i)
      ensures arr.m <= it ==> r.data[..] == WithCell(Filled(2 * arr.n, 0.0), 2, arr.n, 0, 0, area.XX(0))
    {
      var N := arr.n;
      if it < arr.m {
        r := EquationRevision.LayerSlice(area, arr, it);
        // the pass i = N: x(N) demands N <= xn
        completed := N <= area.XN();
      } else {
        r := new LegacyMatrix.Matrix(2, N);
        r.SetX(0, area.XX(0));
        // pass 0 then reads cell (it, 0), which demands it < M
        completed := it < arr.m;
      }
    }

    /** gUt(t): the as-written layer slice of the time index of t, which must pass gUt's column check. */
    method GUtAt(t: real) returns (r: LegacyMatrix.Matrix, completed: bool)
      requires Shaped() && area.TLeft() <= t <= area.TRight() && area.TI(t) < arr.n
      ensures !completed
      ensures fresh(r) && fresh(r.data) && r.Valid() && r.m == 2 && r.n == arr.n
      ensures forall i :: 0 <= i < arr.n ==> r.X(i) == area.XX(i) && r.Y(i) == arr.Get(area.TI(t), i)
    {
      r, completed := GUt(area.TI(t));
    }

    /**
     * gUx(ix) as written: it checks ix against the row count M, then runs
     * i = 0..M into a 2 x M matrix.  For a column of the grid, passes 0..M-1
     * write the column's pairs and the pass i = M asks for time node M of an
     * interval of M - 1 steps; past the last column, pass 0 writes t(0) and
     * then reads outside the row.  Either way the call never completes.
     */
    method GUx(ix: int) returns (r: LegacyMatrix.Matrix, completed: bool)
      requires Shaped() && 0 <= ix < arr.m
      ensures !completed
      ensures fresh(r) && fresh(r.data) && r.Valid() && r.m == 2 && r.n == arr.m
      ensures ix < arr.n ==> forall i :: 0 <= i < arr.m ==> r.X(i) == area.TX(i) && r.Y(i) == arr.Get(i, ix)
      ensures arr.n <= ix ==> r.data[..] == WithCell(Filled(2 * arr.m, 0.0), 2, arr.m, 0, 0, area.TX(0))
    {
      var M := arr.m;
      if ix < arr.n {
        r := EquationRevision.ColumnSlice(area, arr, ix);
        // the pass i = M: t.x(M) demands M <= tn
        completed := M <= area.TN();
      } else {
        r := new LegacyMatrix.Matrix(2, M);
        r.SetX(0, area.TX(0));
        // pass 0 then reads cell (0, ix), which demands ix < N
        completed := ix < arr.n;
      }
    }

    /** gUx(x): the as-written column slice of the space index of x, which must pass gUx's row check. */
    method GUxAt(x: real) returns (r: LegacyMatrix.Matrix, completed: bool)
      requires Shaped() && area.XLeft() <= x <= area.XRight() && area.XI(x) < arr.m
      ensures !completed
      ensures fresh(r) && fresh(r.data) && r.Valid() && r.m == 2 && r.n == arr.m
      ensures forall i :: 0 <= i < arr.m ==> r.X(i) == area.TX(i) && r.Y(i) == arr.Get(i, area.XI(x))
    {
      r, completed := GUx(area.XI(x));
    }

    /** The scheme this equation runs with steps h and tau: the right border's signs mirrored. */
    function SchemeFor(h: real, tau: real): (s: Scheme)
      reads area.x
      ensures s.mirrored && s.left == left && s.right == right && s.q == q && s.x1 == area.XLeft()
    {
      Scheme(q, left, right, true, area.XLeft(), h, tau, area.XN())
    }

    /**
     * ParabolicEquation.solve: after prepare, row j of arr is layer j of the
     * parabolic scheme with the right border mirrored, for every time node j.
     */
    method SolveParabolic(h: real, tau: real)
      requires Valid()
      requires 0.0 < h <= area.XRight() - area.XLeft() && 0.0 < tau <= area.TRight() - area.TLeft()
      modifies this, area.x, area.t
      ensures Shaped() && fresh(arr) && fresh(arr.data)
      ensures area.XLeft() == old(area.XLeft()) && area.XRight() == old(area.XRight()) && area.x.h == h
      ensures area.TRight() == old(area.TRight()) && area.t.h == tau
      ensures forall j :: 0 <= j < arr.m ==> arr.GetRow(j) == ParabolicLayer(SchemeFor(h, tau), j)
    {
      Prepare(h, tau);
      var s := SchemeFor(h, tau);
      Solver.RowZero(arr.data[..], InitialLayer(q.u0, area.x.x1, h, area.XN()), arr.m, arr.n);
      ParabolicRun(s, arr, area);
    }
  }

  // ------------------------------------------------------------ HyperbolicEquation

  /** The border functions the hyperbolic equation reads: values, slopes and Robin ambient values on each side. */
  datatype Borders = Borders(
    lu: real -> real, ru: real -> real,
    ldudx: real -> real, rdudx: real -> real,
    ltheta: real -> real, rtheta: real -> real)

  /**
   * The oldest hyperbolic equation: an equation whose border conditions are
   * chosen by the codes lbt and rbt (1, 2, 3 for the three kinds) with the
   * Robin coefficients lh and rh.
   */
  class HyperbolicEquation {
    const equation: Equation
    const lbt: int
    const rbt: int
    const lh: real
    const rh: real
    const borders: Borders

    constructor (x1: real, x2: real, t2: real, lbt: int, rbt: int, lh: real, rh: real, borders: Borders, q: Coefficients)
      requires x1 < x2 && 0.0 < t2
      ensures fresh(equation) && fresh(equation.area.x) && fresh(equation.area.t) && equation.Valid()
      ensures equation.area.XLeft() == x1 && equation.area.XRight() == x2 && equation.area.TRight() == t2
      ensures equation.left == Coded(lbt, borders.lu, borders.ldudx, lh, borders.ltheta)
      ensures equation.right == Coded(rbt, borders.ru, borders.rdudx, rh, borders.rtheta)
      ensures equation.q == q && this.lbt == lbt && this.rbt == rbt && this.lh == lh && this.rh == rh && this.borders == borders
    {
      equation := new Equation(x1, x2, t2,
        Coded(lbt, borders.lu, borders.ldudx, lh, borders.ltheta),
        Coded(rbt, borders.ru, borders.rdudx, rh, borders.rtheta), q);
      this.lbt := lbt;
      this.rbt := rbt;
      this.lh := lh;
      this.rh := rh;
      this.borders := borders;
    }

    /** The three-argument constructor: code 1 on both sides with lH = rH = 1, so both borders are Dirichlet conditions. */
    constructor Default(x1: real, x2: real, t2: real, borders: Borders, q: Coefficients)
      requires x1 < x2 && 0.0 < t2
      ensures fresh(equation) && fresh(equation.area.x) && fresh(equation.area.t) && equation.Valid()
      ensures lbt == 1 && rbt == 1 && lh == 1.0 && rh == 1.0
      ensures equation.left == Dirichlet(borders.lu) && equation.right == Dirichlet(borders.ru) && equation.q == q
    {
      equation := new Equation(x1, x2, t2,
        Coded(1, borders.lu, borders.ldudx, 1.0, borders.ltheta),
        Coded(1, borders.ru, borders.rdudx, 1.0, borders.rtheta), q);
      lbt, rbt, lh, rh := 1, 1, 1.0, 1.0;
      this.borders := borders;
    }

    /**
     * HyperbolicEquation.solve: after prepare, row 1 takes the Dirichlet
     * border values at tau and the first-layer formula inside, then row j of
     * arr is layer j of the hyperbolic scheme with the right border
     * mirrored, for every time node j.
     */
    method Solve(h: real, tau: real)
      requires equation.Valid()
      requires 0.0 < h <= equation.area.XRight() - equation.area.XLeft()
      requires 0.0 < tau <= equation.area.TRight() - equation.area.TLeft()
      modifies equation, equation.area.x, equation.area.t
      ensures equation.Shaped() && fresh(equation.arr) && fresh(equation.arr.data)
      ensures forall j :: 0 <= j < equation.arr.m ==>
        equation.arr.GetRow(j) == HyperbolicLayer(equation.SchemeFor(h, tau), Prescribed(borders.lu, borders.ru), j)
    {
      var e := equation;
      e.Prepare(h, tau);
      var area, grid := e.area, e.arr;
      var s := e.SchemeFor(h, tau);
      var start := Prescribed(borders.lu, borders.ru);
      Solver.RowZero(grid.data[..], InitialLayer(e.q.u0, area.x.x1, h, area.XN()), grid.m, grid.n);
      HyperbolicRun(s, start, grid, area);
    }
  }
}
