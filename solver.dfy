/**
 * The newest solvers: the shared base (area, initial layer, tridiagonal
 * step with the calcMN border translation on both sides) and the parabolic
 * and hyperbolic layer loops.  They work on the old Area, Interval and
 * Matrix classes, and each proves that row j of its grid is layer j of the
 * scheme in Schemes.
 */
module Solver {
  import opened RowMajor
  import opened Thomas
  import opened Border
  import opened Equations
  import opened Discretisation
  import opened Schemes
  import LegacySpace
  import LegacyMatrix

  /** The scheme the newest solvers run for eq with steps h and tau over n space steps. */
  function SchemeOf(eq: Equation, h: real, tau: real, n: int): (s: Scheme)
    ensures !s.mirrored && s.left == eq.left && s.right == eq.right
  {
    Scheme(eq.q, eq.left, eq.right, false, eq.x1, h, tau, n)
  }

  /** area is [x1, x2] with step h by [0, t2] with step tau. */
  ghost predicate Covers(area: LegacySpace.Area, x1: real, x2: real, t2: real, h: real, tau: real)
    reads area.x, area.t
  {
    area.Valid()
    && area.x.x1 == x1 && area.x.x2 == x2 && area.x.h == h
    && area.t.x1 == 0.0 && area.t.x2 == t2 && area.t.h == tau
  }

  /** The nodes and steps of area are those of scheme s. */
  ghost predicate Fits(s: Scheme, area: LegacySpace.Area)
    reads area.x, area.t
  {
    area.Valid()
    && area.x.x1 == s.x1 && area.x.h == s.h && area.x.n == s.n
    && area.t.x1 == 0.0 && area.t.h == s.tau
  }

  /** Four scratch arrays distinct from each other and from the grid's buffer. */
  predicate Scratch(A: array<real>, B: array<real>, C: array<real>, F: array<real>, d: array<real>) {
    A != B && A != C && A != F && B != C && B != F && C != F
    && d != A && d != B && d != C && d != F
  }

  /** A grid whose every step count is at least one. */
  lemma CoveredCounts(area: LegacySpace.Area, x1: real, x2: real, t2: real, h: real, tau: real)
    requires Covers(area, x1, x2, t2, h, tau)
    ensures area.XN() >= 1 && area.TN() >= 1
  {
    StepCountBounds(area.x.x1, area.x.x2, area.x.h);
    StepCountBounds(area.t.x1, area.t.x2, area.t.h);
  }

  /** A buffer of m + 1 rows less its first row holds m rows. */
  lemma ZeroRowsBelow(m: nat, n: nat)
    ensures (m + 1) * n - n == m * n && n <= (m + 1) * n
  {
  }

  /** Node i of the area's space interval is Coord(x1, h, i). */
  lemma SpaceNode(area: LegacySpace.Area, i: int)
    requires area.x.Valid() && 0 <= i <= area.XN()
    ensures area.XX(i) == Coord(area.x.x1, area.x.h, i)
  {
  }

  /** The area's space nodes around i are the scheme's. */
  lemma SpaceNodes(s: Scheme, area: LegacySpace.Area, i: int)
    requires Fits(s, area) && 0 < i < s.n
    ensures area.XX(i - 1) == s.Node(i - 1) && area.XX(i) == s.Node(i) && area.XX(i + 1) == s.Node(i + 1)
  {
  }

  /** The area's time node j is the scheme's. */
  lemma TimeNode(s: Scheme, area: LegacySpace.Area, j: int)
    requires Fits(s, area) && 0 <= j <= area.TN()
    ensures area.TX(j) == s.Time(j)
  {
  }

  /** Cell (0, j) sits at offset j. */
  lemma FirstRowOffset(d: seq<real>, m: nat, n: nat, j: nat, v: real)
    requires Shaped(d, m, n) && 0 < m && j < n
    ensures WithCell(d, m, n, 0, j, v) == d[j := v]
  {
  }

  /** Row 0 of a buffer that starts with r is r. */
  lemma RowZero(d: seq<real>, r: seq<real>, m: nat, n: nat)
    requires Shaped(d, m, n) && 0 < m && |r| == n && d[..n] == r
    ensures Row(d, m, n, 0) == r
  {
  }

  /** One more initial value written after a prefix of them, in a zero-filled buffer. */
  lemma PrefixGrows(p: seq<real>, i: nat, len: nat)
    requires i < |p| && i < len
    ensures (p[..i] + Filled(len - i, 0.0))[i := p[i]] == p[..i + 1] + Filled(len - i - 1, 0.0)
  {
  }

  /** Writing the next initial value into cell (0, i) of a buffer holding the first i of them, then zeros. */
  lemma InitialStep(d: seq<real>, m: nat, n: nat, p: seq<real>, i: nat, v: real)
    requires Shaped(d, m, n) && 0 < m && i < n && i < |p| && p[i] == v
    requires d == p[..i] + Filled(|d| - i, 0.0)
    ensures WithCell(d, m, n, 0, i, v) == p[..i + 1] + Filled(|d| - i - 1, 0.0)
  {
    FirstRowOffset(d, m, n, i, v);
    PrefixGrows(p, i, |d|);
  }

  // ------------------------------------------------------------ AbstractEquationSolver

  /**
   * buildArea: the space interval [x1, x2] with step h and the time interval
   * [0, t2] with step tau; the interval constructor demands a nonempty
   * interval and a step no longer than it.
   */
  method BuildArea(eq: Equation, h: real, tau: real) returns (area: LegacySpace.Area)
    requires eq.x1 < eq.x2 && 0.0 < h <= eq.x2 - eq.x1
    requires 0.0 < eq.t2 && 0.0 < tau <= eq.t2
    ensures fresh(area.x) && fresh(area.t)
    ensures Covers(area, eq.x1, eq.x2, eq.t2, h, tau)
  {
    var x := new LegacySpace.Interval.FromStep(eq.x1, eq.x2, h);
    var t := new LegacySpace.Interval.FromStep(0.0, eq.t2, tau);
    area := LegacySpace.Area(x, t);
  }

  /**
   * prepare: a (tn + 1) x (xn + 1) grid whose row 0 holds U0 at every space
   * node and whose other cells are zero.
   */
  method Prepare(u0: real -> real, area: LegacySpace.Area) returns (grid: LegacyMatrix.Matrix)
    requires area.Valid()
    ensures fresh(grid) && fresh(grid.data) && grid.Valid()
    ensures grid.m == area.TN() + 1 && grid.n == area.XN() + 1
    ensures grid.data[..] == InitialLayer(u0, area.x.x1, area.x.h, area.XN()) + Filled(area.TN() * (area.XN() + 1), 0.0)
    ensures grid.GetRow(0) == InitialLayer(u0, area.x.x1, area.x.h, area.XN())
  {
    StepCountBounds(area.x.x1, area.x.x2, area.x.h);
    StepCountBounds(area.t.x1, area.t.x2, area.t.h);
    var m, n := area.TN() + 1, area.XN() + 1;
    grid := new LegacyMatrix.Matrix(m, n);
    ZeroRowsBelow(area.TN(), n);
    InitialRow(u0, area, grid);
    RowZero(grid.data[..], InitialLayer(u0, area.x.x1, area.x.h, area.XN()), grid.m, n);
  }

  /** The loop of prepare: U0 at space node i goes into cell (0, i), for i = 0..xn. */
  method InitialRow(u0: real -> real, area: LegacySpace.Area, grid: LegacyMatrix.Matrix)
    requires area.x.Valid() && grid.Valid() && grid.n == area.XN() + 1 && grid.data[..] == Filled(grid.data.Length, 0.0)
    modifies grid.data
    ensures grid.data[..] == InitialLayer(u0, area.x.x1, area.x.h, area.XN()) + Filled(grid.data.Length - grid.n, 0.0)
  {
    ghost var row0 := InitialLayer(u0, area.x.x1, area.x.h, area.XN());
    ghost var len := grid.data.Length;
    var n, xn := grid.n, area.XN();
    var i := 0;
    while i <= xn
      invariant 0 <= i <= n
      invariant grid.data[..] == row0[..i] + Filled(len - i, 0.0)
    {
      var v := u0(area.XX(i));
      SpaceNode(area, i);
      InitialStep(grid.data[..], grid.m, n, row0, i, v);
      grid.Set(0, i, v);
      i := i + 1;
    }
    assert row0[..i] == row0;
  }

  /** The tridiagonal step of the newest solvers: calcMN translates both borders forwards at the given time. */
  method Progonka(eq: Equation, h: real, time: real, A: array<real>, B: array<real>, C: array<real>, F: array<real>)
    returns (Y: array<real>)
    requires A.Length >= 1 && B.Length >= A.Length && C.Length >= A.Length && F.Length >= A.Length
    ensures fresh(Y)
    ensures Y[..] == Solve(System(A[..], B[..], C[..], F[..], Forward(eq.left, h, time), Forward(eq.right, h, time)))
  {
    var mn1 := Forward(eq.left, h, time);
    var mn2 := Forward(eq.right, h, time);
    Y := Thomas.Progonka(A, B, C, F, mn1, mn2);
  }

  // ------------------------------------------------------------ filling one layer's rows

  /**
   * One interior row of the parabolic loop: the neighbouring values of row j
   * and the weights at space node i and time node j give row i of the system.
   */
  method ParabolicRowAt(s: Scheme, j: int, grid: LegacyMatrix.Matrix, area: LegacySpace.Area, i: int) returns (r: Band)
    requires s.Valid() && Fits(s, area) && grid.Valid() && grid.n == s.n + 1 && 0 <= j < grid.m && j <= area.TN() && 0 < i < s.n
    ensures r == ParabolicBandOf(s, j, grid.GetRow(j), i)
  {
    RowCell(grid.data[..], grid.m, grid.n, j, i - 1);
    RowCell(grid.data[..], grid.m, grid.n, j, i);
    RowCell(grid.data[..], grid.m, grid.n, j, i + 1);
    var um, u, up := grid.Get(j, i - 1), grid.Get(j, i), grid.Get(j, i + 1);
    var xm, x, xp, t := area.XX(i - 1), area.XX(i), area.XX(i + 1), area.TX(j);
    SpaceNodes(s, area, i);
    TimeNode(s, area, j);
    r := ParabolicRow(s.q, s.h, s.tau, xm, x, xp, t, um, u, up);
  }

  /**
   * One interior row of the hyperbolic loop: the neighbouring values of row j,
   * the value of row j + 1 at node i and the weights at space node i and time
   * node j give row i of the system.
   */
  method HyperbolicRowAt(s: Scheme, j: int, grid: LegacyMatrix.Matrix, area: LegacySpace.Area, i: int) returns (r: Band)
    requires s.Valid() && Fits(s, area) && grid.Valid() && grid.n == s.n + 1 && 0 <= j && j + 1 < grid.m && j <= area.TN() && 0 < i < s.n
    ensures r == HyperbolicBandOf(s, j, grid.GetRow(j), grid.GetRow(j + 1), i)
  {
    RowCell(grid.data[..], grid.m, grid.n, j, i - 1);
    RowCell(grid.data[..], grid.m, grid.n, j, i);
    RowCell(grid.data[..], grid.m, grid.n, j, i + 1);
    RowCell(grid.data[..], grid.m, grid.n, j + 1, i);
    var um, u, up, w := grid.Get(j, i - 1), grid.Get(j, i), grid.Get(j, i + 1), grid.Get(j + 1, i);
    var x, t := area.XX(i), area.TX(j);
    SpaceNodes(s, area, i);
    TimeNode(s, area, j);
    r := HyperbolicRow(s.q, s.h, s.tau, x, t, um, u, up, w);
  }

  /** Row i of the system goes into the four scratch arrays; the rows already stored stay as they were. */
  method StoreBand(A: array<real>, B: array<real>, C: array<real>, F: array<real>, i: int, r: Band, ghost bands: seq<Band>)
    requires A != B && A != C && A != F && B != C && B != F && C != F
    requires 0 < i < A.Length && A.Length == B.Length == C.Length == F.Length == |bands| && r == bands[i]
    requires forall k {:trigger A[k]} :: 0 < k < i ==> Band(A[k], B[k], C[k], F[k]) == bands[k]
    modifies A, B, C, F
    ensures forall k {:trigger A[k]} :: 0 < k <= i ==> Band(A[k], B[k], C[k], F[k]) == bands[k]
  {
    A[i], B[i], C[i], F[i] := r.a, r.b, r.c, r.f;
  }

  /** Rows 1..N-1 of the parabolic system that leads from row j of the grid to layer j + 1. */
  method ParabolicRows(s: Scheme, j: int, grid: LegacyMatrix.Matrix, area: LegacySpace.Area,
                       A: array<real>, B: array<real>, C: array<real>, F: array<real>)
    requires s.Valid() && Fits(s, area) && grid.Valid() && grid.n == s.n + 1 && 0 <= j < grid.m && j <= area.TN()
    requires Scratch(A, B, C, F, grid.data) && A.Length == s.n && B.Length == s.n && C.Length == s.n && F.Length == s.n
    modifies A, B, C, F
    ensures forall i :: 0 < i < s.n ==> Band(A[i], B[i], C[i], F[i]) == ParabolicBandOf(s, j, grid.GetRow(j), i)
  {
    ghost var u := grid.GetRow(j);
    ghost var bands := ParabolicBands(s, j, u);
    var i := 1;
    while i < s.n
      invariant 1 <= i <= s.n
      invariant forall k {:trigger A[k]} :: 0 < k < i ==> Band(A[k], B[k], C[k], F[k]) == bands[k]
    {
      var r := ParabolicRowAt(s, j, grid, area, i);
      assert r == bands[i];
      StoreBand(A, B, C, F, i, r, bands);
      i := i + 1;
    }
  }

  /** Rows 1..N-1 of the hyperbolic system that leads from rows j and j + 1 of the grid to layer j + 2. */
  method HyperbolicRows(s: Scheme, j: int, grid: LegacyMatrix.Matrix, area: LegacySpace.Area,
                        A: array<real>, B: array<real>, C: array<real>, F: array<real>)
    requires s.Valid() && Fits(s, area) && grid.Valid() && grid.n == s.n + 1 && 0 <= j && j + 1 < grid.m && j <= area.TN()
    requires Scratch(A, B, C, F, grid.data) && A.Length == s.n && B.Length == s.n && C.Length == s.n && F.Length == s.n
    modifies A, B, C, F
    ensures forall i :: 0 < i < s.n ==>
      Band(A[i], B[i], C[i], F[i]) == HyperbolicBandOf(s, j, grid.GetRow(j), grid.GetRow(j + 1), i)
  {
    ghost var u, w := grid.GetRow(j), grid.GetRow(j + 1);
    ghost var bands := HyperbolicBands(s, j, u, w);
    var i := 1;
    while i < s.n
      invariant 1 <= i <= s.n
      invariant forall k {:trigger A[k]} :: 0 < k < i ==> Band(A[k], B[k], C[k], F[k]) == bands[k]
    {
      var r := HyperbolicRowAt(s, j, grid, area, i);
      assert r == bands[i];
      StoreBand(A, B, C, F, i, r, bands);
      i := i + 1;
    }
  }

  /**
   * Layer 1 of the hyperbolic solvers, written into row 1 from row 0: the two
   * border cells as start says, then the first-layer formula at every
   * interior node.  The buffer changes in row 1 only.
   */
  method FirstLayerInto(s: Scheme, start: Start, grid: LegacyMatrix.Matrix, area: LegacySpace.Area)
    requires s.Valid() && Fits(s, area) && grid.Valid() && grid.n == s.n + 1 && grid.m >= 2
    modifies grid.data
    ensures grid.data[..] == WithRow(old(grid.data[..]), grid.m, grid.n, 1, FirstLayer(s, start, old(grid.GetRow(0))))
  {
    ghost var d0 := grid.data[..];
    ghost var r := FirstLayerEnds(s, start, grid);
    FirstLayerInside(s, start, grid, area, d0, r);
  }

  /** The two border cells of layer 1, as start says, written over row 1; the rest of row 1 is as it was. */
  method FirstLayerEnds(s: Scheme, start: Start, grid: LegacyMatrix.Matrix) returns (ghost r: seq<real>)
    requires s.Valid() && grid.Valid() && grid.n == s.n + 1 && grid.m >= 2
    modifies grid.data
    ensures |r| == s.n + 1 && grid.data[..] == WithRow(old(grid.data[..]), grid.m, grid.n, 1, r)
    ensures r[0] == FirstLayerAt(s, start, old(grid.GetRow(0)), 0)
    ensures r[s.n] == FirstLayerAt(s, start, old(grid.GetRow(0)), s.n)
  {
    var n := s.n;
    ghost var d0 := grid.data[..];
    r := Row(d0, grid.m, grid.n, 1);
    WithOwnRow(d0, grid.m, grid.n, 1);
    RowCell(d0, grid.m, grid.n, 0, 0);
    RowCell(d0, grid.m, grid.n, 0, n);
    var first := match start
      case Extrapolated(xl, _) => FirstLayerBorder(s.q, s.tau, grid.Get(0, 0), xl)
      case Prescribed(lu, _) => lu(s.tau);
    var last := match start
      case Extrapolated(_, xr) => FirstLayerBorder(s.q, s.tau, grid.Get(0, n), xr)
      case Prescribed(_, ru) => ru(s.tau);
    WithCellOfWithRow(d0, grid.m, grid.n, 1, r, 0, first);
    grid.Set(1, 0, first);
    r := r[0 := first];
    WithCellOfWithRow(d0, grid.m, grid.n, 1, r, n, last);
    grid.Set(1, n, last);
    r := r[n := last];
  }

  /** The interior loop of layer 1: the first-layer formula at nodes 1..n-1 from row 0's neighbouring values. */
  method FirstLayerInside(s: Scheme, start: Start, grid: LegacyMatrix.Matrix, area: LegacySpace.Area,
                          ghost d0: seq<real>, ghost r0: seq<real>)
    requires s.Valid() && Fits(s, area) && grid.Valid() && grid.n == s.n + 1 && grid.m >= 2
    requires |d0| == grid.m * grid.n && |r0| == s.n + 1 && grid.data[..] == WithRow(d0, grid.m, grid.n, 1, r0)
    requires r0[0] == FirstLayerAt(s, start, Row(d0, grid.m, grid.n, 0), 0)
    requires r0[s.n] == FirstLayerAt(s, start, Row(d0, grid.m, grid.n, 0), s.n)
    modifies grid.data
    ensures grid.data[..] == WithRow(d0, grid.m, grid.n, 1, FirstLayer(s, start, Row(d0, grid.m, grid.n, 0)))
  {
    var n := s.n;
    ghost var u := Row(d0, grid.m, grid.n, 0);
    ghost var r := r0;
    var i := 1;
    while i < n
      invariant 1 <= i <= n && |r| == n + 1
      invariant grid.data[..] == WithRow(d0, grid.m, grid.n, 1, r)
      invariant forall c {:trigger r[c]} :: 0 <= c < i || c == n ==> r[c] == FirstLayerAt(s, start, u, c)
    {
      r := FirstLayerCell(s, grid, area, d0, r, i);
      i := i + 1;
    }
    FirstLayerFromNodes(s, start, u, r);
  }

  /** Pass i of the interior loop of layer 1: cell (1, i) gets the first-layer formula at node i from row 0. */
  method FirstLayerCell(s: Scheme, grid: LegacyMatrix.Matrix, area: LegacySpace.Area,
                        ghost d0: seq<real>, ghost r: seq<real>, i: int) returns (ghost r2: seq<real>)
    requires s.Valid() && Fits(s, area) && grid.Valid() && grid.n == s.n + 1 && grid.m >= 2 && 0 < i < s.n
    requires |d0| == grid.m * grid.n && |r| == s.n + 1 && grid.data[..] == WithRow(d0, grid.m, grid.n, 1, r)
    modifies grid.data
    ensures var u := Row(d0, grid.m, grid.n, 0);
      r2 == r[i := FirstLayerInterior(s.q, s.h, s.tau, s.Node(i), u[i - 1], u[i], u[i + 1])]
    ensures grid.data[..] == WithRow(d0, grid.m, grid.n, 1, r2)
  {
    var um, ui, up := grid.Get(0, i - 1), grid.Get(0, i), grid.Get(0, i + 1);
    OtherRowCells(d0, grid.m, grid.n, r, i);
    SpaceNodes(s, area, i);
    var v := FirstLayerInterior(s.q, s.h, s.tau, area.XX(i), um, ui, up);
    WithCellOfWithRow(d0, grid.m, grid.n, 1, r, i, v);
    grid.Set(1, i, v);
    r2 := r[i := v];
  }

  /** Layer 1 written over a grid whose row 0 is layer 0: rows 0 and 1 are then layers 0 and 1 of the scheme. */
  method StartLayers(s: Scheme, start: Start, grid: LegacyMatrix.Matrix, area: LegacySpace.Area)
    requires s.Valid() && Fits(s, area) && grid.Valid() && grid.n == s.n + 1 && grid.m >= 2
    requires grid.GetRow(0) == HyperbolicLayer(s, start, 0)
    modifies grid.data
    ensures grid.GetRow(0) == HyperbolicLayer(s, start, 0) && grid.GetRow(1) == HyperbolicLayer(s, start, 1)
  {
    ghost var d := grid.data[..];
    FirstLayerInto(s, start, grid, area);
    RowsOfWithRow(d, grid.m, grid.n, 1, HyperbolicLayer(s, start, 1));
  }

  /** While row 1 is being written, cells i - 1, i and i + 1 of row 0 still hold the initial row's values. */
  lemma OtherRowCells(d0: seq<real>, m: nat, n: nat, r: seq<real>, i: nat)
    requires Shaped(d0, m, n) && 2 <= m && |r| == n && 0 < i && i + 1 < n
    ensures var w := WithRow(d0, m, n, 1, r);
      Cell(w, m, n, 0, i - 1) == Row(d0, m, n, 0)[i - 1] && Cell(w, m, n, 0, i) == Row(d0, m, n, 0)[i]
      && Cell(w, m, n, 0, i + 1) == Row(d0, m, n, 0)[i + 1]
  {
    CellOfWithRow(d0, m, n, 1, r, 0, i - 1);
    CellOfWithRow(d0, m, n, 1, r, 0, i);
    CellOfWithRow(d0, m, n, 1, r, 0, i + 1);
    RowCell(d0, m, n, 0, i - 1);
    RowCell(d0, m, n, 0, i);
    RowCell(d0, m, n, 0, i + 1);
  }

  // ------------------------------------------------------------ the solvers

  /**
   * One pass of the parabolic layer loop: the rows built from layer j, the
   * tridiagonal step at time node j + 1, and the copy of its solution into
   * row j + 1, which becomes layer j + 1; no other row changes.
   */
  method ParabolicStepInto(eq: Equation, s: Scheme, j: nat, grid: LegacyMatrix.Matrix, area: LegacySpace.Area,
                           A: array<real>, B: array<real>, C: array<real>, F: array<real>)
    requires s == SchemeOf(eq, s.h, s.tau, s.n) && s.Valid() && Fits(s, area)
    requires grid.Valid() && grid.n == s.n + 1 && grid.m == area.TN() + 1 && j + 1 < grid.m
    requires Scratch(A, B, C, F, grid.data) && A.Length == s.n && B.Length == s.n && C.Length == s.n && F.Length == s.n
    modifies grid.data, A, B, C, F
    ensures grid.data[..] == WithRow(old(grid.data[..]), grid.m, grid.n, j + 1, ParabolicNext(s, j, old(grid.GetRow(j))))
  {
    ghost var u := grid.GetRow(j);
    ParabolicRows(s, j, grid, area, A, B, C, F);
    var nj := j + 1;
    var time := area.TX(nj);
    TimeNode(s, area, nj);
    var U := Progonka(eq, s.h, time, A, B, C, F);
    ParabolicStep(s, j, u, A[..], B[..], C[..], F[..]);
    grid.SetRow(nj, U[..]);
  }

  /**
   * ParabolicEquationSolver.solve: row j of the returned grid is layer j of
   * the parabolic scheme, for every time node j.
   */
  method SolveParabolic(eq: Equation, h: real, tau: real) returns (area: LegacySpace.Area, grid: LegacyMatrix.Matrix)
    requires eq.x1 < eq.x2 && 0.0 < h <= eq.x2 - eq.x1
    requires 0.0 < eq.t2 && 0.0 < tau <= eq.t2
    ensures fresh(area.x) && fresh(area.t) && fresh(grid) && fresh(grid.data)
    ensures Covers(area, eq.x1, eq.x2, eq.t2, h, tau) && area.XN() >= 1 && grid.Valid()
    ensures grid.m == area.TN() + 1 && grid.n == area.XN() + 1
    ensures forall j :: 0 <= j < grid.m ==> grid.GetRow(j) == ParabolicLayer(SchemeOf(eq, h, tau, area.XN()), j)
  {
    area := BuildArea(eq, h, tau);
    CoveredCounts(area, eq.x1, eq.x2, eq.t2, h, tau);
    grid := Prepare(eq.q.u0, area);
    var n := area.XN();
    var s := SchemeOf(eq, h, tau, n);
    var A, B, C, F := new real[n], new real[n], new real[n], new real[n];
    ParabolicLoop(eq, s, grid, area, A, B, C, F);
  }

  /** The layer loop of ParabolicEquationSolver.solve, for j = 0 .. tn - 1, over a grid whose row 0 is layer 0. */
  method ParabolicLoop(eq: Equation, s: Scheme, grid: LegacyMatrix.Matrix, area: LegacySpace.Area,
                       A: array<real>, B: array<real>, C: array<real>, F: array<real>)
    requires s == SchemeOf(eq, s.h, s.tau, s.n) && s.Valid() && Fits(s, area)
    requires grid.Valid() && grid.n == s.n + 1 && grid.m == area.TN() + 1
    requires Scratch(A, B, C, F, grid.data) && A.Length == s.n && B.Length == s.n && C.Length == s.n && F.Length == s.n
    requires grid.GetRow(0) == ParabolicLayer(s, 0)
    modifies grid.data, A, B, C, F
    ensures forall j :: 0 <= j < grid.m ==> grid.GetRow(j) == ParabolicLayer(s, j)
  {
    var j := 0;
    while j < area.TN()
      invariant 0 <= j <= area.TN()
      invariant forall k :: 0 <= k <= j ==> grid.GetRow(k) == ParabolicLayer(s, k)
    {
      ghost var d := grid.data[..];
      ParabolicStepInto(eq, s, j, grid, area, A, B, C, F);
      ParabolicLayerFollows(s, j);
      RowsOfWithRow(d, grid.m, grid.n, j + 1, ParabolicLayer(s, j + 1));
      j := j + 1;
    }
  }

  /**
   * One pass of the hyperbolic layer loop: the rows built from layers j and
   * j + 1, the tridiagonal step at time node j + 2, and the copy of its
   * solution into row j + 2; no other row changes.
   */
  method HyperbolicStepInto(eq: Equation, s: Scheme, j: nat, grid: LegacyMatrix.Matrix, area: LegacySpace.Area,
                            A: array<real>, B: array<real>, C: array<real>, F: array<real>)
    requires s == SchemeOf(eq, s.h, s.tau, s.n) && s.Valid() && Fits(s, area)
    requires grid.Valid() && grid.n == s.n + 1 && grid.m == area.TN() + 1 && j + 2 < grid.m
    requires Scratch(A, B, C, F, grid.data) && A.Length == s.n && B.Length == s.n && C.Length == s.n && F.Length == s.n
    modifies grid.data, A, B, C, F
    ensures grid.data[..] ==
      WithRow(old(grid.data[..]), grid.m, grid.n, j + 2, HyperbolicNext(s, j, old(grid.GetRow(j)), old(grid.GetRow(j + 1))))
  {
    ghost var u, w := grid.GetRow(j), grid.GetRow(j + 1);
    HyperbolicRows(s, j, grid, area, A, B, C, F);
    var nj := j + 2;
    var time := area.TX(nj);
    TimeNode(s, area, nj);
    var U := Progonka(eq, s.h, time, A, B, C, F);
    HyperbolicStep(s, j, u, w, A[..], B[..], C[..], F[..]);
    grid.SetRow(nj, U[..]);
  }

  /**
   * HyperbolicEquationSolver.solve: row j of the returned grid is layer j of
   * the hyperbolic scheme whose layer 1 extrapolates to the ends of the
   * area, for every time node j.
   */
  method SolveHyperbolic(eq: Equation, h: real, tau: real) returns (area: LegacySpace.Area, grid: LegacyMatrix.Matrix)
    requires eq.x1 < eq.x2 && 0.0 < h <= eq.x2 - eq.x1
    requires 0.0 < eq.t2 && 0.0 < tau <= eq.t2
    ensures fresh(area.x) && fresh(area.t) && fresh(grid) && fresh(grid.data)
    ensures Covers(area, eq.x1, eq.x2, eq.t2, h, tau) && area.XN() >= 1 && grid.Valid()
    ensures grid.m == area.TN() + 1 && grid.n == area.XN() + 1
    ensures forall j :: 0 <= j < grid.m ==>
      grid.GetRow(j) == HyperbolicLayer(SchemeOf(eq, h, tau, area.XN()), Extrapolated(eq.x1, eq.x2), j)
  {
    area := BuildArea(eq, h, tau);
    CoveredCounts(area, eq.x1, eq.x2, eq.t2, h, tau);
    grid := Prepare(eq.q.u0, area);
    var n := area.XN();
    var s := SchemeOf(eq, h, tau, n);
    var start := Extrapolated(area.XLeft(), area.XRight());
    var A, B, C, F := new real[n], new real[n], new real[n], new real[n];
    StartLayers(s, start, grid, area);
    HyperbolicLoop(eq, s, start, grid, area, A, B, C, F);
  }

  /** The layer loop of HyperbolicEquationSolver.solve, for j = 0 .. tn - 2, over a grid whose rows 0 and 1 are layers 0 and 1. */
  method HyperbolicLoop(eq: Equation, s: Scheme, start: Start, grid: LegacyMatrix.Matrix, area: LegacySpace.Area,
                        A: array<real>, B: array<real>, C: array<real>, F: array<real>)
    requires s == SchemeOf(eq, s.h, s.tau, s.n) && s.Valid() && Fits(s, area)
    requires grid.Valid() && grid.n == s.n + 1 && grid.m == area.TN() + 1 && grid.m >= 2
    requires Scratch(A, B, C, F, grid.data) && A.Length == s.n && B.Length == s.n && C.Length == s.n && F.Length == s.n
    requires grid.GetRow(0) == HyperbolicLayer(s, start, 0) && grid.GetRow(1) == HyperbolicLayer(s, start, 1)
    modifies grid.data, A, B, C, F
    ensures forall j :: 0 <= j < grid.m ==> grid.GetRow(j) == HyperbolicLayer(s, start, j)
  {
    var j := 0;
    while j <= area.TN() - 2
      invariant 0 <= j <= area.TN() - 1
      invariant forall k :: 0 <= k <= j + 1 ==> grid.GetRow(k) == HyperbolicLayer(s, start, k)
    {
      ghost var d := grid.data[..];
      HyperbolicStepInto(eq, s, j, grid, area, A, B, C, F);
      HyperbolicLayerFollows(s, start, j);
      RowsOfWithRow(d, grid.m, grid.n, j + 2, HyperbolicLayer(s, start, j + 2));
      j := j + 1;
    }
  }
}
