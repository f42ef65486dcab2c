/**
 * The middle revision of the equation classes (by.andd3dfx.math.pde.equation):
 * an equation object that owns its area, rebuilds the area's intervals in
 * place for the chosen steps, fills the initial layer and runs the
 * tridiagonal step with the right border's signs mirrored; and the solution
 * record that slices the grid.  Both work on the older Area, Interval and
 * Matrix classes.
 */
module EquationRevision {
  import opened RowMajor
  import opened Thomas
  import opened Border
  import opened Equations
  import opened Schemes
  import opened Discretisation
  import LegacySpace
  import LegacyMatrix
  import Solver

  // ------------------------------------------------------------ slices shared by the older revisions

  /** Writing pair i of a two-row matrix sets X(i) and Y(i) and leaves every other pair as it was. */
  lemma PairWritten(d: seq<real>, n: nat, i: nat, x: real, y: real, k: nat)
    requires |d| == 2 * n && i < n && k < n
    ensures Shaped(WithCell(WithCell(d, 2, n, 0, i, x), 2, n, 1, i, y), 2, n)
    ensures var w := WithCell(WithCell(d, 2, n, 0, i, x), 2, n, 1, i, y);
      Cell(w, 2, n, 0, k) == (if k == i then x else Cell(d, 2, n, 0, k))
      && Cell(w, 2, n, 1, k) == (if k == i then y else Cell(d, 2, n, 1, k))
  {
    var d1 := WithCell(d, 2, n, 0, i, x);
    CellOfWithCell(d, 2, n, 0, i, x, 0, k);
    CellOfWithCell(d, 2, n, 0, i, x, 1, k);
    CellOfWithCell(d1, 2, n, 1, i, y, 0, k);
    CellOfWithCell(d1, 2, n, 1, i, y, 1, k);
  }

  /**
   * The time-layer slice: a fresh 2 x N matrix whose pair i is the space node
   * x(i) and the value in row it, column i, for every column i of the grid.
   */
  method LayerSlice(area: LegacySpace.Area, grid: LegacyMatrix.Matrix, it: int) returns (r: LegacyMatrix.Matrix)
    requires area.x.Valid() && grid.Valid() && grid.n == area.XN() + 1 && 0 <= it < grid.m
    ensures fresh(r) && fresh(r.data) && r.Valid() && r.m == 2 && r.n == grid.n
    ensures forall i :: 0 <= i < grid.n ==> r.X(i) == area.XX(i) && r.Y(i) == grid.Get(it, i)
  {
    var n := grid.n;
    r := new LegacyMatrix.Matrix(2, n);
    var i := 0;
    while i < n
      invariant 0 <= i <= n && r.Valid() && r.m == 2 && r.n == n && fresh(r.data)
      invariant forall k :: 0 <= k < i ==> r.X(k) == area.XX(k) && r.Y(k) == grid.Get(it, k)
    {
      ghost var d := r.data[..];
      assert forall k :: 0 <= k < i ==> Cell(d, 2, n, 0, k) == area.XX(k) && Cell(d, 2, n, 1, k) == grid.Get(it, k);
      var x, y := area.XX(i), grid.Get(it, i);
      r.SetX(i, x);
      r.SetY(i, y);
      forall k | 0 <= k <= i
        ensures r.X(k) == area.XX(k) && r.Y(k) == grid.Get(it, k)
      {
        PairWritten(d, n, i, x, y, k);
      }
      i := i + 1;
    }
  }

  /**
   * The space-column slice: a fresh 2 x M matrix whose pair i is the time
   * node t(i) and the value in row i, column ix, for every row i of the grid.
   */
  method ColumnSlice(area: LegacySpace.Area, grid: LegacyMatrix.Matrix, ix: int) returns (r: LegacyMatrix.Matrix)
    requires area.t.Valid() && grid.Valid() && grid.m == area.TN() + 1 && 0 <= ix < grid.n
    ensures fresh(r) && fresh(r.data) && r.Valid() && r.m == 2 && r.n == grid.m
    ensures forall i :: 0 <= i < grid.m ==> r.X(i) == area.TX(i) && r.Y(i) == grid.Get(i, ix)
  {
    var m := grid.m;
    r := new LegacyMatrix.Matrix(2, m);
    var i := 0;
    while i < m
      invariant 0 <= i <= m && r.Valid() && r.m == 2 && r.n == m && fresh(r.data)
      invariant forall k :: 0 <= k < i ==> r.X(k) == area.TX(k) && r.Y(k) == grid.Get(k, ix)
    {
      ghost var d := r.data[..];
      assert forall k :: 0 <= k < i ==> Cell(d, 2, m, 0, k) == area.TX(k) && Cell(d, 2, m, 1, k) == grid.Get(k, ix);
      var x, y := area.TX(i), grid.Get(i, ix);
      r.SetX(i, x);
      r.SetY(i, y);
      forall k | 0 <= k <= i
        ensures r.X(k) == area.TX(k) && r.Y(k) == grid.Get(k, ix)
      {
        PairWritten(d, m, i, x, y, k);
      }
      i := i + 1;
    }
  }

  // ------------------------------------------------------------ Equation

  /**
   * The equation of this revision: the area it owns, the two border
   * conditions and the coefficients; a subclass overriding gU0, gM, gK, gV or
   * gF is a different q.
   */
  class Equation {
    const area: LegacySpace.Area
    const left: BC
    const right: BC
    const q: Coefficients

    /** Both intervals start as one step: [x1, x2] and [0, t2]; the interval constructor demands x1 < x2 and t2 > 0. */
    constructor (x1: real, x2: real, t2: real, left: BC, right: BC, q: Coefficients)
      requires x1 < x2 && 0.0 < t2
      ensures fresh(area.x) && fresh(area.t) && area.Valid()
      ensures area.XLeft() == x1 && area.XRight() == x2 && area.XN() == 1
      ensures area.TLeft() == 0.0 && area.TRight() == t2 && area.TN() == 1
      ensures this.left == left && this.right == right && this.q == q
    {
      var x := new LegacySpace.Interval.FromCount(x1, x2, 1);
      var t := new LegacySpace.Interval.FromCount(0.0, t2, 1);
      area := LegacySpace.Area(x, t);
      this.left := left;
      this.right := right;
      this.q := q;
    }

    /**
     * prepare: both intervals are rebuilt in place with the new steps and
     * their bounds kept, then a (tn + 1) x (xn + 1) grid gets U0 at every
     * space node in row 0 and zeros elsewhere.  Each rebuilt step must fit
     * in its interval.
     */
    method Prepare(h: real, tau: real) returns (grid: LegacyMatrix.Matrix)
      requires area.Valid()
      requires 0.0 < h <= area.XRight() - area.XLeft() && 0.0 < tau <= area.TRight() - area.TLeft()
      modifies area.x, area.t
      ensures area.Valid()
      ensures area.XLeft() == old(area.XLeft()) && area.XRight() == old(area.XRight()) && area.x.h == h
      ensures area.TLeft() == old(area.TLeft()) && area.TRight() == old(area.TRight()) && area.t.h == tau
      ensures area.XN() == StepCount(area.XLeft(), area.XRight(), h) && area.TN() == StepCount(area.TLeft(), area.TRight(), tau)
      ensures fresh(grid) && fresh(grid.data) && grid.Valid()
      ensures grid.m == area.TN() + 1 && grid.n == area.XN() + 1
      ensures grid.data[..] == InitialLayer(q.u0, area.XLeft(), h, area.XN()) + Filled(area.TN() * (area.XN() + 1), 0.0)
    {
      area.x.RebornStep(area.x.x1, area.x.x2, h);
      area.t.RebornStep(area.t.x1, area.t.x2, tau);
      grid := Solver.Prepare(q.u0, area);
    }

    /**
     * progonka: the border pairs at time node nj, the left one as written
     * for a left border and the right one with mirrored signs, then the
     * tridiagonal sweeps; A needs at least one entry for the sweep's start.
     */
    method Progonka(h: real, nj: int, A: array<real>, B: array<real>, C: array<real>, F: array<real>)
      returns (Y: array<real>)
      requires area.t.Valid() && 0 <= nj <= area.TN()
      requires A.Length >= 1 && B.Length >= A.Length && C.Length >= A.Length && F.Length >= A.Length
      ensures fresh(Y)
      ensures Y[..] == Solve(System(A[..], B[..], C[..], F[..], Forward(left, h, area.TX(nj)), Mirrored(right, h, area.TX(nj))))
    {
      var t := area.TX(nj);
      Y := Thomas.Progonka(A, B, C, F, Forward(left, h, t), Mirrored(right, h, t));
    }
  }

  // ------------------------------------------------------------ Solution

  /** The solution record: the equation (whose area it reads, without a copy) and the grid of layers. */
  datatype Solution = Solution(equation: Equation, solution: LegacyMatrix.Matrix) {

    function Area(): LegacySpace.Area {
      equation.area
    }

    /** A grid of one row per time node and one column per space node of the equation's area. */
    ghost predicate Valid()
      reads Area().x, Area().t, solution
    {
      Area().Valid() && solution.Valid() && solution.m == Area().TN() + 1 && solution.n == Area().XN() + 1
    }

    /** gUt(it): the layer slice of a row of the grid. */
    method GUt(it: int) returns (r: LegacyMatrix.Matrix)
      requires Valid() && 0 <= it < solution.m
      ensures fresh(r) && fresh(r.data) && r.Valid() && r.m == 2 && r.n == solution.n
      ensures forall i :: 0 <= i < solution.n ==> r.X(i) == Area().XX(i) && r.Y(i) == solution.Get(it, i)
    {
      r := LayerSlice(Area(), solution, it);
    }

    /** gUt(t): the layer slice of the time index of t. */
    method GUtAt(t: real) returns (r: LegacyMatrix.Matrix)
      requires Valid() && Area().TLeft() <= t <= Area().TRight()
      ensures fresh(r) && fresh(r.data) && r.Valid() && r.m == 2 && r.n == solution.n
      ensures forall i :: 0 <= i < solution.n ==> r.X(i) == Area().XX(i) && r.Y(i) == solution.Get(Area().TI(t), i)
    {
      r := GUt(Area().TI(t));
    }

    /**
     * gUx(ix) as written: its loop runs i = 0..M into a 2 x M matrix.  Passes
     * 0..M-1 write the column's pairs; the pass i = M first asks for time
     * node M of an interval with only M - 1 steps, so the call never
     * completes (completed is false) and the matrix is never handed back.
     */
    method GUx(ix: int) returns (r: LegacyMatrix.Matrix, completed: bool)
      requires Valid() && 0 <= ix < solution.n
      ensures !completed
      ensures fresh(r) && fresh(r.data) && r.Valid() && r.m == 2 && r.n == solution.m
      ensures forall i :: 0 <= i < solution.m ==> r.X(i) == Area().TX(i) && r.Y(i) == solution.Get(i, ix)
    {
      var M := solution.m;
      r := ColumnSlice(Area(), solution, ix);
      // the pass i = M: t.x(M) demands M <= tn
      completed := M <= Area().TN();
    }

    /** gUx(x): the as-written column slice of the space index of x, which therefore never completes either. */
    method GUxAt(x: real) returns (r: LegacyMatrix.Matrix, completed: bool)
      requires Valid() && Area().XLeft() <= x <= Area().XRight()
      ensures !completed
      ensures fresh(r) && fresh(r.data) && r.Valid() && r.m == 2 && r.n == solution.m
      ensures forall i :: 0 <= i < solution.m ==> r.X(i) == Area().TX(i) && r.Y(i) == solution.Get(i, Area().XI(x))
    {
      r, completed := GUx(Area().XI(x));
    }
  }
}
