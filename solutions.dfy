/**
 * The solution record of the newest solver package
 * (by.andd3dfx.math.pde.solver.Solution): the domain, the grid of layers and
 * its slices.  Row j of the grid is time layer j, column i is space node i.
 * A slice is a fresh two-row matrix of (coordinate, value) pairs; taking one
 * never writes the grid.
 */
module Solutions {
  import opened RowMajor
  import opened Matrices
  import opened Space
  import opened Equations

  /** The equation that was solved, the area it was solved on and the grid of layers. */
  datatype Solution = Solution(equation: Equation, area: Area, grid: Matrix2D) {

    /** The grid the solvers hand back: one row per time node and one column per space node. */
    ghost predicate Valid()
      reads area.x, area.t, grid
    {
      area.Valid() && grid.Valid() && grid.m == area.TN() + 1 && grid.n == area.XN() + 1
    }

    /**
     * The layer of time layer it as (x, u) pairs: pair i is the space node
     * xx(i) and the value in row it, column i, for every column of the grid.
     */
    method GUt(it: int) returns (r: MatrixXY)
      requires Valid() && 0 <= it < grid.m
      ensures fresh(r) && fresh(r.grid) && fresh(r.grid.data)
      ensures r.Valid() && r.grid.n == grid.n
      ensures forall i :: 0 <= i < grid.n ==> r.X(i) == area.XX(i) && r.Y(i) == grid.Get(it, i)
    {
      var n := grid.n;
      r := new MatrixXY(n);
      var i := 0;
      while i < n
        invariant 0 <= i <= n
        invariant r.Valid() && r.grid.n == n && fresh(r.grid.data)
        invariant forall k :: 0 <= k < i ==> r.X(k) == area.XX(k) && r.Y(k) == grid.Get(it, k)
      {
        r.SetX(i, area.XX(i));
        r.SetY(i, grid.Get(it, i));
        i := i + 1;
      }
    }

    /** The layer of the moment t in [tLeft, tRight]: the layer of its time index ti(t). */
    method GUtAt(t: real) returns (r: MatrixXY)
      requires Valid() && area.TLeft() <= t <= area.TRight()
      ensures fresh(r) && fresh(r.grid) && fresh(r.grid.data)
      ensures r.Valid() && r.grid.n == grid.n
      ensures forall i :: 0 <= i < grid.n ==> r.X(i) == area.XX(i) && r.Y(i) == grid.Get(area.TI(t), i)
    {
      r := GUt(area.TI(t));
    }

    /**
     * The history of space column ix as (t, u) pairs: pair i is the time node
     * tx(i) and the value in row i, column ix, for every row of the grid.
     */
    method GUx(ix: int) returns (r: MatrixXY)
      requires Valid() && 0 <= ix < grid.n
      ensures fresh(r) && fresh(r.grid) && fresh(r.grid.data)
      ensures r.Valid() && r.grid.n == grid.m
      ensures forall i :: 0 <= i < grid.m ==> r.X(i) == area.TX(i) && r.Y(i) == grid.Get(i, ix)
    {
      var m := grid.m;
      r := new MatrixXY(m);
      var i := 0;
      while i < m
        invariant 0 <= i <= m
        invariant r.Valid() && r.grid.n == m && fresh(r.grid.data)
        invariant forall k :: 0 <= k < i ==> r.X(k) == area.TX(k) && r.Y(k) == grid.Get(k, ix)
      {
        r.SetX(i, area.TX(i));
        r.SetY(i, grid.Get(i, ix));
        i := i + 1;
      }
    }

    /** The history of the point x in [xLeft, xRight]: the history of its column xi(x). */
    method GUxAt(x: real) returns (r: MatrixXY)
      requires Valid() && area.XLeft() <= x <= area.XRight()
      ensures fresh(r) && fresh(r.grid) && fresh(r.grid.data)
      ensures r.Valid() && r.grid.n == grid.m
      ensures forall i :: 0 <= i < grid.m ==> r.X(i) == area.TX(i) && r.Y(i) == grid.Get(i, area.XI(x))
    {
      r := GUx(area.XI(x));
    }

    /** What the multi-time export demands before it writes anything: every moment lies in [tLeft, tRight]. */
    ghost predicate TimesInside(ts: seq<real>)
      reads area.t
    {
      forall k :: 0 <= k < |ts| ==> area.TLeft() <= ts[k] <= area.TRight()
    }

    /** What the multi-position export demands: every point lies in [xLeft, xRight]. */
    ghost predicate PointsInside(xs: seq<real>)
      reads area.x
    {
      forall k :: 0 <= k < |xs| ==> area.XLeft() <= xs[k] <= area.XRight()
    }

    /**
     * Once the export's range check passes, every moment it reads selects a
     * row of the grid, and every space node it prints (0..xn-1) a column.
     */
    lemma TimesSelectRows(ts: seq<real>)
      requires Valid() && TimesInside(ts)
      ensures forall k :: 0 <= k < |ts| ==> 0 <= area.TI(ts[k]) < grid.m
      ensures area.XN() < grid.n
    {
    }

    /**
     * Once the export's range check passes, every point it reads selects a
     * column of the grid, and every time node it prints (0..tn-1) a row.
     */
    lemma PointsSelectColumns(xs: seq<real>)
      requires Valid() && PointsInside(xs)
      ensures forall k :: 0 <= k < |xs| ==> 0 <= area.XI(xs[k]) < grid.n
      ensures area.TN() < grid.m
    {
    }
  }
}
