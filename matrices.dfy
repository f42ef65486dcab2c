/**
 * The dense matrix of the solver packages (by.andd3dfx.math.matrix): an m×n
 * matrix over one flat row-major buffer, and the two-row matrix of (x, y)
 * pairs built on it.
 */
module Matrices {
  import opened RowMajor

  class Matrix2D {
    const m: nat
    const n: nat
    const data: array<real>

    ghost predicate Valid()
      reads this
    {
      m > 0 && n > 0 && data.Length == m * n
    }

    /** A new m×n matrix holds zeros; both sizes must be positive. */
    constructor (m: int, n: int)
      requires m > 0 && n > 0
      ensures Valid() && this.m == m && this.n == n
      ensures fresh(data) && data[..] == Filled(m * n, 0.0)
    {
      this.m := m;
      this.n := n;
      data := new real[m * n](_ => 0.0);
    }

    /** The number stored in cell (i, j). */
    function Get(i: int, j: int): real
      reads this, data
      requires Valid() && 0 <= i < m && 0 <= j < n
    {
      Cell(data[..], m, n, i, j)
    }

    /** A copy of row i. */
    function GetRow(i: int): seq<real>
      reads this, data
      requires Valid() && 0 <= i < m
    {
      Row(data[..], m, n, i)
    }

    /** Writes one position of the underlying buffer. */
    method SetFlat(i: int, value: real)
      requires Valid() && 0 <= i < data.Length
      modifies data
      ensures data[..] == old(data[..])[i := value]
    {
      data[i] := value;
    }

    /** Writes cell (i, j): that cell reads back as value and every other cell is unchanged. */
    method Set(i: int, j: int, value: real)
      requires Valid() && 0 <= i < m && 0 <= j < n
      modifies data
      ensures data[..] == WithCell(old(data[..]), m, n, i, j, value)
      ensures Get(i, j) == value
      ensures forall i2, j2 :: 0 <= i2 < m && 0 <= j2 < n && (i2 != i || j2 != j) ==> Get(i2, j2) == old(Get(i2, j2))
    {
      OffsetInRange(m, n, i, j);
      data[i * n + j] := value;
      forall i2, j2 | 0 <= i2 < m && 0 <= j2 < n
        ensures Get(i2, j2) == if i2 == i && j2 == j then value else old(Get(i2, j2))
      {
        CellOfWithCell(old(data[..]), m, n, i, j, value, i2, j2);
      }
    }

    /** Copies arr over row i: the row reads back as arr and every other row is unchanged. */
    method SetRow(i: int, arr: seq<real>)
      requires Valid() && 0 <= i < m && |arr| == n
      modifies data
      ensures data[..] == WithRow(old(data[..]), m, n, i, arr)
      ensures GetRow(i) == arr
      ensures forall k :: 0 <= k < m && k != i ==> GetRow(k) == old(GetRow(k))
    {
      RowEndInRange(m, n, i);
      var start := i * n;
      // copy arr into row i, cell by cell
      forall k | 0 <= k < n {
        data[start + k] := arr[k];
      }
      assert data[..] == WithRow(old(data[..]), m, n, i, arr) by {
        assert data[..] == old(data[..])[..start] + arr + old(data[..])[start + n..];
      }
      RowsOfWithRow(old(data[..]), m, n, i, arr);
    }

    /** The least stored number. */
    function Min(): (r: real)
      reads this, data
      requires Valid()
      ensures exists p :: 0 <= p < data.Length && data[p] == r
      ensures forall p :: 0 <= p < data.Length ==> r <= data[p]
    {
      Least(data[..])
    }

    /** The greatest stored number. */
    function Max(): (r: real)
      reads this, data
      requires Valid()
      ensures exists p :: 0 <= p < data.Length && data[p] == r
      ensures forall p :: 0 <= p < data.Length ==> data[p] <= r
    {
      Greatest(data[..])
    }

    /** Sets every cell to d and hands back this same matrix. */
    method Fill(d: real) returns (self: Matrix2D)
      requires Valid()
      modifies data
      ensures self == this
      ensures data[..] == Filled(m * n, d)
    {
      forall p | 0 <= p < data.Length {
        data[p] := d;
      }
      self := this;
    }

    /** Exchanges rows m1 and m2 through a saved copy of row m1. */
    method SwapRows(m1: int, m2: int)
      requires Valid() && 0 <= m1 < m && 0 <= m2 < m && m1 != m2
      modifies data
      ensures data[..] == RowsSwapped(old(data[..]), m, n, m1, m2)
      ensures forall i, j :: 0 <= i < m && 0 <= j < n ==>
        Get(i, j) == if i == m1 then old(Get(m2, j)) else if i == m2 then old(Get(m1, j)) else old(Get(i, j))
    {
      var buff := GetRow(m1);
      SetRow(m1, GetRow(m2));
      SetRow(m2, buff);
      forall i, j | 0 <= i < m && 0 <= j < n
        ensures Get(i, j) == if i == m1 then old(Get(m2, j)) else if i == m2 then old(Get(m1, j)) else old(Get(i, j))
      {
        CellOfRowsSwapped(old(data[..]), m, n, m1, m2, i, j);
      }
    }

    /**
     * The column-swapping loop as written: it runs once per COLUMN, exchanging
     * offsets i*n + n1 and i*n + n2 in pass i.  It finishes only when n <= m,
     * having swapped rows 0..n-1; when n > m the pass i = m reads past the
     * buffer (completed is false) after every row has been swapped.
     */
    method SwapCols(n1: int, n2: int) returns (completed: bool)
      requires Valid() && 0 <= n1 < n && 0 <= n2 < n && n1 != n2
      modifies data
      ensures completed <==> n <= m
      ensures data[..] == ColsSwappedPrefix(old(data[..]), m, n, n1, n2, if n <= m then n else m)
    {
      var i := 0;
      while i < n
        invariant 0 <= i <= n && i <= m
        invariant data[..] == ColsSwappedPrefix(old(data[..]), m, n, n1, n2, i)
      {
        if i * n + n1 >= data.Length {
          OutOfBufferOnlyPastLastRow(m, n, i, n1);
          return false;
        }
        OutOfBufferOnlyPastLastRow(m, n, i, n1);
        SwapInRowAt(i, n1, n2);
        i := i + 1;
      }
      return true;
    }

    /** One pass of the column-swapping loop: cells (r, n1) and (r, n2) trade places through a temporary. */
    method SwapInRowAt(r: int, n1: int, n2: int)
      requires Valid() && 0 <= r < m && 0 <= n1 < n && 0 <= n2 < n
      modifies data
      ensures data[..] == SwapInRow(old(data[..]), m, n, r, n1, n2)
    {
      OffsetInRange(m, n, r, n1);
      OffsetInRange(m, n, r, n2);
      var tmp := data[r * n + n1];
      data[r * n + n1] := data[r * n + n2];
      data[r * n + n2] := tmp;
    }
  }

  /** Offset i*n + j (j < n) leaves an m-row buffer exactly when i >= m. */
  lemma OutOfBufferOnlyPastLastRow(m: nat, n: nat, i: nat, j: nat)
    requires j < n && i <= m
    ensures i * n + j >= m * n <==> i == m
  {
    if i < m {
      OffsetInRange(m, n, i, j);
    }
  }

  /** The two-row matrix of (x, y) pairs: row 0 holds the x values, row 1 the y values. */
  class MatrixXY {
    const grid: Matrix2D

    ghost predicate Valid()
      reads this, grid
    {
      grid.Valid() && grid.m == 2
    }

    /** A 2×n matrix of zeros. */
    constructor (n: int)
      requires n > 0
      ensures Valid() && grid.n == n
      ensures fresh(grid) && fresh(grid.data) && grid.data[..] == Filled(2 * n, 0.0)
    {
      grid := new Matrix2D(2, n);
    }

    function X(i: int): real
      reads this, grid, grid.data
      requires Valid() && 0 <= i < grid.n
    {
      grid.Get(0, i)
    }

    function Y(i: int): real
      reads this, grid, grid.data
      requires Valid() && 0 <= i < grid.n
    {
      grid.Get(1, i)
    }

    /** Writes x number i; no other x and no y changes. */
    method SetX(i: int, x: real)
      requires Valid() && 0 <= i < grid.n
      modifies grid.data
      ensures grid.data[..] == WithCell(old(grid.data[..]), 2, grid.n, 0, i, x)
      ensures X(i) == x
      ensures forall k :: 0 <= k < grid.n ==> Y(k) == old(Y(k)) && (k != i ==> X(k) == old(X(k)))
    {
      grid.Set(0, i, x);
    }

    /** Writes y number i; no other y and no x changes. */
    method SetY(i: int, y: real)
      requires Valid() && 0 <= i < grid.n
      modifies grid.data
      ensures grid.data[..] == WithCell(old(grid.data[..]), 2, grid.n, 1, i, y)
      ensures Y(i) == y
      ensures forall k :: 0 <= k < grid.n ==> X(k) == old(X(k)) && (k != i ==> Y(k) == old(Y(k)))
    {
      grid.Set(1, i, y);
    }
  }
}
