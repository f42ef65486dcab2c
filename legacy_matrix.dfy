/**
 * The older dense matrix (by.andd3dfx.math.Matrix): the same flat row-major
 * buffer as Matrices.Matrix2D, plus a one-row constructor and accessors that
 * treat row 0 as x values and row 1 as y values.
 */
module LegacyMatrix {
  import opened RowMajor
  import Matrices

  class Matrix {
    const m: nat
    const n: nat
    const data: array<real>

    ghost predicate Valid()
      reads this
    {
      m > 0 && n > 0 && data.Length == m * n
    }

    /** A new m×n matrix holds zeros; both sizes must be positive. */
    constructor (m: int, n: int)
      requires m > 0 && n > 0
      ensures Valid() && this.m == m && this.n == n
      ensures fresh(data) && data[..] == Filled(m * n, 0.0)
    {
      this.m := m;
      this.n := n;
      data := new real[m * n](_ => 0.0);
    }

    /** A one-row matrix of n zeros. */
    constructor OneRow(n: int)
      requires n > 0
      ensures Valid() && m == 1 && this.n == n
      ensures fresh(data) && data[..] == Filled(n, 0.0)
    {
      m := 1;
      this.n := n;
      data := new real[n](_ => 0.0);
    }

    /** The number stored in cell (i, j). */
    function Get(i: int, j: int): real
      reads this, data
      requires Valid() && 0 <= i < m && 0 <= j < n
    {
      Cell(data[..], m, n, i, j)
    }

    /** A copy of row i. */
    function GetRow(i: int): seq<real>
      reads this, data
      requires Valid() && 0 <= i < m
    {
      Row(data[..], m, n, i)
    }

    /** Cell (0, i): the x value of pair i. */
    function X(i: int): real
      reads this, data
      requires Valid() && 0 <= i < n
    {
      Get(0, i)
    }

    /** Cell (1, i): the y value of pair i; the matrix needs a second row. */
    function Y(i: int): real
      reads this, data
      requires Valid() && 1 < m && 0 <= i < n
    {
      Get(1, i)
    }

    /** Writes cell (0, i) and, by CellOfWithCell, nothing else. */
    method SetX(i: int, value: real)
      requires Valid() && 0 <= i < n
      modifies data
      ensures data[..] == WithCell(old(data[..]), m, n, 0, i, value)
      ensures X(i) == value
    {
      Set(0, i, value);
    }

    /** Writes cell (1, i) and, by CellOfWithCell, nothing else. */
    method SetY(i: int, value: real)
      requires Valid() && 1 < m && 0 <= i < n
      modifies data
      ensures data[..] == WithCell(old(data[..]), m, n, 1, i, value)
      ensures Y(i) == value
    {
      Set(1, i, value);
    }

    /** Writes one position of the underlying buffer. */
    method SetFlat(i: int, value: real)
      requires Valid() && 0 <= i < data.Length
      modifies data
      ensures data[..] == old(data[..])[i := value]
    {
      data[i] := value;
    }

    /**
     * Writes cell (i, j): the buffer becomes WithCell of the old one, so that
     * cell reads back as value and, by CellOfWithCell, no other cell changes.
     */
    method Set(i: int, j: int, value: real)
      requires Valid() && 0 <= i < m && 0 <= j < n
      modifies data
      ensures data[..] == WithCell(old(data[..]), m, n, i, j, value)
      ensures Get(i, j) == value
    {
      OffsetInRange(m, n, i, j);
      data[i * n + j] := value;
      CellOfWithCell(old(data[..]), m, n, i, j, value, i, j);
    }

    /** Copies arr over row i: the row reads back as arr and every other row is unchanged. */
    method SetRow(i: int, arr: seq<real>)
      requires Valid() && 0 <= i < m && |arr| == n
      modifies data
      ensures data[..] == WithRow(old(data[..]), m, n, i, arr)
      ensures GetRow(i) == arr
      ensures forall k :: 0 <= k < m && k != i ==> GetRow(k) == old(GetRow(k))
    {
      RowEndInRange(m, n, i);
      var start := i * n;
      // copy arr into row i, cell by cell
      forall k | 0 <= k < n {
        data[start + k] := arr[k];
      }
      assert data[..] == WithRow(old(data[..]), m, n, i, arr) by {
        assert data[..] == old(data[..])[..start] + arr + old(data[..])[start + n..];
      }
      RowsOfWithRow(old(data[..]), m, n, i, arr);
    }

    /** The least stored number. */
    function Min(): (r: real)
      reads this, data
      requires Valid()
      ensures exists p :: 0 <= p < data.Length && data[p] == r
      ensures forall p :: 0 <= p < data.Length ==> r <= data[p]
    {
      Least(data[..])
    }

    /** The greatest stored number. */
    function Max(): (r: real)
      reads this, data
      requires Valid()
      ensures exists p :: 0 <= p < data.Length && data[p] == r
      ensures forall p :: 0 <= p < data.Length ==> data[p] <= r
    {
      Greatest(data[..])
    }

    /** Sets every cell to d and hands back this same matrix. */
    method Fill(d: real) returns (self: Matrix)
      requires Valid()
      modifies data
      ensures self == this
      ensures data[..] == Filled(m * n, d)
    {
      forall p | 0 <= p < data.Length {
        data[p] := d;
      }
      self := this;
    }

    /** Exchanges rows m1 and m2 through a saved copy of row m1. */
    method SwapRows(m1: int, m2: int)
      requires Valid() && 0 <= m1 < m && 0 <= m2 < m && m1 != m2
      modifies data
      ensures data[..] == RowsSwapped(old(data[..]), m, n, m1, m2)
      ensures forall i, j :: 0 <= i < m && 0 <= j < n ==>
        Get(i, j) == if i == m1 then old(Get(m2, j)) else if i == m2 then old(Get(m1, j)) else old(Get(i, j))
    {
      var buff := GetRow(m1);
      SetRow(m1, GetRow(m2));
      SetRow(m2, buff);
      forall i, j | 0 <= i < m && 0 <= j < n
        ensures Get(i, j) == if i == m1 then old(Get(m2, j)) else if i == m2 then old(Get(m1, j)) else old(Get(i, j))
      {
        CellOfRowsSwapped(old(data[..]), m, n, m1, m2, i, j);
      }
    }

    /**
     * The column-swapping loop as written: it runs once per COLUMN, exchanging
     * offsets i*n + n1 and i*n + n2 in pass i.  It finishes only when n <= m,
     * having swapped rows 0..n-1; when n > m the pass i = m reads past the
     * buffer (completed is false) after every row has been swapped.
     */
    method SwapCols(n1: int, n2: int) returns (completed: bool)
      requires Valid() && 0 <= n1 < n && 0 <= n2 < n && n1 != n2
      modifies data
      ensures completed <==> n <= m
      ensures data[..] == ColsSwappedPrefix(old(data[..]), m, n, n1, n2, if n <= m then n else m)
    {
      var i := 0;
      while i < n
        invariant 0 <= i <= n && i <= m
        invariant data[..] == ColsSwappedPrefix(old(data[..]), m, n, n1, n2, i)
      {
        if i * n + n1 >= data.Length {
          Matrices.OutOfBufferOnlyPastLastRow(m, n, i, n1);
          return false;
        }
        Matrices.OutOfBufferOnlyPastLastRow(m, n, i, n1);
        SwapInRowAt(i, n1, n2);
        i := i + 1;
      }
      return true;
    }

    /** One pass of the column-swapping loop: cells (r, n1) and (r, n2) trade places through a temporary. */
    method SwapInRowAt(r: int, n1: int, n2: int)
      requires Valid() && 0 <= r < m && 0 <= n1 < n && 0 <= n2 < n
      modifies data
      ensures data[..] == SwapInRow(old(data[..]), m, n, r, n1, n2)
    {
      OffsetInRange(m, n, r, n1);
      OffsetInRange(m, n, r, n2);
      var tmp := data[r * n + n1];
      data[r * n + n1] := data[r * n + n2];
      data[r * n + n2] := tmp;
    }
  }

}
