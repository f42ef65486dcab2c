/**
 * The flat row-major cell buffer shared by both matrix classes.  An m×n matrix
 * keeps its cells in one sequence of length m*n; cell (i, j) lives at offset
 * i*n + j.  The functions here say what each buffer operation leaves behind,
 * and the lemmas say what that means cell by cell.
 */
module RowMajor {

  /** A buffer holds exactly the m*n cells of an m×n matrix. */
  predicate Shaped(d: seq<real>, m: nat, n: nat) {
    |d| == m * n
  }

  /** The offset of a cell lies inside the buffer. */
  lemma OffsetInRange(m: nat, n: nat, i: nat, j: nat)
    requires i < m && j < n
    ensures i * n + j < m * n
  {
    RowEndInRange(m, n, i);
  }

  /** A whole row [i*n, i*n + n) lies inside the buffer. */
  lemma RowEndInRange(m: nat, n: nat, i: nat)
    requires i < m
    ensures i * n + n <= m * n
  {
    assert i * n + n == (i + 1) * n;
    MulMonotone(i + 1, m, n);
  }

  lemma MulMonotone(a: nat, b: nat, n: nat)
    requires a <= b
    ensures a * n <= b * n
  {
  }

  /** Rows do not overlap: a row that comes earlier ends where a later one may start. */
  lemma RowsDisjoint(n: nat, i: nat, k: nat)
    requires i < k
    ensures i * n + n <= k * n
  {
    assert i * n + n == (i + 1) * n;
    MulMonotone(i + 1, k, n);
  }

  /** Distinct cells have distinct offsets. */
  lemma OffsetInjective(n: nat, i: nat, j: nat, i2: nat, j2: nat)
    requires j < n && j2 < n
    requires i != i2 || j != j2
    ensures i * n + j != i2 * n + j2
  {
    if i < i2 {
      RowsDisjoint(n, i, i2);
    } else if i2 < i {
      RowsDisjoint(n, i2, i);
    }
  }

  function Cell(d: seq<real>, m: nat, n: nat, i: nat, j: nat): real
    requires Shaped(d, m, n) && i < m && j < n
  {
    OffsetInRange(m, n, i, j);
    d[i * n + j]
  }

  function Row(d: seq<real>, m: nat, n: nat, i: nat): (r: seq<real>)
    requires Shaped(d, m, n) && i < m
    ensures |r| == n
  {
    RowEndInRange(m, n, i);
    d[i * n .. i * n + n]
  }

  /** The buffer after writing v into cell (i, j). */
  function WithCell(d: seq<real>, m: nat, n: nat, i: nat, j: nat, v: real): (r: seq<real>)
    requires Shaped(d, m, n) && i < m && j < n
    ensures Shaped(r, m, n)
  {
    OffsetInRange(m, n, i, j);
    d[i * n + j := v]
  }

  /** The buffer after copying r over row i. */
  function WithRow(d: seq<real>, m: nat, n: nat, i: nat, r: seq<real>): (w: seq<real>)
    requires Shaped(d, m, n) && i < m && |r| == n
    ensures Shaped(w, m, n)
  {
    RowEndInRange(m, n, i);
    d[..i * n] + r + d[i * n + n..]
  }

  /** The buffer with every cell equal to v. */
  function Filled(len: nat, v: real): seq<real> {
    seq(len, _ => v)
  }

  /** The buffer after the two copies of swapRows: row m2 over row m1, then the saved row m1 over row m2. */
  function RowsSwapped(d: seq<real>, m: nat, n: nat, m1: nat, m2: nat): (r: seq<real>)
    requires Shaped(d, m, n) && m1 < m && m2 < m
    ensures Shaped(r, m, n)
  {
    var once := WithRow(d, m, n, m1, Row(d, m, n, m2));
    WithRow(once, m, n, m2, Row(d, m, n, m1))
  }

  /** The buffer after exchanging cells (r, n1) and (r, n2): one pass of the column-swapping loop. */
  function SwapInRow(d: seq<real>, m: nat, n: nat, r: nat, n1: nat, n2: nat): (w: seq<real>)
    requires Shaped(d, m, n) && r < m && n1 < n && n2 < n
    ensures Shaped(w, m, n)
  {
    OffsetInRange(m, n, r, n1);
    OffsetInRange(m, n, r, n2);
    d[r * n + n1 := d[r * n + n2]][r * n + n2 := d[r * n + n1]]
  }

  /**
   * The buffer after the first k passes of the column-swapping loop: pass i
   * exchanges columns n1 and n2 of row i.
   */
  function ColsSwappedPrefix(d: seq<real>, m: nat, n: nat, n1: nat, n2: nat, k: nat): (r: seq<real>)
    requires Shaped(d, m, n) && n1 < n && n2 < n && k <= m
    ensures Shaped(r, m, n)
    decreases k
  {
    if k == 0 then d
    else SwapInRow(ColsSwappedPrefix(d, m, n, n1, n2, k - 1), m, n, k - 1, n1, n2)
  }

  /** The smallest element of a non-empty sequence. */
  function Least(s: seq<real>): (r: real)
    requires |s| > 0
    ensures r in s
    ensures forall k :: 0 <= k < |s| ==> r <= s[k]
  {
    if |s| == 1 then s[0]
    else
      var rest := Least(s[1..]);
      assert forall k :: 1 <= k < |s| ==> s[k] == s[1..][k - 1];
      if s[0] <= rest then s[0] else rest
  }

  /** The largest element of a non-empty sequence. */
  function Greatest(s: seq<real>): (r: real)
    requires |s| > 0
    ensures r in s
    ensures forall k :: 0 <= k < |s| ==> s[k] <= r
  {
    if |s| == 1 then s[0]
    else
      var rest := Greatest(s[1..]);
      assert forall k :: 1 <= k < |s| ==> s[k] == s[1..][k - 1];
      if s[0] >= rest then s[0] else rest
  }

  // ---------------------------------------------------------------- cell views

  /** Writing a cell changes that cell and no other. */
  lemma CellOfWithCell(d: seq<real>, m: nat, n: nat, i: nat, j: nat, v: real, i2: nat, j2: nat)
    requires Shaped(d, m, n) && i < m && j < n && i2 < m && j2 < n
    ensures Shaped(WithCell(d, m, n, i, j, v), m, n)
    ensures Cell(WithCell(d, m, n, i, j, v), m, n, i2, j2) == if i2 == i && j2 == j then v else Cell(d, m, n, i2, j2)
  {
    OffsetInRange(m, n, i, j);
    OffsetInRange(m, n, i2, j2);
    if i2 != i || j2 != j {
      OffsetInjective(n, i, j, i2, j2);
    }
  }

  /** Copying a row replaces exactly that row's cells. */
  lemma CellOfWithRow(d: seq<real>, m: nat, n: nat, i: nat, r: seq<real>, i2: nat, j2: nat)
    requires Shaped(d, m, n) && i < m && |r| == n && i2 < m && j2 < n
    ensures Shaped(WithRow(d, m, n, i, r), m, n)
    ensures Cell(WithRow(d, m, n, i, r), m, n, i2, j2) == if i2 == i then r[j2] else Cell(d, m, n, i2, j2)
  {
    RowEndInRange(m, n, i);
    OffsetInRange(m, n, i2, j2);
    var w := WithRow(d, m, n, i, r);
    var p := i2 * n + j2;
    if i2 < i {
      RowsDisjoint(n, i2, i);
      assert w[p] == d[p];
    } else if i < i2 {
      RowsDisjoint(n, i, i2);
      assert w[p] == d[p];
    } else {
      assert w[p] == r[j2];
    }
  }

  /** Reading back a row just copied gives the copied values; the other rows are as before. */
  lemma RowOfWithRow(d: seq<real>, m: nat, n: nat, i: nat, r: seq<real>, k: nat)
    requires Shaped(d, m, n) && i < m && |r| == n && k < m
    ensures Shaped(WithRow(d, m, n, i, r), m, n)
    ensures Row(WithRow(d, m, n, i, r), m, n, k) == if k == i then r else Row(d, m, n, k)
  {
    var w := WithRow(d, m, n, i, r);
    RowEndInRange(m, n, i);
    RowEndInRange(m, n, k);
    forall j | 0 <= j < n
      ensures Row(w, m, n, k)[j] == (if k == i then r else Row(d, m, n, k))[j]
    {
      CellOfWithRow(d, m, n, i, r, k, j);
    }
  }

  /** Every row after a row copy: row i is the copied values, the others are as before. */
  lemma RowsOfWithRow(d: seq<real>, m: nat, n: nat, i: nat, r: seq<real>)
    requires Shaped(d, m, n) && i < m && |r| == n
    ensures Shaped(WithRow(d, m, n, i, r), m, n)
    ensures forall k :: 0 <= k < m ==> Row(WithRow(d, m, n, i, r), m, n, k) == if k == i then r else Row(d, m, n, k)
  {
    forall k | 0 <= k < m
      ensures Row(WithRow(d, m, n, i, r), m, n, k) == if k == i then r else Row(d, m, n, k)
    {
      RowOfWithRow(d, m, n, i, r, k);
    }
  }

  /** Copying a row's own values back leaves the buffer as it was. */
  lemma WithOwnRow(d: seq<real>, m: nat, n: nat, i: nat)
    requires Shaped(d, m, n) && i < m
    ensures WithRow(d, m, n, i, Row(d, m, n, i)) == d
  {
    RowEndInRange(m, n, i);
    assert d[..i * n] + d[i * n .. i * n + n] + d[i * n + n..] == d;
  }

  /** Writing cell (i, j) after copying r over row i is copying r with element j replaced. */
  lemma WithCellOfWithRow(d: seq<real>, m: nat, n: nat, i: nat, r: seq<real>, j: nat, v: real)
    requires Shaped(d, m, n) && i < m && |r| == n && j < n
    ensures WithCell(WithRow(d, m, n, i, r), m, n, i, j, v) == WithRow(d, m, n, i, r[j := v])
  {
    RowEndInRange(m, n, i);
    var lhs := WithCell(WithRow(d, m, n, i, r), m, n, i, j, v);
    var rhs := WithRow(d, m, n, i, r[j := v]);
    forall p | 0 <= p < |d|
      ensures lhs[p] == rhs[p]
    {
      if i * n <= p < i * n + n {
        assert rhs[p] == r[j := v][p - i * n];
      }
    }
  }

  /** A buffer that holds r in row i and agrees with d everywhere else is d with r copied over row i. */
  lemma WithRowFromOffsets(d: seq<real>, w: seq<real>, m: nat, n: nat, i: nat, r: seq<real>)
    requires Shaped(d, m, n) && i < m && |r| == n && |w| == |d|
    requires forall p :: 0 <= p < |d| && (p < i * n || i * n + n <= p) ==> w[p] == d[p]
    requires forall p :: i * n <= p < i * n + n && p < |w| ==> w[p] == r[p - i * n]
    ensures w == WithRow(d, m, n, i, r)
  {
    RowEndInRange(m, n, i);
  }

  /** Both cell readers agree: cell (i, j) is element j of row i. */
  lemma RowCell(d: seq<real>, m: nat, n: nat, i: nat, j: nat)
    requires Shaped(d, m, n) && i < m && j < n
    ensures Row(d, m, n, i)[j] == Cell(d, m, n, i, j)
  {
    RowEndInRange(m, n, i);
  }

  /** A row is determined by its cells. */
  lemma RowFromCells(d: seq<real>, m: nat, n: nat, i: nat, r: seq<real>)
    requires Shaped(d, m, n) && i < m && |r| == n
    requires forall j :: 0 <= j < n ==> Cell(d, m, n, i, j) == r[j]
    ensures Row(d, m, n, i) == r
  {
    forall j | 0 <= j < n
      ensures Row(d, m, n, i)[j] == r[j]
    {
      RowCell(d, m, n, i, j);
    }
  }

  /** Every cell of a filled buffer holds the fill value. */
  lemma CellOfFilled(m: nat, n: nat, v: real, i: nat, j: nat)
    requires i < m && j < n
    ensures Shaped(Filled(m * n, v), m, n)
    ensures Cell(Filled(m * n, v), m, n, i, j) == v
  {
    OffsetInRange(m, n, i, j);
  }

  /** swapRows exchanges rows m1 and m2 and leaves every other row alone. */
  lemma CellOfRowsSwapped(d: seq<real>, m: nat, n: nat, m1: nat, m2: nat, i: nat, j: nat)
    requires Shaped(d, m, n) && m1 < m && m2 < m && m1 != m2 && i < m && j < n
    ensures Shaped(RowsSwapped(d, m, n, m1, m2), m, n)
    ensures Cell(RowsSwapped(d, m, n, m1, m2), m, n, i, j) ==
      if i == m1 then Cell(d, m, n, m2, j)
      else if i == m2 then Cell(d, m, n, m1, j)
      else Cell(d, m, n, i, j)
  {
    RowEndInRange(m, n, m1);
    RowEndInRange(m, n, m2);
    var once := WithRow(d, m, n, m1, Row(d, m, n, m2));
    CellOfWithRow(d, m, n, m1, Row(d, m, n, m2), i, j);
    CellOfWithRow(once, m, n, m2, Row(d, m, n, m1), i, j);
    RowCell(d, m, n, m1, j);
    RowCell(d, m, n, m2, j);
  }

  /** One pass exchanges the two cells of its row and leaves every other cell alone. */
  lemma CellOfSwapInRow(d: seq<real>, m: nat, n: nat, r: nat, n1: nat, n2: nat, i: nat, j: nat)
    requires Shaped(d, m, n) && r < m && n1 < n && n2 < n && n1 != n2 && i < m && j < n
    ensures Cell(SwapInRow(d, m, n, r, n1, n2), m, n, i, j) ==
      if i == r && j == n1 then Cell(d, m, n, r, n2)
      else if i == r && j == n2 then Cell(d, m, n, r, n1)
      else Cell(d, m, n, i, j)
  {
    OffsetInRange(m, n, r, n1);
    OffsetInRange(m, n, r, n2);
    OffsetInRange(m, n, i, j);
    OffsetInjective(n, r, n1, r, n2);
    if i != r || (j != n1 && j != n2) {
      OffsetInjective(n, r, n1, i, j);
      OffsetInjective(n, r, n2, i, j);
    }
  }

  /**
   * After k passes of the column-swapping loop, columns n1 and n2 are exchanged
   * in rows 0..k-1 and every other cell is as before.
   */
  lemma {:induction false} CellOfColsSwappedPrefix(d: seq<real>, m: nat, n: nat, n1: nat, n2: nat, k: nat, i: nat, j: nat)
    requires Shaped(d, m, n) && n1 < n && n2 < n && n1 != n2 && k <= m && i < m && j < n
    ensures Cell(ColsSwappedPrefix(d, m, n, n1, n2, k), m, n, i, j) ==
      if i < k && j == n1 then Cell(d, m, n, i, n2)
      else if i < k && j == n2 then Cell(d, m, n, i, n1)
      else Cell(d, m, n, i, j)
    decreases k
  {
    if k > 0 {
      var prev := ColsSwappedPrefix(d, m, n, n1, n2, k - 1);
      CellOfSwapInRow(prev, m, n, k - 1, n1, n2, i, j);
      CellOfColsSwappedPrefix(d, m, n, n1, n2, k - 1, i, j);
      if i == k - 1 {
        CellOfColsSwappedPrefix(d, m, n, n1, n2, k - 1, i, n1);
        CellOfColsSwappedPrefix(d, m, n, n1, n2, k - 1, i, n2);
      }
    }
  }

  /** The intended column swap: columns n1 and n2 exchanged in every row. */
  function ColsSwapped(d: seq<real>, m: nat, n: nat, n1: nat, n2: nat): (r: seq<real>)
    requires Shaped(d, m, n) && n1 < n && n2 < n && n1 != n2
    ensures Shaped(r, m, n)
    ensures forall i, j :: 0 <= i < m && 0 <= j < n ==>
      Cell(r, m, n, i, j) == if j == n1 then Cell(d, m, n, i, n2) else if j == n2 then Cell(d, m, n, i, n1) else Cell(d, m, n, i, j)
  {
    var r := ColsSwappedPrefix(d, m, n, n1, n2, m);
    forall i, j | 0 <= i < m && 0 <= j < n
      ensures Cell(r, m, n, i, j) == if j == n1 then Cell(d, m, n, i, n2) else if j == n2 then Cell(d, m, n, i, n1) else Cell(d, m, n, i, j)
    {
      CellOfColsSwappedPrefix(d, m, n, n1, n2, m, i, j);
    }
    r
  }

  /**
   * A 3×2 matrix [[1,2],[3,4],[5,6]]: two passes (the column count) swap the
   * first two rows only, so row 2 keeps [5,6] where [6,5] was meant.
   */
  lemma TallColsSwapIncomplete()
    ensures ColsSwappedPrefix([1.0, 2.0, 3.0, 4.0, 5.0, 6.0], 3, 2, 0, 1, 2) == [2.0, 1.0, 4.0, 3.0, 5.0, 6.0]
    ensures ColsSwapped([1.0, 2.0, 3.0, 4.0, 5.0, 6.0], 3, 2, 0, 1) == [2.0, 1.0, 4.0, 3.0, 6.0, 5.0]
  {
    var d := [1.0, 2.0, 3.0, 4.0, 5.0, 6.0];
    var one := ColsSwappedPrefix(d, 3, 2, 0, 1, 1);
    assert one == [2.0, 1.0, 3.0, 4.0, 5.0, 6.0];
    var two := ColsSwappedPrefix(d, 3, 2, 0, 1, 2);
    assert two == [2.0, 1.0, 4.0, 3.0, 5.0, 6.0];
    var three := ColsSwappedPrefix(d, 3, 2, 0, 1, 3);
    assert three == [2.0, 1.0, 4.0, 3.0, 6.0, 5.0];
  }
}
