/**
 * The arithmetic of a uniform grid on an interval [left, right]: a step h
 * gives n = floor((right - left) / h) steps, a count n gives the step
 * (right - left) / n, node i sits at left + i*h, and a point x belongs to node
 * floor((x - left) / h).  Java's (int) cast truncates toward zero, which is the
 * floor here because every quotient involved is non-negative.
 */
module Discretisation {

  /** The number of whole steps of size h that fit in [left, right]. */
  function StepCount(left: real, right: real, h: real): int
    requires h > 0.0
  {
    ((right - left) / h).Floor
  }

  /** The step that splits [left, right] into n equal parts. */
  function StepSize(left: real, right: real, n: int): real
    requires n > 0
  {
    (right - left) / n as real
  }

  /** Node i of the grid that starts at left with step h. */
  function Coord(left: real, h: real, i: int): real {
    left + i as real * h
  }

  /** The node whose cell [Coord(i), Coord(i + 1)) holds x. */
  function Index(left: real, h: real, x: real): int
    requires h > 0.0
  {
    ((x - left) / h).Floor
  }

  /** The newer revision folds the right end's index n back onto the last cell n - 1. */
  function Clamp(k: int, n: int): int {
    if k == n then n - 1 else k
  }

  // ------------------------------------------------------------ real helpers

  lemma MulStrict(a: real, b: real, h: real)
    requires a < b && h > 0.0
    ensures a * h < b * h
  {
  }

  lemma MulLe(a: real, b: real, h: real)
    requires a <= b && h > 0.0
    ensures a * h <= b * h
  {
  }

  /** Multiplying back by h recovers the quotient's numerator. */
  lemma DivMul(a: real, h: real)
    requires h > 0.0
    ensures (a / h) * h == a
  {
  }

  /** A quotient is the one number that multiplies back to the numerator. */
  lemma DivUnique(a: real, h: real, c: real)
    requires h > 0.0 && c * h == a
    ensures a / h == c
  {
  }

  /** A numerator of at least h gives a quotient of at least 1. */
  lemma DivAtLeastOne(a: real, h: real)
    requires 0.0 < h <= a
    ensures a / h >= 1.0
  {
    DivMul(a, h);
  }

  /** kr <= q < kr + 1 scales to kr*h <= q*h < kr*h + h. */
  lemma Scaled(q: real, h: real, kr: real)
    requires h > 0.0 && kr <= q < kr + 1.0
    ensures kr * h <= q * h < kr * h + h
  {
    MulLe(kr, q, h);
    MulStrict(q, kr + 1.0, h);
    assert (kr + 1.0) * h == kr * h + h;
  }

  /** Consecutive nodes are one step apart. */
  lemma NextCoord(left: real, h: real, k: int)
    ensures Coord(left, h, k + 1) == Coord(left, h, k) + h
  {
    assert (k + 1) as real == k as real + 1.0;
    assert (k as real + 1.0) * h == k as real * h + h;
  }

  /** x lies between the node of its index and the next one. */
  lemma FloorCell(left: real, h: real, x: real)
    requires h > 0.0
    ensures Coord(left, h, Index(left, h, x)) <= x < Coord(left, h, Index(left, h, x) + 1)
  {
    var q := (x - left) / h;
    var k := q.Floor;
    Scaled(q, h, k as real);
    DivMul(x - left, h);
    NextCoord(left, h, k);
    calc {
      Coord(left, h, k);
      == left + k as real * h;
      <= left + q * h;
      == x;
    }
    calc {
      x;
      == left + q * h;
      < left + (k as real * h + h);
      == Coord(left, h, k + 1);
    }
  }

  // ------------------------------------------------------------ grid lemmas

  /**
   * With 0 < h <= right - left there is at least one step, the n-th node lies
   * in [left, right] and the (n+1)-th lies beyond right.
   */
  lemma StepCountBounds(left: real, right: real, h: real)
    requires 0.0 < h <= right - left
    ensures StepCount(left, right, h) >= 1
    ensures Coord(left, h, StepCount(left, right, h)) <= right < Coord(left, h, StepCount(left, right, h) + 1)
  {
    DivAtLeastOne(right - left, h);
    assert StepCount(left, right, h) == Index(left, h, right);
    FloorCell(left, h, right);
  }

  /**
   * Building from a count and then counting steps is a round trip: the step
   * is positive and at most the interval's length, node n is exactly right,
   * and the step count of that step is n again.
   */
  lemma StepSizeRoundTrip(left: real, right: real, n: int)
    requires left < right && n > 0
    ensures 0.0 < StepSize(left, right, n) <= right - left
    ensures Coord(left, StepSize(left, right, n), n) == right
    ensures StepCount(left, right, StepSize(left, right, n)) == n
  {
    var h := StepSize(left, right, n);
    var nr := n as real;
    assert h * nr == right - left;
    assert nr * h == right - left;
    DivUnique(right - left, h, nr);
    MulLe(1.0, nr, h);
    assert nr.Floor == n;
  }

  /** Nodes 0..StepCount lie inside the interval. */
  lemma CoordInside(left: real, right: real, h: real, i: int)
    requires 0.0 < h <= right - left && 0 <= i <= StepCount(left, right, h)
    ensures left <= Coord(left, h, i) <= right
  {
    var n := StepCount(left, right, h);
    StepCountBounds(left, right, h);
    MulLe(i as real, n as real, h);
    MulLe(0.0, i as real, h);
    calc {
      Coord(left, h, i);
      == left + i as real * h;
      <= left + n as real * h;
      == Coord(left, h, n);
      <= right;
    }
  }

  /** Nodes increase with their index. */
  lemma CoordMonotone(left: real, h: real, i: int, k: int)
    requires h > 0.0 && i <= k
    ensures Coord(left, h, i) <= Coord(left, h, k)
    ensures i < k ==> Coord(left, h, i) < Coord(left, h, k)
  {
    MulLe(i as real, k as real, h);
    if i < k {
      MulStrict(i as real, k as real, h);
    }
  }

  /** Index(x) is the one whole k with Coord(k) <= x < Coord(k + 1). */
  lemma IndexCell(left: real, h: real, x: real, k: int)
    requires h > 0.0
    ensures Coord(left, h, Index(left, h, x)) <= x < Coord(left, h, Index(left, h, x) + 1)
    ensures Coord(left, h, k) <= x < Coord(left, h, k + 1) <==> k == Index(left, h, x)
  {
    var i := Index(left, h, x);
    FloorCell(left, h, x);
    if Coord(left, h, k) <= x < Coord(left, h, k + 1) {
      if k < i {
        CoordMonotone(left, h, k + 1, i);
        assert false;
      } else if i < k {
        CoordMonotone(left, h, i + 1, k);
        assert false;
      }
    }
  }

  /** Each node maps back to its own index. */
  lemma IndexOfCoord(left: real, h: real, k: int)
    requires h > 0.0
    ensures Index(left, h, Coord(left, h, k)) == k
  {
    CoordMonotone(left, h, k, k + 1);
    IndexCell(left, h, Coord(left, h, k), k);
  }

  /**
   * Points of [left, right] map to indices 0..n, and right itself to n, where n
   * is the step count.
   */
  lemma IndexInside(left: real, right: real, h: real, x: real)
    requires 0.0 < h <= right - left && left <= x <= right
    ensures 0 <= Index(left, h, x) <= StepCount(left, right, h)
    ensures Index(left, h, right) == StepCount(left, right, h)
  {
    var n := StepCount(left, right, h);
    var i := Index(left, h, x);
    StepCountBounds(left, right, h);
    FloorCell(left, h, x);
    assert Index(left, h, right) == n;
    if i < 0 {
      CoordMonotone(left, h, i + 1, 0);
      assert false;
    }
    if i > n {
      CoordMonotone(left, h, n + 1, i);
      assert false;
    }
  }

  /** The clamped index of a point of [left, right] is a cell 0..n-1; right itself lands in n - 1. */
  lemma ClampedIndexInside(left: real, right: real, h: real, x: real)
    requires 0.0 < h <= right - left && left <= x <= right
    ensures 0 <= Clamp(Index(left, h, x), StepCount(left, right, h)) < StepCount(left, right, h)
    ensures Clamp(Index(left, h, right), StepCount(left, right, h)) == StepCount(left, right, h) - 1
  {
    IndexInside(left, right, h, x);
    StepCountBounds(left, right, h);
  }

  /**
   * The clamped cell k of a point x of [left, right]: k is one of 0..n-1, x
   * lies at or after node k, before node k + 1 unless k is the last cell, and
   * right itself lands in the last cell.
   */
  lemma ClampedCell(left: real, right: real, h: real, x: real)
    requires 0.0 < h <= right - left && left <= x <= right
    ensures var n := StepCount(left, right, h);
            var k := Clamp(Index(left, h, x), n);
            0 <= k < n && Coord(left, h, k) <= x && (k < n - 1 ==> x < Coord(left, h, k + 1))
            && (x == right ==> k == n - 1)
  {
    var n := StepCount(left, right, h);
    var i := Index(left, h, x);
    ClampedIndexInside(left, right, h, x);
    FloorCell(left, h, x);
    if i == n {
      CoordMonotone(left, h, n - 1, n);
    }
  }

  /** On [3, 8] with 10 steps, node 3 is 4.5 and 5.5 is in cell 5; on [0, 10] with 20 steps, node 3 is 1.5 and 5.5 is in cell 11. */
  lemma GridExamples()
    ensures Coord(3.0, StepSize(3.0, 8.0, 10), 3) == 4.5
    ensures Clamp(Index(3.0, StepSize(3.0, 8.0, 10), 5.5), 10) == 5
    ensures Coord(0.0, StepSize(0.0, 10.0, 20), 3) == 1.5
    ensures Clamp(Index(0.0, StepSize(0.0, 10.0, 20), 5.5), 20) == 11
    ensures Clamp(Index(2.0, StepSize(2.0, 6.0, 3), 5.0), 3) == 2
    ensures Clamp(Index(10.0, StepSize(10.0, 13.0, 4), 10.75), 4) == 1
  {
    assert StepSize(3.0, 8.0, 10) == 0.5;
    assert (5.5 - 3.0) / 0.5 == 5.0;
    assert StepSize(0.0, 10.0, 20) == 0.5;
    assert (5.5 - 0.0) / 0.5 == 11.0;
    assert (5.0 - 2.0) / StepSize(2.0, 6.0, 3) == 2.25;
    assert StepSize(10.0, 13.0, 4) == 0.75;
    assert (10.75 - 10.0) / 0.75 == 1.0;
  }
}
