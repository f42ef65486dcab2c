/**
 * The newer interval (by.andd3dfx.math.space.Interval) and the record that
 * pairs a space interval with a time interval
 * (io.github.andreipunko.math.space.Area).  An interval can be rebuilt in
 * place from a step or from a step count; its index lookup is clamped so that
 * the right end falls into the last cell.
 */
module Space {
  import opened Discretisation

  class Interval {
    var left: real
    var right: real
    var h: real
    var n: int

    /** What every rebuild leaves behind: a positive step no longer than the interval, and n whole steps of it. */
    ghost predicate Valid()
      reads this
    {
      0.0 < h <= right - left && n == StepCount(left, right, h)
    }

    /** The default interval [0, 1], split into 1 step. */
    constructor Default()
      ensures Valid() && left == 0.0 && right == 1.0 && n == 1 && h == 1.0
    {
      new;
      RebornCountOver(0.0, 1.0, 1);
    }

    constructor FromStep(left: real, right: real, h: real)
      requires right - left >= h && h > 0.0
      ensures Valid() && this.left == left && this.right == right && this.h == h
    {
      new;
      RebornStepOver(left, right, h);
    }

    constructor FromCount(left: real, right: real, n: int)
      requires left < right && n > 0
      ensures Valid() && this.left == left && this.right == right && this.n == n
      ensures h == StepSize(left, right, n) && n as real * h == right - left
    {
      new;
      RebornCountOver(left, right, n);
    }

    /** Keeps the bounds and sets a new step; the count becomes floor((right - left) / h). */
    method RebornStep(h: real)
      requires right - left >= h && h > 0.0
      modifies this
      ensures Valid() && left == old(left) && right == old(right) && this.h == h
      ensures n == StepCount(left, right, h)
    {
      RebornStepOver(left, right, h);
    }

    /** The private rebuild from bounds and a step. */
    method RebornStepOver(left: real, right: real, h: real)
      requires right - left >= h && h > 0.0
      modifies this
      ensures Valid() && this.left == left && this.right == right && this.h == h
      ensures n == StepCount(left, right, h) && n >= 1
    {
      this.left := left;
      this.right := right;
      this.h := h;
      n := ((right - left) / h).Floor;
      StepCountBounds(left, right, h);
    }

    /** Keeps the bounds and sets a new count; the step becomes (right - left) / n. */
    method RebornCount(n: int)
      requires left < right && n > 0
      modifies this
      ensures Valid() && left == old(left) && right == old(right) && this.n == n
      ensures h == StepSize(left, right, n) && n as real * h == right - left
    {
      RebornCountOver(left, right, n);
    }

    /** The private rebuild from bounds and a count. */
    method RebornCountOver(left: real, right: real, n: int)
      requires left < right && n > 0
      modifies this
      ensures Valid() && this.left == left && this.right == right && this.n == n
      ensures h == StepSize(left, right, n) && n as real * h == right - left
    {
      this.left := left;
      this.right := right;
      this.n := n;
      h := (right - left) / n as real;
      StepSizeRoundTrip(left, right, n);
    }

    /**
     * Node i, left + i*h: node 0 is left, every node lies in [left, right], and
     * node n is right when n steps cover the interval exactly (as after a
     * rebuild from a count).
     */
    function X(i: int): (x: real)
      reads this
      requires Valid() && 0 <= i <= n
      ensures left <= x <= right
      ensures i == 0 ==> x == left
      ensures i == n && n as real * h == right - left ==> x == right
    {
      CoordInside(left, right, h, i);
      left + i as real * h
    }

    /**
     * The cell of x in [left, right]: always one of 0..n-1, x lies at or after
     * its node, before the next node unless it is the last cell, and right
     * falls into the last cell.
     */
    function I(x: real): (k: int)
      reads this
      requires Valid() && left <= x <= right
      ensures 0 <= k < n
      ensures X(k) <= x
      ensures k < n - 1 ==> x < X(k + 1)
      ensures x == right ==> k == n - 1
    {
      ClampedCell(left, right, h, x);
      var res := ((x - left) / h).Floor;
      if res == n then n - 1 else res
    }

    /** Looking up a node gives its index back, for every node but the last. */
    lemma IOfX(k: int)
      requires Valid() && 0 <= k < n
      ensures I(X(k)) == k
    {
      IndexOfCoord(left, h, k);
      assert X(k) == Coord(left, h, k);
      assert Index(left, h, X(k)) == k;
    }
  }

  /** The computational domain: a space interval and a distinct time interval. */
  datatype Area = Area(x: Interval, t: Interval) {

    ghost predicate Valid()
      reads x, t
    {
      x != t && x.Valid() && t.Valid()
    }

    function TLeft(): real
      reads t
    {
      t.left
    }

    function TRight(): real
      reads t
    {
      t.right
    }

    function TN(): int
      reads t
    {
      t.n
    }

    /** Time node i lies in [tLeft, tRight]; node 0 is tLeft. */
    function TX(i: int): (r: real)
      reads t
      requires t.Valid() && 0 <= i <= TN()
      ensures TLeft() <= r <= TRight()
      ensures i == 0 ==> r == TLeft()
    {
      t.X(i)
    }

    /**
     * The time layer of a moment in [tLeft, tRight]: one of 0..tn-1, at or
     * before the moment, the next node after it unless it is the last layer,
     * and tRight itself in the last layer.
     */
    function TI(time: real): (k: int)
      reads t
      requires t.Valid() && TLeft() <= time <= TRight()
      ensures 0 <= k < TN() && TX(k) <= time
      ensures k < TN() - 1 ==> time < TX(k + 1)
      ensures time == TRight() ==> k == TN() - 1
    {
      t.I(time)
    }

    function XLeft(): real
      reads x
    {
      x.left
    }

    function XRight(): real
      reads x
    {
      x.right
    }

    function XN(): int
      reads x
    {
      x.n
    }

    /** Space node i lies in [xLeft, xRight]; node 0 is xLeft. */
    function XX(i: int): (r: real)
      reads x
      requires x.Valid() && 0 <= i <= XN()
      ensures XLeft() <= r <= XRight()
      ensures i == 0 ==> r == XLeft()
    {
      x.X(i)
    }

    /**
     * The space cell of a point in [xLeft, xRight]: one of 0..xn-1, at or left
     * of the point, the next node right of it unless it is the last cell, and
     * xRight itself in the last cell.
     */
    function XI(c: real): (k: int)
      reads x
      requires x.Valid() && XLeft() <= c <= XRight()
      ensures 0 <= k < XN() && XX(k) <= c
      ensures k < XN() - 1 ==> c < XX(k + 1)
      ensures c == XRight() ==> k == XN() - 1
    {
      x.I(c)
    }
  }

  /**
   * The area of x = [3, 8] in 10 steps and t = [0, 10] in 20 steps:
   * xx(3) = 4.5, xi(5.5) = 5, tx(3) = 1.5 and ti(5.5) = 11.
   */
  lemma AreaExamples(a: Area)
    requires a.Valid()
    requires a.x.left == 3.0 && a.x.right == 8.0 && a.x.n == 10 && a.x.h == StepSize(3.0, 8.0, 10)
    requires a.t.left == 0.0 && a.t.right == 10.0 && a.t.n == 20 && a.t.h == StepSize(0.0, 10.0, 20)
    ensures a.XX(3) == 4.5 && a.XI(5.5) == 5
    ensures a.TX(3) == 1.5 && a.TI(5.5) == 11
  {
    GridExamples();
  }
}
