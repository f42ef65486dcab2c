/**
 * The older interval (by.andd3dfx.math.Interval) and its area record
 * (by.andd3dfx.math.Area).  The rebuilds take the bounds as arguments, and the
 * index lookup is not clamped: the right end maps to index n.
 */
module LegacySpace {
  import opened Discretisation

  class Interval {
    var x1: real
    var x2: real
    var h: real
    var n: int

    ghost predicate Valid()
      reads this
    {
      0.0 < h <= x2 - x1 && n == StepCount(x1, x2, h)
    }

    /** The default interval [0, 1], split into 1 step. */
    constructor Default()
      ensures Valid() && x1 == 0.0 && x2 == 1.0 && n == 1 && h == 1.0
    {
      new;
      RebornCount(0.0, 1.0, 1);
    }

    constructor FromStep(x1: real, x2: real, h: real)
      requires x1 < x2 && h > 0.0 && h <= x2 - x1
      ensures Valid() && this.x1 == x1 && this.x2 == x2 && this.h == h
    {
      new;
      RebornStep(x1, x2, h);
    }

    constructor FromCount(x1: real, x2: real, n: int)
      requires x1 < x2 && n > 0
      ensures Valid() && this.x1 == x1 && this.x2 == x2 && this.n == n
      ensures h == StepSize(x1, x2, n) && n as real * h == x2 - x1
    {
      new;
      RebornCount(x1, x2, n);
    }

    /** Rebuilds over [x1, x2] with step h; the count becomes floor((x2 - x1) / h), at least 1. */
    method RebornStep(x1: real, x2: real, h: real)
      requires x1 < x2 && h > 0.0 && h <= x2 - x1
      modifies this
      ensures Valid() && this.x1 == x1 && this.x2 == x2 && this.h == h
      ensures n == StepCount(x1, x2, h) && n >= 1
    {
      this.x1 := x1;
      this.x2 := x2;
      this.h := h;
      n := ((x2 - x1) / h).Floor;
      StepCountBounds(x1, x2, h);
    }

    /** Rebuilds over [x1, x2] in n steps of (x2 - x1) / n. */
    method RebornCount(x1: real, x2: real, n: int)
      requires x1 < x2 && n > 0
      modifies this
      ensures Valid() && this.x1 == x1 && this.x2 == x2 && this.n == n
      ensures h == StepSize(x1, x2, n) && n as real * h == x2 - x1
    {
      this.x1 := x1;
      this.x2 := x2;
      this.n := n;
      h := (x2 - x1) / n as real;
      StepSizeRoundTrip(x1, x2, n);
    }

    /** Node i, x1 + i*h: node 0 is x1, all nodes lie in [x1, x2], node n is x2 when n steps cover the interval. */
    function X(i: int): (x: real)
      reads this
      requires Valid() && 0 <= i <= n
      ensures x1 <= x <= x2
      ensures i == 0 ==> x == x1
      ensures i == n && n as real * h == x2 - x1 ==> x == x2
    {
      CoordInside(x1, x2, h, i);
      x1 + i as real * h
    }

    /**
     * The unclamped index of x in [x1, x2]: one of 0..n, x lies at or after its
     * node and before the next one, and x2 itself maps to n.
     */
    function I(x: real): (k: int)
      reads this
      requires Valid() && x1 <= x <= x2
      ensures 0 <= k <= n
      ensures X(k) <= x
      ensures k < n ==> x < X(k + 1)
      ensures x == x2 ==> k == n
    {
      IndexInside(x1, x2, h, x);
      IndexCell(x1, h, x, Index(x1, h, x));
      ((x - x1) / h).Floor
    }

    /** Looking up a node gives its index back, for every node including the last. */
    lemma IOfX(k: int)
      requires Valid() && 0 <= k <= n
      ensures I(X(k)) == k
    {
      IndexOfCoord(x1, h, k);
      assert X(k) == Coord(x1, h, k);
      assert Index(x1, h, X(k)) == k;
    }
  }

  /** The computational domain of the older packages. */
  datatype Area = Area(x: Interval, t: Interval) {

    ghost predicate Valid()
      reads x, t
    {
      x != t && x.Valid() && t.Valid()
    }

    function TLeft(): real
      reads t
    {
      t.x1
    }

    function TRight(): real
      reads t
    {
      t.x2
    }

    function TN(): int
      reads t
    {
      t.n
    }

    /** Time node i lies in [tLeft, tRight]; node 0 is tLeft. */
    function TX(i: int): (r: real)
      reads t
      requires t.Valid() && 0 <= i <= TN()
      ensures TLeft() <= r <= TRight()
      ensures i == 0 ==> r == TLeft()
    {
      t.X(i)
    }

    /** The time index of a moment in [tLeft, tRight]: one of 0..tn, at or before it and before the next node, and tRight itself gives tn. */
    function TI(time: real): (k: int)
      reads t
      requires t.Valid() && TLeft() <= time <= TRight()
      ensures 0 <= k <= TN() && TX(k) <= time
      ensures k < TN() ==> time < TX(k + 1)
      ensures time == TRight() ==> k == TN()
    {
      t.I(time)
    }

    function XLeft(): real
      reads x
    {
      x.x1
    }

    function XRight(): real
      reads x
    {
      x.x2
    }

    function XN(): int
      reads x
    {
      x.n
    }

    /** Space node i lies in [xLeft, xRight]; node 0 is xLeft. */
    function XX(i: int): (r: real)
      reads x
      requires x.Valid() && 0 <= i <= XN()
      ensures XLeft() <= r <= XRight()
      ensures i == 0 ==> r == XLeft()
    {
      x.X(i)
    }

    /** The space index of a point in [xLeft, xRight]: one of 0..xn, at or left of it and left of the next node, and xRight itself gives xn. */
    function XI(c: real): (k: int)
      reads x
      requires x.Valid() && XLeft() <= c <= XRight()
      ensures 0 <= k <= XN() && XX(k) <= c
      ensures k < XN() ==> c < XX(k + 1)
      ensures c == XRight() ==> k == XN()
    {
      x.I(c)
    }
  }
}
