/**
 * The tridiagonal matrix algorithm ("progonka") shared by every solver
 * revision.  For N = |a| >= 1 it looks for y[0..N] with
 *
 *   y[0] = kappa1 * y[1] + nu1,
 *   a[i]*y[i-1] - c[i]*y[i] + b[i]*y[i+1] = -f[i]     for 0 < i < N,
 *   y[N] = kappa2 * y[N-1] + nu2.
 *
 * The forward sweep carries the left boundary relation across the grid,
 * y[i-1] = alpha[i]*y[i] + beta[i], and the backward sweep unwinds it from the
 * right boundary.  Index 0 of a, b, c and f is never read.
 */
module Thomas {

  /** A boundary relation y_border = kappa * y_neighbour + nu. */
  datatype KappaNu = KappaNu(kappa: real, nu: real)

  /** The coefficients of one tridiagonal system and its two boundary relations. */
  datatype System = System(a: seq<real>, b: seq<real>, c: seq<real>, f: seq<real>, left: KappaNu, right: KappaNu)

  /** N = |a| is at least 1 and b, c, f are at least as long as a. */
  predicate WellFormed(s: System) {
    |s.a| >= 1 && |s.b| >= |s.a| && |s.c| >= |s.a| && |s.f| >= |s.a|
  }

  /**
   * Division as the model computes it: a zero divisor gives 0, where IEEE
   * doubles would give an infinity or NaN.  Every property below is stated
   * for systems whose divisors are all nonzero.
   */
  function Div(x: real, d: real): real {
    if d == 0.0 then 0.0 else x / d
  }

  /** (alpha[i], beta[i]) of the forward sweep, for 1 <= i <= N. */
  function Sweep(s: System, i: int): KappaNu
    requires WellFormed(s) && 1 <= i <= |s.a|
    decreases i
  {
    if i == 1 then s.left
    else Step(Sweep(s, i - 1), s.a[i - 1], s.b[i - 1], s.c[i - 1], s.f[i - 1])
  }

  /** One forward step: relation y[i-1] = prev.kappa*y[i] + prev.nu and row i give the relation for y[i]. */
  function Step(prev: KappaNu, a: real, b: real, c: real, f: real): KappaNu {
    var p := c - a * prev.kappa;
    KappaNu(Div(b, p), Div(a * prev.nu + f, p))
  }

  /** y_border when it equals r.kappa * y + r.nu. */
  function Unwind(r: KappaNu, y: real): real {
    r.kappa * y + r.nu
  }

  /** y[N] from the right relation and the last forward-sweep pair. */
  function Close(right: KappaNu, last: KappaNu): real {
    Div(right.nu + right.kappa * last.nu, 1.0 - right.kappa * last.kappa)
  }

  /** The divisor c[i] - a[i]*alpha[i] of forward step i, for 1 <= i < N. */
  function Pivot(s: System, i: int): real
    requires WellFormed(s) && 1 <= i < |s.a|
  {
    s.c[i] - s.a[i] * Sweep(s, i).kappa
  }

  /** The divisor 1 - kappa2*alpha[N] of the last unknown. */
  function Closing(s: System): real
    requires WellFormed(s)
  {
    1.0 - s.right.kappa * Sweep(s, |s.a|).kappa
  }

  /** Every divisor of the algorithm is nonzero. */
  predicate Regular(s: System)
    requires WellFormed(s)
  {
    (forall i :: 1 <= i < |s.a| ==> Pivot(s, i) != 0.0) && Closing(s) != 0.0
  }

  /** y[i] of the backward sweep, for 0 <= i <= N. */
  function Back(s: System, i: int): real
    requires WellFormed(s) && 0 <= i <= |s.a|
    decreases |s.a| - i
  {
    var n := |s.a|;
    if i == n then Close(s.right, Sweep(s, n))
    else Unwind(Sweep(s, i + 1), Back(s, i + 1))
  }

  /** The N + 1 values the algorithm returns. */
  function Solve(s: System): (y: seq<real>)
    requires WellFormed(s)
    ensures |y| == |s.a| + 1
  {
    seq(|s.a| + 1, i requires 0 <= i <= |s.a| => Back(s, i))
  }

  /** y solves the system: both boundary relations and every interior row. */
  predicate Satisfies(s: System, y: seq<real>)
    requires WellFormed(s)
  {
    var n := |s.a|;
    |y| == n + 1
    && y[0] == Unwind(s.left, y[1])
    && y[n] == Unwind(s.right, y[n - 1])
    && forall i :: 0 < i < n ==> RowHolds(s, y, i)
  }

  /** Interior row i: a[i]*y[i-1] - c[i]*y[i] + b[i]*y[i+1] = -f[i]. */
  predicate RowHolds(s: System, y: seq<real>, i: int)
    requires WellFormed(s) && |y| == |s.a| + 1 && 0 < i < |s.a|
  {
    Balanced(s.a[i], s.b[i], s.c[i], s.f[i], y[i - 1], y[i], y[i + 1])
  }

  /** One row of the system: a*ym - c*yi + b*yp = -f. */
  predicate Balanced(a: real, b: real, c: real, f: real, ym: real, yi: real, yp: real) {
    a * ym - c * yi + b * yp == -f
  }

  // ------------------------------------------------------------ arithmetic steps

  /** p*y == q exactly when y is the quotient q / p. */
  lemma QuotientUnique(p: real, q: real, y: real)
    requires p != 0.0
    ensures y == q / p <==> p * y == q
  {
    if p * y == q {
      assert y == (p * y) / p;
    }
  }

  /** Two quotients by the same divisor, the first scaled by u, add up as one. */
  lemma QuotientsAdd(x: real, u: real, z: real, p: real)
    requires p != 0.0
    ensures (x / p) * u + z / p == (x * u + z) / p
  {
    assert (x / p) * u == (x * u) / p;
  }

  /** With ym = alpha*yi + beta, row a*ym - c*yi + b*yp = -f solves for yi. */
  lemma RowRearranged(a: real, b: real, c: real, f: real, alpha: real, beta: real, ym: real, yi: real, yp: real)
    requires ym == alpha * yi + beta
    ensures a * ym - c * yi + b * yp == -f <==> (c - a * alpha) * yi == b * yp + (a * beta + f)
  {
    assert a * ym == a * alpha * yi + a * beta;
  }

  /** Forward step i turns relation i and row i into relation i + 1. */
  lemma ForwardStep(a: real, b: real, c: real, f: real, prev: KappaNu, ym: real, yi: real, yp: real)
    requires c - a * prev.kappa != 0.0
    requires ym == Unwind(prev, yi)
    ensures Balanced(a, b, c, f, ym, yi, yp) <==> yi == Unwind(Step(prev, a, b, c, f), yp)
  {
    var alpha, beta := prev.kappa, prev.nu;
    var p := c - a * alpha;
    var q := b * yp + (a * beta + f);
    RowRearranged(a, b, c, f, alpha, beta, ym, yi, yp);
    assert Unwind(Step(prev, a, b, c, f), yp) == q / p by {
      QuotientsAdd(b, yp, a * beta + f, p);
    }
    QuotientUnique(p, q, yi);
  }

  /** The right relation combined with relation N pins down y[N]. */
  lemma ClosingStep(right: KappaNu, last: KappaNu, ym: real, yn: real)
    requires 1.0 - right.kappa * last.kappa != 0.0
    requires ym == Unwind(last, yn)
    ensures yn == Unwind(right, ym) <==> yn == Close(right, last)
  {
    var p := 1.0 - right.kappa * last.kappa;
    var q := right.nu + right.kappa * last.nu;
    assert Close(right, last) == q / p;
    assert right.kappa * ym == right.kappa * last.kappa * yn + right.kappa * last.nu;
    assert Unwind(right, ym) - yn == q - p * yn;
    QuotientUnique(p, q, yn);
  }

  // ------------------------------------------------------------ properties

  /**
   * When every divisor is nonzero, the returned values solve the system, and
   * they are its only solution.
   */
  lemma SolveCharacterised(s: System, y: seq<real>)
    requires WellFormed(s) && Regular(s)
    ensures Satisfies(s, Solve(s))
    ensures Satisfies(s, y) <==> y == Solve(s)
  {
    SolveSatisfies(s);
    if Satisfies(s, y) {
      SatisfiesIsSolve(s, y);
    }
  }

  /** Backward-sweep values satisfy the relation y[i-1] = alpha[i]*y[i] + beta[i]. */
  lemma BackRelation(s: System, i: int)
    requires WellFormed(s) && 1 <= i <= |s.a|
    ensures Back(s, i - 1) == Unwind(Sweep(s, i), Back(s, i))
  {
  }

  /** Forward step i is built from pair i and row i. */
  lemma SweepNext(s: System, i: int)
    requires WellFormed(s) && 1 <= i < |s.a|
    ensures Sweep(s, i + 1) == Step(Sweep(s, i), s.a[i], s.b[i], s.c[i], s.f[i])
  {
  }

  /** With a nonzero pivot, the backward-sweep values satisfy interior row i. */
  lemma BackRow(s: System, i: int)
    requires WellFormed(s) && 0 < i < |s.a| && Pivot(s, i) != 0.0
    ensures Balanced(s.a[i], s.b[i], s.c[i], s.f[i], Back(s, i - 1), Back(s, i), Back(s, i + 1))
  {
    var ym, yi, yp := Back(s, i - 1), Back(s, i), Back(s, i + 1);
    BackRelation(s, i);
    BackRelation(s, i + 1);
    SweepNext(s, i);
    ForwardStep(s.a[i], s.b[i], s.c[i], s.f[i], Sweep(s, i), ym, yi, yp);
  }

  lemma SolveSatisfies(s: System)
    requires WellFormed(s) && Regular(s)
    ensures Satisfies(s, Solve(s))
  {
    var n := |s.a|;
    var y := Solve(s);
    assert y[0] == Back(s, 0) && y[1] == Back(s, 1);
    assert y[n - 1] == Back(s, n - 1) && y[n] == Back(s, n);
    BackRelation(s, 1);
    BackRelation(s, n);
    ClosingStep(s.right, Sweep(s, n), Back(s, n - 1), Back(s, n));
    forall i | 0 < i < n
      ensures RowHolds(s, y, i)
    {
      assert Pivot(s, i) != 0.0;
      BackRow(s, i);
      assert y[i - 1] == Back(s, i - 1) && y[i] == Back(s, i) && y[i + 1] == Back(s, i + 1);
    }
  }

  /** Any solution obeys every forward-sweep relation. */
  lemma {:induction false} SolutionFollowsSweep(s: System, y: seq<real>, i: int)
    requires WellFormed(s) && Regular(s) && Satisfies(s, y) && 1 <= i <= |s.a|
    ensures y[i - 1] == Unwind(Sweep(s, i), y[i])
    decreases i
  {
    if i > 1 {
      SolutionFollowsSweep(s, y, i - 1);
      assert Pivot(s, i - 1) != 0.0;
      assert RowHolds(s, y, i - 1);
      SweepNext(s, i - 1);
      ForwardStep(s.a[i - 1], s.b[i - 1], s.c[i - 1], s.f[i - 1], Sweep(s, i - 1), y[i - 2], y[i - 1], y[i]);
    }
  }

  /** Any solution agrees with the backward sweep from index i on. */
  lemma {:induction false} SolutionIsBack(s: System, y: seq<real>, i: int)
    requires WellFormed(s) && Regular(s) && Satisfies(s, y) && 0 <= i <= |s.a|
    ensures y[i] == Back(s, i)
    decreases |s.a| - i
  {
    var n := |s.a|;
    if i == n {
      SolutionFollowsSweep(s, y, n);
      ClosingStep(s.right, Sweep(s, n), y[n - 1], y[n]);
    } else {
      SolutionIsBack(s, y, i + 1);
      SolutionFollowsSweep(s, y, i + 1);
    }
  }

  lemma SatisfiesIsSolve(s: System, y: seq<real>)
    requires WellFormed(s) && Regular(s) && Satisfies(s, y)
    ensures y == Solve(s)
  {
    forall i | 0 <= i < |y|
      ensures y[i] == Solve(s)[i]
    {
      SolutionIsBack(s, y, i);
    }
  }

  /** Replacing entry 0 of a, b, c and f leaves every forward-sweep pair unchanged. */
  lemma {:induction false} SweepIgnoresIndexZero(s: System, t: System, i: int)
    requires WellFormed(s) && WellFormed(t) && 1 <= i <= |s.a|
    requires |t.a| == |s.a| && t.left == s.left && t.right == s.right
    requires forall k :: 1 <= k < |s.a| ==> t.a[k] == s.a[k] && t.b[k] == s.b[k] && t.c[k] == s.c[k] && t.f[k] == s.f[k]
    ensures Sweep(t, i) == Sweep(s, i)
    decreases i
  {
    if i > 1 {
      SweepIgnoresIndexZero(s, t, i - 1);
    }
  }

  /** Replacing entry 0 leaves every backward-sweep value unchanged. */
  lemma {:induction false} BackIgnoresIndexZero(s: System, t: System, i: int)
    requires WellFormed(s) && WellFormed(t) && 0 <= i <= |s.a|
    requires |t.a| == |s.a| && t.left == s.left && t.right == s.right
    requires forall k :: 1 <= k < |s.a| ==> t.a[k] == s.a[k] && t.b[k] == s.b[k] && t.c[k] == s.c[k] && t.f[k] == s.f[k]
    ensures Back(t, i) == Back(s, i)
    decreases |s.a| - i
  {
    if i == |s.a| {
      SweepIgnoresIndexZero(s, t, i);
    } else {
      BackIgnoresIndexZero(s, t, i + 1);
      SweepIgnoresIndexZero(s, t, i + 1);
    }
  }

  /**
   * The algorithm never reads index 0 of a, b, c or f, nor any entry past
   * N - 1: two systems that agree on 1..N-1 and on the boundary relations get
   * the same answer.
   */
  lemma SolveIgnoresUnusedEntries(s: System, t: System)
    requires WellFormed(s) && WellFormed(t)
    requires |t.a| == |s.a| && t.left == s.left && t.right == s.right
    requires forall k :: 1 <= k < |s.a| ==> t.a[k] == s.a[k] && t.b[k] == s.b[k] && t.c[k] == s.c[k] && t.f[k] == s.f[k]
    ensures Solve(t) == Solve(s)
  {
    forall i | 0 <= i <= |s.a|
      ensures Solve(t)[i] == Solve(s)[i]
    {
      BackIgnoresIndexZero(s, t, i);
    }
  }

  /**
   * y0 + 3*y1 + y2 = 3 and y1 + 3*y2 + y3 = 4 with y0 = 12 and y3 = 24, written
   * with a = b = [0, 1, 1], c = [0, -3, -3], f = [0, -3, -4], solves to
   * [12, -0.875, -6.375, 24].
   */
  lemma WorkedExample()
    ensures var s := System([0.0, 1.0, 1.0], [0.0, 1.0, 1.0], [0.0, -3.0, -3.0], [0.0, -3.0, -4.0], KappaNu(0.0, 12.0), KappaNu(0.0, 24.0));
            WellFormed(s) && Regular(s) && Solve(s) == [12.0, -0.875, -6.375, 24.0]
  {
    var s := System([0.0, 1.0, 1.0], [0.0, 1.0, 1.0], [0.0, -3.0, -3.0], [0.0, -3.0, -4.0], KappaNu(0.0, 12.0), KappaNu(0.0, 24.0));
    assert Sweep(s, 1) == KappaNu(0.0, 12.0);
    assert Pivot(s, 1) == -3.0;
    assert Sweep(s, 2) == KappaNu(-1.0 / 3.0, -3.0);
    assert Pivot(s, 2) == -8.0 / 3.0;
    assert Sweep(s, 3) == KappaNu(-3.0 / 8.0, 21.0 / 8.0);
    assert Back(s, 3) == 24.0;
    assert Back(s, 2) == -6.375;
    assert Back(s, 1) == -0.875;
    assert Back(s, 0) == 12.0;
    assert Solve(s) == [Back(s, 0), Back(s, 1), Back(s, 2), Back(s, 3)];
  }

  /**
   * The algorithm as the solvers run it: a forward sweep filling alpha and
   * beta, then a backward sweep filling a fresh array of N + 1 values.
   */
  method Progonka(A: array<real>, B: array<real>, C: array<real>, F: array<real>, left: KappaNu, right: KappaNu)
    returns (Y: array<real>)
    requires A.Length >= 1 && B.Length >= A.Length && C.Length >= A.Length && F.Length >= A.Length
    ensures fresh(Y)
    ensures Y[..] == Solve(System(A[..], B[..], C[..], F[..], left, right))
  {
    ghost var s := System(A[..], B[..], C[..], F[..], left, right);
    var n := A.Length;
    var alpha, beta := ForwardSweep(A, B, C, F, left, right);
    assert SweptTo(s, alpha[..], beta[..], n);
    assert KappaNu(alpha[n], beta[n]) == Sweep(s, n);
    Y := new real[n + 1];
    // (nu2 + kappa2*beta[N]) / (1 - kappa2*alpha[N])
    Y[n] := Close(right, KappaNu(alpha[n], beta[n]));
    assert Y[n] == Back(s, n);
    ghost var swept, sweptBeta := alpha[..], beta[..];
    var i := n - 1;
    while i >= 0
      modifies Y
      invariant -1 <= i < n
      invariant SolvedFrom(s, Y[..], i + 1)
    {
      assert alpha[i + 1] == swept[i + 1] && beta[i + 1] == sweptBeta[i + 1];
      ghost var before := Y[..];
      // alpha[i+1]*Y[i+1] + beta[i+1]
      Y[i] := Unwind(KappaNu(alpha[i + 1], beta[i + 1]), Y[i + 1]);
      SolvedExtend(s, before, i, swept, sweptBeta);
      assert Y[..] == before[i := Y[i]];
      i := i - 1;
    }
    SolvedAll(s, Y[..]);
  }

  /** y[k] holds the backward-sweep value k for every i <= k <= N. */
  ghost predicate SolvedFrom(s: System, y: seq<real>, i: int)
    requires WellFormed(s) && 0 <= i <= |s.a|
  {
    |y| > |s.a| && forall k :: i <= k <= |s.a| ==> y[k] == Back(s, k)
  }

  /** Unwinding pair i + 1 over y[i + 1] into y[i] extends the solved suffix by one. */
  lemma SolvedExtend(s: System, y: seq<real>, i: int, alpha: seq<real>, beta: seq<real>)
    requires WellFormed(s) && 0 <= i < |s.a| && SolvedFrom(s, y, i + 1) && SweptTo(s, alpha, beta, |s.a|)
    ensures SolvedFrom(s, y[i := Unwind(KappaNu(alpha[i + 1], beta[i + 1]), y[i + 1])], i)
  {
    assert KappaNu(alpha[i + 1], beta[i + 1]) == Sweep(s, i + 1);
    BackRelation(s, i + 1);
  }

  /** Once every value from 0 on is solved, the first N + 1 entries are the algorithm's answer. */
  lemma SolvedAll(s: System, y: seq<real>)
    requires WellFormed(s) && SolvedFrom(s, y, 0)
    ensures y[..|s.a| + 1] == Solve(s)
  {
  }

  /** alpha[k], beta[k] hold the forward-sweep pair k for every 1 <= k <= i. */
  ghost predicate SweptTo(s: System, alpha: seq<real>, beta: seq<real>, i: int)
    requires WellFormed(s) && 1 <= i <= |s.a|
  {
    |alpha| > i && |beta| > i && forall k :: 1 <= k <= i ==> KappaNu(alpha[k], beta[k]) == Sweep(s, k)
  }

  /** Storing forward step i's result at index i + 1 extends the swept prefix by one. */
  lemma SweptExtend(s: System, alpha: seq<real>, beta: seq<real>, i: int, next: KappaNu)
    requires WellFormed(s) && 1 <= i < |s.a| && SweptTo(s, alpha, beta, i) && |alpha| > i + 1 && |beta| > i + 1
    requires next == Step(KappaNu(alpha[i], beta[i]), s.a[i], s.b[i], s.c[i], s.f[i])
    ensures SweptTo(s, alpha[i + 1 := next.kappa], beta[i + 1 := next.nu], i + 1)
  {
    SweepNext(s, i);
  }

  /**
   * The forward sweep: alpha[1], beta[1] are the left boundary pair and each
   * later pair comes from the one before and row i; entry 0 is left at 0.
   */
  method ForwardSweep(A: array<real>, B: array<real>, C: array<real>, F: array<real>, left: KappaNu, ghost right: KappaNu)
    returns (alpha: array<real>, beta: array<real>)
    requires A.Length >= 1 && B.Length >= A.Length && C.Length >= A.Length && F.Length >= A.Length
    ensures fresh(alpha) && fresh(beta)
    ensures SweptTo(System(A[..], B[..], C[..], F[..], left, right), alpha[..], beta[..], A.Length)
  {
    ghost var s := System(A[..], B[..], C[..], F[..], left, right);
    var n := A.Length;
    alpha := new real[n + 1];
    beta := new real[n + 1];
    alpha[1] := left.kappa;
    beta[1] := left.nu;
    var i := 1;
    while i < n
      invariant 1 <= i <= n
      invariant SweptTo(s, alpha[..], beta[..], i)
    {
      ghost var before, beforeBeta := alpha[..], beta[..];
      // next is (B[i] / p, (A[i]*beta[i] + F[i]) / p) with pivot p = C[i] - A[i]*alpha[i]
      var next := Step(KappaNu(alpha[i], beta[i]), A[i], B[i], C[i], F[i]);
      alpha[i + 1] := next.kappa;
      beta[i + 1] := next.nu;
      SweptExtend(s, before, beforeBeta, i, next);
      assert alpha[..] == before[i + 1 := next.kappa] && beta[..] == beforeBeta[i + 1 := next.nu];
      i := i + 1;
    }
  }

  /**
   * The oldest revision's variant: the same algorithm, boundary pairs passed
   * as four numbers, and the answer written into Y[0..N] of a caller's array,
   * whose other entries stay as they were.
   */
  method ProgonkaInto(A: array<real>, B: array<real>, C: array<real>, F: array<real>,
                      m1: real, n1: real, m2: real, n2: real, Y: array<real>)
    requires A.Length >= 1 && B.Length >= A.Length && C.Length >= A.Length && F.Length >= A.Length
    requires Y.Length >= A.Length + 1
    modifies Y
    ensures Y[..A.Length + 1] == Solve(System(old(A[..]), old(B[..]), old(C[..]), old(F[..]), KappaNu(m1, n1), KappaNu(m2, n2)))
    ensures Y[A.Length + 1..] == old(Y[A.Length + 1..])
  {
    ghost var s := System(A[..], B[..], C[..], F[..], KappaNu(m1, n1), KappaNu(m2, n2));
    var n := A.Length;
    var alpha, beta := ForwardSweep(A, B, C, F, KappaNu(m1, n1), KappaNu(m2, n2));
    assert SweptTo(s, alpha[..], beta[..], n);
    assert KappaNu(alpha[n], beta[n]) == Sweep(s, n);
    ghost var rest := Y[n + 1..];
    // (n2 + m2*beta[N]) / (1 - m2*alpha[N])
    Y[n] := Close(KappaNu(m2, n2), KappaNu(alpha[n], beta[n]));
    assert Y[n] == Back(s, n);
    ghost var swept, sweptBeta := alpha[..], beta[..];
    var i := n - 1;
    while i >= 0
      modifies Y
      invariant -1 <= i < n
      invariant SolvedFrom(s, Y[..], i + 1)
      invariant Y[n + 1..] == rest
    {
      assert alpha[i + 1] == swept[i + 1] && beta[i + 1] == sweptBeta[i + 1];
      ghost var before := Y[..];
      // alpha[i+1]*Y[i+1] + beta[i+1]
      Y[i] := Unwind(KappaNu(alpha[i + 1], beta[i + 1]), Y[i + 1]);
      SolvedExtend(s, before, i, swept, sweptBeta);
      assert Y[..] == before[i := Y[i]];
      i := i - 1;
    }
    SolvedAll(s, Y[..]);
  }
}
