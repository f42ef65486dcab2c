/**
 * The finite-difference schemes of the two solvers, as functions of the
 * layers already computed: the coefficients of one interior row of the
 * tridiagonal system for the next layer, that system, and the sequence of
 * layers every revision's solver produces.  Node i of a layer sits at
 * x1 + i*h and layer j at time j*tau.
 */
module Schemes {
  import opened Thomas
  import opened Border
  import opened Equations
  import opened Discretisation

  /** The coefficients a, b, c, f of one interior row of a tridiagonal system. */
  datatype Band = Band(a: real, b: real, c: real, f: real)

  /**
   * What a solver's layer loop works with: the coefficients, the two border
   * conditions, whether the right border is translated with mirrored signs
   * (the two older revisions), the first node x1, the steps h and tau, and
   * the number n of space steps.
   */
  datatype Scheme = Scheme(q: Coefficients, left: BC, right: BC, mirrored: bool, x1: real, h: real, tau: real, n: int) {

    predicate Valid() {
      n >= 1 && h > 0.0 && tau > 0.0
    }

    function Node(i: int): real {
      Coord(x1, h, i)
    }

    function Time(j: int): real {
      Coord(0.0, tau, j)
    }

    function LeftPair(t: real): KappaNu {
      Forward(left, h, t)
    }

    function RightPair(t: real): KappaNu {
      if mirrored then Mirrored(right, h, t) else Forward(right, h, t)
    }
  }

  /** How the hyperbolic solver fills the two border cells of layer 1. */
  datatype Start =
    | Extrapolated(xLeft: real, xRight: real)           // the first-layer formula at the two ends of the area
    | Prescribed(lu: real -> real, ru: real -> real)    // the Dirichlet values lu(tau) and ru(tau)

  // ------------------------------------------------------------ layer 0

  /** Layer 0: U0 at every node. */
  function InitialLayer(u0: real -> real, x1: real, h: real, n: int): (u: seq<real>)
    requires n >= 0
    ensures |u| == n + 1
    ensures forall i :: 0 <= i <= n ==> u[i] == u0(Coord(x1, h, i))
  {
    seq(n + 1, i => u0(Coord(x1, h, i)))
  }

  // ------------------------------------------------------------ parabolic rows

  /** Alpha = (K(x) + K(x+h) + V(x)*h) / 2, the weight of the right neighbour. */
  function ParabolicAlpha(q: Coefficients, h: real, x: real, xp: real, t: real, u: real, up: real): real {
    (q.k(x, t, u) + q.k(xp, t, up) + q.v(x, t, u) * h) / 2.0
  }

  /** Beta = (K(x) + K(x-h) - V(x)*h) / 2, the weight of the left neighbour. */
  function ParabolicBeta(q: Coefficients, h: real, xm: real, x: real, t: real, um: real, u: real): real {
    (q.k(x, t, u) + q.k(xm, t, um) - q.v(x, t, u) * h) / 2.0
  }

  /** Gamma = (2h^2/tau) * M(x), the weight of the time difference. */
  function ParabolicGamma(q: Coefficients, h: real, tau: real, x: real, t: real, u: real): real
    requires tau > 0.0
  {
    2.0 * h * h / tau * q.m(x, t, u)
  }

  /**
   * The parabolic row built from its weights: A = Beta, B = Alpha,
   * C = Alpha + Beta + Gamma, F = u+*Alpha + u-*Beta - u*(Alpha + Beta - Gamma) + src.
   */
  function ParabolicBand(alpha: real, beta: real, gamma: real, um: real, u: real, up: real, src: real): Band {
    Band(beta, alpha, alpha + beta + gamma, up * alpha + um * beta - u * (alpha + beta - gamma) + src)
  }

  /** The row of node x (neighbours xm, xp) on the layer at time t with values um, u, up; the source term is 2h^2*F. */
  function ParabolicRow(q: Coefficients, h: real, tau: real, xm: real, x: real, xp: real, t: real, um: real, u: real, up: real): Band
    requires tau > 0.0
  {
    ParabolicBand(
      ParabolicAlpha(q, h, x, xp, t, u, up),
      ParabolicBeta(q, h, xm, x, t, um, u),
      ParabolicGamma(q, h, tau, x, t, u),
      um, u, up, 2.0 * h * h * q.f(x, t, u))
  }

  /**
   * The Crank-Nicolson balance at one node: the time difference
   * gamma*(y - u) equals the average of the old and new layers' weighted
   * second differences, alpha*((yp - y) + (up - u)) + beta*((ym - y) + (um - u)),
   * plus the source term.
   */
  predicate CrankNicolson(alpha: real, beta: real, gamma: real, um: real, u: real, up: real, src: real,
                          ym: real, y: real, yp: real) {
    gamma * (y - u) == alpha * ((yp - y) + (up - u)) + beta * ((ym - y) + (um - u)) + src
  }

  /** A parabolic row r holds for the new values ym, y, yp exactly when the Crank-Nicolson balance does. */
  lemma ParabolicBalance(r: Band, alpha: real, beta: real, gamma: real, um: real, u: real, up: real, src: real,
                         ym: real, y: real, yp: real)
    requires r == ParabolicBand(alpha, beta, gamma, um, u, up, src)
    ensures Balanced(r.a, r.b, r.c, r.f, ym, y, yp) <==> CrankNicolson(alpha, beta, gamma, um, u, up, src, ym, y, yp)
  {
    assert r.a * ym - r.c * y + r.b * yp + r.f ==
      alpha * ((yp - y) + (up - u)) + beta * ((ym - y) + (um - u)) + src - gamma * (y - u);
  }

  // ------------------------------------------------------------ hyperbolic rows

  /** Alpha = K(x) - V(x)*h/2, the weight of the left neighbour. */
  function HyperbolicAlpha(q: Coefficients, h: real, x: real, t: real, u: real): real {
    q.k(x, t, u) - q.v(x, t, u) * (h / 2.0)
  }

  /** Beta = K(x) + V(x)*h/2, the weight of the right neighbour. */
  function HyperbolicBeta(q: Coefficients, h: real, x: real, t: real, u: real): real {
    q.k(x, t, u) + q.v(x, t, u) * (h / 2.0)
  }

  /** Gamma = (h^2/tau) * L(x), the weight of the first time difference. */
  function HyperbolicGamma(q: Coefficients, h: real, tau: real, x: real, t: real, u: real): real
    requires tau > 0.0
  {
    h * h / tau * q.l(x, t, u)
  }

  /** Delta = 2*(h/tau)^2 * M(x), the weight of the second time difference. */
  function HyperbolicDelta(q: Coefficients, h: real, tau: real, x: real, t: real, u: real): real
    requires tau > 0.0
  {
    2.0 * ((h / tau) * (h / tau)) * q.m(x, t, u)
  }

  /**
   * The hyperbolic row built from its weights, for the layer before last u
   * and the last layer's value w: A = Alpha, B = Beta,
   * C = Alpha + Beta - Gamma + Delta,
   * F = u-*Alpha + u+*Beta - u*(Alpha + Beta + Gamma + Delta) + 2*(w*Delta + src).
   */
  function HyperbolicBand(alpha: real, beta: real, gamma: real, delta: real,
                          um: real, u: real, up: real, w: real, src: real): Band {
    Band(alpha, beta, alpha + beta - gamma + delta,
         um * alpha + up * beta - u * (alpha + beta + gamma + delta) + 2.0 * (w * delta + src))
  }

  /** The row of node x on the layer at time t (values um, u, up) with the next layer's value w; src = F*h^2. */
  function HyperbolicRow(q: Coefficients, h: real, tau: real, x: real, t: real, um: real, u: real, up: real, w: real): Band
    requires tau > 0.0
  {
    HyperbolicBand(
      HyperbolicAlpha(q, h, x, t, u),
      HyperbolicBeta(q, h, x, t, u),
      HyperbolicGamma(q, h, tau, x, t, u),
      HyperbolicDelta(q, h, tau, x, t, u),
      um, u, up, w, q.f(x, t, u) * (h * h))
  }

  /**
   * The three-layer balance at one node: the second time difference
   * delta*(y - 2w + u), less the centred first difference gamma*(y - u),
   * equals the sum of the outer layers' weighted second differences
   * alpha*((ym - y) + (um - u)) + beta*((yp - y) + (up - u)) plus twice the source term.
   */
  predicate ThreeLayer(alpha: real, beta: real, gamma: real, delta: real, um: real, u: real, up: real, w: real, src: real,
                       ym: real, y: real, yp: real) {
    delta * (y - 2.0 * w + u) - gamma * (y - u) == alpha * ((ym - y) + (um - u)) + beta * ((yp - y) + (up - u)) + 2.0 * src
  }

  /** A hyperbolic row r holds for the new values ym, y, yp exactly when the three-layer balance does. */
  lemma HyperbolicBalance(r: Band, alpha: real, beta: real, gamma: real, delta: real,
                          um: real, u: real, up: real, w: real, src: real, ym: real, y: real, yp: real)
    requires r == HyperbolicBand(alpha, beta, gamma, delta, um, u, up, w, src)
    ensures Balanced(r.a, r.b, r.c, r.f, ym, y, yp) <==> ThreeLayer(alpha, beta, gamma, delta, um, u, up, w, src, ym, y, yp)
  {
    assert r.a * ym - r.c * y + r.b * yp + r.f ==
      alpha * ((ym - y) + (um - u)) + beta * ((yp - y) + (up - u)) + 2.0 * src - (delta * (y - 2.0 * w + u) - gamma * (y - u));
  }

  // ------------------------------------------------------------ layer 1 of the hyperbolic solver

  /**
   * The first-layer value at an interior node x from the layer-0 values um, u, up:
   * u + tau*(dU/dt(x) + tau/2 / M * (K/h^2*(um - 2u + up) + V/(2h)*(up - um) + F)),
   * with every coefficient taken at (x, 0, u).
   */
  function FirstLayerInterior(q: Coefficients, h: real, tau: real, x: real, um: real, u: real, up: real): real
    requires h > 0.0
  {
    u + tau * (q.dudt(x) + Div(tau / 2.0, q.m(x, 0.0, u)) *
      (q.k(x, 0.0, u) / (h * h) * (um - 2.0 * u + up) + q.v(x, 0.0, u) / (2.0 * h) * (up - um) + q.f(x, 0.0, u)))
  }

  /** The first-layer value at a border point x: u + tau*(dU/dt(x) + tau/2 / M * F), at (x, 0, u). */
  function FirstLayerBorder(q: Coefficients, tau: real, u: real, x: real): real {
    u + tau * (q.dudt(x) + Div(tau / 2.0, q.m(x, 0.0, u)) * q.f(x, 0.0, u))
  }

  /**
   * Where M is nonzero the interior first-layer formula is the Taylor step
   * u + tau*u_t + tau^2/2 * u_tt, with u_t = dU/dt and u_tt taken from the
   * equation without its L term: the difference quotients of K*u_xx + V*u_x + F, over M.
   */
  lemma FirstLayerInteriorIsTaylor(q: Coefficients, h: real, tau: real, x: real, um: real, u: real, up: real)
    requires h > 0.0 && q.m(x, 0.0, u) != 0.0
    ensures FirstLayerInterior(q, h, tau, x, um, u, up) ==
      u + tau * q.dudt(x) + (tau * tau / 2.0) *
        ((q.k(x, 0.0, u) * ((um - 2.0 * u + up) / (h * h)) + q.v(x, 0.0, u) * ((up - um) / (2.0 * h)) + q.f(x, 0.0, u)) / q.m(x, 0.0, u))
  {
    GridTaylor(u, tau, q.dudt(x), q.m(x, 0.0, u), q.k(x, 0.0, u), q.v(x, 0.0, u), q.f(x, 0.0, u), um, up, h);
  }

  /** InteriorTaylor with the grid's denominators h^2 and 2h. */
  lemma GridTaylor(u: real, tau: real, d: real, m: real, k: real, v: real, f: real, um: real, up: real, h: real)
    requires h > 0.0 && m != 0.0
    ensures u + tau * (d + Div(tau / 2.0, m) * (k / (h * h) * (um - 2.0 * u + up) + v / (2.0 * h) * (up - um) + f)) ==
      u + tau * d + (tau * tau / 2.0) * ((k * ((um - 2.0 * u + up) / (h * h)) + v * ((up - um) / (2.0 * h)) + f) / m)
  {
    var p2 := SquarePositive(h);
    InteriorTaylor(u, tau, d, m, k, v, f, um - 2.0 * u + up, p2, up - um, 2.0 * h);
  }

  /** Where M is nonzero the border first-layer formula is the Taylor step with u_tt = F/M. */
  lemma FirstLayerBorderIsTaylor(q: Coefficients, tau: real, u: real, x: real)
    requires q.m(x, 0.0, u) != 0.0
    ensures FirstLayerBorder(q, tau, u, x) == u + tau * q.dudt(x) + (tau * tau / 2.0) * (q.f(x, 0.0, u) / q.m(x, 0.0, u))
  {
    TaylorStep(u, tau, q.dudt(x), q.m(x, 0.0, u), q.f(x, 0.0, u));
  }

  /** The square of a positive step, as a positive number the solver can name. */
  lemma SquarePositive(h: real) returns (p: real)
    requires h > 0.0
    ensures p == h * h && p > 0.0
  {
    assert h * h > 0.0;
    p :| p == h * h && p > 0.0;
  }

  /**
   * The interior first-layer formula on plain numbers, with the second and
   * first differences e2, e1 over their nonzero denominators p2, p1, is the
   * Taylor step.
   */
  lemma InteriorTaylor(u: real, tau: real, d: real, m: real, k: real, v: real, f: real,
                       e2: real, p2: real, e1: real, p1: real)
    requires m != 0.0 && p2 != 0.0 && p1 != 0.0
    ensures u + tau * (d + Div(tau / 2.0, m) * (k / p2 * e2 + v / p1 * e1 + f)) ==
      u + tau * d + (tau * tau / 2.0) * ((k * (e2 / p2) + v * (e1 / p1) + f) / m)
  {
    ScaledQuotient(k, e2, p2);
    ScaledQuotient(v, e1, p1);
    assert k / p2 * e2 + v / p1 * e1 + f == k * (e2 / p2) + v * (e1 / p1) + f;
    TaylorStep(u, tau, d, m, k * (e2 / p2) + v * (e1 / p1) + f);
  }

  /** k/d*e == k*(e/d) for a nonzero d. */
  lemma ScaledQuotient(k: real, e: real, d: real)
    requires d != 0.0
    ensures k / d * e == k * (e / d)
  {
    assert k / d * e == (k * e) / d;
  }

  /** u + tau*(d + (tau/2)/m * acc) is u + tau*d + tau^2/2 * (acc/m) for a nonzero m. */
  lemma TaylorStep(u: real, tau: real, d: real, m: real, acc: real)
    requires m != 0.0
    ensures u + tau * (d + Div(tau / 2.0, m) * acc) == u + tau * d + (tau * tau / 2.0) * (acc / m)
  {
    assert Div(tau / 2.0, m) * acc == (tau / 2.0) * (acc / m);
  }

  /** Node i of layer 1: the border values chosen by start, the first-layer formula inside. */
  function FirstLayerAt(s: Scheme, start: Start, u: seq<real>, i: int): real
    requires s.Valid() && |u| == s.n + 1 && 0 <= i <= s.n
  {
    if i == 0 then
      match start
      case Extrapolated(xl, _) => FirstLayerBorder(s.q, s.tau, u[0], xl)
      case Prescribed(lu, _) => lu(s.tau)
    else if i == s.n then
      match start
      case Extrapolated(_, xr) => FirstLayerBorder(s.q, s.tau, u[s.n], xr)
      case Prescribed(_, ru) => ru(s.tau)
    else FirstLayerInterior(s.q, s.h, s.tau, s.Node(i), u[i - 1], u[i], u[i + 1])
  }

  /** Layer 1: the border values chosen by start, the first-layer formula at every interior node. */
  function FirstLayer(s: Scheme, start: Start, u: seq<real>): (w: seq<real>)
    requires s.Valid() && |u| == s.n + 1
    ensures |w| == s.n + 1
    ensures w[0] == (match start
      case Extrapolated(xl, _) => FirstLayerBorder(s.q, s.tau, u[0], xl)
      case Prescribed(lu, _) => lu(s.tau))
    ensures w[s.n] == (match start
      case Extrapolated(_, xr) => FirstLayerBorder(s.q, s.tau, u[s.n], xr)
      case Prescribed(_, ru) => ru(s.tau))
    ensures forall i :: 0 < i < s.n ==> w[i] == FirstLayerInterior(s.q, s.h, s.tau, s.Node(i), u[i - 1], u[i], u[i + 1])
  {
    seq(s.n + 1, i requires 0 <= i <= s.n => FirstLayerAt(s, start, u, i))
  }

  /** A row whose every node agrees with FirstLayerAt is layer 1. */
  lemma FirstLayerFromNodes(s: Scheme, start: Start, u: seq<real>, w: seq<real>)
    requires s.Valid() && |u| == s.n + 1 && |w| == s.n + 1
    requires forall i :: 0 <= i <= s.n ==> w[i] == FirstLayerAt(s, start, u, i)
    ensures w == FirstLayer(s, start, u)
  {
  }

  // ------------------------------------------------------------ the layer systems

  /** The tridiagonal system whose rows are bands (row 0 unused) and whose borders are the scheme's pairs at time t. */
  function LayerSystem(s: Scheme, bands: seq<Band>, t: real): (sys: System)
    requires |bands| >= 1
    ensures WellFormed(sys) && |sys.a| == |bands|
    ensures sys.left == s.LeftPair(t) && sys.right == s.RightPair(t)
  {
    System(
      seq(|bands|, i requires 0 <= i < |bands| => bands[i].a),
      seq(|bands|, i requires 0 <= i < |bands| => bands[i].b),
      seq(|bands|, i requires 0 <= i < |bands| => bands[i].c),
      seq(|bands|, i requires 0 <= i < |bands| => bands[i].f),
      s.LeftPair(t), s.RightPair(t))
  }

  /** Row i of the layer system holds the coefficients of band i. */
  lemma LayerSystemRow(s: Scheme, bands: seq<Band>, t: real, i: int)
    requires |bands| >= 1 && 0 <= i < |bands|
    ensures var sys := LayerSystem(s, bands, t);
      Band(sys.a[i], sys.b[i], sys.c[i], sys.f[i]) == bands[i]
  {
  }

  /** Row i of the parabolic system that leads from layer j (values u) to layer j + 1; row 0 is unused and zero. */
  function ParabolicBandOf(s: Scheme, j: int, u: seq<real>, i: int): Band
    requires s.Valid() && |u| == s.n + 1 && 0 <= i < s.n
  {
    if i == 0 then Band(0.0, 0.0, 0.0, 0.0)
    else ParabolicRow(s.q, s.h, s.tau, s.Node(i - 1), s.Node(i), s.Node(i + 1), s.Time(j), u[i - 1], u[i], u[i + 1])
  }

  /** Row i of the hyperbolic system that leads from layers j (values u) and j + 1 (values w) to layer j + 2. */
  function HyperbolicBandOf(s: Scheme, j: int, u: seq<real>, w: seq<real>, i: int): Band
    requires s.Valid() && |u| == s.n + 1 && |w| == s.n + 1 && 0 <= i < s.n
  {
    if i == 0 then Band(0.0, 0.0, 0.0, 0.0)
    else HyperbolicRow(s.q, s.h, s.tau, s.Node(i), s.Time(j), u[i - 1], u[i], u[i + 1], w[i])
  }

  /** The rows of the parabolic system that leads from layer j (values u) to layer j + 1. */
  function ParabolicBands(s: Scheme, j: int, u: seq<real>): (r: seq<Band>)
    requires s.Valid() && |u| == s.n + 1
    ensures |r| == s.n
  {
    seq(s.n, i requires 0 <= i < s.n => ParabolicBandOf(s, j, u, i))
  }

  /** The rows of the hyperbolic system that leads from layers j (values u) and j + 1 (values w) to layer j + 2. */
  function HyperbolicBands(s: Scheme, j: int, u: seq<real>, w: seq<real>): (r: seq<Band>)
    requires s.Valid() && |u| == s.n + 1 && |w| == s.n + 1
    ensures |r| == s.n
  {
    seq(s.n, i requires 0 <= i < s.n => HyperbolicBandOf(s, j, u, w, i))
  }

  // ------------------------------------------------------------ the layers

  /** The layer that follows layer j (values u): the solution of the system of its bands at time (j + 1)*tau. */
  function ParabolicNext(s: Scheme, j: int, u: seq<real>): (y: seq<real>)
    requires s.Valid() && |u| == s.n + 1
    ensures |y| == s.n + 1
  {
    Solve(LayerSystem(s, ParabolicBands(s, j, u), s.Time(j + 1)))
  }

  /** Layer j of the parabolic solver: U0 on layer 0, then the solution of each layer's system. */
  function ParabolicLayer(s: Scheme, j: nat): (u: seq<real>)
    requires s.Valid()
    ensures |u| == s.n + 1
  {
    if j == 0 then InitialLayer(s.q.u0, s.x1, s.h, s.n)
    else ParabolicNext(s, j - 1, ParabolicLayer(s, j - 1))
  }

  /** The layer that follows layers j (values u) and j + 1 (values w): the solution of their system at time (j + 2)*tau. */
  function HyperbolicNext(s: Scheme, j: int, u: seq<real>, w: seq<real>): (y: seq<real>)
    requires s.Valid() && |u| == s.n + 1 && |w| == s.n + 1
    ensures |y| == s.n + 1
  {
    Solve(LayerSystem(s, HyperbolicBands(s, j, u, w), s.Time(j + 2)))
  }

  /** Layer j of the hyperbolic solver: U0, the first-layer formula, then the solution of each layer's system. */
  function HyperbolicLayer(s: Scheme, start: Start, j: nat): (u: seq<real>)
    requires s.Valid()
    ensures |u| == s.n + 1
  {
    if j == 0 then InitialLayer(s.q.u0, s.x1, s.h, s.n)
    else if j == 1 then FirstLayer(s, start, HyperbolicLayer(s, start, 0))
    else HyperbolicNext(s, j - 2, HyperbolicLayer(s, start, j - 2), HyperbolicLayer(s, start, j - 1))
  }

  // ------------------------------------------------------------ what a new layer satisfies

  /**
   * y continues the parabolic solution from layer u (layer j) to time
   * (j + 1)*tau: both border relations hold there and every interior node
   * keeps the Crank-Nicolson balance.
   */
  predicate ParabolicStepHolds(s: Scheme, j: int, u: seq<real>, y: seq<real>)
    requires s.Valid() && |u| == s.n + 1
  {
    |y| == s.n + 1
    && y[0] == Unwind(s.LeftPair(s.Time(j + 1)), y[1])
    && y[s.n] == Unwind(s.RightPair(s.Time(j + 1)), y[s.n - 1])
    && forall i :: 0 < i < s.n ==> ParabolicNodeHolds(s, j, u, y, i)
  }

  predicate ParabolicNodeHolds(s: Scheme, j: int, u: seq<real>, y: seq<real>, i: int)
    requires s.Valid() && |u| == s.n + 1 && |y| == s.n + 1 && 0 < i < s.n
  {
    CrankNicolson(
      ParabolicAlpha(s.q, s.h, s.Node(i), s.Node(i + 1), s.Time(j), u[i], u[i + 1]),
      ParabolicBeta(s.q, s.h, s.Node(i - 1), s.Node(i), s.Time(j), u[i - 1], u[i]),
      ParabolicGamma(s.q, s.h, s.tau, s.Node(i), s.Time(j), u[i]),
      u[i - 1], u[i], u[i + 1], 2.0 * s.h * s.h * s.q.f(s.Node(i), s.Time(j), u[i]),
      y[i - 1], y[i], y[i + 1])
  }

  /**
   * y continues the hyperbolic solution from layers u (layer j) and w
   * (layer j + 1) to time (j + 2)*tau: both border relations and, at every
   * interior node, the three-layer balance.
   */
  predicate HyperbolicStepHolds(s: Scheme, j: int, u: seq<real>, w: seq<real>, y: seq<real>)
    requires s.Valid() && |u| == s.n + 1 && |w| == s.n + 1
  {
    |y| == s.n + 1
    && y[0] == Unwind(s.LeftPair(s.Time(j + 2)), y[1])
    && y[s.n] == Unwind(s.RightPair(s.Time(j + 2)), y[s.n - 1])
    && forall i :: 0 < i < s.n ==> HyperbolicNodeHolds(s, j, u, w, y, i)
  }

  predicate HyperbolicNodeHolds(s: Scheme, j: int, u: seq<real>, w: seq<real>, y: seq<real>, i: int)
    requires s.Valid() && |u| == s.n + 1 && |w| == s.n + 1 && |y| == s.n + 1 && 0 < i < s.n
  {
    ThreeLayer(
      HyperbolicAlpha(s.q, s.h, s.Node(i), s.Time(j), u[i]),
      HyperbolicBeta(s.q, s.h, s.Node(i), s.Time(j), u[i]),
      HyperbolicGamma(s.q, s.h, s.tau, s.Node(i), s.Time(j), u[i]),
      HyperbolicDelta(s.q, s.h, s.tau, s.Node(i), s.Time(j), u[i]),
      u[i - 1], u[i], u[i + 1], w[i], s.q.f(s.Node(i), s.Time(j), u[i]) * (s.h * s.h),
      y[i - 1], y[i], y[i + 1])
  }

  /** Row i of a parabolic system is the band of that node's weights. */
  lemma ParabolicBandOfWeights(s: Scheme, j: int, u: seq<real>, i: int, alpha: real, beta: real, gamma: real, src: real)
    requires s.Valid() && |u| == s.n + 1 && 0 < i < s.n
    requires alpha == ParabolicAlpha(s.q, s.h, s.Node(i), s.Node(i + 1), s.Time(j), u[i], u[i + 1])
    requires beta == ParabolicBeta(s.q, s.h, s.Node(i - 1), s.Node(i), s.Time(j), u[i - 1], u[i])
    requires gamma == ParabolicGamma(s.q, s.h, s.tau, s.Node(i), s.Time(j), u[i])
    requires src == 2.0 * s.h * s.h * s.q.f(s.Node(i), s.Time(j), u[i])
    ensures ParabolicBandOf(s, j, u, i) == ParabolicBand(alpha, beta, gamma, u[i - 1], u[i], u[i + 1], src)
  {
  }

  /** Row i of a hyperbolic system is the band of that node's weights. */
  lemma HyperbolicBandOfWeights(s: Scheme, j: int, u: seq<real>, w: seq<real>, i: int,
                                alpha: real, beta: real, gamma: real, delta: real, src: real)
    requires s.Valid() && |u| == s.n + 1 && |w| == s.n + 1 && 0 < i < s.n
    requires alpha == HyperbolicAlpha(s.q, s.h, s.Node(i), s.Time(j), u[i])
    requires beta == HyperbolicBeta(s.q, s.h, s.Node(i), s.Time(j), u[i])
    requires gamma == HyperbolicGamma(s.q, s.h, s.tau, s.Node(i), s.Time(j), u[i])
    requires delta == HyperbolicDelta(s.q, s.h, s.tau, s.Node(i), s.Time(j), u[i])
    requires src == s.q.f(s.Node(i), s.Time(j), u[i]) * (s.h * s.h)
    ensures HyperbolicBandOf(s, j, u, w, i) == HyperbolicBand(alpha, beta, gamma, delta, u[i - 1], u[i], u[i + 1], w[i], src)
  {
    assert HyperbolicBandOf(s, j, u, w, i) == HyperbolicRow(s.q, s.h, s.tau, s.Node(i), s.Time(j), u[i - 1], u[i], u[i + 1], w[i]);
  }

  /** Parabolic row i means ParabolicNodeHolds at node i. */
  lemma ParabolicNodeMeaning(s: Scheme, j: int, u: seq<real>, y: seq<real>, i: int)
    requires s.Valid() && |u| == s.n + 1 && |y| == s.n + 1 && 0 < i < s.n
    ensures var r := ParabolicBandOf(s, j, u, i);
      Balanced(r.a, r.b, r.c, r.f, y[i - 1], y[i], y[i + 1]) <==> ParabolicNodeHolds(s, j, u, y, i)
  {
    var x, t := s.Node(i), s.Time(j);
    var alpha := ParabolicAlpha(s.q, s.h, x, s.Node(i + 1), t, u[i], u[i + 1]);
    var beta := ParabolicBeta(s.q, s.h, s.Node(i - 1), x, t, u[i - 1], u[i]);
    var gamma := ParabolicGamma(s.q, s.h, s.tau, x, t, u[i]);
    var src := 2.0 * s.h * s.h * s.q.f(x, t, u[i]);
    ParabolicBandOfWeights(s, j, u, i, alpha, beta, gamma, src);
    ParabolicBalance(ParabolicBandOf(s, j, u, i), alpha, beta, gamma, u[i - 1], u[i], u[i + 1], src, y[i - 1], y[i], y[i + 1]);
  }

  /** Hyperbolic row i means HyperbolicNodeHolds at node i. */
  lemma HyperbolicNodeMeaning(s: Scheme, j: int, u: seq<real>, w: seq<real>, y: seq<real>, i: int)
    requires s.Valid() && |u| == s.n + 1 && |w| == s.n + 1 && |y| == s.n + 1 && 0 < i < s.n
    ensures var r := HyperbolicBandOf(s, j, u, w, i);
      Balanced(r.a, r.b, r.c, r.f, y[i - 1], y[i], y[i + 1]) <==> HyperbolicNodeHolds(s, j, u, w, y, i)
  {
    var x, t := s.Node(i), s.Time(j);
    var alpha := HyperbolicAlpha(s.q, s.h, x, t, u[i]);
    var beta := HyperbolicBeta(s.q, s.h, x, t, u[i]);
    var gamma := HyperbolicGamma(s.q, s.h, s.tau, x, t, u[i]);
    var delta := HyperbolicDelta(s.q, s.h, s.tau, x, t, u[i]);
    var src := s.q.f(x, t, u[i]) * (s.h * s.h);
    HyperbolicBandOfWeights(s, j, u, w, i, alpha, beta, gamma, delta, src);
    HyperbolicBalance(HyperbolicBandOf(s, j, u, w, i), alpha, beta, gamma, delta,
      u[i - 1], u[i], u[i + 1], w[i], src, y[i - 1], y[i], y[i + 1]);
  }

  /** Solving the parabolic system of layer j is the same as meeting ParabolicStepHolds. */
  lemma ParabolicSystemMeaning(s: Scheme, j: int, u: seq<real>, y: seq<real>)
    requires s.Valid() && |u| == s.n + 1
    ensures var sys := LayerSystem(s, ParabolicBands(s, j, u), s.Time(j + 1));
      Satisfies(sys, y) <==> ParabolicStepHolds(s, j, u, y)
  {
    var bands := ParabolicBands(s, j, u);
    var sys := LayerSystem(s, bands, s.Time(j + 1));
    if |y| == s.n + 1 {
      forall i | 0 < i < s.n
        ensures RowHolds(sys, y, i) <==> ParabolicNodeHolds(s, j, u, y, i)
      {
        LayerSystemRow(s, bands, s.Time(j + 1), i);
        ParabolicNodeMeaning(s, j, u, y, i);
      }
    }
  }

  /** Solving the hyperbolic system of layer j + 2 is the same as meeting HyperbolicStepHolds. */
  lemma HyperbolicSystemMeaning(s: Scheme, j: int, u: seq<real>, w: seq<real>, y: seq<real>)
    requires s.Valid() && |u| == s.n + 1 && |w| == s.n + 1
    ensures var sys := LayerSystem(s, HyperbolicBands(s, j, u, w), s.Time(j + 2));
      Satisfies(sys, y) <==> HyperbolicStepHolds(s, j, u, w, y)
  {
    var bands := HyperbolicBands(s, j, u, w);
    var sys := LayerSystem(s, bands, s.Time(j + 2));
    if |y| == s.n + 1 {
      forall i | 0 < i < s.n
        ensures RowHolds(sys, y, i) <==> HyperbolicNodeHolds(s, j, u, w, y, i)
      {
        LayerSystemRow(s, bands, s.Time(j + 2), i);
        HyperbolicNodeMeaning(s, j, u, w, y, i);
      }
    }
  }

  /**
   * When every pivot of its system is nonzero, parabolic layer j + 1 is the
   * one and only y that continues layer j by the scheme.
   */
  lemma ParabolicLayerCharacterised(s: Scheme, j: nat, y: seq<real>)
    requires s.Valid()
    requires Regular(LayerSystem(s, ParabolicBands(s, j, ParabolicLayer(s, j)), s.Time(j + 1)))
    ensures ParabolicStepHolds(s, j, ParabolicLayer(s, j), ParabolicLayer(s, j + 1))
    ensures ParabolicStepHolds(s, j, ParabolicLayer(s, j), y) <==> y == ParabolicLayer(s, j + 1)
  {
    var u := ParabolicLayer(s, j);
    var sys := LayerSystem(s, ParabolicBands(s, j, u), s.Time(j + 1));
    SolveCharacterised(sys, y);
    ParabolicSystemMeaning(s, j, u, y);
    ParabolicSystemMeaning(s, j, u, Solve(sys));
  }

  /**
   * When every pivot of its system is nonzero, hyperbolic layer j + 2 is the
   * one and only y that continues layers j and j + 1 by the scheme.
   */
  lemma HyperbolicLayerCharacterised(s: Scheme, start: Start, j: nat, y: seq<real>)
    requires s.Valid()
    requires Regular(LayerSystem(s, HyperbolicBands(s, j, HyperbolicLayer(s, start, j), HyperbolicLayer(s, start, j + 1)), s.Time(j + 2)))
    ensures HyperbolicStepHolds(s, j, HyperbolicLayer(s, start, j), HyperbolicLayer(s, start, j + 1), HyperbolicLayer(s, start, j + 2))
    ensures HyperbolicStepHolds(s, j, HyperbolicLayer(s, start, j), HyperbolicLayer(s, start, j + 1), y) <==> y == HyperbolicLayer(s, start, j + 2)
  {
    var u, w := HyperbolicLayer(s, start, j), HyperbolicLayer(s, start, j + 1);
    var sys := LayerSystem(s, HyperbolicBands(s, j, u, w), s.Time(j + 2));
    SolveCharacterised(sys, y);
    HyperbolicSystemMeaning(s, j, u, w, y);
    HyperbolicSystemMeaning(s, j, u, w, Solve(sys));
  }

  /** Entries 1..n-1 of four scratch arrays that agree with bands give the system of those bands. */
  lemma ScratchSystem(s: Scheme, bands: seq<Band>, t: real, a: seq<real>, b: seq<real>, c: seq<real>, f: seq<real>)
    requires |bands| >= 1 && |a| == |bands| && |b| == |bands| && |c| == |bands| && |f| == |bands|
    requires forall i :: 0 < i < |bands| ==> Band(a[i], b[i], c[i], f[i]) == bands[i]
    ensures Solve(System(a, b, c, f, s.LeftPair(t), s.RightPair(t))) == Solve(LayerSystem(s, bands, t))
  {
    var sys := LayerSystem(s, bands, t);
    var scratch := System(a, b, c, f, s.LeftPair(t), s.RightPair(t));
    forall k | 1 <= k < |bands|
      ensures scratch.a[k] == sys.a[k] && scratch.b[k] == sys.b[k] && scratch.c[k] == sys.c[k] && scratch.f[k] == sys.f[k]
    {
      LayerSystemRow(s, bands, t, k);
    }
    SolveIgnoresUnusedEntries(sys, scratch);
  }

  /**
   * Scratch rows that agree with the bands of layer j (values u), solved
   * with the scheme's border pairs at time (j + 1)*tau, give the next layer.
   */
  lemma ParabolicStep(s: Scheme, j: int, u: seq<real>, a: seq<real>, b: seq<real>, c: seq<real>, f: seq<real>)
    requires s.Valid() && |u| == s.n + 1 && |a| == s.n && |b| == s.n && |c| == s.n && |f| == s.n
    requires forall i :: 0 < i < s.n ==> Band(a[i], b[i], c[i], f[i]) == ParabolicBandOf(s, j, u, i)
    ensures Solve(System(a, b, c, f, s.LeftPair(s.Time(j + 1)), s.RightPair(s.Time(j + 1)))) == ParabolicNext(s, j, u)
  {
    var bands := ParabolicBands(s, j, u);
    assert forall i :: 0 < i < s.n ==> bands[i] == ParabolicBandOf(s, j, u, i);
    ScratchSystem(s, bands, s.Time(j + 1), a, b, c, f);
  }

  /**
   * Scratch rows that agree with the bands of layers j and j + 1 (values u
   * and w), solved with the border pairs at time (j + 2)*tau, give the next layer.
   */
  lemma HyperbolicStep(s: Scheme, j: int, u: seq<real>, w: seq<real>, a: seq<real>, b: seq<real>, c: seq<real>, f: seq<real>)
    requires s.Valid() && |u| == s.n + 1 && |w| == s.n + 1 && |a| == s.n && |b| == s.n && |c| == s.n && |f| == s.n
    requires forall i :: 0 < i < s.n ==> Band(a[i], b[i], c[i], f[i]) == HyperbolicBandOf(s, j, u, w, i)
    ensures Solve(System(a, b, c, f, s.LeftPair(s.Time(j + 2)), s.RightPair(s.Time(j + 2)))) == HyperbolicNext(s, j, u, w)
  {
    var bands := HyperbolicBands(s, j, u, w);
    assert forall i :: 0 < i < s.n ==> bands[i] == HyperbolicBandOf(s, j, u, w, i);
    ScratchSystem(s, bands, s.Time(j + 2), a, b, c, f);
  }

  /** Layer j + 2 of the hyperbolic solver follows layers j and j + 1. */
  lemma HyperbolicLayerFollows(s: Scheme, start: Start, j: nat)
    requires s.Valid()
    ensures HyperbolicLayer(s, start, j + 2) == HyperbolicNext(s, j, HyperbolicLayer(s, start, j), HyperbolicLayer(s, start, j + 1))
  {
  }

  /** Layer j + 1 of the parabolic solver follows layer j. */
  lemma ParabolicLayerFollows(s: Scheme, j: nat)
    requires s.Valid()
    ensures ParabolicLayer(s, j + 1) == ParabolicNext(s, j, ParabolicLayer(s, j))
  {
  }
}
