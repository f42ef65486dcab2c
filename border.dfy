/**
 * Border conditions and their translation into the boundary relation
 * y_border = kappa * y_neighbour + nu that the tridiagonal solver takes.
 *
 * Every revision translates the left border the same way.  The newest solver
 * (calcMN) applies that same translation to the right border as well, while
 * the older revisions mirror the signs of the derivative terms on the right.
 */
module Border {
  import opened Thomas

  /** A condition on one border; its data are functions of time. */
  datatype BC =
    | Dirichlet(u: real -> real)            // U = u(t)
    | Neumann(dudx: real -> real)           // a first-derivative value dudx(t)
    | Robin(hr: real, theta: real -> real)  // a derivative proportional to U - theta(t)
    | Unrecognised                          // a condition of any other class

  /**
   * The translation of calcMN, and of the left border in every revision:
   * (0, u(t)), (1, -h*dudx(t)) and (1/(1 + h*hr), h*hr*theta(t)/(1 + h*hr));
   * an unrecognised condition keeps the zero-initialised pair.
   */
  function Forward(bc: BC, h: real, t: real): KappaNu {
    match bc
    case Dirichlet(u) => KappaNu(0.0, u(t))
    case Neumann(dudx) => KappaNu(1.0, -h * dudx(t))
    case Robin(hr, theta) => KappaNu(Div(1.0, LeftDivisor(h, hr)), Div(h * hr * theta(t), LeftDivisor(h, hr)))
    case Unrecognised => KappaNu(0.0, 0.0)
  }

  /**
   * The right-border translation of the older revisions, with mirrored signs:
   * (0, u(t)), (1, h*dudx(t)) and (1/(1 - h*hr), -h*hr*theta(t)/(1 - h*hr)).
   */
  function Mirrored(bc: BC, h: real, t: real): KappaNu {
    match bc
    case Dirichlet(u) => KappaNu(0.0, u(t))
    case Neumann(dudx) => KappaNu(1.0, h * dudx(t))
    case Robin(hr, theta) => KappaNu(Div(1.0, RightDivisor(h, hr)), Div(-h * hr * theta(t), RightDivisor(h, hr)))
    case Unrecognised => KappaNu(0.0, 0.0)
  }

  /** The divisor 1 + h*hr of the left Robin pair. */
  function LeftDivisor(h: real, hr: real): real {
    1.0 + h * hr
  }

  /** The divisor 1 - h*hr of the mirrored right Robin pair. */
  function RightDivisor(h: real, hr: real): real {
    1.0 - h * hr
  }

  /**
   * The condition bc at time t, for a border value u and a one-sided
   * difference quotient slope: U = u(t), slope = dudx(t), slope = hr*(U - theta(t)),
   * or, for an unrecognised condition, U = 0.
   */
  predicate Meets(bc: BC, t: real, u: real, slope: real) {
    match bc
    case Dirichlet(g) => u == g(t)
    case Neumann(g) => slope == g(t)
    case Robin(hr, theta) => slope == hr * (u - theta(t))
    case Unrecognised => u == 0.0
  }

  /** The border condition selected by the integer codes 1, 2 and 3 of the oldest hyperbolic equation. */
  function Coded(code: int, u: real -> real, dudx: real -> real, hr: real, theta: real -> real): BC {
    if code == 1 then Dirichlet(u)
    else if code == 2 then Neumann(dudx)
    else if code == 3 then Robin(hr, theta)
    else Unrecognised
  }

  // ------------------------------------------------------------ arithmetic steps

  /** y == (z + c) / p, written as the pair (1/p, c/p), means p*y == z + c. */
  lemma PairQuotient(p: real, c: real, y: real, z: real)
    requires p != 0.0
    ensures y == Unwind(KappaNu(Div(1.0, p), Div(c, p)), z) <==> p * y == z + c
  {
    QuotientsAdd(1.0, z, c, p);
    QuotientUnique(p, z + c, y);
  }

  /** A difference d equals h*g exactly when d / h equals g. */
  lemma SlopeQuotient(d: real, h: real, g: real)
    requires h > 0.0
    ensures d / h == g <==> d == h * g
  {
    QuotientUnique(h, d, g);
  }

  /** The left Robin pair: y == (z + h*hr*th) / (1 + h*hr) exactly when (z - y)/h == hr*(y - th). */
  lemma RobinLeft(h: real, hr: real, th: real, y: real, z: real)
    requires h > 0.0 && LeftDivisor(h, hr) != 0.0
    ensures y == Unwind(KappaNu(Div(1.0, LeftDivisor(h, hr)), Div(h * hr * th, LeftDivisor(h, hr))), z) <==> (z - y) / h == hr * (y - th)
  {
    var p := 1.0 + h * hr;
    var c := h * hr * th;
    PairQuotient(p, c, y, z);
    assert p * y - c == y + h * (hr * (y - th));
    SlopeQuotient(z - y, h, hr * (y - th));
  }

  /** The mirrored Robin pair: y == (z - h*hr*th) / (1 - h*hr) exactly when (y - z)/h == hr*(y - th). */
  lemma RobinRight(h: real, hr: real, th: real, y: real, z: real)
    requires h > 0.0 && RightDivisor(h, hr) != 0.0
    ensures y == Unwind(KappaNu(Div(1.0, RightDivisor(h, hr)), Div(-h * hr * th, RightDivisor(h, hr))), z) <==> (y - z) / h == hr * (y - th)
  {
    var p := 1.0 - h * hr;
    var c := -h * hr * th;
    PairQuotient(p, c, y, z);
    assert p * y - c == y - h * (hr * (y - th));
    SlopeQuotient(y - z, h, hr * (y - th));
  }

  // ------------------------------------------------------------ properties

  /**
   * The relation y0 = kappa*y1 + nu of Forward is the condition discretised
   * with the one-sided quotient (y1 - y0)/h taken from the border inwards.
   * calcMN uses it on both borders, so on the right border the quotient is
   * (y[N-1] - y[N])/h, pointing inwards as well.
   */
  lemma ForwardMeaning(bc: BC, h: real, t: real, y0: real, y1: real)
    requires h > 0.0
    requires bc.Robin? ==> LeftDivisor(h, bc.hr) != 0.0
    ensures y0 == Unwind(Forward(bc, h, t), y1) <==> Meets(bc, t, y0, (y1 - y0) / h)
  {
    if bc.Neumann? {
      SlopeQuotient(y1 - y0, h, bc.dudx(t));
    } else if bc.Robin? {
      RobinLeft(h, bc.hr, bc.theta(t), y0, y1);
    }
  }

  /**
   * The relation y[N] = kappa*y[N-1] + nu of Mirrored is the condition
   * discretised with the quotient (y[N] - y[N-1])/h taken along x, the same
   * orientation as the left border's (y[1] - y[0])/h.
   */
  lemma MirroredMeaning(bc: BC, h: real, t: real, yn: real, ym: real)
    requires h > 0.0
    requires bc.Robin? ==> RightDivisor(h, bc.hr) != 0.0
    ensures yn == Unwind(Mirrored(bc, h, t), ym) <==> Meets(bc, t, yn, (yn - ym) / h)
  {
    if bc.Neumann? {
      SlopeQuotient(yn - ym, h, bc.dudx(t));
    } else if bc.Robin? {
      RobinRight(h, bc.hr, bc.theta(t), yn, ym);
    }
  }

  /**
   * The two translations agree on Dirichlet and unrecognised conditions and
   * differ on a Neumann condition whose derivative is nonzero.
   */
  lemma MirrorDifference(bc: BC, h: real, t: real)
    requires h > 0.0
    ensures bc.Dirichlet? || bc.Unrecognised? ==> Forward(bc, h, t) == Mirrored(bc, h, t)
    ensures bc.Neumann? && bc.dudx(t) != 0.0 ==> Forward(bc, h, t) != Mirrored(bc, h, t)
  {
  }

  /** Codes 1, 2 and 3 select Dirichlet, Neumann and Robin; any other code gives the pair (0, 0) on both sides. */
  lemma CodedDispatch(code: int, u: real -> real, dudx: real -> real, hr: real, theta: real -> real, h: real, t: real)
    ensures code == 1 ==> Coded(code, u, dudx, hr, theta).Dirichlet?
    ensures code == 2 ==> Coded(code, u, dudx, hr, theta).Neumann?
    ensures code == 3 ==> Coded(code, u, dudx, hr, theta).Robin?
    ensures code < 1 || code > 3 ==>
      Forward(Coded(code, u, dudx, hr, theta), h, t) == KappaNu(0.0, 0.0) &&
      Mirrored(Coded(code, u, dudx, hr, theta), h, t) == KappaNu(0.0, 0.0)
  {
  }
}
