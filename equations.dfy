/**
 * The equation every solver works on,
 *
 *   M(x,t,U)*d2U/dt2 + L(x,t,U)*dU/dt = d/dx(K(x,t,U)*dU/dx) + V(x,t,U)*dU/dx + F(x,t,U),
 *
 * on [x1, x2] × [0, t2], with an initial value U0(x), an initial velocity
 * dU/dt(x) (used by the hyperbolic solvers) and a border condition on each side.
 * The coefficients are parameters; each revision has its own defaults.
 */
module Equations {
  import opened Border

  /** A coefficient as a function of (x, t, U). */
  type Coefficient = (real, real, real) -> real

  datatype Coefficients = Coefficients(
    u0: real -> real,
    dudt: real -> real,
    m: Coefficient,
    l: Coefficient,
    k: Coefficient,
    v: Coefficient,
    f: Coefficient)

  /**
   * The equation record of the newest package: the domain bounds, the two
   * border conditions and the coefficients, stored as given.  The documented
   * requirement x1 < x2 and t2 > 0 is not checked when the record is built.
   */
  datatype Equation = Equation(x1: real, x2: real, t2: real, left: BC, right: BC, q: Coefficients)

  /**
   * The defaults of the newest package: U0 = 0, M = 0, L = 0, K = 1, V = 0,
   * F = 0; a parabolic equation replaces L by 1.  dU/dt is not part of that
   * record and is 0 here.
   */
  function PackageDefaults(parabolic: bool): (q: Coefficients)
    ensures forall x :: q.u0(x) == 0.0
    ensures forall x, t, u :: q.m(x, t, u) == 0.0 && q.k(x, t, u) == 1.0 && q.v(x, t, u) == 0.0
    ensures forall x, t, u :: q.f(x, t, u) == 0.0 && q.l(x, t, u) == (if parabolic then 1.0 else 0.0)
  {
    Coefficients(
      x => 0.0, x => 0.0,
      (x, t, u) => 0.0,
      (x, t, u) => if parabolic then 1.0 else 0.0,
      (x, t, u) => 1.0,
      (x, t, u) => 0.0,
      (x, t, u) => 0.0)
  }

  /**
   * The defaults of the two older equation base classes: U0 = 0, M = 1,
   * K = 1, V = 0, F = 0, with the hyperbolic subclass defaults dU/dt = 0 and
   * L = 0.
   */
  function LegacyDefaults(): (q: Coefficients)
    ensures forall x :: q.u0(x) == 0.0 && q.dudt(x) == 0.0
    ensures forall x, t, u :: q.m(x, t, u) == 1.0 && q.l(x, t, u) == 0.0 && q.k(x, t, u) == 1.0
    ensures forall x, t, u :: q.v(x, t, u) == 0.0 && q.f(x, t, u) == 0.0
  {
    Coefficients(
      x => 0.0, x => 0.0,
      (x, t, u) => 1.0,
      (x, t, u) => 0.0,
      (x, t, u) => 1.0,
      (x, t, u) => 0.0,
      (x, t, u) => 0.0)
  }

  /** The record keeps what it was given, even bounds the documentation rules out. */
  lemma ConstructorStoresUnchecked(left: BC, right: BC, q: Coefficients)
    ensures var e := Equation(2.0, 1.0, -1.0, left, right, q);
      e.x1 == 2.0 && e.x2 == 1.0 && e.t2 == -1.0 && !(e.x1 < e.x2) && !(e.t2 > 0.0)
  {
  }
}
