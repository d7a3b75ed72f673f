/**
 * Primitive and conserved quantities of the 1-D Euler equations for a
 * perfect gas, as the C code combines them: the specific total energy the
 * drivers compute from (rho, u, p), the pressure the conservative update
 * recovers from (rho, rho u, rho E), and the Euler flux of a state.
 */
module Euler {

  /** A primitive state (rho, u, p); also used for slopes and time derivatives. */
  datatype Prim = Prim(rho: real, u: real, p: real)

  /** One cell of a time level: RHO[.][j], U[.][j], P[.][j], E[.][j]. */
  datatype Cell = Cell(rho: real, u: real, p: real, e: real)
  {
    function Primitive(): Prim { Prim(rho, u, p) }
  }

  /** The three flux components F1 (mass), F2 (momentum), F3 (energy). */
  datatype Flux = Flux(mass: real, mom: real, ene: real)

  /** Specific total energy 0.5*u*u + p/(gamma-1)/rho. */
  function TotalEnergy(rho: real, u: real, p: real, gamma: real): real
    requires rho != 0.0 && gamma != 1.0
  {
    0.5 * u * u + p / (gamma - 1.0) / rho
  }

  /** The pressure the update recovers from the conserved form of (rho, u, p) is p again. */
  lemma TotalEnergyRecoversPressure(rho: real, u: real, p: real, gamma: real)
    requires rho != 0.0 && gamma != 1.0
    ensures Pressure(rho * u, rho * TotalEnergy(rho, u, p, gamma), u, gamma) == p
  {
    var e := TotalEnergy(rho, u, p, gamma);
    assert rho * e == 0.5 * (rho * u) * u + p / (gamma - 1.0) by {
      assert rho * (p / (gamma - 1.0) / rho) == p / (gamma - 1.0);
    }
  }

  /** Pressure recovered from momentum Mom, energy Ene and velocity U: (Ene - 0.5*Mom*U)*(gamma-1). */
  function Pressure(mom: real, ene: real, u: real, gamma: real): real
  {
    (ene - 0.5 * mom * u) * (gamma - 1.0)
  }

  /** The energy density is the internal part p/(gamma-1) plus the kinetic part. */
  lemma PressureSplitsEnergy(mom: real, ene: real, u: real, gamma: real)
    requires gamma != 1.0
    ensures ene == Pressure(mom, ene, u, gamma) / (gamma - 1.0) + 0.5 * mom * u
  {
    var q, g := ene - 0.5 * mom * u, gamma - 1.0;
    assert Pressure(mom, ene, u, gamma) == q * g;
    assert (q * g) / g == q;
  }

  /**
   * The Euler flux of a state: F1 = rho*u, F2 = F1*u + p and
   * F3 = ((gamma/(gamma-1))*p + 0.5*F1*u)*u.
   */
  function EulerFlux(s: Prim, gamma: real): Flux
    requires gamma != 1.0
  {
    var f1 := s.rho * s.u;
    Flux(f1, f1 * s.u + s.p, ((gamma / (gamma - 1.0)) * s.p + 0.5 * f1 * s.u) * s.u)
  }

  /** The flux is (rho u, rho u^2 + p, (rho E + p) u) with E the specific total energy. */
  lemma EulerFluxComponents(s: Prim, gamma: real)
    requires gamma != 1.0
    ensures EulerFlux(s, gamma).mass == s.rho * s.u
    ensures EulerFlux(s, gamma).mom == s.rho * s.u * s.u + s.p
    ensures s.rho != 0.0 ==> EulerFlux(s, gamma).ene == (s.rho * TotalEnergy(s.rho, s.u, s.p, gamma) + s.p) * s.u
  {
    if s.rho != 0.0 {
      var f3 := (gamma / (gamma - 1.0)) * s.p + 0.5 * (s.rho * s.u) * s.u;
      assert gamma / (gamma - 1.0) * s.p == s.p / (gamma - 1.0) + s.p;
      assert s.rho * (s.p / (gamma - 1.0) / s.rho) == s.p / (gamma - 1.0);
      assert f3 == s.rho * TotalEnergy(s.rho, s.u, s.p, gamma) + s.p;
    }
  }
}
