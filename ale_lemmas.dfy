/**
 * Properties of one step of GRP_solver_ALE_source_Undone, stated over the
 * functional reference in ale_model.dfy (and so, through the solver's
 * contracts, over what the in-place solver computes).
 */
module AleLemmas {
  import opened Wrappers
  import opened ExtReal
  import opened Euler
  import opened AleModel

  // ---------------------------------------------------------------------
  // Sums over a time level
  // ---------------------------------------------------------------------

  /** Total mass of cells 0 .. n-1. */
  function MassUpTo(cs: seq<Cell>, n: nat): real
    requires n <= |cs|
  {
    if n == 0 then 0.0 else MassUpTo(cs, n - 1) + cs[n - 1].rho
  }

  /** Total momentum of cells 0 .. n-1. */
  function MomentumUpTo(cs: seq<Cell>, n: nat): real
    requires n <= |cs|
  {
    if n == 0 then 0.0 else MomentumUpTo(cs, n - 1) + cs[n - 1].rho * cs[n - 1].u
  }

  /** Total energy of cells 0 .. n-1. */
  function EnergyUpTo(cs: seq<Cell>, n: nat): real
    requires n <= |cs|
  {
    if n == 0 then 0.0 else EnergyUpTo(cs, n - 1) + cs[n - 1].rho * cs[n - 1].e
  }

  /** No cell among 0 .. n-1 has density zero. */
  predicate NonZeroDensity(cs: seq<Cell>, n: nat)
    requires n <= |cs|
  {
    forall i :: 0 <= i < n ==> cs[i].rho != 0.0
  }

  // ---------------------------------------------------------------------
  // Conservation
  // ---------------------------------------------------------------------

  /**
   * Cell i of next is cell i of cells balanced against the fluxes at its two
   * faces: density by F1, and where the new density is not zero, momentum
   * by F2 and energy density by F3.
   */
  predicate Balanced(next: seq<Cell>, cells: seq<Cell>, flux: seq<Flux>, nu: real, i: nat)
    requires i < |cells| == |next| && |flux| == |cells| + 1
  {
    var a, b, fl, fr := cells[i], next[i], flux[i], flux[i + 1];
    && b.rho == a.rho - (nu * fr.mass - nu * fl.mass)
    && (b.rho != 0.0 ==> b.rho * b.u == a.rho * a.u - (nu * fr.mom - nu * fl.mom))
    && (b.rho != 0.0 ==> b.rho * b.e == a.rho * a.e - (nu * fr.ene - nu * fl.ene))
  }

  /** The conservative update balances every cell. */
  lemma UpdatedBalanced(cells: seq<Cell>, flux: seq<Flux>, nu: real, gamma: real)
    requires |flux| == |cells| + 1
    ensures forall i :: 0 <= i < |cells| ==> Balanced(Updated(cells, flux, nu, gamma), cells, flux, nu, i)
  {
    var next := Updated(cells, flux, nu, gamma);
    forall i | 0 <= i < |cells|
      ensures Balanced(next, cells, flux, nu, i)
    {
      assert next[i] == UpdatedAt(cells, flux, nu, gamma, i);
      ConservativeBalances(cells[i], flux[i], flux[i + 1], nu, gamma);
      Distribute(nu, flux[i + 1].mass, flux[i].mass);
      Distribute(nu, flux[i + 1].mom, flux[i].mom);
      Distribute(nu, flux[i + 1].ene, flux[i].ene);
    }
  }

  lemma Distribute(nu: real, a: real, b: real)
    ensures nu * (a - b) == nu * a - nu * b
  {
  }

  /** Balanced cells telescope: the mass of cells 0 .. n-1 changes by -nu (F1[n] - F1[0]). */
  lemma {:induction false} MassTelescopes(next: seq<Cell>, cells: seq<Cell>, flux: seq<Flux>, nu: real, n: nat)
    requires |next| == |cells| && |flux| == |cells| + 1 && n <= |cells|
    requires forall i :: 0 <= i < n ==> Balanced(next, cells, flux, nu, i)
    ensures MassUpTo(next, n) == MassUpTo(cells, n) - (nu * flux[n].mass - nu * flux[0].mass)
  {
    if n > 0 {
      MassTelescopes(next, cells, flux, nu, n - 1);
      assert Balanced(next, cells, flux, nu, n - 1);
    }
  }

  /** Likewise momentum with F2, when no new density among cells 0 .. n-1 is zero. */
  lemma {:induction false} MomentumTelescopes(next: seq<Cell>, cells: seq<Cell>, flux: seq<Flux>, nu: real, n: nat)
    requires |next| == |cells| && |flux| == |cells| + 1 && n <= |cells|
    requires forall i :: 0 <= i < n ==> Balanced(next, cells, flux, nu, i)
    requires NonZeroDensity(next, n)
    ensures MomentumUpTo(next, n) == MomentumUpTo(cells, n) - (nu * flux[n].mom - nu * flux[0].mom)
  {
    if n > 0 {
      MomentumTelescopes(next, cells, flux, nu, n - 1);
      assert Balanced(next, cells, flux, nu, n - 1);
    }
  }

  /** Likewise energy with F3, when no new density among cells 0 .. n-1 is zero. */
  lemma {:induction false} EnergyTelescopes(next: seq<Cell>, cells: seq<Cell>, flux: seq<Flux>, nu: real, n: nat)
    requires |next| == |cells| && |flux| == |cells| + 1 && n <= |cells|
    requires forall i :: 0 <= i < n ==> Balanced(next, cells, flux, nu, i)
    requires NonZeroDensity(next, n)
    ensures EnergyUpTo(next, n) == EnergyUpTo(cells, n) - (nu * flux[n].ene - nu * flux[0].ene)
  {
    if n > 0 {
      EnergyTelescopes(next, cells, flux, nu, n - 1);
      assert Balanced(next, cells, flux, nu, n - 1);
    }
  }

  /**
   * The update conserves up to the boundary fluxes: over the m cells the new
   * mass is the old one minus (nu F1[m] - nu F1[0]); likewise momentum with
   * F2 and energy with F3 when no new density is zero.
   */
  lemma UpdateConserves(cells: seq<Cell>, flux: seq<Flux>, nu: real, gamma: real)
    requires |flux| == |cells| + 1
    ensures var next, m := Updated(cells, flux, nu, gamma), |cells|;
            && MassUpTo(next, m) == MassUpTo(cells, m) - (nu * flux[m].mass - nu * flux[0].mass)
            && (NonZeroDensity(next, m) ==>
                  && MomentumUpTo(next, m) == MomentumUpTo(cells, m) - (nu * flux[m].mom - nu * flux[0].mom)
                  && EnergyUpTo(next, m) == EnergyUpTo(cells, m) - (nu * flux[m].ene - nu * flux[0].ene))
  {
    var next, m := Updated(cells, flux, nu, gamma), |cells|;
    UpdatedBalanced(cells, flux, nu, gamma);
    MassTelescopes(next, cells, flux, nu, m);
    if NonZeroDensity(next, m) {
      MomentumTelescopes(next, cells, flux, nu, m);
      EnergyTelescopes(next, cells, flux, nu, m);
    }
  }

  /**
   * Every updated cell with non-zero density keeps the perfect-gas relation
   * between its conserved variables: Ene = P/(gamma-1) + 0.5*Mom*U.
   */
  lemma UpdatedCellsConsistent(cells: seq<Cell>, flux: seq<Flux>, nu: real, gamma: real, j: nat)
    requires |flux| == |cells| + 1 && j < |cells| && gamma != 1.0
    ensures var c := Updated(cells, flux, nu, gamma)[j];
            c.rho != 0.0 ==> c.rho * c.e == c.p / (gamma - 1.0) + 0.5 * (c.rho * c.u) * c.u
  {
    var c := Updated(cells, flux, nu, gamma)[j];
    assert c == UpdatedAt(cells, flux, nu, gamma, j);
    ConservativeBalances(cells[j], flux[j], flux[j + 1], nu, gamma);
    if c.rho != 0.0 {
      EnergySplits(c, gamma);
    }
  }

  /** A cell whose pressure is the one its conserved variables give splits its energy density. */
  lemma EnergySplits(c: Cell, gamma: real)
    requires gamma != 1.0 && c.p == Pressure(c.rho * c.u, c.rho * c.e, c.u, gamma)
    ensures c.rho * c.e == c.p / (gamma - 1.0) + 0.5 * (c.rho * c.u) * c.u
  {
    PressureSplitsEnergy(c.rho * c.u, c.rho * c.e, c.u, gamma);
  }

  // ---------------------------------------------------------------------
  // Face states
  // ---------------------------------------------------------------------

  /**
   * Inside cell j the two reconstructed face values (its left-face value,
   * the right state of face j, and its right-face value, the left state of
   * face j+1) average to the cell value, and their difference over the
   * cell width is the cell's slope.
   */
  lemma FaceValuesMatchCell(r: Recon, j: nat)
    requires r.Valid() && j < |r.cells| && Increasing(r.x)
    ensures var a, b, c := FaceAt(r, j).right, FaceAt(r, j + 1).left, r.cells[j].Primitive();
            && a.rho + b.rho == 2.0 * c.rho && a.u + b.u == 2.0 * c.u && a.p + b.p == 2.0 * c.p
    ensures Width(r.x, j) > 0.0 && Quotient(FaceAt(r, j + 1).left, FaceAt(r, j).right, Width(r.x, j)) == r.s[j]
  {
    var w, d := Width(r.x, j), r.s[j];
    assert w > 0.0;
    assert FaceAt(r, j).right == Retract(r.cells[j].Primitive(), w, d);
    assert FaceAt(r, j + 1).left == Extrapolate(r.cells[j].Primitive(), w, d);
    assert (0.5 * w * d.rho + 0.5 * w * d.rho) / w == d.rho;
    assert (0.5 * w * d.u + 0.5 * w * d.u) / w == d.u;
    assert (0.5 * w * d.p + 0.5 * w * d.p) / w == d.p;
  }

  /**
   * Under the periodic code -5 faces 0 and m see the same left state,
   * width and slope, while the right state of face m is cell 0's
   * right-face value (the ghost is extrapolated with a plus sign), not the
   * right state of face 0: the two faces agree exactly when cell 0's slope
   * is zero.
   */
  lemma PeriodicFaces(s: State, k: int, st: Settings, lib: Routines)
    requires Inv(s, st) && st.Valid() && lib.Valid() && st.bound == -5
    ensures Rebuilt(s, k, st, lib).Some?
    ensures var r, m := Rebuilt(s, k, st, lib).value, |s.cells|;
            && FaceAt(r, 0).left == FaceAt(r, m).left && FaceAt(r, 0).hL == FaceAt(r, m).hL
            && FaceAt(r, 0).slopeL == FaceAt(r, m).slopeL
            && FaceAt(r, m).right == FaceAt(r, 1).left
            && (FaceAt(r, m) == FaceAt(r, 0) <==> r.s[0] == Zero)
  {
    var r, m := Rebuilt(s, k, st, lib).value, |s.cells|;
    assert r.right.state == s.cells[0].Primitive() && r.right.width == Width(s.x, 0) && r.right.slope == r.s[0];
    assert r.left.state == s.cells[m - 1].Primitive() && r.left.width == Width(s.x, m - 1) && r.left.slope == r.s[m - 1];
    PeriodicReconFaces(r);
  }

  /** The ghosts of code -5: cell m-1 on the left and cell 0 on the right, each with its width and slope. */
  predicate PeriodicGhosts(r: Recon)
    requires r.Valid() && |r.cells| >= 1
  {
    var m := |r.cells|;
    && r.left == Ghost(r.cells[m - 1].Primitive(), Width(r.x, m - 1), r.s[m - 1])
    && r.right == Ghost(r.cells[0].Primitive(), Width(r.x, 0), r.s[0])
  }

  lemma PeriodicReconFaces(r: Recon)
    requires r.Valid() && |r.cells| >= 1 && PeriodicGhosts(r) && Width(r.x, 0) > 0.0
    ensures var m := |r.cells|;
            && FaceAt(r, 0).left == FaceAt(r, m).left && FaceAt(r, 0).hL == FaceAt(r, m).hL
            && FaceAt(r, 0).slopeL == FaceAt(r, m).slopeL
            && FaceAt(r, m).right == FaceAt(r, 1).left
            && (FaceAt(r, m) == FaceAt(r, 0) <==> r.s[0] == Zero)
  {
    var c0, w, d := r.cells[0].Primitive(), Width(r.x, 0), r.s[0];
    assert FaceAt(r, |r.cells|).right == Extrapolate(c0, w, d);
    assert FaceAt(r, 0).right == Retract(c0, w, d);
    ExtrapolateMatchesRetract(c0, w, d);
  }

  /** Adding and subtracting half a positive width times a slope agree only for a zero slope. */
  lemma ExtrapolateMatchesRetract(c: Prim, w: real, d: Prim)
    requires w > 0.0
    ensures Extrapolate(c, w, d) == Retract(c, w, d) <==> d == Zero
  {
    if Extrapolate(c, w, d) == Retract(c, w, d) {
      assert 0.5 * w * d.rho == -(0.5 * w * d.rho);
      assert 0.5 * w * d.u == -(0.5 * w * d.u);
      assert 0.5 * w * d.p == -(0.5 * w * d.p);
    }
  }

  /** With equal fluxes at faces 0 and m the update keeps the total mass. */
  lemma EqualBoundaryFluxesConserveMass(cells: seq<Cell>, flux: seq<Flux>, nu: real, gamma: real)
    requires |flux| == |cells| + 1 && flux[|cells|] == flux[0]
    ensures MassUpTo(Updated(cells, flux, nu, gamma), |cells|) == MassUpTo(cells, |cells|)
  {
    UpdatedBalanced(cells, flux, nu, gamma);
    BalancedKeepsMass(Updated(cells, flux, nu, gamma), cells, flux, nu);
  }

  lemma BalancedKeepsMass(next: seq<Cell>, cells: seq<Cell>, flux: seq<Flux>, nu: real)
    requires |next| == |cells| && |flux| == |cells| + 1 && flux[|cells|] == flux[0]
    requires forall i :: 0 <= i < |cells| ==> Balanced(next, cells, flux, nu, i)
    ensures MassUpTo(next, |cells|) == MassUpTo(cells, |cells|)
  {
    var m := |cells|;
    var inflow, outflow := nu * flux[0].mass, nu * flux[m].mass;
    assert MassUpTo(next, m) == MassUpTo(cells, m) - (outflow - inflow) by {
      MassTelescopes(next, cells, flux, nu, m);
    }
    SameProduct(nu, flux[m].mass, flux[0].mass);
  }

  lemma SameProduct(c: real, x: real, y: real)
    requires x == y
    ensures c * x == c * y
  {
  }

  /**
   * Periodic boundaries conserve mass over a step when cell 0's slope is
   * zero: faces 0 and m then get the same GRP solution, hence the same flux
   * whatever tau is, and the update (for any nu) keeps the total mass.
   */
  lemma PeriodicConservesMass(s: State, k: int, st: Settings, lib: Routines, tau: real, nu: real)
    requires Inv(s, st) && st.Valid() && lib.Valid() && st.bound == -5
    requires Reconstruct(s, k, st, lib).Ready? && Reconstruct(s, k, st, lib).r.s[0] == Zero
    ensures var r, m := Reconstruct(s, k, st, lib).r, |s.cells|;
            var flux := Fluxes(Mids(r, st, lib), Dires(r, st, lib), tau, st.gamma);
            && flux[m] == flux[0]
            && MassUpTo(Updated(s.cells, flux, nu, st.gamma), m) == MassUpTo(s.cells, m)
  {
    var r, m := Reconstruct(s, k, st, lib).r, |s.cells|;
    PeriodicFaces(s, k, st, lib);
    assert Sol(r, m, st, lib) == Sol(r, 0, st, lib);
    var flux := Fluxes(Mids(r, st, lib), Dires(r, st, lib), tau, st.gamma);
    assert flux[m] == flux[0];
    EqualBoundaryFluxesConserveMass(s.cells, flux, nu, st.gamma);
  }

  // ---------------------------------------------------------------------
  // Boundary ghosts
  // ---------------------------------------------------------------------

  /**
   * What each known code puts in the ghosts: -2 mirrors both edge cells
   * (velocity negated, density and pressure kept) with the edge widths, -4
   * copies them, -5 puts cell m-1 and its width on the left and cell 0 and
   * its width on the right, -24 mirrors on the left and copies on the right.
   */
  lemma GhostStatesByCode(code: int, found: bool, left: Ghost, right: Ghost, cells: seq<Cell>, x: seq<real>, h: real)
    requires |cells| >= 1 && |x| == |cells| + 1
    ensures var g, m := ResolveBoundary(code, found, left, right, cells, x, h), |cells|;
            var c0, cm := cells[0], cells[m - 1];
            && (code == -2 ==>
                  (g.Some? && g.value.0.state == Prim(c0.rho, -c0.u, c0.p) && g.value.0.width == x[1] - x[0] &&
                   g.value.1.state == Prim(cm.rho, -cm.u, cm.p) && g.value.1.width == x[m] - x[m - 1]))
            && (code == -4 ==>
                  (g.Some? && g.value.0.state == c0.Primitive() && g.value.0.width == x[1] - x[0] &&
                   g.value.1.state == cm.Primitive() && g.value.1.width == x[m] - x[m - 1]))
            && (code == -5 ==>
                  (g.Some? && g.value.0.state == cm.Primitive() && g.value.0.width == x[m] - x[m - 1] &&
                   g.value.1.state == c0.Primitive() && g.value.1.width == x[1] - x[0]))
            && (code == -24 ==>
                  (g.Some? && g.value.0.state == Prim(c0.rho, -c0.u, c0.p) && g.value.0.width == x[1] - x[0] &&
                   g.value.1.state == cm.Primitive() && g.value.1.width == x[m] - x[m - 1]))
  {
  }

  /**
   * Code -1: the first step takes the edge cells with widths h; once a step
   * has run (find_bound set) every later step keeps the ghosts as they are.
   */
  lemma InitialBoundaryFrozen(s: State, k: int, st: Settings, lib: Routines)
    requires Inv(s, st) && st.Valid() && lib.Valid() && st.bound == -1
    ensures var res := StepModel(s, k, st, lib);
            res.Stepped? ==>
              && res.post.found
              && (s.found ==> res.post.left == s.left && res.post.right == s.right)
              && (!s.found ==>
                    && res.post.left.state == s.cells[0].Primitive() && res.post.left.width == st.h
                    && res.post.right.state == s.cells[|s.cells| - 1].Primitive() && res.post.right.width == st.h)
  {
    var g := ResolveBoundary(st.bound, s.found, s.left, s.right, s.cells, s.x, st.h);
    assert g.Some?;
    match Reconstruct(s, k, st, lib)
    case Rejected(_) =>
    case Ready(r) =>
      assert r.left == g.value.0 && r.right == g.value.1;
  }

  /** An unknown boundary code ends the run at the step it is met, before any cell is updated. */
  lemma UnknownCodeAborts(s: State, k: int, st: Settings, lib: Routines)
    requires Inv(s, st) && st.Valid() && lib.Valid() && !KnownCode(st.bound) && k <= st.maxSteps
    ensures RunModel(s, k, st, lib) == RunAborted(k, UnknownBoundary, s)
  {
    assert ResolveBoundary(st.bound, s.found, s.left, s.right, s.cells, s.x, st.h).None?;
  }

  /**
   * The ghost slopes keep their shape through the second boundary switch:
   * whatever the cell slopes, only the slopes the code writes can become
   * non-zero.
   */
  lemma GhostSlopesKeepShape(code: int, left: Ghost, right: Ghost, s: seq<Prim>)
    requires |s| >= 1 && GhostSlopeShape(code, left.slope, right.slope)
    ensures var g := GhostSlopes(code, left, right, s);
            && GhostSlopeShape(code, g.0.slope, g.1.slope)
            && g.0.state == left.state && g.0.width == left.width
            && g.1.state == right.state && g.1.width == right.width
            && (code == -5 ==> g.0.slope == s[|s| - 1] && g.1.slope == s[0])
            && (code == -2 ==> g.0.slope.u == -s[0].u && g.1.slope.u == -s[|s| - 1].u)
            && (code == -24 ==> g.0.slope.u == -s[0].u && g.1.slope == right.slope)
  {
  }

  // ---------------------------------------------------------------------
  // Time step and termination
  // ---------------------------------------------------------------------

  /** Both widths of every face are positive. */
  lemma FaceWidthsPositive(r: Recon, j: nat)
    requires r.Valid() && j <= |r.cells| && Increasing(r.x) && r.left.width > 0.0 && r.right.width > 0.0
    ensures FaceAt(r, j).hL > 0.0 && FaceAt(r, j).hR > 0.0
  {
    if j > 0 {
      assert Width(r.x, j - 1) > 0.0;
    }
    if j < |r.cells| {
      assert Width(r.x, j) > 0.0;
    }
  }

  /** The signal times of an admissible face with positive widths are positive. */
  lemma FaceTimesPositive(f: Face, st: Settings, lib: Routines)
    requires st.Valid() && lib.Valid() && Admissible(f, st.eps) && f.hL > 0.0 && f.hR > 0.0
    ensures LeftTime(f, st, lib) > 0.0 && RightTime(f, st, lib) > 0.0
  {
    var cl, cr := SoundSpeed(f.left, st.gamma, lib), SoundSpeed(f.right, st.gamma, lib);
    assert Abs(f.left.u) + Abs(cl) > 0.0 && Abs(f.right.u) + Abs(cr) > 0.0;
  }

  /** Every signal time is positive, so h_S_max is a positive finite number once a face is seen. */
  lemma {:induction false} MinWaveTimePositive(r: Recon, n: nat, st: Settings, lib: Routines)
    requires r.Valid() && n <= |r.cells| + 1 && st.Valid() && lib.Valid() && AdmissibleUpTo(r, n, st.eps)
    requires Increasing(r.x) && r.left.width > 0.0 && r.right.width > 0.0
    ensures n > 0 ==> MinWaveTime(r, n, st, lib).Fin? && MinWaveTime(r, n, st, lib).v > 0.0
  {
    if n > 0 {
      MinWaveTimePositive(r, n - 1, st, lib);
      FaceWidthsPositive(r, n - 1);
      FaceTimesPositive(FaceAt(r, n - 1), st, lib);
    }
  }

  /** In the CFL branch tau is below CFL*h_S_max + eps, and it is never negative while time_c has not passed t_all. */
  lemma TauWithinCfl(st: Settings, timeC: Ext, hs: Ext)
    requires st.Valid() && hs.Fin? && hs.v > 0.0 && CflBranch(st)
    requires st.tAll.Fin? ==> timeC.Fin? && timeC.v <= st.tAll.v
    ensures 0.0 <= SelectTau(st, timeC, hs) < st.cfl * hs.v + st.eps
  {
    ScaleBound(st.cfl, 0.0, hs.v);
    if CflBranch(st) && Clipped(st, timeC, hs) {
      assert timeC.v + SelectTau(st, timeC, hs) == st.tAll.v;
    }
  }

  /** tau stays below CFL times both signal times of a face whose times bound h_S_max. */
  lemma TauBelowTimes(st: Settings, timeC: Ext, hs: Ext, f: Face, lib: Routines)
    requires st.Valid() && lib.Valid() && hs.Fin? && (st.tAll.Fin? ==> timeC.Fin?) && CflBranch(st)
    requires Admissible(f, st.eps) && hs.v <= LeftTime(f, st, lib) && hs.v <= RightTime(f, st, lib)
    ensures SelectTau(st, timeC, hs) < st.cfl * LeftTime(f, st, lib) + st.eps
    ensures SelectTau(st, timeC, hs) < st.cfl * RightTime(f, st, lib) + st.eps
  {
    TauBelow(st, timeC, hs, LeftTime(f, st, lib));
    TauBelow(st, timeC, hs, RightTime(f, st, lib));
  }

  /** In the CFL branch tau stays below CFL*t + eps for any t at least h_S_max. */
  lemma TauBelow(st: Settings, timeC: Ext, hs: Ext, t: real)
    requires st.Valid() && hs.Fin? && (st.tAll.Fin? ==> timeC.Fin?) && CflBranch(st) && hs.v <= t
    ensures SelectTau(st, timeC, hs) < st.cfl * t + st.eps
  {
    ScaleBound(st.cfl, hs.v, t);
    var tau := SelectTau(st, timeC, hs);
    if Clipped(st, timeC, hs) {
      assert tau < st.cfl * hs.v + st.eps;
    } else {
      assert tau == st.cfl * hs.v;
    }
  }

  lemma ScaleBound(c: real, a: real, b: real)
    requires c > 0.0 && a <= b
    ensures c * a <= c * b
  {
  }

  /**
   * The second half of a step started with time_c <= t_all: a flagged
   * failure (time_c already t_all after the face loop, or a non-physical
   * updated cell) makes the time check stop the run at this step, the C
   * code storing k in config[5], and level nt is not copied back into
   * level nt-1.  Without a non-physical cell time_c stays at or below
   * t_all.
   */
  lemma FailureStops(s: State, ms: seq<Prim>, ds: seq<Prim>, hs: Ext, st: Settings)
    requires st.Valid() && Inv(s, st) && |ms| == |ds| == |s.x| && hs.Fin? && hs.v > 0.0
    requires st.tAll.Fin? ==> s.timeC.v <= st.tAll.v
    ensures var res := Integrated(s, ms, ds, hs, st);
            (s.timeC == st.tAll || exists i :: 0 <= i < |s.cells| && NonPhysical(res.post.nxt[i], st.eps)) ==>
              res.stop && res.post.cells == s.cells
    ensures var res := Integrated(s, ms, ds, hs, st);
            st.tAll.Fin? && (forall i :: 0 <= i < |s.cells| ==> !NonPhysical(res.post.nxt[i], st.eps)) ==>
              res.post.timeC.Fin? && res.post.timeC.v <= st.tAll.v
  {
    var res := Integrated(s, ms, ds, hs, st);
    var tau := SelectTau(st, s.timeC, hs);
    assert res.tau == tau;
    UpdateFailureAny(s.cells, res.flux, tau / st.h, st.gamma, st.eps, |s.cells|);
    if st.tAll.Fin? && s.timeC == st.tAll {
      assert Clipped(st, s.timeC, hs);
    }
  }

  /**
   * A star pressure below eps does not abort the step: it sets time_c to
   * t_all, and the step then stops the run without the copy-back.
   */
  lemma StarFailureStops(s: State, r: Recon, st: Settings, lib: Routines)
    requires st.Valid() && lib.Valid() && ReadyFor(s, r, st)
    requires st.tAll.Fin? ==> s.timeC.v <= st.tAll.v
    ensures StarFailure(r, |s.cells| + 1, st, lib) ==>
              Evolve(s, r, st, lib).stop && Evolve(s, r, st, lib).post.cells == s.cells
  {
    var m := |s.cells|;
    MinWaveTimePositive(r, m + 1, st, lib);
    var t1 := if StarFailure(r, m + 1, st, lib) then st.tAll else s.timeC;
    var entry := State(s.cells, s.nxt, s.x, s.x1, r.s, r.left, r.right, true, t1);
    FailureStops(entry, Mids(r, st, lib), Dires(r, st, lib), MinWaveTime(r, m + 1, st, lib), st);
  }

  /** The run ends at the step where a star failure is flagged, with the state after that step. */
  lemma FailureEndsRun(s: State, k: int, st: Settings, lib: Routines)
    requires Inv(s, st) && st.Valid() && lib.Valid() && k <= st.maxSteps
    requires st.tAll.Fin? ==> s.timeC.v <= st.tAll.v
    requires Reconstruct(s, k, st, lib).Ready?
    ensures var r := Reconstruct(s, k, st, lib).r;
            StarFailure(r, |s.cells| + 1, st, lib) ==>
              RunModel(s, k, st, lib) == RunStopped(k, StepModel(s, k, st, lib).post)
  {
    StarFailureStops(s, Reconstruct(s, k, st, lib).r, st, lib);
  }

  /** The grid does not move: both node levels after a step are the nodes before it. */
  lemma GridFixed(s: State, k: int, st: Settings, lib: Routines)
    requires Inv(s, st) && st.Valid() && lib.Valid()
    ensures var res := StepModel(s, k, st, lib);
            res.Stepped? ==> res.post.x == s.x && res.post.x1 == s.x
  {
  }
}
