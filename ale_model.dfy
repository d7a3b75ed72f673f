/**
 * A functional reference for one time step of the 1-D GRP scheme on a
 * fixed (Eulerian) grid, GRP_solver_ALE_source_Undone, and for its main
 * loop.  Each phase of the step is a function over sequences; the class in
 * ale_solver.dfy runs the same phases in place on arrays and is proved
 * against these functions.
 *
 * Routines whose bodies are not part of this model (the GRP solver
 * linear_GRP_solver_Edir, the limiters minmod2/minmod3 and sqrt) are
 * parameters: any functions of the argument shapes used at their call sites.
 */
module AleModel {
  import opened Wrappers
  import opened ExtReal
  import opened Euler

  /** Arguments of linear_GRP_solver_Edir at its call site: states, slopes, gamma, eps. */
  datatype GrpInput = GrpInput(left: Prim, right: Prim, slopeL: Prim, slopeR: Prim, gamma: real, eps: real)

  /** Its two outputs: dire (the time derivatives) and mid (the Riemann solution). */
  datatype GrpOutput = GrpOutput(dire: Prim, mid: Prim)

  /** The routines the step calls but whose bodies are not modelled. */
  datatype Routines = Routines(
    grp: GrpInput -> GrpOutput,
    minmod2: (real, real) -> real,
    minmod3: (real, real, real) -> real,
    sqrt: real -> real)
  {
    /** The one property used of them: sqrt is positive on positive arguments. */
    ghost predicate Valid()
    {
      forall x: real :: 0.0 < x ==> 0.0 < sqrt(x)
    }
  }

  /**
   * The configuration entries the solver reads: t_all = config[1],
   * eps = config[4], N = config[5], gamma = config[6], CFL = config[7],
   * h = config[10], tau = config[16], bound = config[17], alpha = config[41].
   */
  datatype Settings = Settings(
    tAll: Ext, eps: real, maxSteps: int, gamma: real, cfl: real,
    h: real, tauCfg: Ext, bound: int, alpha: real)
  {
    /**
     * The ranges the model works under: h > 0 divides nu = tau/h; gamma > 1
     * keeps gamma - 1 away from 0 and, with eps > 0, makes the sound speed of
     * an admissible state positive; cfl > 0 keeps tau non-negative.
     */
    predicate Valid()
    {
      eps > 0.0 && gamma > 1.0 && cfl > 0.0 && h > 0.0
    }
  }

  /** A boundary ghost: state (UL, PL, RHOL), width HL and slope (SUL, SPL, SRHOL). */
  datatype Ghost = Ghost(state: Prim, width: real, slope: Prim)

  const Zero := Prim(0.0, 0.0, 0.0)

  function Abs(x: real): real { if x < 0.0 then -x else x }

  /** The width X[i+1] - X[i] of cell i. */
  function Width(x: seq<real>, i: nat): real
    requires i + 1 < |x|
  {
    x[i + 1] - x[i]
  }

  /** Node coordinates in strictly increasing order: every cell has a positive width. */
  predicate Increasing(x: seq<real>)
  {
    forall i :: 0 <= i < |x| - 1 ==> Width(x, i) > 0.0
  }

  // ---------------------------------------------------------------------
  // Boundary conditions
  // ---------------------------------------------------------------------

  /** The boundary codes the solver accepts: initial, reflective, free, periodic, reflective + free. */
  predicate KnownCode(code: int)
  {
    code == -1 || code == -2 || code == -4 || code == -5 || code == -24
  }

  /** The reflected state: velocity negated, density and pressure kept. */
  function Mirror(s: Prim): Prim { Prim(s.rho, -s.u, s.p) }

  /**
   * The first boundary switch: the new ghost states and widths, or None
   * for an unknown code.  Code -1 takes the edge cells and widths h only
   * while `found` is false.  Ghost slopes are left as they were.
   */
  function ResolveBoundary(code: int, found: bool, left: Ghost, right: Ghost,
                           cells: seq<Cell>, x: seq<real>, h: real): (r: Option<(Ghost, Ghost)>)
    requires |cells| >= 1 && |x| == |cells| + 1
    ensures r.Some? <==> KnownCode(code)
    ensures r.Some? ==> r.value.0.slope == left.slope && r.value.1.slope == right.slope
    ensures r.Some? && h > 0.0 && Increasing(x) && left.width > 0.0 && right.width > 0.0 ==>
              r.value.0.width > 0.0 && r.value.1.width > 0.0
  {
    var m := |cells|;
    var first, last := cells[0].Primitive(), cells[m - 1].Primitive();
    var w0, wm := Width(x, 0), Width(x, m - 1);
    if code == -1 then
      if found then Some((left, right))
      else Some((Ghost(first, h, left.slope), Ghost(last, h, right.slope)))
    else if code == -2 then
      Some((Ghost(Mirror(first), w0, left.slope), Ghost(Mirror(last), wm, right.slope)))
    else if code == -4 then
      Some((Ghost(first, w0, left.slope), Ghost(last, wm, right.slope)))
    else if code == -5 then
      Some((Ghost(last, wm, left.slope), Ghost(first, w0, right.slope)))
    else if code == -24 then
      Some((Ghost(Mirror(first), w0, left.slope), Ghost(last, wm, right.slope)))
    else
      None
  }

  /**
   * The second boundary switch, after the cell slopes are known: -2 sets
   * SUL = -s_u[0] and SUR = -s_u[m-1], -5 takes all three slopes from the
   * opposite end, -24 sets SUL = -s_u[0]; other codes change nothing.
   */
  function GhostSlopes(code: int, left: Ghost, right: Ghost, s: seq<Prim>): (Ghost, Ghost)
    requires |s| >= 1
  {
    var m := |s|;
    if code == -2 then
      (left.(slope := left.slope.(u := -s[0].u)), right.(slope := right.slope.(u := -s[m - 1].u)))
    else if code == -5 then
      (left.(slope := s[m - 1]), right.(slope := s[0]))
    else if code == -24 then
      (left.(slope := left.slope.(u := -s[0].u)), right)
    else
      (left, right)
  }

  /**
   * Which ghost slopes may be non-zero under each code (all start at 0):
   * density and pressure slopes only under -5, SUL only under -2, -5, -24,
   * SUR only under -2, -5.
   */
  predicate GhostSlopeShape(code: int, sl: Prim, sr: Prim)
  {
    && (code != -5 ==> sl.rho == 0.0 && sl.p == 0.0 && sr.rho == 0.0 && sr.p == 0.0)
    && (code != -2 && code != -5 && code != -24 ==> sl.u == 0.0)
    && (code != -2 && code != -5 ==> sr.u == 0.0)
  }

  // ---------------------------------------------------------------------
  // Slope reconstruction
  // ---------------------------------------------------------------------

  /** Component-wise difference quotient (a - b) / w. */
  function Quotient(a: Prim, b: Prim, w: real): Prim
    requires w != 0.0
  {
    Prim((a.rho - b.rho) / w, (a.u - b.u) / w, (a.p - b.p) / w)
  }

  /** The left candidate slope of cell j (s_*_L), from cell j-1 or the left ghost. */
  function LeftCandidate(j: nat, cells: seq<Cell>, x: seq<real>, left: Ghost): Prim
    requires j < |cells| && |x| == |cells| + 1 && Increasing(x) && left.width > 0.0
  {
    if j > 0 then
      assert Width(x, j - 1) > 0.0 && Width(x, j) > 0.0;
      Quotient(cells[j].Primitive(), cells[j - 1].Primitive(), 0.5 * (x[j + 1] - x[j - 1]))
    else
      assert Width(x, 0) > 0.0;
      Quotient(cells[0].Primitive(), left.state, 0.5 * (x[1] - x[0] + left.width))
  }

  /** The right candidate slope of cell j (s_*_R), from cell j+1 or the right ghost. */
  function RightCandidate(j: nat, cells: seq<Cell>, x: seq<real>, right: Ghost): Prim
    requires j < |cells| && |x| == |cells| + 1 && Increasing(x) && right.width > 0.0
  {
    if j < |cells| - 1 then
      assert Width(x, j) > 0.0 && Width(x, j + 1) > 0.0;
      Quotient(cells[j + 1].Primitive(), cells[j].Primitive(), 0.5 * (x[j + 2] - x[j]))
    else
      assert Width(x, j) > 0.0;
      Quotient(right.state, cells[j].Primitive(), 0.5 * (x[j + 1] - x[j] + right.width))
  }

  /** minmod2 of the candidates on step 1, minmod3 of alpha times them and the previous slope after. */
  function Limit(k: int, alpha: real, sL: Prim, sR: Prim, prev: Prim, lib: Routines): Prim
  {
    if k == 1 then
      Prim(lib.minmod2(sL.rho, sR.rho), lib.minmod2(sL.u, sR.u), lib.minmod2(sL.p, sR.p))
    else
      Prim(lib.minmod3(alpha * sL.rho, alpha * sR.rho, prev.rho),
           lib.minmod3(alpha * sL.u, alpha * sR.u, prev.u),
           lib.minmod3(alpha * sL.p, alpha * sR.p, prev.p))
  }

  /** The limited slope of cell j at step k. */
  function CellSlope(j: nat, k: int, alpha: real, cells: seq<Cell>, x: seq<real>,
                     left: Ghost, right: Ghost, prev: Prim, lib: Routines): Prim
    requires j < |cells| && |x| == |cells| + 1 && Increasing(x) && left.width > 0.0 && right.width > 0.0
  {
    Limit(k, alpha, LeftCandidate(j, cells, x, left), RightCandidate(j, cells, x, right), prev, lib)
  }

  /** All limited slopes of step k; cell j's previous slope is prev[j]. */
  function CellSlopes(k: int, alpha: real, cells: seq<Cell>, x: seq<real>,
                      left: Ghost, right: Ghost, prev: seq<Prim>, lib: Routines): (s: seq<Prim>)
    requires |prev| == |cells| && |x| == |cells| + 1 && Increasing(x) && left.width > 0.0 && right.width > 0.0
    ensures |s| == |cells|
  {
    seq(|cells|, j requires 0 <= j < |cells| => CellSlope(j, k, alpha, cells, x, left, right, prev[j], lib))
  }

  // ---------------------------------------------------------------------
  // Face states
  // ---------------------------------------------------------------------

  /** The data handed to the GRP solver at one face. */
  datatype Face = Face(left: Prim, right: Prim, hL: real, hR: real, slopeL: Prim, slopeR: Prim)

  /** s + 0.5*w*d, component-wise. */
  function Extrapolate(s: Prim, w: real, d: Prim): Prim
  {
    Prim(s.rho + 0.5 * w * d.rho, s.u + 0.5 * w * d.u, s.p + 0.5 * w * d.p)
  }

  /** s - 0.5*w*d, component-wise. */
  function Retract(s: Prim, w: real, d: Prim): Prim
  {
    Prim(s.rho - 0.5 * w * d.rho, s.u - 0.5 * w * d.u, s.p - 0.5 * w * d.p)
  }

  /** What the faces of a step are reconstructed from: level nt-1, the grid, the slopes and the two ghosts. */
  datatype Recon = Recon(cells: seq<Cell>, x: seq<real>, s: seq<Prim>, left: Ghost, right: Ghost)
  {
    predicate Valid() { |x| == |cells| + 1 && |s| == |cells| }
  }

  /**
   * Face j (0 <= j <= m): the left state is cell j-1 (the left ghost at
   * j = 0) plus half a width times its slope; the right state is cell j
   * minus half a width times its slope, except at j = m where the right
   * ghost is extrapolated with a plus sign.
   */
  function FaceAt(r: Recon, j: nat): Face
    requires r.Valid() && j <= |r.cells|
  {
    var m := |r.cells|;
    var hL := if j > 0 then r.x[j] - r.x[j - 1] else r.left.width;
    var hR := if j < m then r.x[j + 1] - r.x[j] else r.right.width;
    Face(
      if j > 0 then Extrapolate(r.cells[j - 1].Primitive(), hL, r.s[j - 1]) else Extrapolate(r.left.state, hL, r.left.slope),
      if j < m then Retract(r.cells[j].Primitive(), hR, r.s[j]) else Extrapolate(r.right.state, hR, r.right.slope),
      hL, hR,
      if j > 0 then r.s[j - 1] else r.left.slope,
      if j < m then r.s[j] else r.right.slope)
  }

  /** The reconstruction check: no reconstructed density or pressure below eps. */
  predicate Admissible(f: Face, eps: real)
  {
    !(f.left.p < eps || f.right.p < eps || f.left.rho < eps || f.right.rho < eps)
  }

  /** Faces 0 .. n-1 all pass the reconstruction check. */
  predicate AdmissibleUpTo(r: Recon, n: nat, eps: real)
    requires r.Valid() && n <= |r.cells| + 1
  {
    n == 0 || (AdmissibleUpTo(r, n - 1, eps) && Admissible(FaceAt(r, n - 1), eps))
  }

  lemma {:induction false} AdmissibleUpToAll(r: Recon, n: nat, eps: real)
    requires r.Valid() && n <= |r.cells| + 1
    ensures AdmissibleUpTo(r, n, eps) <==> forall i :: 0 <= i < n ==> Admissible(FaceAt(r, i), eps)
  {
    if n > 0 {
      AdmissibleUpToAll(r, n - 1, eps);
    }
  }

  /** The first of faces 0 .. n-1 that fails the check, if any: the face the solver aborts at. */
  function FirstInadmissible(r: Recon, n: nat, eps: real): (b: Option<nat>)
    requires r.Valid() && n <= |r.cells| + 1
    ensures b.None? <==> AdmissibleUpTo(r, n, eps)
    ensures b.Some? ==> b.value < n && AdmissibleUpTo(r, b.value, eps) && !Admissible(FaceAt(r, b.value), eps)
  {
    if n == 0 then None
    else
      match FirstInadmissible(r, n - 1, eps)
      case Some(j) => Some(j)
      case None => if Admissible(FaceAt(r, n - 1), eps) then None else Some(n - 1)
  }

  /** A failing face after an admissible prefix is the first one, however many faces follow. */
  lemma {:induction false} FirstInadmissibleAt(r: Recon, n: nat, j: nat, eps: real)
    requires r.Valid() && j < n <= |r.cells| + 1
    requires AdmissibleUpTo(r, j, eps) && !Admissible(FaceAt(r, j), eps)
    ensures FirstInadmissible(r, n, eps) == Some(j)
  {
    if n > j + 1 {
      FirstInadmissibleAt(r, n - 1, j, eps);
    }
  }

  // ---------------------------------------------------------------------
  // CFL time step
  // ---------------------------------------------------------------------

  /** The sound speed sqrt(gamma*p/rho). */
  function SoundSpeed(s: Prim, gamma: real, lib: Routines): (c: real)
    requires lib.Valid() && gamma > 0.0 && s.rho > 0.0 && s.p > 0.0
    ensures c > 0.0
  {
    assert gamma * s.p > 0.0;
    assert gamma * s.p / s.rho > 0.0;
    lib.sqrt(gamma * s.p / s.rho)
  }

  /** The time a signal needs to cross width w: w/(|u| + |c|). */
  function WaveTime(w: real, s: Prim, gamma: real, lib: Routines): real
    requires lib.Valid() && gamma > 0.0 && s.rho > 0.0 && s.p > 0.0
  {
    w / (Abs(s.u) + Abs(SoundSpeed(s, gamma, lib)))
  }

  /** The signal times of the two states of an admissible face. */
  function LeftTime(f: Face, st: Settings, lib: Routines): real
    requires lib.Valid() && st.Valid() && Admissible(f, st.eps)
  {
    WaveTime(f.hL, f.left, st.gamma, lib)
  }

  function RightTime(f: Face, st: Settings, lib: Routines): real
    requires lib.Valid() && st.Valid() && Admissible(f, st.eps)
  {
    WaveTime(f.hR, f.right, st.gamma, lib)
  }

  /**
   * h_S_max after faces 0 .. n-1: +INFINITY folded with fmin over the left
   * and then the right signal time of each face.
   */
  function MinWaveTime(r: Recon, n: nat, st: Settings, lib: Routines): (h: Ext)
    requires r.Valid() && n <= |r.cells| + 1 && st.Valid() && lib.Valid() && AdmissibleUpTo(r, n, st.eps)
    ensures h.PosInf? <==> n == 0
  {
    if n == 0 then PosInf
    else
      var f := FaceAt(r, n - 1);
      Min(Min(MinWaveTime(r, n - 1, st, lib), Fin(LeftTime(f, st, lib))), Fin(RightTime(f, st, lib)))
  }

  /** Extending the scan by one admissible face: what the face loop does to h_S_max and to the star check. */
  lemma ScanOneFace(r: Recon, j: nat, st: Settings, lib: Routines)
    requires r.Valid() && j <= |r.cells| && st.Valid() && lib.Valid() && AdmissibleUpTo(r, j, st.eps)
    requires Admissible(FaceAt(r, j), st.eps)
    ensures AdmissibleUpTo(r, j + 1, st.eps)
    ensures MinWaveTime(r, j + 1, st, lib) ==
              Min(Min(MinWaveTime(r, j, st, lib), Fin(LeftTime(FaceAt(r, j), st, lib))), Fin(RightTime(FaceAt(r, j), st, lib)))
    ensures StarFailure(r, j + 1, st, lib) == (StarFailure(r, j, st, lib) || Riemann(FaceAt(r, j), st, lib).mid.p < st.eps)
  {
  }

  /** h_S_max is the least signal time of the faces seen, and it is one of them. */
  lemma {:induction false} MinWaveTimeIsLeast(r: Recon, n: nat, st: Settings, lib: Routines)
    requires r.Valid() && n <= |r.cells| + 1 && st.Valid() && lib.Valid() && AdmissibleUpTo(r, n, st.eps)
    ensures forall i :: 0 <= i < n ==>
              && Admissible(FaceAt(r, i), st.eps)
              && LessEq(MinWaveTime(r, n, st, lib), Fin(LeftTime(FaceAt(r, i), st, lib)))
              && LessEq(MinWaveTime(r, n, st, lib), Fin(RightTime(FaceAt(r, i), st, lib)))
    ensures n > 0 ==> exists i :: 0 <= i < n && Admissible(FaceAt(r, i), st.eps) &&
                        (MinWaveTime(r, n, st, lib) == Fin(LeftTime(FaceAt(r, i), st, lib))
                         || MinWaveTime(r, n, st, lib) == Fin(RightTime(FaceAt(r, i), st, lib)))
  {
    AdmissibleUpToAll(r, n, st.eps);
    if n > 0 {
      MinWaveTimeIsLeast(r, n - 1, st, lib);
      var h, prev := MinWaveTime(r, n, st, lib), MinWaveTime(r, n - 1, st, lib);
      var f := FaceAt(r, n - 1);
      assert h == Min(Min(prev, Fin(LeftTime(f, st, lib))), Fin(RightTime(f, st, lib)));
      if h != Fin(LeftTime(f, st, lib)) && h != Fin(RightTime(f, st, lib)) {
        assert h == prev && n > 1;
        var i :| 0 <= i < n - 1 && Admissible(FaceAt(r, i), st.eps) &&
                 (prev == Fin(LeftTime(FaceAt(r, i), st, lib)) || prev == Fin(RightTime(FaceAt(r, i), st, lib)));
      }
    }
  }

  /** The C condition selecting the CFL time step (otherwise the configured tau is used). */
  predicate CflBranch(st: Settings)
  {
    st.tAll.Fin? || st.tauCfg.PosInf? || st.tauCfg.v <= 0.0
  }

  /** The CFL step CFL*h_S_max, clipped to t_all - time_c when time_c + tau > t_all - eps. */
  predicate Clipped(st: Settings, timeC: Ext, hs: Ext)
    requires st.Valid() && hs.Fin?
  {
    CflBranch(st) && Greater(AddReal(timeC, st.cfl * hs.v), SubReal(st.tAll, st.eps))
  }

  /**
   * The time step.  In the CFL branch it is CFL*h_S_max unless that would
   * end past t_all - eps, in which case the step ends exactly at t_all;
   * otherwise it is the positive, finite configured tau.
   */
  function SelectTau(st: Settings, timeC: Ext, hs: Ext): (tau: real)
    requires st.Valid() && hs.Fin? && (st.tAll.Fin? ==> timeC.Fin?)
    ensures !CflBranch(st) ==> tau == st.tauCfg.v && tau > 0.0
    ensures CflBranch(st) && !Clipped(st, timeC, hs) ==> tau == st.cfl * hs.v
    ensures Clipped(st, timeC, hs) ==>
              st.tAll.Fin? && timeC.v + tau == st.tAll.v && tau < st.cfl * hs.v + st.eps
    ensures CflBranch(st) && st.tAll.Fin? ==> timeC.v + tau <= st.tAll.v
  {
    if CflBranch(st) then
      if Clipped(st, timeC, hs) then st.tAll.v - timeC.v else st.cfl * hs.v
    else
      st.tauCfg.v
  }

  // ---------------------------------------------------------------------
  // GRP outputs, predictor, fluxes and the conservative update
  // ---------------------------------------------------------------------

  /** The GRP arguments of a face. */
  function GrpArgs(f: Face, st: Settings): GrpInput
  {
    GrpInput(f.left, f.right, f.slopeL, f.slopeR, st.gamma, st.eps)
  }

  /** The GRP call on one face. */
  function Riemann(f: Face, st: Settings, lib: Routines): GrpOutput
  {
    lib.grp(GrpArgs(f, st))
  }

  /** The GRP outputs at face j. */
  function Sol(r: Recon, j: nat, st: Settings, lib: Routines): GrpOutput
    requires r.Valid() && j <= |r.cells|
  {
    Riemann(FaceAt(r, j), st, lib)
  }

  /** The Riemann solutions (mid) of all faces. */
  function Mids(r: Recon, st: Settings, lib: Routines): (ms: seq<Prim>)
    requires r.Valid()
    ensures |ms| == |r.cells| + 1
  {
    seq(|r.cells| + 1, j requires 0 <= j <= |r.cells| => Sol(r, j, st, lib).mid)
  }

  /** The time derivatives (dire) of all faces. */
  function Dires(r: Recon, st: Settings, lib: Routines): (ds: seq<Prim>)
    requires r.Valid()
    ensures |ds| == |r.cells| + 1
  {
    seq(|r.cells| + 1, j requires 0 <= j <= |r.cells| => Sol(r, j, st, lib).dire)
  }

  /** Sequences that agree with the GRP outputs face by face are Mids and Dires. */
  lemma SolutionsPointwise(ms: seq<Prim>, ds: seq<Prim>, r: Recon, st: Settings, lib: Routines)
    requires r.Valid() && |ms| == |ds| == |r.cells| + 1
    requires forall i :: 0 <= i < |ms| ==> ms[i] == Sol(r, i, st, lib).mid && ds[i] == Sol(r, i, st, lib).dire
    ensures ms == Mids(r, st, lib) && ds == Dires(r, st, lib)
  {
  }

  /** Some face among 0 .. n-1 has a star pressure below eps. */
  predicate StarFailure(r: Recon, n: nat, st: Settings, lib: Routines)
    requires r.Valid() && n <= |r.cells| + 1
  {
    n > 0 && (StarFailure(r, n - 1, st, lib) || Sol(r, n - 1, st, lib).mid.p < st.eps)
  }

  lemma {:induction false} StarFailureAny(r: Recon, n: nat, st: Settings, lib: Routines)
    requires r.Valid() && n <= |r.cells| + 1
    ensures StarFailure(r, n, st, lib) <==> exists i :: 0 <= i < n && Sol(r, i, st, lib).mid.p < st.eps
  {
    if n > 0 {
      StarFailureAny(r, n - 1, st, lib);
    }
  }

  /** s + dt*d, component-wise. */
  function Advance(s: Prim, dt: real, d: Prim): Prim
  {
    Prim(s.rho + dt * d.rho, s.u + dt * d.u, s.p + dt * d.p)
  }

  /** Two half steps make a whole one. */
  lemma AdvanceHalves(s: Prim, dt: real, d: Prim)
    ensures Advance(Advance(s, 0.5 * dt, d), 0.5 * dt, d) == Advance(s, dt, d)
  {
    var h := 0.5 * dt;
    assert h * d.rho + h * d.rho == dt * d.rho;
    assert h * d.u + h * d.u == dt * d.u;
    assert h * d.p + h * d.p == dt * d.p;
  }

  /** The flux of each face, evaluated at the half-step state mid + 0.5*tau*dire. */
  function Fluxes(ms: seq<Prim>, ds: seq<Prim>, tau: real, gamma: real): (fs: seq<Flux>)
    requires |ds| == |ms| && gamma != 1.0
    ensures |fs| == |ms|
  {
    seq(|ms|, j requires 0 <= j < |ms| => EulerFlux(Advance(ms[j], 0.5 * tau, ds[j]), gamma))
  }

  /** The face values at the end of the step, mid + tau*dire. */
  function MidEnd(ms: seq<Prim>, ds: seq<Prim>, tau: real): (es: seq<Prim>)
    requires |ds| == |ms|
    ensures |es| == |ms|
  {
    seq(|ms|, j requires 0 <= j < |ms| => Advance(ms[j], tau, ds[j]))
  }

  /**
   * The forward-Euler update of one cell from its two face fluxes: density,
   * momentum and energy change by -nu times the flux difference; velocity
   * and specific energy are recovered by dividing by the new density (the
   * model stores 0 where that density is 0), pressure from the energy.
   */
  function Conservative(c: Cell, fl: Flux, fr: Flux, nu: real, gamma: real): Cell
  {
    var rho := c.rho - nu * (fr.mass - fl.mass);
    var mom := c.rho * c.u - nu * (fr.mom - fl.mom);
    var ene := c.rho * c.e - nu * (fr.ene - fl.ene);
    var u := if rho != 0.0 then mom / rho else 0.0;
    var e := if rho != 0.0 then ene / rho else 0.0;
    Cell(rho, u, Pressure(mom, ene, u, gamma), e)
  }

  /**
   * The updated cell's density, momentum and energy density are the old
   * ones minus nu times the flux differences, and its pressure is the one
   * its conserved variables give (where the new density is not zero).
   */
  lemma ConservativeBalances(c: Cell, fl: Flux, fr: Flux, nu: real, gamma: real)
    ensures var r := Conservative(c, fl, fr, nu, gamma);
            && r.rho == c.rho - nu * (fr.mass - fl.mass)
            && (r.rho != 0.0 ==> r.rho * r.u == c.rho * c.u - nu * (fr.mom - fl.mom))
            && (r.rho != 0.0 ==> r.rho * r.e == c.rho * c.e - nu * (fr.ene - fl.ene))
            && (r.rho != 0.0 ==> r.p == Pressure(r.rho * r.u, r.rho * r.e, r.u, gamma))
  {
  }

  /** Cell j updated from its faces j and j+1. */
  function UpdatedAt(cells: seq<Cell>, flux: seq<Flux>, nu: real, gamma: real, j: nat): Cell
    requires j < |cells| && |flux| == |cells| + 1
  {
    Conservative(cells[j], flux[j], flux[j + 1], nu, gamma)
  }

  /** Every cell updated from its faces j and j+1. */
  function Updated(cells: seq<Cell>, flux: seq<Flux>, nu: real, gamma: real): (next: seq<Cell>)
    requires |flux| == |cells| + 1
    ensures |next| == |cells|
  {
    seq(|cells|, j requires 0 <= j < |cells| => UpdatedAt(cells, flux, nu, gamma, j))
  }

  /** A sequence that agrees with the update cell by cell is the update. */
  lemma UpdatedPointwise(next: seq<Cell>, cells: seq<Cell>, flux: seq<Flux>, nu: real, gamma: real)
    requires |flux| == |cells| + 1 && |next| == |cells|
    requires forall i :: 0 <= i < |cells| ==> next[i] == UpdatedAt(cells, flux, nu, gamma, i)
    ensures next == Updated(cells, flux, nu, gamma)
  {
  }

  /** The update check: pressure or density below eps. */
  predicate NonPhysical(c: Cell, eps: real)
  {
    c.p < eps || c.rho < eps
  }

  /** Some updated cell among 0 .. n-1 fails the update check. */
  predicate UpdateFailure(cells: seq<Cell>, flux: seq<Flux>, nu: real, gamma: real, eps: real, n: nat)
    requires n <= |cells| && |flux| == |cells| + 1
  {
    n > 0 && (UpdateFailure(cells, flux, nu, gamma, eps, n - 1)
              || NonPhysical(UpdatedAt(cells, flux, nu, gamma, n - 1), eps))
  }

  lemma {:induction false} UpdateFailureAny(cells: seq<Cell>, flux: seq<Flux>, nu: real, gamma: real, eps: real, n: nat)
    requires n <= |cells| && |flux| == |cells| + 1
    ensures UpdateFailure(cells, flux, nu, gamma, eps, n) <==>
              exists i :: 0 <= i < n && NonPhysical(Updated(cells, flux, nu, gamma)[i], eps)
  {
    if n > 0 {
      UpdateFailureAny(cells, flux, nu, gamma, eps, n - 1);
      assert Updated(cells, flux, nu, gamma)[n - 1] == UpdatedAt(cells, flux, nu, gamma, n - 1);
    }
  }

  /** The slope of cell j for the next step: the difference of its end-of-step face values over its width. */
  function NewSlope(ms: seq<Prim>, x: seq<real>, j: nat): Prim
    requires |x| == |ms| && j + 1 < |ms| && Increasing(x)
  {
    Quotient(ms[j + 1], ms[j], Width(x, j))
  }

  /** The slopes for the next step. */
  function NewSlopes(ms: seq<Prim>, x: seq<real>): (s: seq<Prim>)
    requires |x| == |ms| >= 1 && Increasing(x)
    ensures |s| == |ms| - 1
  {
    seq(|ms| - 1, j requires 0 <= j < |ms| - 1 => NewSlope(ms, x, j))
  }

  /** A sequence that agrees with the new slopes cell by cell is the new slopes. */
  lemma NewSlopesPointwise(s: seq<Prim>, ms: seq<Prim>, x: seq<real>)
    requires |x| == |ms| >= 1 && Increasing(x) && |s| == |ms| - 1
    requires forall i :: 0 <= i < |s| ==> s[i] == NewSlope(ms, x, i)
    ensures s == NewSlopes(ms, x)
  {
  }

  /** The termination test: time_c > t_all - eps, or time_c infinite. */
  predicate TimeUp(timeC: Ext, st: Settings)
  {
    Greater(timeC, SubReal(st.tAll, st.eps)) || timeC.PosInf?
  }

  // ---------------------------------------------------------------------
  // One step and the main loop
  // ---------------------------------------------------------------------

  /**
   * The solver's state between steps: level nt-1 (cells) and level nt (nxt)
   * of RHO/U/P/E, the grid levels X[nt-1] and X[nt], the slopes carried to
   * the next step, the two ghosts, find_bound and time_c.
   */
  datatype State = State(cells: seq<Cell>, nxt: seq<Cell>, x: seq<real>, x1: seq<real>,
                         slope: seq<Prim>, left: Ghost, right: Ghost, found: bool, timeC: Ext)

  /** What holds of the state before every step. */
  predicate Inv(s: State, st: Settings)
  {
    && |s.cells| >= 1 && |s.nxt| == |s.cells| && |s.x| == |s.cells| + 1 && |s.x1| == |s.x|
    && |s.slope| == |s.cells|
    && Increasing(s.x) && s.left.width > 0.0 && s.right.width > 0.0
    && (st.tAll.Fin? ==> s.timeC.Fin?)
    && GhostSlopeShape(st.bound, s.left.slope, s.right.slope)
  }

  datatype Abort = UnknownBoundary | Reconstruction(face: nat)

  /**
   * The outcome of one step: an abort, or the state after it together with
   * the step's tau and fluxes and whether the run stops.
   */
  datatype StepResult =
    | Aborted(why: Abort)
    | Stepped(post: State, tau: real, flux: seq<Flux>, stop: bool)

  /** What a step works from once every face passed the reconstruction check. */
  ghost predicate ReadyFor(s: State, r: Recon, st: Settings)
  {
    && Inv(s, st) && r.Valid() && r.cells == s.cells && r.x == s.x
    && r.left.width > 0.0 && r.right.width > 0.0 && GhostSlopeShape(st.bound, r.left.slope, r.right.slope)
    && AdmissibleUpTo(r, |s.cells| + 1, st.eps)
  }

  /**
   * The reconstruction a step works from: the boundary switch, the cell
   * slopes and the ghost slopes, or None for an unknown boundary code.
   */
  function Rebuilt(s: State, k: int, st: Settings, lib: Routines): (r: Option<Recon>)
    requires Inv(s, st) && st.Valid() && lib.Valid()
    ensures r.Some? ==> && r.value.Valid() && r.value.cells == s.cells && r.value.x == s.x
                        && r.value.left.width > 0.0 && r.value.right.width > 0.0
                        && GhostSlopeShape(st.bound, r.value.left.slope, r.value.right.slope)
  {
    match ResolveBoundary(st.bound, s.found, s.left, s.right, s.cells, s.x, st.h)
    case None => None
    case Some(g) =>
      var slope := CellSlopes(k, st.alpha, s.cells, s.x, g.0, g.1, s.slope, lib);
      var (left, right) := GhostSlopes(st.bound, g.0, g.1, slope);
      Some(Recon(s.cells, s.x, slope, left, right))
  }

  /** The first half of a step: the reconstruction and its check, or why the step aborts. */
  datatype Prepared = Rejected(why: Abort) | Ready(r: Recon)

  function Reconstruct(s: State, k: int, st: Settings, lib: Routines): (p: Prepared)
    requires Inv(s, st) && st.Valid() && lib.Valid()
    ensures p.Ready? ==> ReadyFor(s, p.r, st)
  {
    match Rebuilt(s, k, st, lib)
    case None => Rejected(UnknownBoundary)
    case Some(r) =>
      match FirstInadmissible(r, |s.cells| + 1, st.eps)
      case Some(j) => Rejected(Reconstruction(j))
      case None => Ready(r)
  }

  /** The second half of a step: tau, the predictor and fluxes, the update and the time check. */
  function Evolve(s: State, r: Recon, st: Settings, lib: Routines): (res: StepResult)
    requires st.Valid() && lib.Valid() && ReadyFor(s, r, st)
    ensures res.Stepped? && Inv(res.post, st) && |res.flux| == |s.cells| + 1
  {
    var m := |s.cells|;
    var t1 := if StarFailure(r, m + 1, st, lib) then st.tAll else s.timeC;
    var entry := State(s.cells, s.nxt, s.x, s.x1, r.s, r.left, r.right, true, t1);
    Integrated(entry, Mids(r, st, lib), Dires(r, st, lib), MinWaveTime(r, m + 1, st, lib), st)
  }

  /**
   * The second half of a step from the state after the face loop, its face
   * values ms and directions ds and h_S_max: the time step, the predictor
   * and fluxes, the update and its check, time_c += tau and the time check.
   */
  function Integrated(s: State, ms: seq<Prim>, ds: seq<Prim>, hs: Ext, st: Settings): (res: StepResult)
    requires st.Valid() && Inv(s, st) && |ms| == |ds| == |s.x| && hs.Fin?
    ensures res.Stepped? && Inv(res.post, st) && |res.flux| == |s.cells| + 1
  {
    var m := |s.cells|;
    var tau := SelectTau(st, s.timeC, hs);
    var flux := Fluxes(ms, ds, tau, st.gamma);
    var nu := tau / st.h;
    var next := Updated(s.cells, flux, nu, st.gamma);
    var t2 := if UpdateFailure(s.cells, flux, nu, st.gamma, st.eps, m) then st.tAll else s.timeC;
    var t3 := AddReal(t2, tau);
    var stop := TimeUp(t3, st);
    var post := State(if stop then s.cells else next, next, s.x, s.x,
                      NewSlopes(MidEnd(ms, ds, tau), s.x), s.left, s.right, s.found, t3);
    Stepped(post, tau, flux, stop)
  }

  /** One pass of the main loop at step k. */
  function StepModel(s: State, k: int, st: Settings, lib: Routines): (res: StepResult)
    requires Inv(s, st) && st.Valid() && lib.Valid()
    ensures res.Aborted? || (Inv(res.post, st) && |res.flux| == |s.cells| + 1)
  {
    match Reconstruct(s, k, st, lib)
    case Rejected(why) => Aborted(why)
    case Ready(r) => Evolve(s, r, st, lib)
  }

  /** How the main loop ends: at an abort, at the time check (config[5] = step), or after N steps. */
  datatype RunResult =
    | RunAborted(step: int, why: Abort, last: State)
    | RunStopped(step: int, last: State)
    | RunCompleted(step: int, last: State)

  /** The main loop from step k on. */
  function RunModel(s: State, k: int, st: Settings, lib: Routines): RunResult
    requires Inv(s, st) && st.Valid() && lib.Valid()
    decreases if k <= st.maxSteps then st.maxSteps - k + 1 else 0
  {
    if k > st.maxSteps then RunCompleted(k, s)
    else
      match StepModel(s, k, st, lib)
      case Aborted(why) => RunAborted(k, why, s)
      case Stepped(post, _, _, stop) =>
        if stop then RunStopped(k, post) else RunModel(post, k + 1, st, lib)
  }
}
