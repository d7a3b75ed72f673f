/**
 * GRP_solver_ALE_source_Undone as an object: the caller's time levels
 * nt-1 and nt of RHO/U/P/E and X (nt is fixed at 1, so the two levels act
 * as a double buffer), the solver's work buffers, and the loop variables
 * the main loop carries from step to step.  Every phase of a step is a
 * method whose loop is proved against the matching function of AleModel;
 * Step is proved against StepModel and Run against RunModel.
 */
module AleSolver {
  import opened Wrappers
  import opened ExtReal
  import opened Euler
  import opened AleModel

  /** How one pass of the main loop ends. */
  datatype Status = Continue | Stop | Halt(why: Abort)

  /** How the main loop ends. */
  datatype Ending = Failed(why: Abort) | Stopped | Completed

  class Solver {
    const m: nat
    const st: Settings
    const lib: Routines
    // the caller's arrays: RHO/U/P/E[nt-1] and [nt], X[nt-1] and X[nt]
    const cur: array<Cell>
    const nxt: array<Cell>
    const x0: array<real>
    const x1: array<real>
    // the work buffers: s_rho/s_u/s_p, *_next, *_t and F1..F3
    const slope: array<Prim>
    const mid: array<Prim>
    const dire: array<Prim>
    const flux: array<Flux>
    // the variables the main loop carries
    var left: Ghost
    var right: Ghost
    var found: bool
    var timeC: Ext
    var hSMax: Ext
    var tau: real
    /** config[5]: N on entry, the step count when the time check stops the loop. */
    var reportedSteps: int

    /** Sizes and distinctness of the arrays. */
    predicate Shape()
    {
      && cur.Length == m && nxt.Length == m && slope.Length == m
      && x0.Length == m + 1 && x1.Length == m + 1
      && mid.Length == m + 1 && dire.Length == m + 1 && flux.Length == m + 1
      && cur != nxt && x0 != x1 && slope != mid && slope != dire && mid != dire
    }

    /** The state the main loop carries from one step to the next. */
    ghost function Abstract(): State
      reads this, cur, nxt, x0, x1, slope
    {
      State(cur[..], nxt[..], x0[..], x1[..], slope[..], left, right, found, timeC)
    }

    ghost predicate Valid()
      reads this, cur, nxt, x0, x1, slope
    {
      Shape() && st.Valid() && lib.Valid() && Inv(Abstract(), st)
    }

    /**
     * Set-up before the main loop: slopes zero (calloc), HL = HR = h, ghost
     * slopes zero, find_bound false, time_c = 0, tau = config[16].
     */
    constructor (st: Settings, lib: Routines, cur: array<Cell>, nxt: array<Cell>, x0: array<real>, x1: array<real>)
      requires st.Valid() && lib.Valid()
      requires cur.Length >= 1 && nxt.Length == cur.Length && x0.Length == cur.Length + 1 && x1.Length == x0.Length
      requires cur != nxt && x0 != x1 && Increasing(x0[..])
      ensures Valid() && fresh(slope) && fresh(mid) && fresh(dire) && fresh(flux)
      ensures this.st == st && this.lib == lib && this.m == cur.Length
      ensures this.cur == cur && this.nxt == nxt && this.x0 == x0 && this.x1 == x1
      ensures Abstract() == State(cur[..], nxt[..], x0[..], x1[..], seq(cur.Length, _ => Zero),
                                  Ghost(Zero, st.h, Zero), Ghost(Zero, st.h, Zero), false, Fin(0.0))
      ensures reportedSteps == st.maxSteps
    {
      this.m := cur.Length;
      this.st := st;
      this.lib := lib;
      this.cur := cur;
      this.nxt := nxt;
      this.x0 := x0;
      this.x1 := x1;
      this.slope := new Prim[cur.Length](_ => Zero);
      this.mid := new Prim[cur.Length + 1](_ => Zero);
      this.dire := new Prim[cur.Length + 1](_ => Zero);
      this.flux := new Flux[cur.Length + 1](_ => Flux(0.0, 0.0, 0.0));
      this.left := Ghost(Zero, st.h, Zero);
      this.right := Ghost(Zero, st.h, Zero);
      this.found := false;
      this.timeC := Fin(0.0);
      this.hSMax := PosInf;
      this.tau := if st.tauCfg.Fin? then st.tauCfg.v else 0.0;
      this.reportedSteps := st.maxSteps;
    }

    /**
     * The first boundary switch: the ghost states and widths HL/HR the code
     * selects from the edge cells of level nt-1, or None for an unknown code.
     */
    method BoundaryStates() returns (g: Option<(Ghost, Ghost)>)
      requires Shape() && m >= 1
      ensures g == ResolveBoundary(st.bound, found, left, right, cur[..], x0[..], st.h)
    {
      var w0, wm := x0[1] - x0[0], x0[m] - x0[m - 1];
      var l, r := left, right;
      if st.bound == -1 {
        if !found {
          l := l.(state := cur[0].Primitive(), width := st.h);
          r := r.(state := cur[m - 1].Primitive(), width := st.h);
        }
      } else if st.bound == -2 {
        l := l.(state := Mirror(cur[0].Primitive()), width := w0);
        r := r.(state := Mirror(cur[m - 1].Primitive()), width := wm);
      } else if st.bound == -4 {
        l := l.(state := cur[0].Primitive(), width := w0);
        r := r.(state := cur[m - 1].Primitive(), width := wm);
      } else if st.bound == -5 {
        l := l.(state := cur[m - 1].Primitive(), width := wm);
        r := r.(state := cur[0].Primitive(), width := w0);
      } else if st.bound == -24 {
        l := l.(state := Mirror(cur[0].Primitive()), width := w0);
        r := r.(state := cur[m - 1].Primitive(), width := wm);
      } else {
        return None;
      }
      g := Some((l, r));
    }

    /** The limited slope of cell j: its two candidates, then minmod2 or minmod3. */
    method LimitedSlope(j: nat, k: int) returns (limited: Prim)
      requires Shape() && j < m && Increasing(x0[..]) && left.width > 0.0 && right.width > 0.0
      ensures limited == CellSlope(j, k, st.alpha, cur[..], x0[..], left, right, slope[j], lib)
    {
      var sL, sR: Prim;
      assert Width(x0[..], j) > 0.0;
      if j > 0 {
        assert Width(x0[..], j - 1) > 0.0;
        sL := Quotient(cur[j].Primitive(), cur[j - 1].Primitive(), 0.5 * (x0[j + 1] - x0[j - 1]));
      } else {
        sL := Quotient(cur[j].Primitive(), left.state, 0.5 * (x0[j + 1] - x0[j] + left.width));
      }
      if j < m - 1 {
        assert Width(x0[..], j + 1) > 0.0;
        sR := Quotient(cur[j + 1].Primitive(), cur[j].Primitive(), 0.5 * (x0[j + 2] - x0[j]));
      } else {
        sR := Quotient(right.state, cur[j].Primitive(), 0.5 * (x0[j + 1] - x0[j] + right.width));
      }
      assert sL == LeftCandidate(j, cur[..], x0[..], left);
      assert sR == RightCandidate(j, cur[..], x0[..], right);
      limited := Limit(k, st.alpha, sL, sR, slope[j], lib);
    }

    /** The slope loop: minmod2 on step 1, minmod3 with alpha and the previous slope after. */
    method ReconstructSlopes(k: int)
      requires Shape() && m >= 1 && Increasing(x0[..]) && left.width > 0.0 && right.width > 0.0
      modifies slope
      ensures slope[..] == CellSlopes(k, st.alpha, old(cur[..]), old(x0[..]), left, right, old(slope[..]), lib)
    {
      ghost var cells, xs := cur[..], x0[..];
      var j := 0;
      while j < m
        invariant 0 <= j <= m && cur[..] == cells && x0[..] == xs
        invariant forall i :: 0 <= i < j ==>
                    slope[i] == CellSlope(i, k, st.alpha, cells, xs, left, right, old(slope[i]), lib)
        invariant forall i :: j <= i < m ==> slope[i] == old(slope[i])
      {
        slope[j] := LimitedSlope(j, k);
        j := j + 1;
      }
    }

    /** The second boundary switch: the ghost slopes the code takes from the new cell slopes. */
    method BoundarySlopes() returns (l: Ghost, r: Ghost)
      requires Shape() && m >= 1
      ensures (l, r) == GhostSlopes(st.bound, left, right, slope[..])
    {
      l, r := left, right;
      if st.bound == -2 {
        l := l.(slope := l.slope.(u := -slope[0].u));
        r := r.(slope := r.slope.(u := -slope[m - 1].u));
      } else if st.bound == -5 {
        l := l.(slope := slope[m - 1]);
        r := r.(slope := slope[0]);
      } else if st.bound == -24 {
        l := l.(slope := l.slope.(u := -slope[0].u));
      }
    }

    /**
     * The work at an admissible face j: the sound speeds, the two signal
     * times folded into h_S_max, the GRP call, the star-pressure check and
     * the stores into mid and dire.
     */
    method SolveFace(r: Recon, j: nat, hIn: Ext, tIn: Ext) returns (hOut: Ext, tOut: Ext)
      requires Shape() && st.Valid() && lib.Valid() && r.Valid() && j <= |r.cells| == m
      requires AdmissibleUpTo(r, j, st.eps) && Admissible(FaceAt(r, j), st.eps)
      requires hIn == MinWaveTime(r, j, st, lib)
      requires tIn == if StarFailure(r, j, st, lib) then st.tAll else timeC
      modifies mid, dire
      ensures AdmissibleUpTo(r, j + 1, st.eps)
      ensures mid[j] == Sol(r, j, st, lib).mid && dire[j] == Sol(r, j, st, lib).dire
      ensures forall i :: 0 <= i <= m && i != j ==> mid[i] == old(mid[i]) && dire[i] == old(dire[i])
      ensures hOut == MinWaveTime(r, j + 1, st, lib)
      ensures tOut == if StarFailure(r, j + 1, st, lib) then st.tAll else timeC
    {
      ScanOneFace(r, j, st, lib);
      var face := FaceAt(r, j);
      var cL := SoundSpeed(face.left, st.gamma, lib);
      var cR := SoundSpeed(face.right, st.gamma, lib);
      hOut := Min(hIn, Fin(face.hL / (Abs(face.left.u) + Abs(cL))));
      hOut := Min(hOut, Fin(face.hR / (Abs(face.right.u) + Abs(cR))));
      var out := Riemann(face, st, lib);
      tOut := tIn;
      if out.mid.p < st.eps {
        tOut := st.tAll;
      }
      mid[j] := out.mid;
      dire[j] := out.dire;
    }

    /**
     * The face loop: reconstruct both states of face j from level nt-1, the
     * slopes and the ghosts (which the loop only reads), abort at the first
     * face with a density or pressure below eps, and otherwise solve it.
     */
    method SolveFaces(r: Recon) returns (bad: Option<nat>, h: Ext, t: Ext)
      requires Shape() && m >= 1 && st.Valid() && lib.Valid()
      requires r.Valid() && |r.cells| == m
      modifies mid, dire
      ensures bad == FirstInadmissible(r, m + 1, st.eps)
      ensures bad.None? ==>
                && mid[..] == Mids(r, st, lib) && dire[..] == Dires(r, st, lib)
                && h == MinWaveTime(r, m + 1, st, lib)
                && t == if StarFailure(r, m + 1, st, lib) then st.tAll else timeC
    {
      h, t := PosInf, timeC;
      var j := 0;
      while j <= m
        invariant 0 <= j <= m + 1
        invariant AdmissibleUpTo(r, j, st.eps)
        invariant forall i :: 0 <= i < j ==> mid[i] == Sol(r, i, st, lib).mid && dire[i] == Sol(r, i, st, lib).dire
        invariant h == MinWaveTime(r, j, st, lib)
        invariant t == if StarFailure(r, j, st, lib) then st.tAll else timeC
      {
        if !Admissible(FaceAt(r, j), st.eps) {
          FirstInadmissibleAt(r, m + 1, j, st.eps);
          return Some(j), h, t;
        }
        h, t := SolveFace(r, j, h, t);
        j := j + 1;
      }
      SolutionsPointwise(mid[..], dire[..], r, st, lib);
      bad := None;
    }

    /** The time step: CFL*h_S_max clipped at t_all, or the configured tau. */
    method TimeStep() returns (t: real)
      requires st.Valid() && hSMax.Fin? && (st.tAll.Fin? ==> timeC.Fin?)
      ensures t == SelectTau(st, timeC, hSMax)
    {
      if st.tAll.Fin? || st.tauCfg.PosInf? || st.tauCfg.v <= 0.0 {
        t := st.cfl * hSMax.v;
        if Greater(AddReal(timeC, t), SubReal(st.tAll, st.eps)) {
          t := st.tAll.v - timeC.v;
        }
      } else {
        // tau keeps its initial value config[16]
        t := st.tauCfg.v;
      }
    }

    /**
     * The predictor/flux loop: advance each face value by half a step,
     * evaluate the Euler flux there, advance it by the second half, and
     * copy the grid level: X[nt][j] = X[nt-1][j].
     */
    method PredictAndFlux()
      requires Shape() && st.Valid()
      modifies mid, flux, x1
      ensures flux[..] == Fluxes(old(mid[..]), old(dire[..]), tau, st.gamma)
      ensures mid[..] == MidEnd(old(mid[..]), old(dire[..]), tau)
      ensures x1[..] == old(x0[..])
    {
      var j := 0;
      while j <= m
        invariant 0 <= j <= m + 1
        invariant forall i :: 0 <= i < j ==> flux[i] == EulerFlux(Advance(old(mid[i]), 0.5 * tau, dire[i]), st.gamma)
        invariant forall i :: 0 <= i < j ==> mid[i] == Advance(old(mid[i]), tau, dire[i])
        invariant forall i :: j <= i <= m ==> mid[i] == old(mid[i])
        invariant forall i :: 0 <= i < j ==> x1[i] == x0[i]
      {
        var half := Advance(mid[j], 0.5 * tau, dire[j]);
        AdvanceHalves(mid[j], tau, dire[j]);
        flux[j] := EulerFlux(half, st.gamma);
        mid[j] := Advance(half, 0.5 * tau, dire[j]);
        x1[j] := x0[j];
        j := j + 1;
      }
    }

    /**
     * One pass of the forward-Euler loop: the conservative update of cell j
     * of level nt from faces j and j+1, the density/pressure check on the
     * result, and the new slope of cell j.
     */
    method UpdateCell(j: nat, nu: real)
      requires Shape() && j < m && Increasing(x1[..])
      modifies nxt, slope, this`timeC
      ensures nxt[j] == UpdatedAt(old(cur[..]), old(flux[..]), nu, st.gamma, j)
      ensures forall i :: 0 <= i < m && i != j ==> nxt[i] == old(nxt[i]) && slope[i] == old(slope[i])
      ensures timeC == if NonPhysical(nxt[j], st.eps) then st.tAll else old(timeC)
      ensures slope[j] == NewSlope(old(mid[..]), old(x1[..]), j)
    {
      var next := UpdatedAt(cur[..], flux[..], nu, st.gamma, j);
      nxt[j] := next;
      if next.p < st.eps || next.rho < st.eps {
        timeC := st.tAll;
      }
      slope[j] := NewSlope(mid[..], x1[..], j);
    }

    /**
     * The forward-Euler loop: update every cell of level nt from its two
     * face fluxes with nu = tau/h, set time_c = t_all for a density or
     * pressure below eps, and recompute the slopes from the end-of-step
     * face values over the widths of X[nt].
     */
    method UpdateCells()
      requires Shape() && m >= 1 && st.Valid() && Increasing(x1[..])
      modifies nxt, slope, this`timeC
      ensures nxt[..] == Updated(old(cur[..]), old(flux[..]), tau / st.h, st.gamma)
      ensures slope[..] == NewSlopes(old(mid[..]), old(x1[..]))
      ensures timeC == if UpdateFailure(old(cur[..]), old(flux[..]), tau / st.h, st.gamma, st.eps, m) then st.tAll else old(timeC)
    {
      var nu := tau / st.h;
      ghost var cells, fl, ms, xs := cur[..], flux[..], mid[..], x1[..];
      var j := 0;
      while j < m
        invariant 0 <= j <= m && cur[..] == cells && flux[..] == fl && mid[..] == ms && x1[..] == xs
        invariant forall i :: 0 <= i < j ==> nxt[i] == UpdatedAt(cells, fl, nu, st.gamma, i)
        invariant forall i :: 0 <= i < j ==> slope[i] == NewSlope(ms, xs, i)
        invariant timeC == if UpdateFailure(cells, fl, nu, st.gamma, st.eps, j) then st.tAll else old(timeC)
      {
        UpdateCell(j, nu);
        j := j + 1;
      }
      UpdatedPointwise(nxt[..], cells, fl, nu, st.gamma);
      NewSlopesPointwise(slope[..], ms, xs);
    }

    /** Copy level nt back into level nt-1. */
    method CopyBack()
      requires Shape()
      modifies cur
      ensures cur[..] == old(nxt[..])
    {
      var j := 0;
      while j < m
        invariant 0 <= j <= m
        invariant forall i :: 0 <= i < j ==> cur[i] == nxt[i]
      {
        cur[j] := nxt[j];
        j := j + 1;
      }
    }

    /** The time step, then the predictor/flux loop with it. */
    method Predict()
      requires Shape() && st.Valid() && hSMax.Fin? && (st.tAll.Fin? ==> timeC.Fin?)
      modifies this`tau, mid, flux, x1
      ensures tau == SelectTau(st, timeC, hSMax)
      ensures flux[..] == Fluxes(old(mid[..]), old(dire[..]), tau, st.gamma)
      ensures mid[..] == MidEnd(old(mid[..]), old(dire[..]), tau)
      ensures x1[..] == old(x0[..])
    {
      tau := TimeStep();
      PredictAndFlux();
    }

    /**
     * The update loop, then time_c += tau: stop at the end time, otherwise
     * copy level nt back into level nt-1.
     */
    method Correct() returns (stop: bool)
      requires Shape() && m >= 1 && st.Valid() && Increasing(x1[..])
      modifies cur, nxt, slope, this`timeC
      ensures var nu := tau / st.h;
              && nxt[..] == Updated(old(cur[..]), old(flux[..]), nu, st.gamma)
              && slope[..] == NewSlopes(old(mid[..]), old(x1[..]))
              && timeC == AddReal(if UpdateFailure(old(cur[..]), old(flux[..]), nu, st.gamma, st.eps, m)
                                  then st.tAll else old(timeC), tau)
              && stop == TimeUp(timeC, st)
              && cur[..] == if stop then old(cur[..]) else nxt[..]
    {
      UpdateCells();
      timeC := AddReal(timeC, tau);
      if TimeUp(timeC, st) {
        return true;
      }
      CopyBack();
      stop := false;
    }

    /**
     * The boundary switch, the slope loop and the ghost slopes: the
     * reconstruction the face loop works from.
     */
    method Rebuild(k: int) returns (r: Option<Recon>)
      requires Valid()
      modifies this`left, this`right, this`found, slope
      ensures r == Rebuilt(old(Abstract()), k, st, lib)
      ensures r.Some? ==> found && left == r.value.left && right == r.value.right && slope[..] == r.value.s
    {
      var cells, xs := cur[..], x0[..];
      var g := BoundaryStates();
      if g.None? {
        return None;
      }
      left, right, found := g.value.0, g.value.1, true;
      ReconstructSlopes(k);
      left, right := BoundarySlopes();
      r := Some(Recon(cells, xs, slope[..], left, right));
    }

    /**
     * The first half of a pass: the reconstruction, then the face loop,
     * which stops at the first face that fails the reconstruction check.
     */
    method Prepare(k: int) returns (bad: Option<Abort>)
      requires Valid()
      modifies this`left, this`right, this`found, slope, mid, dire, this`hSMax, this`timeC
      ensures cur[..] == old(cur[..]) && nxt[..] == old(nxt[..]) && x0[..] == old(x0[..])
      ensures match Reconstruct(old(Abstract()), k, st, lib)
              case Rejected(why) => bad == Some(why)
              case Ready(r) =>
                && bad.None? && found && left == r.left && right == r.right && slope[..] == r.s
                && mid[..] == Mids(r, st, lib) && dire[..] == Dires(r, st, lib)
                && hSMax == MinWaveTime(r, m + 1, st, lib)
                && timeC == if StarFailure(r, m + 1, st, lib) then st.tAll else old(timeC)
    {
      var r := Rebuild(k);
      if r.None? {
        return Some(UnknownBoundary);
      }
      var face, h, t := SolveFaces(r.value);
      if face.Some? {
        return Some(Reconstruction(face.value));
      }
      hSMax, timeC := h, t;
      bad := None;
    }

    /**
     * The second half of a pass, once every face passed the check: the time
     * step, the predictor and fluxes, the update, time_c += tau and the time
     * check, and the copy-back unless the loop stops.
     */
    method Integrate() returns (stop: bool)
      requires Shape() && st.Valid() && Inv(Abstract(), st) && hSMax.Fin?
      modifies this`tau, this`timeC, cur, nxt, x1, slope, mid, flux
      ensures var res := Integrated(old(Abstract()), old(mid[..]), old(dire[..]), old(hSMax), st);
              Abstract() == res.post && tau == res.tau && flux[..] == res.flux && stop == res.stop
    {
      Predict();
      stop := Correct();
    }

    /** One pass of the main loop at step k. */
    method Step(k: int) returns (status: Status)
      requires Valid()
      modifies this, cur, nxt, x1, slope, mid, dire, flux
      ensures var r := StepModel(old(Abstract()), k, st, lib);
              match r
              case Aborted(why) =>
                && status == Halt(why)
                && cur[..] == old(cur[..]) && nxt[..] == old(nxt[..]) && x1[..] == old(x1[..])
              case Stepped(post, t, _, stop) =>
                Abstract() == post && tau == t && status == (if stop then Stop else Continue)
      ensures reportedSteps == old(reportedSteps)
    {
      ghost var s := Abstract();
      var bad := Prepare(k);
      if bad.Some? {
        return Halt(bad.value);
      }
      ghost var r := Reconstruct(s, k, st, lib).r;
      var stop := Integrate();
      status := if stop then Stop else Continue;
    }

    /** The main loop for k = 1 .. N. */
    method Run() returns (k: int, ending: Ending)
      requires Valid()
      modifies this, cur, nxt, x1, slope, mid, dire, flux
      ensures var r := RunModel(old(Abstract()), 1, st, lib);
              && k == r.step && cur[..] == r.last.cells && nxt[..] == r.last.nxt
              && x1[..] == r.last.x1
              && (r.RunAborted? ==> ending == Failed(r.why))
              && (r.RunStopped? ==> ending == Stopped && reportedSteps == k)
              && (!r.RunStopped? ==> reportedSteps == old(reportedSteps))
              && (r.RunCompleted? ==> ending == Completed)
    {
      k := 1;
      while k <= st.maxSteps
        invariant Valid()
        invariant RunModel(Abstract(), k, st, lib) == RunModel(old(Abstract()), 1, st, lib)
        invariant reportedSteps == old(reportedSteps)
        decreases st.maxSteps - k
      {
        var status := Step(k);
        if status.Halt? {
          return k, Failed(status.why);
        }
        if status == Stop {
          reportedSteps := k;
          return k, Stopped;
        }
        k := k + 1;
      }
      ending := Completed;
    }
  }
}
