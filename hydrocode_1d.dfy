/**
 * The 1-D driver (hydrocode_1D/hydrocode.c, main) after its inputs are
 * read: the uniform node grid X[0], the initial specific total energy
 * E[0], the coordinate-frame flag config[8], the replication of the grid
 * over all plotted levels for the Eulerian frame, and the choice of solver
 * by frame and order.  The solvers themselves, the initializer, the writer
 * and the memory handling are outside this model.
 */
module Hydrocode1D {
  import opened Wrappers
  import opened ExtReal
  import opened Euler
  import opened ConfigTable
  import AleModel

  /** The four solvers main can call. */
  datatype Solver = GodunovLag | GrpLag | GodunovEul | GrpEul

  /** What main ends with: retval, and the solver it called if any. */
  datatype Outcome = Outcome(retval: int, solver: Option<Solver>)

  predicate KnownFrame(frame: string) { frame == "LAG" || frame == "EUL" }

  predicate KnownOrder(order: int) { order == 1 || order == 2 }

  /**
   * The frame x order decision table: LAG and EUL each call Godunov for
   * order 1 and GRP for order 2; any other order or frame calls nothing and
   * gives retval 4.
   */
  function Dispatch(frame: string, order: int): (o: Outcome)
    ensures o.retval == 0 || o.retval == 4
    ensures o.retval == 4 <==> !(KnownFrame(frame) && KnownOrder(order))
    ensures o.solver.Some? <==> o.retval == 0
    ensures o.solver.Some? ==>
              && (o.solver.value in {GodunovLag, GrpLag} <==> frame == "LAG")
              && (o.solver.value in {GrpLag, GrpEul} <==> order == 2)
  {
    if frame == "LAG" then
      if order == 1 then Outcome(0, Some(GodunovLag))
      else if order == 2 then Outcome(0, Some(GrpLag))
      else Outcome(4, None)
    else if frame == "EUL" then
      if order == 1 then Outcome(0, Some(GodunovEul))
      else if order == 2 then Outcome(0, Some(GrpEul))
      else Outcome(4, None)
    else Outcome(4, None)
  }

  /** The nodes h*j, j = 0 .. m, of a uniform grid. */
  function UniformGrid(h: real, m: nat): (x: seq<real>)
    ensures |x| == m + 1
  {
    seq(m + 1, j => h * j as real)
  }

  /** With h > 0 the uniform grid is strictly increasing and every cell is h wide. */
  lemma UniformGridIncreasing(h: real, m: nat)
    requires h > 0.0
    ensures AleModel.Increasing(UniformGrid(h, m))
    ensures forall i :: 0 <= i < m ==> AleModel.Width(UniformGrid(h, m), i) == h
  {
    var x := UniformGrid(h, m);
    forall i | 0 <= i < m
      ensures AleModel.Width(x, i) == h
    {
      NextNode(h, i);
    }
  }

  lemma NextNode(h: real, i: int)
    ensures h * (i + 1) as real - h * i as real == h
  {
  }

  /**
   * main from the node grid on: X[0][j] = h*j, E[0][j] from (rho, u, p),
   * then by frame config[8] = 1 (LAG) or config[8] = 0 and every level
   * k = 1 .. N-1 of X a copy of X[0] (EUL), and the solver the frame and
   * the order select.  m, h and gamma are the entries config[3], config[10]
   * and config[6] the initializer filled in, orderCfg is config[9] (cast to
   * int by truncation); rho, u and p are the level-0 cell data.
   */
  method Start(config: array<Ext>, frame: string, m: nat, h: real, gamma: real, orderCfg: real,
               rho: seq<real>, u: seq<real>, p: seq<real>, X: array2<real>, E0: array<real>)
    returns (o: Outcome)
    requires config.Length > FrameFlag && X.Length0 >= 1 && X.Length1 == m + 1 && E0.Length == m
    requires |rho| == |u| == |p| == m && gamma != 1.0 && forall j :: 0 <= j < m ==> rho[j] != 0.0
    modifies config, X, E0
    ensures o == Dispatch(frame, Trunc(orderCfg))
    ensures forall j :: 0 <= j <= m ==> X[0, j] == UniformGrid(h, m)[j]
    ensures forall k, j :: 1 <= k < X.Length0 && 0 <= j <= m ==>
              X[k, j] == if frame == "EUL" then UniformGrid(h, m)[j] else old(X[k, j])
    ensures forall j :: 0 <= j < m ==> E0[j] == TotalEnergy(rho[j], u[j], p[j], gamma)
    ensures forall k :: 0 <= k < config.Length && k != FrameFlag ==> config[k] == old(config[k])
    ensures config[FrameFlag] == if frame == "LAG" then Fin(1.0) else if frame == "EUL" then Fin(0.0) else old(config[FrameFlag])
  {
    InitialGrid(X, m, h);
    InitialEnergy(E0, gamma, rho, u, p);
    o := SelectSolver(config, frame, Trunc(orderCfg), X, m);
  }

  /** X[0][j] = h*j for j = 0 .. m; the other levels are untouched. */
  method InitialGrid(X: array2<real>, m: nat, h: real)
    requires X.Length0 >= 1 && X.Length1 == m + 1
    modifies X
    ensures forall j :: 0 <= j <= m ==> X[0, j] == UniformGrid(h, m)[j]
    ensures forall k, j :: 1 <= k < X.Length0 && 0 <= j <= m ==> X[k, j] == old(X[k, j])
  {
    var j := 0;
    while j <= m
      invariant 0 <= j <= m + 1
      invariant forall i :: 0 <= i < j ==> X[0, i] == UniformGrid(h, m)[i]
      invariant forall k, i :: 1 <= k < X.Length0 && 0 <= i <= m ==> X[k, i] == old(X[k, i])
    {
      X[0, j] := h * j as real;
      j := j + 1;
    }
  }

  /** E[0][j] = 0.5*u*u + p/(gamma-1)/rho for every cell j. */
  method InitialEnergy(E0: array<real>, gamma: real, rho: seq<real>, u: seq<real>, p: seq<real>)
    requires |rho| == |u| == |p| == E0.Length && gamma != 1.0
    requires forall j :: 0 <= j < |rho| ==> rho[j] != 0.0
    modifies E0
    ensures forall j :: 0 <= j < E0.Length ==> E0[j] == TotalEnergy(rho[j], u[j], p[j], gamma)
  {
    var j := 0;
    while j < E0.Length
      invariant 0 <= j <= E0.Length
      invariant forall i :: 0 <= i < j ==> E0[i] == TotalEnergy(rho[i], u[i], p[i], gamma)
    {
      E0[j] := 0.5 * u[j] * u[j] + p[j] / (gamma - 1.0) / rho[j];
      j := j + 1;
    }
  }

  /**
   * The frame switch: LAG sets config[8] = 1, EUL sets config[8] = 0 and
   * copies X[0] to every other level; then the order picks the solver.
   * An unknown frame or order gives retval 4.
   */
  method SelectSolver(config: array<Ext>, frame: string, order: int, X: array2<real>, m: nat)
    returns (o: Outcome)
    requires config.Length > FrameFlag && X.Length0 >= 1 && X.Length1 == m + 1
    modifies config, X
    ensures o == Dispatch(frame, order)
    ensures forall j :: 0 <= j <= m ==> X[0, j] == old(X[0, j])
    ensures forall k, j :: 1 <= k < X.Length0 && 0 <= j <= m ==>
              X[k, j] == if frame == "EUL" then old(X[0, j]) else old(X[k, j])
    ensures forall k :: 0 <= k < config.Length && k != FrameFlag ==> config[k] == old(config[k])
    ensures config[FrameFlag] == if frame == "LAG" then Fin(1.0) else if frame == "EUL" then Fin(0.0) else old(config[FrameFlag])
  {
    if frame == "LAG" {
      config[FrameFlag] := Fin(1.0);
      if order == 1 {
        o := Outcome(0, Some(GodunovLag));
      } else if order == 2 {
        o := Outcome(0, Some(GrpLag));
      } else {
        o := Outcome(4, None);
      }
    } else if frame == "EUL" {
      config[FrameFlag] := Fin(0.0);
      ReplicateGrid(X, m);
      if order == 1 {
        o := Outcome(0, Some(GodunovEul));
      } else if order == 2 {
        o := Outcome(0, Some(GrpEul));
      } else {
        o := Outcome(4, None);
      }
    } else {
      o := Outcome(4, None);
    }
  }

  /** The Eulerian grid: X[k][j] = X[0][j] for k = 1 .. N-1 and j = 0 .. m. */
  method ReplicateGrid(X: array2<real>, m: nat)
    requires X.Length0 >= 1 && X.Length1 == m + 1
    modifies X
    ensures forall k, j :: 0 <= k < X.Length0 && 0 <= j <= m ==> X[k, j] == old(X[0, j])
  {
    var k := 1;
    while k < X.Length0
      invariant 1 <= k <= X.Length0
      invariant forall j :: 0 <= j <= m ==> X[0, j] == old(X[0, j])
      invariant forall kk, j :: 1 <= kk < X.Length0 && 0 <= j <= m ==>
                  X[kk, j] == if kk < k then old(X[0, j]) else old(X[kk, j])
    {
      var j := 0;
      while j <= m
        invariant 0 <= j <= m + 1
        invariant forall i :: 0 <= i <= m ==> X[0, i] == old(X[0, i])
        invariant forall kk, i :: 1 <= kk < X.Length0 && 0 <= i <= m ==>
                    X[kk, i] == if kk < k || (kk == k && i < j) then old(X[0, i]) else old(X[kk, i])
      {
        X[k, j] := X[0, j];
        j := j + 1;
      }
      k := k + 1;
    }
  }
}
