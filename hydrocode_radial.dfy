/**
 * The radially symmetric Lagrangian driver (hydrocode_Radial_Lag/hydrocode.c,
 * main) after its inputs are read: the check of the spatial dimension M,
 * the placement of the initial cell data at offset 1 of arrays of length
 * Ncell+2, the aliasing of every time level of gamma to level 0 in the
 * multi-fluid build, the initial specific total energy, the Lagrangian
 * flag config[8] and the order switch whose case 1 falls through to case 2.
 */
module HydrocodeRadial {
  import opened ExtReal
  import opened Euler
  import opened ConfigTable

  /** How main ends: exit(4) on a bad M, retval 4 on a bad order, or after the solver. */
  datatype Ending = DimensionRejected | OrderRejected | SolverCalled

  function ExitCode(e: Ending): (code: int)
    ensures code == 0 <==> e == SolverCalled
    ensures code == 4 <==> e != SolverCalled
  {
    if e == SolverCalled then 0 else 4
  }

  /** M = 1 planar, 2 cylindrical, 3 spherical. */
  predicate ValidDimension(M: int) { M == 1 || M == 2 || M == 3 }

  /**
   * The two decisions of main in program order: the dimension check first,
   * then the order switch, where case 1 falls through to the solver call of
   * case 2.
   */
  function Decide(M: int, order: int): (e: Ending)
    ensures e == DimensionRejected <==> !ValidDimension(M)
    ensures e == OrderRejected <==> ValidDimension(M) && order != 1 && order != 2
    ensures e == SolverCalled <==> ValidDimension(M) && (order == 1 || order == 2)
    ensures ExitCode(e) == 4 <==> !(ValidDimension(M) && (order == 1 || order == 2))
  {
    if !ValidDimension(M) then DimensionRejected
    else if order == 1 || order == 2 then SolverCalled
    else OrderRejected
  }

  /** The alpha entry config[41] is 0 after the switch exactly for order 1 (if M is valid). */
  function AlphaAfter(M: int, order: int, before: Ext): (a: Ext)
    ensures ValidDimension(M) && order == 1 ==> a == Fin(0.0)
    ensures !(ValidDimension(M) && order == 1) ==> a == before
  {
    if ValidDimension(M) && order == 1 then Fin(0.0) else before
  }

  /** The initial data of cell j (1 <= j <= Ncell) is entry j - 1 of the input. */
  method Place(dst: array<real>, src: seq<real>)
    requires dst.Length == |src| + 2
    modifies dst
    ensures forall j :: 1 <= j <= |src| ==> dst[j] == src[j - 1]
    ensures dst[0] == old(dst[0]) && dst[|src| + 1] == old(dst[|src| + 1])
  {
    forall j | 1 <= j <= |src| {
      dst[j] := src[j - 1];
    }
  }

  /** Every time level k = 1 .. N-1 of gamma becomes the same array as level 0. */
  method AliasGamma(gam: array<array<real>>)
    requires gam.Length >= 1
    modifies gam
    ensures forall k :: 0 <= k < gam.Length ==> gam[k] == old(gam[0])
  {
    var k := 1;
    while k < gam.Length
      invariant 1 <= k <= gam.Length
      invariant gam[0] == old(gam[0])
      invariant forall i :: 0 <= i < k ==> gam[i] == old(gam[0])
    {
      gam[k] := gam[0];
      k := k + 1;
    }
  }

  /** E[0][j] = 0.5*u*u + p/(gamma_j-1)/rho for j = 1 .. Ncell; the ghost ends keep their values. */
  method InitialEnergy(E: array<real>, U: array<real>, P: array<real>, RHO: array<real>, gammas: seq<real>)
    requires E.Length == U.Length == P.Length == RHO.Length == |gammas| >= 2
    requires E != U && E != P && E != RHO
    requires forall j :: 1 <= j < E.Length - 1 ==> RHO[j] != 0.0 && gammas[j] != 1.0
    modifies E
    ensures forall j :: 1 <= j < E.Length - 1 ==> E[j] == TotalEnergy(RHO[j], U[j], P[j], gammas[j])
    ensures E[0] == old(E[0]) && E[E.Length - 1] == old(E[E.Length - 1])
  {
    var j := 1;
    while j < E.Length - 1
      invariant 1 <= j <= E.Length - 1
      invariant forall i :: 1 <= i < j ==> E[i] == TotalEnergy(RHO[i], U[i], P[i], gammas[i])
      invariant E[0] == old(E[0]) && E[E.Length - 1] == old(E[E.Length - 1])
    {
      E[j] := 0.5 * U[j] * U[j] + P[j] / (gammas[j] - 1.0) / RHO[j];
      j := j + 1;
    }
  }

  /**
   * What the aliasing buys: once every level is level 0's array, a write of
   * gamma through any level k is seen at every level.
   */
  method SetCellGamma(gam: array<array<real>>, k: nat, j: nat, v: real)
    requires gam.Length >= 1 && k < gam.Length && j < gam[0].Length
    requires forall i :: 0 <= i < gam.Length ==> gam[i] == gam[0]
    modifies gam[k]
    ensures forall i :: 0 <= i < gam.Length ==> gam[i][j] == v
    ensures forall i :: 0 <= i < gam[0].Length && i != j ==> gam[0][i] == old(gam[0][i])
  {
    gam[k][j] := v;
  }

  /** The gamma of cell j: gamma[0][j] in the multi-fluid build, config[6] otherwise. */
  function CellGamma(multifluid: bool, gamma: real, gam0: seq<real>, j: nat): real
    requires 1 <= j <= |gam0|
  {
    if multifluid then gam0[j - 1] else gamma
  }

  /**
   * main from the dimension check on.  orderCfg and gamma are config[9]
   * (cast to int by truncation) and config[6] as the initializer left them;
   * M is the parsed dimension argument; rho0, u0, p0 and
   * gam0 its cell data; U, P, RHO, E and (multi-fluid) gam[0] the level-0
   * arrays of length Ncell+2.
   */
  method Start(config: array<Ext>, M: int, orderCfg: real, multifluid: bool, gamma: real,
               rho0: seq<real>, u0: seq<real>, p0: seq<real>, gam0: seq<real>,
               U: array<real>, P: array<real>, RHO: array<real>, E: array<real>,
               gam: array<array<real>>)
    returns (e: Ending)
    requires config.Length > Alpha
    requires |rho0| == |u0| == |p0| == |gam0| && U.Length == P.Length == RHO.Length == E.Length == |rho0| + 2
    requires gam.Length >= 1 && gam[0].Length == |rho0| + 2
    requires U != P && U != RHO && P != RHO && E != U && E != P && E != RHO
    requires gam[0] != U && gam[0] != P && gam[0] != RHO && gam[0] != E
    requires forall j :: 1 <= j <= |rho0| ==> rho0[j - 1] != 0.0 && CellGamma(multifluid, gamma, gam0, j) != 1.0
    modifies config, U, P, RHO, E, gam, gam[0]
    ensures e == Decide(M, Trunc(orderCfg))
    ensures e == DimensionRejected ==>
              && unchanged(config) && unchanged(U) && unchanged(P) && unchanged(RHO)
              && unchanged(E) && unchanged(gam) && unchanged(old(gam[0]))
    ensures e != DimensionRejected ==>
              && (forall j :: 1 <= j <= |rho0| ==> U[j] == u0[j - 1] && P[j] == p0[j - 1] && RHO[j] == rho0[j - 1])
              && (forall j :: 1 <= j <= |rho0| ==>
                    E[j] == TotalEnergy(rho0[j - 1], u0[j - 1], p0[j - 1], CellGamma(multifluid, gamma, gam0, j)))
              && config[FrameFlag] == Fin(1.0)
              && config[Alpha] == AlphaAfter(M, Trunc(orderCfg), old(config[Alpha]))
              && (forall k :: 0 <= k < config.Length && k != FrameFlag && k != Alpha ==> config[k] == old(config[k]))
    ensures e != DimensionRejected && multifluid ==>
              && (forall j :: 1 <= j <= |gam0| ==> old(gam[0])[j] == gam0[j - 1])
              && forall k :: 0 <= k < gam.Length ==> gam[k] == old(gam[0])
    ensures !multifluid ==> unchanged(gam) && unchanged(old(gam[0]))
  {
    if !ValidDimension(M) {
      return DimensionRejected;
    }
    var gammas := PlaceCells(multifluid, gamma, rho0, u0, p0, gam0, U, P, RHO, gam);
    InitialEnergy(E, U, P, RHO, gammas);
    config[FrameFlag] := Fin(1.0);
    e := OrderSwitch(config, Trunc(orderCfg));
  }

  /**
   * The level-0 cell data at offset 1 (the memmove of CV_INIT_FV_RESET_MEM)
   * and, in the multi-fluid build, gamma placed the same way with every
   * level aliased to level 0.  gammas is the gamma each cell then uses.
   */
  method PlaceCells(multifluid: bool, gamma: real, rho0: seq<real>, u0: seq<real>, p0: seq<real>, gam0: seq<real>,
                    U: array<real>, P: array<real>, RHO: array<real>, gam: array<array<real>>)
    returns (gammas: seq<real>)
    requires |rho0| == |u0| == |p0| == |gam0| && U.Length == P.Length == RHO.Length == |rho0| + 2
    requires gam.Length >= 1 && gam[0].Length == |rho0| + 2
    requires U != P && U != RHO && P != RHO && gam[0] != U && gam[0] != P && gam[0] != RHO
    modifies U, P, RHO, gam, gam[0]
    ensures |gammas| == |rho0| + 2
    ensures forall j :: 1 <= j <= |rho0| ==>
              && U[j] == u0[j - 1] && P[j] == p0[j - 1] && RHO[j] == rho0[j - 1]
              && gammas[j] == CellGamma(multifluid, gamma, gam0, j)
    ensures multifluid ==>
              && (forall j :: 1 <= j <= |gam0| ==> old(gam[0])[j] == gam0[j - 1])
              && forall k :: 0 <= k < gam.Length ==> gam[k] == old(gam[0])
    ensures !multifluid ==> unchanged(gam) && unchanged(old(gam[0]))
  {
    Place(U, u0);
    Place(P, p0);
    Place(RHO, rho0);
    gammas := seq(|rho0| + 2, j => gamma);
    if multifluid {
      var g0 := gam[0];
      Place(g0, gam0);
      gammas := g0[..];
      AliasGamma(gam);
    }
  }

  /**
   * switch (order): case 1 sets config[41] = 0 and falls through to case 2,
   * which calls the solver; any other order gives retval 4.
   */
  method OrderSwitch(config: array<Ext>, order: int) returns (e: Ending)
    requires config.Length > Alpha
    modifies config
    ensures e == (if order == 1 || order == 2 then SolverCalled else OrderRejected)
    ensures config[Alpha] == if order == 1 then Fin(0.0) else old(config[Alpha])
    ensures forall k :: 0 <= k < config.Length && k != Alpha ==> config[k] == old(config[k])
  {
    if order == 1 {
      config[Alpha] := Fin(0.0);
    }
    if order == 1 || order == 2 {
      e := SolverCalled;
    } else {
      e := OrderRejected;
    }
  }
}
