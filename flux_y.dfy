/**
 * flux_generator_y: for every column j < m and every y-face i in 0 .. n,
 * assemble the record below the face (ifv_D) and the record above it
 * (ifv_U) from the neighbouring cells of level nt, or from the boundary
 * records bfv_D[j] / bfv_U[j] at the two ends, call the 2-D GRP scheme and
 * store its fluxes and interface values in G[j][i] and Iy[j][i].
 *
 * The cell fields read (level nt, the normal slopes t_* and the transverse
 * slopes s_* of level 0) are only read, so they are values here; the two
 * output tables are arrays written in place.  The struct layout of
 * var_struc.h is not part of this model: the record fields are grouped by
 * their roles as the function uses them.
 */
module FluxY {

  /** A primitive state (or a slope of one) with both velocity components. */
  datatype Prim2 = Prim2(rho: real, u: real, v: real, p: real)

  const Zero2 := Prim2(0.0, 0.0, 0.0, 0.0)

  /** A boundary record b_f_var: its state, its y-slopes T* and its x-slopes S*. */
  datatype Border = Border(state: Prim2, t: Prim2, s: Prim2)

  /**
   * The fields of an interface record i_f_var that the loop sets or the
   * declaration fixes: the state, the normal slopes t_*, the transverse
   * slopes d_* and the face normal (n_x, n_y).
   */
  datatype FaceRecord = FaceRecord(state: Prim2, t: Prim2, d: Prim2, nx: real, ny: real)

  /** The outputs GRP_2D_scheme leaves in a record: F_* and *_int. */
  datatype Flux2 = Flux2(rho: real, u: real, v: real, e: real)

  const ZeroFlux := Flux2(0.0, 0.0, 0.0, 0.0)

  /**
   * A whole i_f_var as the loop carries it from one face to the next: the
   * fields of FaceRecord and the output fields, which the loop never resets.
   */
  datatype IfVar = IfVar(state: Prim2, t: Prim2, d: Prim2, nx: real, ny: real, g: Flux2, mid: Prim2)

  /** ifv_D and ifv_U as declared: n_x = 0, n_y = 1 and every other field zero. */
  const Declared := IfVar(Zero2, Zero2, Zero2, 0.0, 1.0, ZeroFlux, Zero2)

  /** The fields of a record the loop sets or the declaration fixes. */
  function Seen(r: IfVar): FaceRecord
  {
    FaceRecord(r.state, r.t, r.d, r.nx, r.ny)
  }

  /** A record holding f and, in its output fields, zero, as a record declared for this face alone would. */
  function Fresh(f: FaceRecord): (r: IfVar)
    ensures Seen(r) == f
  {
    IfVar(f.state, f.t, f.d, f.nx, f.ny, ZeroFlux, Zero2)
  }

  /**
   * GRP_2D_scheme(&ifv_D, &ifv_U, tau): both records go in by pointer and
   * come out as the scheme leaves them; the outputs are read from ifv_D.
   */
  type Scheme = (IfVar, IfVar, real) -> (IfVar, IfVar)

  /** The scheme leaves the normal of both records as it found it. */
  ghost predicate KeepsNormal(scheme: Scheme)
  {
    forall a, b, tau :: scheme(a, b, tau).0.nx == a.nx && scheme(a, b, tau).0.ny == a.ny
                     && scheme(a, b, tau).1.nx == b.nx && scheme(a, b, tau).1.ny == b.ny
  }

  /** The outputs the scheme leaves in ifv_D depend only on the fields of FaceRecord. */
  ghost predicate ReadsOnlySeen(scheme: Scheme)
  {
    forall a, b, a', b', tau {:trigger scheme(a, b, tau), scheme(a', b', tau)} ::
      Seen(a) == Seen(a') && Seen(b) == Seen(b') ==>
        scheme(a, b, tau).0.g == scheme(a', b', tau).0.g && scheme(a, b, tau).0.mid == scheme(a', b', tau).0.mid
  }

  /** c + 0.5*h*t: the value at the top of a cell. */
  function TopOf(c: Prim2, h: real, t: Prim2): Prim2
  {
    Prim2(c.rho + 0.5 * h * t.rho, c.u + 0.5 * h * t.u, c.v + 0.5 * h * t.v, c.p + 0.5 * h * t.p)
  }

  /** c - 0.5*h*t: the value at the bottom of a cell. */
  function BottomOf(c: Prim2, h: real, t: Prim2): Prim2
  {
    Prim2(c.rho - 0.5 * h * t.rho, c.u - 0.5 * h * t.u, c.v - 0.5 * h * t.v, c.p - 0.5 * h * t.p)
  }

  /** An m x n table of cell values, indexed [j][i]. */
  predicate Rect(a: seq<seq<Prim2>>, m: nat, n: nat)
  {
    |a| == m && forall j :: 0 <= j < m ==> |a[j]| == n
  }

  /**
   * What one call reads: m columns of n cells, h_y = config[11], the
   * Transversa switch, level nt, the slopes t_* and s_* of level 0 and one
   * boundary record per column below face 0 and above face n.
   */
  datatype Sweep = Sweep(m: nat, n: nat, hy: real, transversa: bool,
                         level: seq<seq<Prim2>>, t: seq<seq<Prim2>>, s: seq<seq<Prim2>>,
                         below: seq<Border>, above: seq<Border>)
  {
    predicate Valid()
    {
      Rect(level, m, n) && Rect(t, m, n) && Rect(s, m, n) && |below| == m && |above| == m
    }
  }

  /** The record below face i of column j (ifv_D), as the loop body and the declaration make it. */
  function DownRecord(w: Sweep, j: nat, i: nat): FaceRecord
    requires w.Valid() && j < w.m && i <= w.n
  {
    if i > 0 then
      var c, t := w.level[j][i - 1], w.t[j][i - 1];
      FaceRecord(TopOf(c, w.hy, t), t, if w.transversa then w.s[j][i - 1] else Zero2, 0.0, 1.0)
    else
      var b := w.below[j];
      FaceRecord(TopOf(b.state, w.hy, b.t), b.t, if w.transversa then b.s else Zero2, 0.0, 1.0)
  }

  /** The record above face i of column j (ifv_U), as the loop body and the declaration make it. */
  function UpRecord(w: Sweep, j: nat, i: nat): FaceRecord
    requires w.Valid() && j < w.m && i <= w.n
  {
    if i < w.n then
      var c, t := w.level[j][i], w.t[j][i];
      FaceRecord(BottomOf(c, w.hy, t), t, if w.transversa then w.s[j][i] else Zero2, 0.0, 1.0)
    else
      var b := w.above[j];
      FaceRecord(BottomOf(b.state, w.hy, b.t), b.t, if w.transversa then b.s else Zero2, 0.0, 1.0)
  }

  /** What the loop body writes into a carried record: the state and both slopes; the rest stays. */
  function Load(r: IfVar, f: FaceRecord): IfVar
  {
    r.(state := f.state, t := f.t, d := f.d)
  }

  /** The call at face i of column j, on the records the previous call left. */
  function Call(w: Sweep, scheme: Scheme, tau: real, prev: (IfVar, IfVar), j: nat, i: nat): (IfVar, IfVar)
    requires w.Valid() && j < w.m && i <= w.n
  {
    scheme(Load(prev.0, DownRecord(w, j, i)), Load(prev.1, UpRecord(w, j, i)), tau)
  }

  /**
   * ifv_D and ifv_U as they stand before the loop body of face i of column
   * j: as declared before the first face, and as the previous call left
   * them afterwards.
   */
  function Carried(w: Sweep, scheme: Scheme, tau: real, j: nat, i: nat): (IfVar, IfVar)
    requires w.Valid() && j < w.m && i <= w.n
    decreases j, i
  {
    if i > 0 then Call(w, scheme, tau, Carried(w, scheme, tau, j, i - 1), j, i - 1)
    else if j > 0 then Call(w, scheme, tau, Carried(w, scheme, tau, j - 1, w.n), j - 1, w.n)
    else (Declared, Declared)
  }

  /** The record face i of column j reads its outputs from: ifv_D after its call. */
  function Stored(w: Sweep, scheme: Scheme, tau: real, j: nat, i: nat): IfVar
    requires w.Valid() && j < w.m && i <= w.n
  {
    Call(w, scheme, tau, Carried(w, scheme, tau, j, i), j, i).0
  }

  /** The outputs face i of column j would get from records declared for it alone. */
  function FaceOut(w: Sweep, scheme: Scheme, tau: real, j: nat, i: nat): IfVar
    requires w.Valid() && j < w.m && i <= w.n
  {
    scheme(Fresh(DownRecord(w, j, i)), Fresh(UpRecord(w, j, i)), tau).0
  }

  /** Whether entry [j][i] of an output table is one of the faces written. */
  predicate Swept(w: Sweep, j: int, i: int)
  {
    0 <= j < w.m && 0 <= i <= w.n
  }

  /**
   * The loop body before the call: the states and normal slopes of both
   * records, then their transverse slopes (zero when Transversa is off),
   * written over what the previous face left.
   */
  method AssembleFace(w: Sweep, j: nat, i: nat, ifvD: IfVar, ifvU: IfVar) returns (ifvD': IfVar, ifvU': IfVar)
    requires w.Valid() && j < w.m && i <= w.n
    ensures Seen(ifvD') == DownRecord(w, j, i).(nx := ifvD.nx, ny := ifvD.ny)
    ensures Seen(ifvU') == UpRecord(w, j, i).(nx := ifvU.nx, ny := ifvU.ny)
    ensures ifvD'.g == ifvD.g && ifvD'.mid == ifvD.mid && ifvU'.g == ifvU.g && ifvU'.mid == ifvU.mid
  {
    var down, up, tD, tU, dD, dU: Prim2;
    if i > 0 {
      tD := w.t[j][i - 1];
      down := TopOf(w.level[j][i - 1], w.hy, tD);
    } else {
      tD := w.below[j].t;
      down := TopOf(w.below[j].state, w.hy, tD);
    }
    if i < w.n {
      tU := w.t[j][i];
      up := BottomOf(w.level[j][i], w.hy, tU);
    } else {
      tU := w.above[j].t;
      up := BottomOf(w.above[j].state, w.hy, tU);
    }
    if w.transversa {
      dD := if i > 0 then w.s[j][i - 1] else w.below[j].s;
      dU := if i < w.n then w.s[j][i] else w.above[j].s;
    } else {
      dD, dU := Zero2, Zero2;
    }
    ifvD' := ifvD.(state := down, t := tD, d := dD);
    ifvU' := ifvU.(state := up, t := tU, d := dU);
  }

  /**
   * The sweep: G[j][i] and Iy[j][i] receive the outputs the call of face i
   * of column j leaves in ifv_D, for every j < m and i <= n, and no other
   * entry of either table changes.  The two records are declared once and
   * carried from face to face.
   */
  method FluxGeneratorY(w: Sweep, tau: real, scheme: Scheme, G: array2<Flux2>, Iy: array2<Prim2>)
    requires w.Valid() && G.Length0 >= w.m && G.Length1 > w.n && Iy.Length0 >= w.m && Iy.Length1 > w.n
    modifies G, Iy
    ensures forall j, i :: 0 <= j < G.Length0 && 0 <= i < G.Length1 ==>
              G[j, i] == if Swept(w, j, i) then Stored(w, scheme, tau, j, i).g else old(G[j, i])
    ensures forall j, i :: 0 <= j < Iy.Length0 && 0 <= i < Iy.Length1 ==>
              Iy[j, i] == if Swept(w, j, i) then Stored(w, scheme, tau, j, i).mid else old(Iy[j, i])
  {
    var ifvD, ifvU := Declared, Declared;
    var j := 0;
    while j < w.m
      invariant 0 <= j <= w.m
      invariant j < w.m ==> (ifvD, ifvU) == Carried(w, scheme, tau, j, 0)
      invariant forall jj, ii :: 0 <= jj < G.Length0 && 0 <= ii < G.Length1 ==>
                  G[jj, ii] == if Swept(w, jj, ii) && jj < j then Stored(w, scheme, tau, jj, ii).g else old(G[jj, ii])
      invariant forall jj, ii :: 0 <= jj < Iy.Length0 && 0 <= ii < Iy.Length1 ==>
                  Iy[jj, ii] == if Swept(w, jj, ii) && jj < j then Stored(w, scheme, tau, jj, ii).mid else old(Iy[jj, ii])
    {
      var i := 0;
      while i <= w.n
        invariant 0 <= i <= w.n + 1
        invariant i <= w.n ==> (ifvD, ifvU) == Carried(w, scheme, tau, j, i)
        invariant i == w.n + 1 ==> (ifvD, ifvU) == Call(w, scheme, tau, Carried(w, scheme, tau, j, w.n), j, w.n)
        invariant forall jj, ii :: 0 <= jj < G.Length0 && 0 <= ii < G.Length1 ==>
                    G[jj, ii] == if Swept(w, jj, ii) && (jj < j || (jj == j && ii < i)) then Stored(w, scheme, tau, jj, ii).g else old(G[jj, ii])
        invariant forall jj, ii :: 0 <= jj < Iy.Length0 && 0 <= ii < Iy.Length1 ==>
                    Iy[jj, ii] == if Swept(w, jj, ii) && (jj < j || (jj == j && ii < i)) then Stored(w, scheme, tau, jj, ii).mid else old(Iy[jj, ii])
      {
        var d, u := AssembleFace(w, j, i, ifvD, ifvU);
        var out := scheme(d, u, tau);
        ifvD, ifvU := out.0, out.1;
        G[j, i] := ifvD.g;
        Iy[j, i] := ifvD.mid;
        i := i + 1;
      }
      j := j + 1;
    }
  }

  /**
   * The normal set once in the declaration is what every call sees, as long
   * as the scheme leaves it alone: the records the call of face i of column
   * j receives carry exactly DownRecord and UpRecord.
   */
  lemma {:induction false} NormalSetOnce(w: Sweep, scheme: Scheme, tau: real, j: nat, i: nat)
    requires w.Valid() && j < w.m && i <= w.n && KeepsNormal(scheme)
    ensures Carried(w, scheme, tau, j, i).0.nx == 0.0 && Carried(w, scheme, tau, j, i).0.ny == 1.0
    ensures Carried(w, scheme, tau, j, i).1.nx == 0.0 && Carried(w, scheme, tau, j, i).1.ny == 1.0
    ensures Seen(Load(Carried(w, scheme, tau, j, i).0, DownRecord(w, j, i))) == DownRecord(w, j, i)
    ensures Seen(Load(Carried(w, scheme, tau, j, i).1, UpRecord(w, j, i))) == UpRecord(w, j, i)
    decreases j, i
  {
    if i > 0 {
      NormalSetOnce(w, scheme, tau, j, i - 1);
    } else if j > 0 {
      NormalSetOnce(w, scheme, tau, j - 1, w.n);
    }
  }

  /**
   * When the scheme also reads nothing but the fields of FaceRecord, what
   * the sweep stores at a face is what records declared for that face
   * alone would give: nothing left over from an earlier face matters.
   */
  lemma StoredIsFaceOut(w: Sweep, scheme: Scheme, tau: real, j: nat, i: nat)
    requires w.Valid() && j < w.m && i <= w.n && KeepsNormal(scheme) && ReadsOnlySeen(scheme)
    ensures Stored(w, scheme, tau, j, i).g == FaceOut(w, scheme, tau, j, i).g
    ensures Stored(w, scheme, tau, j, i).mid == FaceOut(w, scheme, tau, j, i).mid
  {
    NormalSetOnce(w, scheme, tau, j, i);
    var prev := Carried(w, scheme, tau, j, i);
    var a, b := Load(prev.0, DownRecord(w, j, i)), Load(prev.1, UpRecord(w, j, i));
    var a', b' := Fresh(DownRecord(w, j, i)), Fresh(UpRecord(w, j, i));
    assert scheme(a, b, tau).0.g == scheme(a', b', tau).0.g;
  }

  // ---------------------------------------------------------------------
  // Properties of the face records
  // ---------------------------------------------------------------------

  /**
   * Cell i of column j (i < n) is the upper record of face i and the lower
   * record of face i+1: the two carry the cell's own t_* and d_* slopes,
   * their states average to the cell value and differ by h_y times t_*.
   */
  lemma FaceValuesRecoverCell(w: Sweep, j: nat, i: nat)
    requires w.Valid() && j < w.m && i < w.n
    ensures var lo, hi, c, t := UpRecord(w, j, i), DownRecord(w, j, i + 1), w.level[j][i], w.t[j][i];
            && lo.t == hi.t == t && lo.d == hi.d
            && (lo.state.rho + hi.state.rho) / 2.0 == c.rho && hi.state.rho - lo.state.rho == w.hy * t.rho
            && (lo.state.u + hi.state.u) / 2.0 == c.u && hi.state.u - lo.state.u == w.hy * t.u
            && (lo.state.v + hi.state.v) / 2.0 == c.v && hi.state.v - lo.state.v == w.hy * t.v
            && (lo.state.p + hi.state.p) / 2.0 == c.p && hi.state.p - lo.state.p == w.hy * t.p
  {
  }

  /**
   * With Transversa off every record has zero transverse slopes; with it on
   * a record next to a cell takes that cell's s_*, and a boundary record's
   * S* fields otherwise.
   */
  lemma TransverseSlopes(w: Sweep, j: nat, i: nat)
    requires w.Valid() && j < w.m && i <= w.n
    ensures !w.transversa ==> DownRecord(w, j, i).d == Zero2 && UpRecord(w, j, i).d == Zero2
    ensures w.transversa ==>
              && DownRecord(w, j, i).d == (if i > 0 then w.s[j][i - 1] else w.below[j].s)
              && UpRecord(w, j, i).d == (if i < w.n then w.s[j][i] else w.above[j].s)
  {
  }

  /**
   * The two end faces of a column: face 0 sees bfv_D[j] extrapolated
   * upward with a plus sign, face n sees bfv_U[j] extrapolated downward
   * with a minus sign, each with its own T* slopes.
   */
  lemma EndFaces(w: Sweep, j: nat)
    requires w.Valid() && j < w.m
    ensures DownRecord(w, j, 0).state == TopOf(w.below[j].state, w.hy, w.below[j].t)
    ensures DownRecord(w, j, 0).t == w.below[j].t
    ensures UpRecord(w, j, w.n).state == BottomOf(w.above[j].state, w.hy, w.above[j].t)
    ensures UpRecord(w, j, w.n).t == w.above[j].t
  {
  }

  /**
   * A scheme that keeps the normal but counts its calls in F_rho of the
   * lower record, reading the value the previous call left there.
   */
  function Counting(a: IfVar, b: IfVar, tau: real): (IfVar, IfVar)
  {
    (a.(g := a.g.(rho := a.g.rho + 1.0)), b)
  }

  /**
   * The hypothesis ReadsOnlySeen cannot be dropped from StoredIsFaceOut:
   * with a scheme that reads a leftover output field, face 1 of a column
   * stores something other than records declared for it alone would give.
   */
  lemma LeftoverReachesNextFace(w: Sweep, tau: real)
    requires w.Valid() && w.m >= 1 && w.n >= 1
    ensures KeepsNormal(Counting)
    ensures Stored(w, Counting, tau, 0, 1).g.rho == 2.0
    ensures FaceOut(w, Counting, tau, 0, 1).g.rho == 1.0
  {
    assert Carried(w, Counting, tau, 0, 1).0.g.rho == 1.0;
  }

  /**
   * Two sweeps that agree on the data of column j store the same values in
   * column j, when the scheme keeps the normal and reads only the fields
   * of FaceRecord.
   */
  lemma ColumnsIndependent(w1: Sweep, w2: Sweep, scheme: Scheme, tau: real, j: nat)
    requires w1.Valid() && w2.Valid() && j < w1.m && j < w2.m
    requires KeepsNormal(scheme) && ReadsOnlySeen(scheme)
    requires w1.n == w2.n && w1.hy == w2.hy && w1.transversa == w2.transversa
    requires w1.level[j] == w2.level[j] && w1.t[j] == w2.t[j] && w1.s[j] == w2.s[j]
    requires w1.below[j] == w2.below[j] && w1.above[j] == w2.above[j]
    ensures forall i :: 0 <= i <= w1.n ==>
              && Stored(w1, scheme, tau, j, i).g == Stored(w2, scheme, tau, j, i).g
              && Stored(w1, scheme, tau, j, i).mid == Stored(w2, scheme, tau, j, i).mid
  {
    forall i | 0 <= i <= w1.n
      ensures Stored(w1, scheme, tau, j, i).g == Stored(w2, scheme, tau, j, i).g
      ensures Stored(w1, scheme, tau, j, i).mid == Stored(w2, scheme, tau, j, i).mid
    {
      StoredIsFaceOut(w1, scheme, tau, j, i);
      StoredIsFaceOut(w2, scheme, tau, j, i);
      assert DownRecord(w1, j, i) == DownRecord(w2, j, i);
      assert UpRecord(w1, j, i) == UpRecord(w2, j, i);
    }
  }
}
