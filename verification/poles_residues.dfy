/** Poles and residues of a reduced model behind a driver resistance. */
module PolesResidues {
  import opened RealSums
  import opened RcTree
  import opened Lanczos
  import opened ArnoldiModel
  import opened Tridiagonal
  import opened TridiagSweeps
  import opened TridiagEV
  import opened Residues

  /** The work arrays of the delay calculation. */
  class DelayWork {
    const nmax: nat
    const poles: array<real>
    const aa: array<real>
    const v: array2<real>
    const w: array2<real>
    const resi: array2<real>

    constructor (nmax: nat)
      ensures this.nmax == nmax && Shaped()
    {
      this.nmax := nmax;
      poles := new real[MAX_N];
      aa := new real[MAX_N];
      v := new real[MAX_N, MAX_N];
      w := new real[MAX_N, nmax];
      resi := new real[nmax, MAX_N];
    }

    ghost predicate Shaped() {
      && poles.Length == MAX_N && aa.Length == MAX_N && poles != aa
      && v.Length0 == MAX_N && v.Length1 == MAX_N
      && w.Length0 == MAX_N && w.Length1 == nmax
      && resi.Length0 == nmax && resi.Length1 == MAX_N
      && v != w && v != resi && w != resi
    }
  }

  /** The first m residues of terminal k. */
  ghost function ResidueRow(resi: array2<real>, k: nat, m: nat): seq<real>
    requires k < resi.Length0 && m <= resi.Length1
    reads resi
  {
    seq(m, h requires 0 <= h < m reads resi => resi[k, h])
  }

  /** p[h] = 1 / max(p[h], floor) */
  method InvertPoles(p: array<real>, order: nat)
    requires order <= p.Length
    modifies p
    ensures forall h :: 0 <= h < order ==> p[h] == 1.0 / (if old(p[h]) < POLE_FLOOR then POLE_FLOOR else old(p[h]))
  {
    for h := 0 to order
      invariant forall g :: 0 <= g < h ==> p[g] == 1.0 / (if old(p[g]) < POLE_FLOOR then POLE_FLOOR else old(p[g]))
      invariant forall g :: h <= g < order ==> p[g] == old(p[g])
    {
      if p[h] < POLE_FLOOR {
        p[h] := POLE_FLOOR;
      }
      p[h] := 1.0 / p[h];
    }
  }

  /** w[h][k] = v[h] . U[.][k] */
  method SeenValue(v: array2<real>, U: array2<real>, order: nat, h: nat, k: nat, ghost V: Matrix) returns (sum: real)
    requires Holds(v, order, V) && h < order <= U.Length0 && k < U.Length1
    ensures sum == SeenBy(V, Fn(ColumnOf(U, k, order)), order)(h)
  {
    ghost var term := InnerTerm(RowOf(V, h), Fn(ColumnOf(U, k, order)));
    sum := 0.0;
    for j := 0 to order
      invariant sum == Sum(term, j)
    {
      SameProduct(RowOf(V, h)(j), v[h, j], Fn(ColumnOf(U, k, order))(j), U[j, k]);
      sum := sum + v[h, j] * U[j, k];
    }
  }

  lemma SameProduct(a: real, a': real, b: real, b': real)
    requires a == a' && b == b'
    ensures a * b == a' * b'
  {
  }

  method FillSeen(D: DelayWork, U: array2<real>, order: nat, n: nat, sqc: real, ghost V: Matrix)
    requires D.Shaped() && order <= MAX_N && n <= D.nmax && order <= U.Length0 && n <= U.Length1
    requires Holds(D.v, order, V) && U != D.w && 0 < order
    modifies D.w, D.aa
    ensures forall h, k {:trigger D.w[h, k]} :: 0 <= h < order && 0 <= k < n ==>
              D.w[h, k] == SeenBy(V, Fn(ColumnOf(U, k, order)), order)(h)
    ensures forall h :: 0 <= h < order ==> D.aa[h] == Mul(sqc, V(h, 0))
  {
    hide SeenBy, Mul;
    for h := 0 to order
      invariant forall g, k {:trigger D.w[g, k]} :: 0 <= g < h && 0 <= k < n ==>
                D.w[g, k] == SeenBy(V, Fn(ColumnOf(U, k, order)), order)(g)
      invariant forall g :: 0 <= g < h ==> D.aa[g] == Mul(sqc, V(g, 0))
    {
      FillSeenRow(D, U, order, n, h, V);
      D.aa[h] := Mul(sqc, D.v[h, 0]);
    }
  }

  /** One row of w. */
  method FillSeenRow(D: DelayWork, U: array2<real>, order: nat, n: nat, h: nat, ghost V: Matrix)
    requires D.Shaped() && h < order <= MAX_N && n <= D.nmax && order <= U.Length0 && n <= U.Length1
    requires Holds(D.v, order, V) && U != D.w
    modifies D.w
    ensures forall g, k {:trigger D.w[g, k]} :: 0 <= g < order && 0 <= k < n && g != h ==> D.w[g, k] == old(D.w[g, k])
    ensures forall k {:trigger D.w[h, k]} :: 0 <= k < n ==>
              D.w[h, k] == SeenBy(V, Fn(ColumnOf(U, k, order)), order)(h)
  {
    hide SeenBy;
    for k := 0 to n
      invariant forall g, l {:trigger D.w[g, l]} :: 0 <= g < order && 0 <= l < n && g != h ==>
                  D.w[g, l] == old(D.w[g, l])
      invariant forall l :: 0 <= l < k ==> D.w[h, l] == SeenBy(V, Fn(ColumnOf(U, l, order)), order)(h)
    {
      var sum := SeenValue(D.v, U, order, h, k, V);
      D.w[h, k] := sum;
    }
  }

  /** resi[j][h] = aa[h] * w[h][j] */
  method FillResidues(D: DelayWork, order: nat, n: nat)
    requires D.Shaped() && order <= MAX_N && n <= D.nmax
    modifies D.resi
    ensures forall j, h {:trigger D.resi[j, h]} :: 0 <= j < n && 0 <= h < order ==>
              D.resi[j, h] == Mul(D.aa[h], D.w[h, j])
  {
    for j := 0 to n
      invariant forall i, h {:trigger D.resi[i, h]} :: 0 <= i < j && 0 <= h < order ==>
                D.resi[i, h] == Mul(D.aa[h], D.w[h, i])
    {
      for h := 0 to order
        invariant forall i, h {:trigger D.resi[i, h]} :: 0 <= i < j && 0 <= h < order ==>
                  D.resi[i, h] == Mul(D.aa[h], D.w[h, i])
        invariant forall g :: 0 <= g < h ==> D.resi[j, g] == Mul(D.aa[g], D.w[g, j])
      {
        D.resi[j, h] := Mul(D.aa[h], D.w[h, j]);
      }
    }
  }

  /** The diagonal with the driver resistance in series. */
  ghost function WithDriver(d: seq<real>, rdrive: real, ctot: real): seq<real>
    requires |d| > 0
  {
    d[0 := d[0] + rdrive * ctot]
  }

  /** What the poles and residues mean: every residue belongs to an eigenvector of the
      tridiagonal matrix with the driver in series, and every pole to its eigenvalue. */
  ghost predicate Solved(D: DelayWork, mod: RcModel, d: seq<real>, lambda: seq<real>, V: Matrix)
    requires D.Shaped() && mod.Shaped() && mod.order <= MAX_N && mod.n <= D.nmax
    reads D.poles, D.resi, mod.e, mod.U
  {
    && |lambda| == mod.order && Descending(lambda)
    && Diagonalizes(TriMatrix(d, mod.e[..]), lambda, V, 2.0 * TOL * ((mod.order - 1) as real), mod.order)
    && Trace(lambda) == Trace(d)
    && (forall h :: 0 <= h < mod.order ==>
         D.poles[h] == 1.0 / (if lambda[h] < POLE_FLOOR then POLE_FLOOR else lambda[h]))
    && (forall k, h {:trigger D.resi[k, h]} :: 0 <= k < mod.n && 0 <= h < mod.order ==>
          D.resi[k, h] == ResidueTerm(V, mod.sqc, Fn(ColumnOf(mod.U, k, mod.order)), mod.order)(h))
  }

  method CalculatePolesRes(mod: RcModel, D: DelayWork, rdrive: real, root: real -> real)
    returns (ok: bool, ghost lambda: seq<real>, ghost V: Matrix)
    requires mod.Shaped() && D.Shaped() && mod.order <= MAX_N && mod.n <= D.nmax && IsSquareRoot(root)
    requires mod.d != D.poles && mod.d != D.aa && mod.e != D.poles && mod.e != D.aa && mod.d != mod.e
    requires mod.U != D.v && mod.U != D.w && mod.U != D.resi
    modifies mod.d, D.poles, D.aa, D.v, D.w, D.resi
    ensures ok <==> AllCleared(LinksFrom(old(WithDriver(mod.d[..], rdrive, mod.ctot)), mod.e[..], mod.order),
                               mod.order - 1, root).Done?
    ensures ok ==> mod.d[..] == old(mod.d[..])
    ensures ok ==> Solved(D, mod, WithDriver(mod.d[..], rdrive, mod.ctot), lambda, V)
  {
    ok, lambda, V := DecomposeDriven(mod, D, rdrive, root);
    if ok {
      FillWork(mod, D, lambda, V);
    }
  }

  /** Eigenvalues and eigenvectors of the matrix with the driver in series; the diagonal of
      the model is changed only for the duration of the call. */
  method DecomposeDriven(mod: RcModel, D: DelayWork, rdrive: real, root: real -> real)
    returns (ok: bool, ghost lambda: seq<real>, ghost V: Matrix)
    requires mod.Shaped() && D.Shaped() && mod.order <= MAX_N && IsSquareRoot(root)
    requires mod.d != D.poles && mod.e != D.poles && mod.d != mod.e
    modifies mod.d, D.poles, D.v
    ensures ok <==> AllCleared(LinksFrom(old(WithDriver(mod.d[..], rdrive, mod.ctot)), mod.e[..], mod.order),
                               mod.order - 1, root).Done?
    ensures ok ==> mod.d[..] == old(mod.d[..])
    ensures ok ==> lambda == D.poles[..mod.order] && Descending(lambda) && Holds(D.v, mod.order, V)
    ensures ok ==> Trace(lambda) == Trace(WithDriver(mod.d[..], rdrive, mod.ctot))
    ensures ok ==> Diagonalizes(TriMatrix(WithDriver(mod.d[..], rdrive, mod.ctot), mod.e[..]), lambda, V,
                                2.0 * TOL * ((mod.order - 1) as real), mod.order)
  {
    hide Diagonalizes, AllCleared, AnyOutlasts, Broken, Descending, Holds, Trace, TriMatrix;
    var dsave := mod.d[0];
    mod.d[0] := mod.d[0] + rdrive * mod.ctot;
    ghost var driven := mod.d[..];
    assert mod.d[..mod.order] == driven == WithDriver(old(mod.d[..]), rdrive, mod.ctot);
    ok, V := TridiagEV.TridiagEV(mod.order, mod.d, mod.e, D.poles, D.v, root);
    assert mod.d[..mod.order] == driven;
    lambda := D.poles[..mod.order];
    if ok {
      mod.d[0] := dsave;
      assert mod.d[..] == old(mod.d[..]);
    }
  }

  /** Poles from the eigenvalues, residues from the eigenvectors. */
  method FillWork(mod: RcModel, D: DelayWork, ghost lambda: seq<real>, ghost V: Matrix)
    requires mod.Shaped() && D.Shaped() && mod.order <= MAX_N && mod.n <= D.nmax
    requires mod.U != D.w && mod.U != D.resi && mod.e != D.poles && mod.e != D.aa && mod.d != D.poles && mod.d != D.aa
    requires lambda == D.poles[..mod.order] && Holds(D.v, mod.order, V)
    modifies D.poles, D.aa, D.w, D.resi
    ensures forall h :: 0 <= h < mod.order ==>
              D.poles[h] == 1.0 / (if lambda[h] < POLE_FLOOR then POLE_FLOOR else lambda[h])
    ensures forall k, h {:trigger D.resi[k, h]} :: 0 <= k < mod.n && 0 <= h < mod.order ==>
              D.resi[k, h] == ResidueTerm(V, mod.sqc, Fn(ColumnOf(mod.U, k, mod.order)), mod.order)(h)
  {
    InvertPoles(D.poles, mod.order);
    FillSeen(D, mod.U, mod.order, mod.n, mod.sqc, V);
    FillResidues(D, mod.order, mod.n);
  }

  // ---------------------------------------------------------------------------
  // What the residues carry

  lemma StartValue(t: Tree, basis: seq<seq<real>>, nodes: seq<int>, mod: RcModel, k: nat)
    requires mod.Models(t, basis, nodes) && k < mod.n
    ensures Mul(mod.sqc, Fn(ColumnOf(mod.U, k, mod.order))(0)) == 1.0
  {
    assert Scaled(mod.sqc, Q(basis, 0)(nodes[k])) == 1.0;
    SameScaled(mod.sqc, Q(basis, 0)(nodes[k]), Fn(ColumnOf(mod.U, k, mod.order))(0));
  }

  lemma SameScaled(s: real, x: real, y: real)
    requires x == y && Scaled(s, x) == 1.0
    ensures Mul(s, y) == 1.0
  {
  }

  /** For every terminal the residues sum to exactly one. */
  lemma UnitResidues(t: Tree, basis: seq<seq<real>>, nodes: seq<int>, mod: RcModel, D: DelayWork,
                     d: seq<real>, lambda: seq<real>, V: Matrix, k: nat)
    requires mod.Models(t, basis, nodes) && D.Shaped() && mod.order <= MAX_N && k < mod.n <= D.nmax
    requires Solved(D, mod, d, lambda, V)
    ensures Sum(Fn(ResidueRow(D.resi, k, mod.order)), mod.order) == 1.0
  {
    var u := Fn(ColumnOf(mod.U, k, mod.order));
    StartValue(t, basis, nodes, mod, k);
    ResiduesSumToOne(V, mod.sqc, u, mod.order);
    SumCongr(Fn(ResidueRow(D.resi, k, mod.order)), ResidueTerm(V, mod.sqc, u, mod.order), mod.order);
  }

  /** The delay of terminal k as the reduction knows it. */
  ghost function KnownDelay(mod: RcModel, k: nat): real
    requires mod.Shaped() && k < mod.n
    reads mod.d, mod.e, mod.U
  {
    mod.d[0] + if mod.order > 1 then mod.e[0] * (mod.sqc * mod.U[1, k]) else 0.0
  }

  lemma KnownDelayIsElmore(t: Tree, basis: seq<seq<real>>, nodes: seq<int>, mod: RcModel, k: nat)
    requires mod.Models(t, basis, nodes) && k < mod.n && mod.order >= 2
    ensures KnownDelay(mod, k) == t.ElmoreDelay(nodes[k])
  {
    ElmoreByFirstRow(t, basis, mod.d[..], mod.e[..], mod.sqc, nodes[k]);
  }

  /** The links of a model that was handed over are positive, so every sweep on it completes,
      whatever the driver resistance; it is not decomposed only if a link outlasts twenty of them,
      which none does in models of one or two rows. */
  lemma ModelCompletes(t: Tree, basis: seq<seq<real>>, nodes: seq<int>, mod: RcModel, rdrive: real,
                       root: real -> real)
    requires mod.Models(t, basis, nodes) && IsSquareRoot(root)
    ensures var l := LinksFrom(WithDriver(mod.d[..], rdrive, mod.ctot), mod.e[..], mod.order);
            && AllComplete(l, mod.order - 1, root)
            && (AllCleared(l, mod.order - 1, root).Failed? <==> AnyOutlasts(l, mod.order - 1, root))
            && (mod.order <= 2 ==> AllCleared(l, mod.order - 1, root).Done?)
  {
    hide AllComplete, AllCleared, AnyOutlasts;
    var d := WithDriver(mod.d[..], rdrive, mod.ctot);
    ModelUnbroken(t, basis, nodes, mod);
    DecomposesExactly(d, mod.e[..], mod.order, root);
    if mod.order <= 2 {
      PairSucceeds(LinksFrom(d, mod.e[..], mod.order), root);
    }
  }

  lemma ModelUnbroken(t: Tree, basis: seq<seq<real>>, nodes: seq<int>, mod: RcModel)
    requires mod.Models(t, basis, nodes)
    ensures !Broken(mod.e[..][..mod.order - 1])
  {
    var e := mod.e[..][..mod.order - 1];
    forall a | 0 <= a < |e|
      ensures e[a] != 0.0
    {
      assert At(mod.e[..], a) > 0.0;
    }
  }

  function Weighted(lambda: seq<real>, residues: seq<real>): int -> real {
    h => Mul(At(lambda, h), At(residues, h))
  }

  /** The residues weighted by their time constants give back the Elmore delay of the
      terminal plus the delay of the driver resistance into the total capacitance, up to the
      links that the eigenvalue routine dropped. */
  lemma DelayCarried(t: Tree, basis: seq<seq<real>>, nodes: seq<int>, mod: RcModel, D: DelayWork,
                     rdrive: real, lambda: seq<real>, V: Matrix, k: nat)
    requires mod.Models(t, basis, nodes) && D.Shaped() && mod.order <= MAX_N && k < mod.n <= D.nmax
    requires Solved(D, mod, WithDriver(mod.d[..], rdrive, mod.ctot), lambda, V)
    ensures Abs(Sum(Weighted(lambda, ResidueRow(D.resi, k, mod.order)), mod.order)
                - (KnownDelay(mod, k) + rdrive * mod.ctot))
            <= Mul(mod.sqc, Mul(2.0 * TOL * ((mod.order - 1) as real),
                                Sum(Magnitude(Fn(ColumnOf(mod.U, k, mod.order))), mod.order)))
  {
    var n, d := mod.order, WithDriver(mod.d[..], rdrive, mod.ctot);
    var u := Fn(ColumnOf(mod.U, k, n));
    StartValue(t, basis, nodes, mod, k);
    FirstMoment(d, mod.e[..], lambda, V, 2.0 * TOL * ((n - 1) as real), mod.sqc, u, n);
    SumCongr(Weighted(lambda, ResidueRow(D.resi, k, n)), WeightedResidue(lambda, V, mod.sqc, u, n), n);
    DrivenDelay(mod, rdrive, k);
  }

  lemma DrivenDelay(mod: RcModel, rdrive: real, k: nat)
    requires mod.Shaped() && k < mod.n && Mul(mod.sqc, Fn(ColumnOf(mod.U, k, mod.order))(0)) == 1.0
    ensures var u, d := Fn(ColumnOf(mod.U, k, mod.order)), WithDriver(mod.d[..], rdrive, mod.ctot);
            Mul(mod.sqc, Mul(At(d, 0), u(0)) + if mod.order > 1 then Mul(At(mod.e[..], 0), u(1)) else 0.0)
            == KnownDelay(mod, k) + rdrive * mod.ctot
  {
    var n, u, d := mod.order, Fn(ColumnOf(mod.U, k, mod.order)), WithDriver(mod.d[..], rdrive, mod.ctot);
    RowDelay(mod.sqc, At(d, 0), u(0), if n > 1 then mod.e[0] else 0.0, if n > 1 then mod.U[1, k] else 0.0);
  }

  lemma RowDelay(s: real, d: real, u0: real, e: real, u1: real)
    requires Mul(s, u0) == 1.0
    ensures Mul(s, Mul(d, u0) + Mul(e, u1)) == d + e * (s * u1)
    ensures Mul(s, Mul(d, u0)) == d
  {
    assert s * (d * u0) == d * (s * u0);
  }
}
