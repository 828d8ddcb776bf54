/** The reduced model of a net: what the reducer hands over, the Elmore delay read off it,
    and its poles and residues behind a driver resistance. */
module ArnoldiModel {
  import opened RealSums
  import opened RcTree
  import opened Lanczos
  import opened ArnoldiReduction
  import Tridiagonal
  import TridiagEV
  import Residues

  const POLE_FLOOR: real := 0.00000000000001     // 1e-14

  // ---------------------------------------------------------------------------
  // The Elmore delay of the reduction

  /** The first row of the reduction is the Elmore delay of every node. */
  lemma ElmoreByFirstRow(t: Tree, basis: seq<seq<real>>, d: seq<real>, e: seq<real>, sqc: real, node: int)
    requires t.Valid() && 0 <= node < t.Size() && |basis| >= 2
    requires ThreeTerm(t, basis, d, e, |basis| - 1) && StartsConstant(t, basis, sqc)
    ensures t.ElmoreDelay(node) == At(d, 0) + At(e, 0) * (sqc * At(basis[1], node))
  {
    var one := Moments(t, 0);
    var q := Q(basis, 0);
    ElmoreIsSolve(t, one, node);
    SolveLinear(t, one, sqc, q, 0.0, q, node);
    assert t.Solve(Q(basis, 0), node) == Row(basis, d, e, 0, node);
    assert Q(basis, 1)(node) == At(basis[1], node);
    ScaleRow(sqc, At(d, 0), q(node), At(e, 0), At(basis[1], node), t.Solve(q, node));
  }

  lemma ScaleRow(s: real, d: real, q: real, e: real, q1: real, row: real)
    requires Scaled(s, q) == 1.0 && row == d * q + e * q1
    ensures s * row == d + e * (s * q1)
  {
    assert s * row == d * (s * q) + e * (s * q1);
  }

  /** A reduction of order one knows the capacitance-weighted mean of the Elmore delays. */
  lemma ElmoreMean(t: Tree, basis: seq<seq<real>>, d: seq<real>, e: seq<real>, sqc: real)
    requires t.Valid() && |basis| == 1 && IsReduction(t, basis, d, e, sqc)
    ensures Twice(sqc, At(d, 0)) == Sum(j => At(t.c, j) * t.ElmoreDelay(j), t.Size())
  {
    ChargeMomentsMatched(t, basis, d, e, sqc, 1);
    FirstPower(d, e);
    var mean := j => At(t.c, j) * t.ElmoreDelay(j);
    forall j | 0 <= j < t.Size()
      ensures t.DotTerm(Moments(t, 0), Moments(t, 1))(j) == mean(j)
    {
      ElmoreIsSolve(t, Moments(t, 0), j);
      MomentTerm(At(t.c, j), Moments(t, 0)(j), Moments(t, 1)(j), t.ElmoreDelay(j));
    }
    SumCongr(t.DotTerm(Moments(t, 0), Moments(t, 1)), mean, t.Size());
  }

  lemma MomentTerm(c: real, one: real, m: real, delay: real)
    requires one == 1.0 && m == delay
    ensures c * one * m == c * delay
  {
  }

  lemma FirstPower(d: seq<real>, e: seq<real>)
    ensures Power(d, e, 1, 1)(0) == At(d, 0)
  {
    var z := Power(d, e, 1, 0);
    assert z(-1) == 0.0 && z(0) == 1.0 && z(1) == 0.0;
    assert Power(d, e, 1, 1)(0) == TriRow(d, e, z, 0);
  }

  // ---------------------------------------------------------------------------
  // The model

  /** The first m entries of column k of U. */
  ghost function ColumnOf(U: array2<real>, k: nat, m: nat): seq<real>
    requires k < U.Length1 && m <= U.Length0
    reads U
  {
    seq(m, h requires 0 <= h < m reads U => U[h, k])
  }

  class RcModel {
    const order: nat
    const n: nat                 // terminals, the driver first
    const d: array<real>
    const e: array<real>
    const U: array2<real>
    const ctot: real
    const sqc: real
    const pinV: seq<int>         // the pin of every terminal

    constructor (order: nat, n: nat, ctot: real, sqc: real, pinV: seq<int>)
      requires order > 0
      ensures this.order == order && this.n == n && this.ctot == ctot && this.sqc == sqc && this.pinV == pinV
      ensures Shaped() && fresh(d) && fresh(e) && fresh(U) && d != e
    {
      this.order, this.n, this.ctot, this.sqc, this.pinV := order, n, ctot, sqc, pinV;
      d := new real[order];
      e := new real[order - 1];
      U := new real[order, n];
    }

    ghost predicate Shaped() {
      order > 0 && d.Length == order && e.Length == order - 1 && U.Length0 == order && U.Length1 == n
    }

    /** This is the reduction of t through the given basis, terminal k being node nodes[k]. */
    ghost predicate Models(t: Tree, basis: seq<seq<real>>, nodes: seq<int>)
      reads d, e, U
    {
      && Shaped()
      && Reduced(t, basis, d[..], e[..], sqc, order)
      && sqc > 0.0 && Square(sqc) == ctot && ctot == Sum(Fn(t.c), t.Size())
      && |nodes| == n && (forall k :: 0 <= k < n ==> 0 <= nodes[k] < t.Size())
      && forall h, k {:trigger U[h, k]} :: 0 <= h < order && 0 <= k < n ==> U[h, k] == At(basis[h], nodes[k])
    }

    /** The Elmore delay of terminal k: the true one, unless the order is one, when it is
        the mean over the nodes weighted by their capacitances. */
    method Elmore(k: nat, ghost t: Tree, ghost basis: seq<seq<real>>, ghost nodes: seq<int>) returns (tau: real)
      requires k < n && (order > 0 ==> Models(t, basis, nodes))
      ensures order == 0 ==> tau == 0.0
      ensures order == 1 ==> Mul(ctot, tau) == Sum(j => At(t.c, j) * t.ElmoreDelay(j), t.Size())
      ensures order >= 2 ==> tau == t.ElmoreDelay(nodes[k])
    {
      if order == 0 {
        return 0.0;
      }
      if order == 1 {
        ElmoreMean(t, basis, d[..], e[..], sqc);
        MeanByTotal(sqc, ctot, d[0]);
        return d[0];
      }
      assert Scaled(sqc, Q(basis, 0)(nodes[0])) == 1.0;
      var sqctot := 1.0 / U[0, 0];
      RootBack(sqc, U[0, 0], sqctot);
      tau := d[0] + e[0] * U[1, k] * sqctot;
      ElmoreByFirstRow(t, basis, d[..], e[..], sqc, nodes[k]);
      Reassociate(e[0], U[1, k], sqctot, sqc);
    }

    static lemma MeanByTotal(sqc: real, ctot: real, d0: real)
      requires Square(sqc) == ctot
      ensures Mul(ctot, d0) == Twice(sqc, d0)
    {
    }

    static lemma RootBack(sqc: real, u: real, inverse: real)
      requires Scaled(sqc, u) == 1.0 && u != 0.0 && inverse == 1.0 / u
      ensures inverse == sqc
    {
      assert u * inverse == 1.0;
      assert sqc * (u * inverse) == (sqc * u) * inverse;
    }

    static lemma Reassociate(e: real, u: real, s: real, sqc: real)
      requires s == sqc
      ensures e * u * s == e * (sqc * u)
    {
    }
  }

  /** A reduction only reads the entries that the model keeps. */
  lemma ReducedPrefix(t: Tree, basis: seq<seq<real>>, d: seq<real>, e: seq<real>, d': seq<real>, e': seq<real>,
                      sqc: real, order: int)
    requires Reduced(t, basis, d, e, sqc, order)
    requires forall a :: 0 <= a < order ==> At(d, a) == At(d', a)
    requires forall a :: 0 <= a < order - 1 ==> At(e, a) == At(e', a)
    ensures Reduced(t, basis, d', e', sqc, order)
  {
    ThreeTermFrame(t, basis, d, e, d', e', order - 1);
    var r, r' := Residual(t, basis, d, e, order - 1), Residual(t, basis, d', e', order - 1);
    forall j | 0 <= j < t.Size()
      ensures r(j) == r'(j)
    {
    }
    DotCongr(t, r, r', r);
    DotCongrRight(t, r', r, r');
  }

  /** Copies the reduction out of the work arrays, with the pins in the order of the terminals. */
  method MakeRcmodelFromW(a: ArnoldiReduce, termV: seq<int>, pinV: seq<int>, ghost basis: seq<seq<real>>)
    returns (mod: RcModel)
    requires |termV| == a.nterms && forall k {:trigger termV[k]} :: 0 <= k < |termV| ==> 0 <= termV[k] < |pinV|
    requires a.Valid() && Reduced(a.T(), basis, a.d[..], a.e[..], a.sqc, a.order) && a.TerminalsRecorded(basis, a.order)
    requires a.sqc > 0.0 && Square(a.sqc) == a.ctot && a.ctot == Sum(Fn(a.c[..]), a.n)
    ensures fresh(mod) && mod.Models(a.T(), basis, a.outV[..])
    ensures |mod.pinV| == mod.n == a.nterms && forall k {:trigger mod.pinV[k]} :: 0 <= k < |termV| ==>
            mod.pinV[k] == pinV[termV[k]]
  {
    var pins := [];
    for k := 0 to |termV|
      invariant |pins| == k && forall i {:trigger pins[i]} :: 0 <= i < k ==> pins[i] == pinV[termV[i]]
    {
      pins := pins + [pinV[termV[k]]];
    }
    mod := new RcModel(a.order, a.nterms, a.ctot, a.sqc, pins);
    CopyOut(a.order, a.d, a.e, a.U, mod);
    ReducedPrefix(a.T(), basis, a.d[..], a.e[..], mod.d[..], mod.e[..], a.sqc, a.order);
  }

  method CopyOut(order: nat, d: array<real>, e: array<real>, U: array2<real>, mod: RcModel)
    requires mod.Shaped() && order == mod.order && mod.d != mod.e
    requires order <= d.Length && order <= e.Length + 1 && order <= U.Length0 && mod.n == U.Length1
    requires mod.d != d && mod.d != e && mod.e != d && mod.e != e && mod.U != U
    modifies mod.d, mod.e, mod.U
    ensures forall g :: 0 <= g < order ==> mod.d[g] == d[g]
    ensures forall g :: 0 <= g < order - 1 ==> mod.e[g] == e[g]
    ensures forall g, k {:trigger mod.U[g, k]} :: 0 <= g < order && 0 <= k < mod.n ==> mod.U[g, k] == U[g, k]
  {
    for h := 0 to order
      invariant forall g :: 0 <= g < h ==> mod.d[g] == d[g]
      invariant forall g :: 0 <= g < h && g < order - 1 ==> mod.e[g] == e[g]
      invariant forall g, k {:trigger mod.U[g, k]} :: 0 <= g < h && 0 <= k < mod.n ==> mod.U[g, k] == U[g, k]
    {
      mod.d[h] := d[h];
      if h < order - 1 {
        mod.e[h] := e[h];
      }
      for j := 0 to mod.n
        modifies mod.U
        invariant forall g, k {:trigger mod.U[g, k]} :: 0 <= g < h && 0 <= k < mod.n ==> mod.U[g, k] == U[g, k]
        invariant forall k :: 0 <= k < j ==> mod.U[h, k] == U[h, k]
      {
        mod.U[h, j] := U[h, j];
      }
    }
  }
}
