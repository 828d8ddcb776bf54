/** What the eigenvalues and eigenvectors say about the reduced model: eigenpairs,
    residues, and the delay that the residues carry. */
module Residues {
  import opened RealSums
  import opened Tridiagonal
  import opened TridiagEV

  /** The value at a terminal, seen by eigenvector h. */
  function SeenBy(v: Matrix, u: int -> real, n: nat): int -> real {
    h => Inner(RowOf(v, h), u, n)
  }

  /** Eigenvector h's share of the first component, weighted by lambda. */
  function PairTerm(lambda: seq<real>, v: Matrix, u: int -> real, n: nat, k: int): int -> real {
    h => Mul(Mul(At(lambda, h), v(h, k)), SeenBy(v, u, n)(h))
  }

  function RowProductTerm(m: Matrix, k: int, u: int -> real): int -> real {
    l => Mul(m(k, l), u(l))
  }

  /** Row k of the spectral matrix applied to u, by eigenvectors. */
  lemma SpectralRow(lambda: seq<real>, v: Matrix, u: int -> real, n: nat, k: int)
    ensures Sum(PairTerm(lambda, v, u, n, k), n) == Sum(RowProductTerm(Spectral(lambda, v, n), k, u), n)
  {
    var F := (h, l) => SpectralShare(lambda, v, u, k, h)(l);
    forall h | 0 <= h < n
      ensures PairTerm(lambda, v, u, n, k)(h) == Sum(l => F(h, l), n)
    {
      ShareRow(lambda, v, u, n, k, h, l => F(h, l));
    }
    forall l | 0 <= l < n
      ensures RowProductTerm(Spectral(lambda, v, n), k, u)(l) == Sum(h => F(h, l), n)
    {
      ShareColumn(lambda, v, u, n, k, l, h => F(h, l));
    }
    SumSwap(F, PairTerm(lambda, v, u, n, k), RowProductTerm(Spectral(lambda, v, n), k, u), n, n);
  }

  function SpectralShare(lambda: seq<real>, v: Matrix, u: int -> real, k: int, h: int): int -> real {
    l => Mul(DiagShare(At(lambda, h), v(h, k), v(h, l)), u(l))
  }

  lemma ShareRow(lambda: seq<real>, v: Matrix, u: int -> real, n: nat, k: int, h: int, f: int -> real)
    requires forall l :: 0 <= l < n ==> f(l) == SpectralShare(lambda, v, u, k, h)(l)
    ensures PairTerm(lambda, v, u, n, k)(h) == Sum(f, n)
  {
    var q := Mul(At(lambda, h), v(h, k));
    forall l | 0 <= l < n
      ensures f(l) == q * InnerTerm(RowOf(v, h), u)(l)
    {
      Regroup4(At(lambda, h), v(h, k), v(h, l), u(l));
    }
    SumScale(f, q, InnerTerm(RowOf(v, h), u), n);
  }

  lemma Regroup4(a: real, b: real, c: real, d: real)
    ensures Mul(DiagShare(a, b, c), d) == Mul(a, b) * (c * d)
  {
  }

  lemma ShareColumn(lambda: seq<real>, v: Matrix, u: int -> real, n: nat, k: int, l: int, f: int -> real)
    requires forall h :: 0 <= h < n ==> f(h) == SpectralShare(lambda, v, u, k, h)(l)
    ensures RowProductTerm(Spectral(lambda, v, n), k, u)(l) == Sum(f, n)
  {
    forall h | 0 <= h < n
      ensures f(h) == u(l) * DiagTerm(lambda, Col(v, k), Col(v, l))(h)
    {
      Commute(DiagShare(At(lambda, h), v(h, k), v(h, l)), u(l));
    }
    SumScale(f, u(l), DiagTerm(lambda, Col(v, k), Col(v, l)), n);
  }

  lemma Commute(a: real, b: real)
    ensures Mul(a, b) == b * a
  {
  }

  // ---------------------------------------------------------------------------
  // Eigenpairs

  /** Row a of v is an eigenvector with eigenvalue d[a], up to the dropped links. */
  lemma EigenPair(m: Matrix, d: seq<real>, v: Matrix, bound: real, n: nat, a: int, k: int)
    requires Diagonalizes(m, d, v, bound, n) && 0 <= a < n && 0 <= k < n
    ensures Abs(Sum(RowProductTerm(m, k, RowOf(v, a)), n) - Mul(At(d, a), v(a, k))) <= bound * (n as real)
  {
    var u := RowOf(v, a);
    SpectralRow(d, v, u, n, k);
    forall h | 0 <= h < n && h != a
      ensures PairTerm(d, v, u, n, k)(h) == 0.0
    {
      assert Inner(RowOf(v, h), RowOf(v, a), n) == Delta(h, a);
      MulUnits(Mul(At(d, h), v(h, k)));
    }
    SumSingle(PairTerm(d, v, u, n, k), n, a);
    assert Inner(RowOf(v, a), RowOf(v, a), n) == Delta(a, a);
    MulUnits(Mul(At(d, a), v(a, k)));
    forall l | 0 <= l < n
      ensures Abs(u(l)) <= 1.0
    {
      EntryBound(v, n, a, l);
    }
    RowError(m, Spectral(d, v, n), bound, n, k, u);
  }

  lemma MulUnits(q: real)
    ensures Mul(q, 0.0) == 0.0 && Mul(q, 1.0) == q
  {
  }

  /** Two matrices that are near each other act alike on vectors with entries up to one. */
  lemma RowError(m: Matrix, m': Matrix, bound: real, n: nat, k: int, u: int -> real)
    requires Near(m, m', bound, n) && 0 <= k < n
    requires forall l :: 0 <= l < n ==> Abs(u(l)) <= 1.0
    ensures Abs(Sum(RowProductTerm(m, k, u), n) - Sum(RowProductTerm(m', k, u), n)) <= bound * (n as real)
  {
    var diff := l => Mul(m(k, l) - m'(k, l), u(l));
    forall l | 0 <= l < n
      ensures Abs(diff(l)) <= bound
    {
      assert Abs(m(k, l) - m'(k, l)) <= bound;
      SmallProduct(m(k, l) - m'(k, l), u(l), bound, 1.0);
    }
    SumAbsBound(diff, n, bound);
    RowDifference(m, m', n, k, u, diff);
  }

  lemma RowDifference(m: Matrix, m': Matrix, n: nat, k: int, u: int -> real, diff: int -> real)
    requires forall l :: 0 <= l < n ==> diff(l) == Mul(m(k, l) - m'(k, l), u(l))
    ensures Sum(diff, n) == Sum(RowProductTerm(m, k, u), n) - Sum(RowProductTerm(m', k, u), n)
  {
    forall l | 0 <= l < n
      ensures diff(l) == 1.0 * RowProductTerm(m, k, u)(l) + (-1.0) * RowProductTerm(m', k, u)(l)
    {
      Distribute2(m(k, l), m'(k, l), u(l));
    }
    SumLinear(diff, 1.0, RowProductTerm(m, k, u), -1.0, RowProductTerm(m', k, u), n);
  }

  lemma Distribute2(a: real, b: real, c: real)
    ensures Mul(a - b, c) == Mul(a, c) - Mul(b, c)
  {
  }

  // ---------------------------------------------------------------------------
  // Residues

  /** The residue of pole h for a terminal whose values in the basis are u. */
  function ResidueTerm(v: Matrix, sqc: real, u: int -> real, n: nat): int -> real {
    h => Mul(Mul(sqc, v(h, 0)), SeenBy(v, u, n)(h))
  }

  /** The residues of a terminal sum to one. */
  lemma ResiduesSumToOne(v: Matrix, sqc: real, u: int -> real, n: nat)
    requires n > 0 && ColsOrthonormal(v, n) && Mul(sqc, u(0)) == 1.0
    ensures Sum(ResidueTerm(v, sqc, u, n), n) == 1.0
  {
    var ones := seq(n, _ => 1.0);
    SpectralRow(ones, v, u, n, 0);
    UnitRow(ones, v, u, n);
    forall h | 0 <= h < n
      ensures ResidueTerm(v, sqc, u, n)(h) == sqc * PairTerm(ones, v, u, n, 0)(h)
    {
      ScaleOut(sqc, v(h, 0), SeenBy(v, u, n)(h), At(ones, h), PairTerm(ones, v, u, n, 0)(h));
    }
    SumScale(ResidueTerm(v, sqc, u, n), sqc, PairTerm(ones, v, u, n, 0), n);
  }

  lemma UnitRow(ones: seq<real>, v: Matrix, u: int -> real, n: nat)
    requires n > 0 && ColsOrthonormal(v, n) && |ones| == n && forall h :: 0 <= h < n ==> ones[h] == 1.0
    ensures Sum(RowProductTerm(Spectral(ones, v, n), 0, u), n) == u(0)
  {
    forall l | 0 <= l < n
      ensures RowProductTerm(Spectral(ones, v, n), 0, u)(l) == if l == 0 then u(0) else 0.0
    {
      UnitSpectral(ones, v, n, l);
      MulUnits(u(l));
      Commute(Spectral(ones, v, n)(0, l), u(l));
    }
    SumSingle(RowProductTerm(Spectral(ones, v, n), 0, u), n, 0);
  }

  lemma ScaleOut(s: real, v: real, w: real, one: real, pair: real)
    requires one == 1.0 && pair == Mul(Mul(one, v), w)
    ensures Mul(Mul(s, v), w) == s * pair
  {
  }

  /** With all eigenvalues one the spectral matrix is the identity. */
  lemma UnitSpectral(ones: seq<real>, v: Matrix, n: nat, l: int)
    requires ColsOrthonormal(v, n) && 0 <= l < n && |ones| == n && forall h :: 0 <= h < n ==> ones[h] == 1.0
    ensures Spectral(ones, v, n)(0, l) == Delta(0, l)
  {
    forall h | 0 <= h < n
      ensures DiagTerm(ones, Col(v, 0), Col(v, l))(h) == InnerTerm(Col(v, 0), Col(v, l))(h)
    {
      UnitDiag(At(ones, h), Col(v, 0)(h), Col(v, l)(h));
    }
    SumCongr(DiagTerm(ones, Col(v, 0), Col(v, l)), InnerTerm(Col(v, 0), Col(v, l)), n);
    assert Inner(Col(v, 0), Col(v, l), n) == Delta(0, l);
  }

  lemma UnitDiag(one: real, x: real, y: real)
    requires one == 1.0
    ensures DiagShare(one, x, y) == x * y
  {
  }

  /** The first moment of the residues: weighting them by the eigenvalues gives the first row
      of the tridiagonal matrix applied to the terminal values. */
  function WeightedResidue(lambda: seq<real>, v: Matrix, sqc: real, u: int -> real, n: nat): int -> real {
    h => Mul(At(lambda, h), ResidueTerm(v, sqc, u, n)(h))
  }

  lemma FirstMomentBySpectrum(lambda: seq<real>, v: Matrix, sqc: real, u: int -> real, n: nat)
    ensures Sum(WeightedResidue(lambda, v, sqc, u, n), n)
            == Mul(sqc, Sum(RowProductTerm(Spectral(lambda, v, n), 0, u), n))
  {
    SpectralRow(lambda, v, u, n, 0);
    forall h | 0 <= h < n
      ensures WeightedResidue(lambda, v, sqc, u, n)(h) == sqc * PairTerm(lambda, v, u, n, 0)(h)
    {
      PullOut(At(lambda, h), sqc, v(h, 0), SeenBy(v, u, n)(h), ResidueTerm(v, sqc, u, n)(h),
          PairTerm(lambda, v, u, n, 0)(h));
    }
    SumScale(WeightedResidue(lambda, v, sqc, u, n), sqc, PairTerm(lambda, v, u, n, 0), n);
  }

  lemma PullOut(l: real, s: real, v: real, w: real, residue: real, pair: real)
    requires residue == Mul(Mul(s, v), w) && pair == Mul(Mul(l, v), w)
    ensures Mul(l, residue) == s * pair
  {
  }

  /** The first row of a tridiagonal matrix reaches two entries. */
  lemma FirstRow(d: seq<real>, e: seq<real>, u: int -> real, n: nat)
    requires n > 0
    ensures Sum(RowProductTerm(TriMatrix(d, e), 0, u), n)
            == Mul(At(d, 0), u(0)) + if n > 1 then Mul(At(e, 0), u(1)) else 0.0
  {
    var f := RowProductTerm(TriMatrix(d, e), 0, u);
    if n == 1 {
      SumSingle(f, n, 0);
    } else {
      var rest := Spike(1, Mul(At(e, 0), u(1)));
      var first := Spike(0, Mul(At(d, 0), u(0)));
      forall l | 0 <= l < n
        ensures f(l) == 1.0 * first(l) + 1.0 * rest(l)
      {
        Commute(TriMatrix(d, e)(0, l), u(l));
        if l > 1 {
          assert TriMatrix(d, e)(0, l) == 0.0;
        }
      }
      SumLinear(f, 1.0, first, 1.0, rest, n);
      SumSpike(0, Mul(At(d, 0), u(0)), n);
      SumSpike(1, Mul(At(e, 0), u(1)), n);
    }
  }

  function Magnitude(u: int -> real): int -> real {
    l => Abs(u(l))
  }

  lemma {:induction false} TriangleInequality(f: int -> real, g: int -> real, n: nat)
    requires forall l :: 0 <= l < n ==> Abs(f(l)) <= g(l)
    ensures Abs(Sum(f, n)) <= Sum(g, n)
  {
    if n > 0 {
      TriangleInequality(f, g, n - 1);
      AbsAdd(Sum(f, n - 1), f(n - 1), Sum(g, n - 1), g(n - 1));
    }
  }

  lemma MulIs(b: real, x: real, y: real)
    requires x == y
    ensures Mul(b, x) == b * y
  {
  }

  function ScaledMagnitude(bound: real, u: int -> real): int -> real {
    l => Mul(bound, Abs(u(l)))
  }

  lemma ScaledMagnitudeSum(bound: real, u: int -> real, n: nat)
    ensures Sum(ScaledMagnitude(bound, u), n) == Mul(bound, Sum(Magnitude(u), n))
  {
    forall l | 0 <= l < n
      ensures ScaledMagnitude(bound, u)(l) == bound * Magnitude(u)(l)
    {
      MulIs(bound, Abs(u(l)), Magnitude(u)(l));
    }
    SumScale(ScaledMagnitude(bound, u), bound, Magnitude(u), n);
  }

  /** Two matrices that are near each other act alike on any vector, up to its size. */
  lemma RowErrorOf(m: Matrix, m': Matrix, bound: real, n: nat, k: int, u: int -> real)
    requires Near(m, m', bound, n) && 0 <= k < n
    ensures Abs(Sum(RowProductTerm(m, k, u), n) - Sum(RowProductTerm(m', k, u), n)) <= Mul(bound, Sum(Magnitude(u), n))
  {
    var diff := l => Mul(m(k, l) - m'(k, l), u(l));
    forall l | 0 <= l < n
      ensures Abs(diff(l)) <= ScaledMagnitude(bound, u)(l)
    {
      EntryError(m(k, l), m'(k, l), bound, u(l));
    }
    TriangleInequality(diff, ScaledMagnitude(bound, u), n);
    ScaledMagnitudeSum(bound, u, n);
    RowDifference(m, m', n, k, u, diff);
  }

  lemma EntryError(x: real, y: real, bound: real, u: real)
    requires Abs(x - y) <= bound
    ensures Abs(Mul(x - y, u)) <= Mul(bound, Abs(u))
  {
    SmallProduct(x - y, u, bound, Abs(u));
  }

  /** The residues weighted by the eigenvalues give the delay of the first row, up to the
      dropped links. */
  lemma FirstMoment(d: seq<real>, e: seq<real>, lambda: seq<real>, v: Matrix, bound: real, sqc: real, u: int -> real,
                    n: nat)
    requires n > 0 && sqc > 0.0 && Near(TriMatrix(d, e), Spectral(lambda, v, n), bound, n)
    ensures Abs(Sum(WeightedResidue(lambda, v, sqc, u, n), n)
                - Mul(sqc, Mul(At(d, 0), u(0)) + if n > 1 then Mul(At(e, 0), u(1)) else 0.0))
            <= Mul(sqc, Mul(bound, Sum(Magnitude(u), n)))
  {
    FirstMomentBySpectrum(lambda, v, sqc, u, n);
    FirstRow(d, e, u, n);
    RowErrorOf(TriMatrix(d, e), Spectral(lambda, v, n), bound, n, 0, u);
    ScaleError(sqc, Sum(RowProductTerm(Spectral(lambda, v, n), 0, u), n), Sum(RowProductTerm(TriMatrix(d, e), 0, u), n),
               Mul(bound, Sum(Magnitude(u), n)));
  }

  lemma ScaleError(s: real, x: real, y: real, b: real)
    requires s > 0.0 && Abs(y - x) <= b
    ensures Abs(Mul(s, x) - Mul(s, y)) <= Mul(s, b)
  {
    SmallProduct(s, x - y, s, b);
    Distribute3(s, x, y);
  }

  lemma Distribute3(s: real, x: real, y: real)
    ensures Mul(s, x - y) == Mul(s, x) - Mul(s, y)
  {
  }
}
