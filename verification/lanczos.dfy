/** Why the Lanczos loop of the reducer works: the mathematics of one step, and what the
    resulting tridiagonal matrix keeps of the network. */
module Lanczos {
  import opened RealSums
  import opened RcTree

  function Fn(s: seq<real>): int -> real {
    i => At(s, i)
  }

  /** Basis vector a; the zero vector outside the basis. */
  function Q(basis: seq<seq<real>>, a: int): int -> real {
    if 0 <= a < |basis| then Fn(basis[a]) else Fn([])
  }

  ghost predicate Orthonormal(t: Tree, basis: seq<seq<real>>) {
    forall a, b {:trigger t.Dot(Q(basis, a), Q(basis, b))} :: 0 <= a < |basis| && 0 <= b < |basis| ==>
      t.Dot(Q(basis, a), Q(basis, b)) == Delta(a, b)
  }

  /** Row a of the tridiagonal matrix with d on and e beside the diagonal, applied to w. */
  function TriRow(d: seq<real>, e: seq<real>, w: int -> real, a: int): real {
    At(e, a - 1) * w(a - 1) + At(d, a) * w(a) + At(e, a) * w(a + 1)
  }

  /** Component j of every basis vector. */
  ghost function Column(basis: seq<seq<real>>, j: int): int -> real {
    a => Q(basis, a)(j)
  }

  /** Component j of row a of the tridiagonal matrix applied to the basis. */
  ghost function Row(basis: seq<seq<real>>, d: seq<real>, e: seq<real>, a: int, j: int): real {
    TriRow(d, e, Column(basis, j), a)
  }

  /** The first m basis vectors satisfy the three-term recurrence. */
  ghost predicate ThreeTerm(t: Tree, basis: seq<seq<real>>, d: seq<real>, e: seq<real>, m: nat)
    requires t.Valid()
  {
    forall a, j {:trigger t.Solve(Q(basis, a), j)} :: 0 <= a < m && 0 <= j < t.Size() ==>
      t.Solve(Q(basis, a), j) == Row(basis, d, e, a, j)
  }

  /** The recurrence only reads the finished entries of d and e. */
  lemma ThreeTermFrame(t: Tree, basis: seq<seq<real>>, d: seq<real>, e: seq<real>, d': seq<real>, e': seq<real>, m: nat)
    requires t.Valid() && ThreeTerm(t, basis, d, e, m)
    requires forall a :: 0 <= a < m ==> At(d, a) == At(d', a) && At(e, a) == At(e', a)
    ensures ThreeTerm(t, basis, d', e', m)
  {
    forall a, j | 0 <= a < m && 0 <= j < t.Size()
      ensures t.Solve(Q(basis, a), j) == Row(basis, d', e', a, j)
    {
      assert t.Solve(Q(basis, a), j) == Row(basis, d, e, a, j);
    }
  }

  lemma DotRow(t: Tree, basis: seq<seq<real>>, d: seq<real>, e: seq<real>, a: int, y: int -> real, w: int -> real)
    requires forall j :: 0 <= j < t.Size() ==> y(j) == Row(basis, d, e, a, j)
    ensures t.Dot(y, w) == At(e, a - 1) * t.Dot(Q(basis, a - 1), w) + At(d, a) * t.Dot(Q(basis, a), w)
                           + At(e, a) * t.Dot(Q(basis, a + 1), w)
  {
    DotLinear3(t, y, At(e, a - 1), Q(basis, a - 1), At(d, a), Q(basis, a), At(e, a), Q(basis, a + 1), w);
  }

  /** The image of the newest vector meets the finished ones only in its predecessor. */
  lemma AgainstFinished(t: Tree, basis: seq<seq<real>>, d: seq<real>, e: seq<real>, h: nat, b: nat, y: int -> real)
    requires t.Valid() && |basis| == h + 1 && b < h
    requires Orthonormal(t, basis) && ThreeTerm(t, basis, d, e, h)
    requires forall j :: 0 <= j < t.Size() ==> y(j) == t.Solve(Q(basis, h), j)
    ensures t.Dot(y, Q(basis, b)) == At(e, b) * Delta(b + 1, h)
  {
    var qh := Q(basis, h);
    var yb := j => if 0 <= j < t.Size() then t.Solve(Q(basis, b), j) else 0.0;
    SelfAdjoint(t, qh, y, Q(basis, b), yb);
    DotSymmetric(t, y, Q(basis, b));
    DotSymmetric(t, qh, yb);
    DotRow(t, basis, d, e, b, yb, qh);
    assert t.Dot(Q(basis, b), qh) == 0.0;
    assert t.Dot(Q(basis, b + 1), qh) == Delta(b + 1, h);
    if b > 0 {
      assert t.Dot(Q(basis, b - 1), qh) == 0.0;
    }
  }

  ghost predicate IsResidual(t: Tree, basis: seq<seq<real>>, d: seq<real>, e: seq<real>, h: nat, y: int -> real,
                             res: int -> real) {
    forall j {:trigger res(j)} :: 0 <= j < t.Size() ==>
      res(j) == y(j) - (At(d, h) * Q(basis, h)(j) + At(e, h - 1) * Q(basis, h - 1)(j))
  }

  /** k is the capacitance norm of res. */
  ghost predicate IsNorm(t: Tree, k: real, res: int -> real) {
    k > 0.0 && Square(k) == t.Dot(res, res)
  }

  lemma DotResidual(t: Tree, basis: seq<seq<real>>, d: seq<real>, e: seq<real>, h: nat, y: int -> real,
                    res: int -> real, w: int -> real)
    requires IsResidual(t, basis, d, e, h, y, res)
    ensures t.Dot(res, w) == t.Dot(y, w) - At(d, h) * t.Dot(Q(basis, h), w) - At(e, h - 1) * t.Dot(Q(basis, h - 1), w)
  {
    DotLinear3(t, res, 1.0, y, -At(d, h), Q(basis, h), -At(e, h - 1), Q(basis, h - 1), w);
  }

  lemma ResidualOrthogonal(t: Tree, basis: seq<seq<real>>, d: seq<real>, e: seq<real>, h: nat, b: nat,
                           y: int -> real, res: int -> real)
    requires t.Valid() && |basis| == h + 1 && b <= h
    requires Orthonormal(t, basis) && ThreeTerm(t, basis, d, e, h)
    requires forall j :: 0 <= j < t.Size() ==> y(j) == t.Solve(Q(basis, h), j)
    requires At(d, h) == t.Dot(Q(basis, h), y)
    requires IsResidual(t, basis, d, e, h, y, res)
    ensures t.Dot(res, Q(basis, b)) == 0.0
  {
    var qb := Q(basis, b);
    DotResidual(t, basis, d, e, h, y, res, qb);
    assert t.Dot(Q(basis, h), qb) == Delta(h, b);
    if h > 0 {
      assert t.Dot(Q(basis, h - 1), qb) == Delta(h - 1, b);
    }
    if b == h {
      DotSymmetric(t, y, qb);
    } else {
      AgainstFinished(t, basis, d, e, h, b, y);
    }
  }

  /** One Lanczos step: the normalized residual extends the orthonormal basis, and the
      recurrence then holds for one more vector. */
  lemma Extend(t: Tree, basis: seq<seq<real>>, d: seq<real>, e: seq<real>, h: nat, y: int -> real, res: int -> real,
               next: seq<real>)
    requires t.Valid() && |basis| == h + 1
    requires Orthonormal(t, basis) && ThreeTerm(t, basis, d, e, h)
    requires forall j :: 0 <= j < t.Size() ==> y(j) == t.Solve(Q(basis, h), j)
    requires At(d, h) == t.Dot(Q(basis, h), y)
    requires IsResidual(t, basis, d, e, h, y, res)
    requires IsNorm(t, At(e, h), res)
    requires forall j :: 0 <= j < t.Size() ==> At(e, h) * At(next, j) == res(j)
    ensures Orthonormal(t, basis + [next]) && ThreeTerm(t, basis + [next], d, e, h + 1)
  {
    hide Tree.Valid, Orthonormal, ThreeTerm, IsResidual, IsNorm;
    ExtendRows(t, basis, d, e, h, y, res, next);
    ExtendOrthonormal(t, basis, d, e, h, y, res, next);
  }

  lemma ExtendRows(t: Tree, basis: seq<seq<real>>, d: seq<real>, e: seq<real>, h: nat, y: int -> real,
                   res: int -> real, next: seq<real>)
    requires t.Valid() && |basis| == h + 1 && ThreeTerm(t, basis, d, e, h)
    requires forall j :: 0 <= j < t.Size() ==> y(j) == t.Solve(Q(basis, h), j)
    requires IsResidual(t, basis, d, e, h, y, res)
    requires forall j :: 0 <= j < t.Size() ==> At(e, h) * At(next, j) == res(j)
    ensures ThreeTerm(t, basis + [next], d, e, h + 1)
  {
    hide Tree.Valid, IsResidual, Tree.Solve;
    var basis' := basis + [next];
    assert forall a :: 0 <= a <= h ==> Q(basis', a) == Q(basis, a);
    forall a, j | 0 <= a < h + 1 && 0 <= j < t.Size()
      ensures t.Solve(Q(basis', a), j) == Row(basis', d, e, a, j)
    {
      if a < h {
        assert t.Solve(Q(basis, a), j) == Row(basis, d, e, a, j);
      } else {
        NewRow(t, basis, d, e, h, y, res, next, j);
      }
    }
  }

  lemma NewRow(t: Tree, basis: seq<seq<real>>, d: seq<real>, e: seq<real>, h: nat, y: int -> real, res: int -> real,
               next: seq<real>, j: int)
    requires |basis| == h + 1 && 0 <= j < t.Size()
    requires IsResidual(t, basis, d, e, h, y, res)
    requires At(e, h) * At(next, j) == res(j)
    ensures y(j) == Row(basis + [next], d, e, h, j)
  {
    assert Q(basis + [next], h + 1)(j) == At(next, j);
    assert Q(basis + [next], h) == Q(basis, h) && Q(basis + [next], h - 1) == Q(basis, h - 1);
    assert res(j) == y(j) - (At(d, h) * Q(basis, h)(j) + At(e, h - 1) * Q(basis, h - 1)(j));
  }

  lemma ExtendOrthonormal(t: Tree, basis: seq<seq<real>>, d: seq<real>, e: seq<real>, h: nat, y: int -> real,
                          res: int -> real, next: seq<real>)
    requires t.Valid() && |basis| == h + 1
    requires Orthonormal(t, basis) && ThreeTerm(t, basis, d, e, h)
    requires forall j :: 0 <= j < t.Size() ==> y(j) == t.Solve(Q(basis, h), j)
    requires At(d, h) == t.Dot(Q(basis, h), y)
    requires IsResidual(t, basis, d, e, h, y, res)
    requires IsNorm(t, At(e, h), res)
    requires forall j :: 0 <= j < t.Size() ==> At(e, h) * At(next, j) == res(j)
    ensures Orthonormal(t, basis + [next])
  {
    hide Tree.Valid, Tree.Dot, Tree.Solve, Orthonormal, ThreeTerm, IsResidual;
    var z := Fn(next);
    forall b: nat | b <= h
      ensures t.Dot(Q(basis, b), z) == 0.0 && t.Dot(z, Q(basis, b)) == 0.0
    {
      ResidualOrthogonal(t, basis, d, e, h, b, y, res);
      NextOrthogonal(t, At(e, h), res, z, Q(basis, b));
    }
    NextUnit(t, At(e, h), res, z);
    OrthonormalPlus(t, basis, next);
  }

  lemma OrthonormalPlus(t: Tree, basis: seq<seq<real>>, next: seq<real>)
    requires Orthonormal(t, basis) && t.Dot(Fn(next), Fn(next)) == 1.0
    requires forall b :: 0 <= b < |basis| ==> t.Dot(Q(basis, b), Fn(next)) == 0.0 && t.Dot(Fn(next), Q(basis, b)) == 0.0
    ensures Orthonormal(t, basis + [next])
  {
    var basis' := basis + [next];
    assert forall a :: 0 <= a < |basis| ==> Q(basis', a) == Q(basis, a);
    assert Q(basis', |basis|) == Fn(next);
  }

  lemma NextOrthogonal(t: Tree, k: real, res: int -> real, z: int -> real, q: int -> real)
    requires k > 0.0 && t.Dot(res, q) == 0.0
    requires forall j :: 0 <= j < t.Size() ==> k * z(j) == res(j)
    ensures t.Dot(q, z) == 0.0 && t.Dot(z, q) == 0.0
  {
    DotLinear(t, res, k, z, 0.0, z, q);
    CancelFactor(k, t.Dot(z, q), 0.0);
    DotSymmetric(t, z, q);
  }

  lemma NextUnit(t: Tree, k: real, res: int -> real, z: int -> real)
    requires k > 0.0 && k * k == t.Dot(res, res)
    requires forall j :: 0 <= j < t.Size() ==> k * z(j) == res(j)
    ensures t.Dot(z, z) == 1.0
  {
    DotLinear(t, res, k, z, 0.0, z, res);
    DotSymmetric(t, z, res);
    DotLinear(t, res, k, z, 0.0, z, z);
    UnitLength(k, t.Dot(z, z), t.Dot(res, z), t.Dot(res, res));
  }

  /** A constant vector scaled by the square root of the total capacitance starts the basis. */
  lemma FirstVector(t: Tree, sqc: real, first: seq<real>)
    requires sqc > 0.0 && Square(sqc) == Sum(Fn(t.c), t.Size())
    requires forall j :: 0 <= j < t.Size() ==> sqc * At(first, j) == 1.0
    ensures Orthonormal(t, [first]) && StartsConstant(t, [first], sqc)
  {
    var one: int -> real := j => 1.0;
    SumCongr(t.DotTerm(one, one), Fn(t.c), t.Size());
    NextUnit(t, sqc, one, Fn(first));
    assert Q([first], 0) == Fn(first);
  }

  lemma DotCongrRight(t: Tree, w: int -> real, u: int -> real, u': int -> real)
    requires forall j :: 0 <= j < t.Size() ==> u(j) == u'(j)
    ensures t.Dot(w, u) == t.Dot(w, u')
  {
    SumCongr(t.DotTerm(w, u), t.DotTerm(w, u'), t.Size());
  }

  /** What is left of the image of vector h after removing vectors h and h-1. */
  ghost function Residual(t: Tree, basis: seq<seq<real>>, d: seq<real>, e: seq<real>, h: int): int -> real
    requires t.Valid()
  {
    j => t.Solve(Q(basis, h), j) - (At(d, h) * Q(basis, h)(j) + At(e, h - 1) * Q(basis, h - 1)(j))
  }

  lemma ResidualNorm(t: Tree, basis: seq<seq<real>>, d: seq<real>, e: seq<real>, h: nat, y: int -> real,
                     res: int -> real)
    requires t.Valid() && IsResidual(t, basis, d, e, h, y, res)
    requires forall j :: 0 <= j < t.Size() ==> y(j) == t.Solve(Q(basis, h), j)
    ensures t.Dot(Residual(t, basis, d, e, h), Residual(t, basis, d, e, h)) == t.Dot(res, res)
  {
    var res' := Residual(t, basis, d, e, h);
    DotCongr(t, res, res', res);
    DotCongrRight(t, res', res, res');
  }

  lemma CancelFactor(k: real, x: real, y: real)
    requires k > 0.0 && k * x == k * y
    ensures x == y
  {
    assert k * (x - y) == 0.0;
  }

  lemma UnitLength(k: real, zz: real, rz: real, rr: real)
    requires k > 0.0 && rr == k * k && rr == k * rz && rz == k * zz
    ensures zz == 1.0
  {
    CancelFactor(k, k, rz);
    CancelFactor(k, zz, 1.0);
  }

  // ---------------------------------------------------------------------------
  // What the reduced matrix keeps: moments

  /** The order m voltage moments of the network: (R C)^m applied to the all-ones vector. */
  ghost function Moments(t: Tree, m: nat): int -> real
    requires t.Valid()
  {
    if m == 0 then k => 1.0 else Image(t, Moments(t, m - 1))
  }

  function TriRows(d: seq<real>, e: seq<real>, w: int -> real): int -> real {
    a => TriRow(d, e, w, a)
  }

  /** The tridiagonal matrix of the given order applied to w. */
  function Tri(d: seq<real>, e: seq<real>, order: nat, w: int -> real): int -> real {
    a => if 0 <= a < order then TriRow(d, e, w, a) else 0.0
  }

  /** The tridiagonal matrix to the power m, first column. */
  function Power(d: seq<real>, e: seq<real>, order: nat, m: nat): int -> real {
    if m == 0 then a => if order > 0 then Delta(a, 0) else 0.0
    else Tri(d, e, order, Power(d, e, order, m - 1))
  }

  /** The vectors are zero outside 0 .. order-1. */
  ghost predicate Supported(z: int -> real, order: int) {
    z(-1) == 0.0 && forall a :: a >= order ==> z(a) == 0.0
  }

  lemma {:induction false} PowerSupport(d: seq<real>, e: seq<real>, order: nat, m: nat)
    ensures Supported(Power(d, e, order, m), order)
    ensures forall a :: a > m ==> Power(d, e, order, m)(a) == 0.0
  {
    if m > 0 {
      PowerSupport(d, e, order, m - 1);
      TriSupport(d, e, order, Power(d, e, order, m - 1), m - 1);
    }
  }

  lemma TriSupport(d: seq<real>, e: seq<real>, order: nat, z: int -> real, m: nat)
    requires forall a :: a > m ==> z(a) == 0.0
    ensures Supported(Tri(d, e, order, z), order)
    ensures forall a :: a > m + 1 ==> Tri(d, e, order, z)(a) == 0.0
  {
  }

  ghost function Product(z: int -> real, w: int -> real): int -> real {
    a => z(a) * w(a)
  }

  lemma ProductCongr(w: int -> real, x: int -> real, y: int -> real, n: nat)
    requires forall a :: 0 <= a < n ==> x(a) == y(a) || w(a) == 0.0
    ensures Sum(Product(w, x), n) == Sum(Product(w, y), n)
  {
    SumCongr(Product(w, x), Product(w, y), n);
  }

  ghost function RowProduct(d: seq<real>, e: seq<real>, z: int -> real, w: int -> real): int -> real {
    Product(z, TriRows(d, e, w))
  }

  /** Summation by parts for a symmetric tridiagonal matrix. */
  lemma {:induction false} ByParts(d: seq<real>, e: seq<real>, z: int -> real, w: int -> real, n: nat)
    ensures Sum(RowProduct(d, e, z, w), n) - Sum(RowProduct(d, e, w, z), n)
            == z(n - 1) * At(e, n - 1) * w(n) - w(n - 1) * At(e, n - 1) * z(n)
  {
    if n > 0 {
      var m := n - 1;
      ByParts(d, e, z, w, m);
      ByPartsStep(At(e, m - 1), At(d, m), At(e, m), z(m - 1), z(m), z(n), w(m - 1), w(m), w(n));
    }
  }

  lemma ByPartsStep(e0: real, d1: real, e1: real, z0: real, z1: real, z2: real, w0: real, w1: real, w2: real)
    ensures z0 * e0 * w1 - w0 * e0 * z1
            + z1 * (e0 * w0 + d1 * w1 + e1 * w2) - w1 * (e0 * z0 + d1 * z1 + e1 * z2)
            == z1 * e1 * w2 - w1 * e1 * z2
  {
    assert z1 * (e0 * w0 + d1 * w1 + e1 * w2) == z1 * e0 * w0 + z1 * d1 * w1 + z1 * e1 * w2;
    assert w1 * (e0 * z0 + d1 * z1 + e1 * z2) == w1 * e0 * z0 + w1 * d1 * z1 + w1 * e1 * z2;
  }

  lemma ProductTri(d: seq<real>, e: seq<real>, order: nat, z: int -> real, w: int -> real)
    ensures Sum(Product(z, Tri(d, e, order, w)), order) == Sum(RowProduct(d, e, z, w), order)
  {
    SumCongr(Product(z, Tri(d, e, order, w)), RowProduct(d, e, z, w), order);
  }

  lemma TriSymmetric(d: seq<real>, e: seq<real>, order: nat, z: int -> real, w: int -> real)
    requires Supported(z, order) && Supported(w, order)
    ensures Sum(Product(z, Tri(d, e, order, w)), order) == Sum(Product(w, Tri(d, e, order, z)), order)
  {
    ByParts(d, e, z, w, order);
    ProductTri(d, e, order, z, w);
    ProductTri(d, e, order, w, z);
  }

  /** f is the combination of the first n basis vectors with the given coefficients. */
  ghost predicate IsCombination(t: Tree, basis: seq<seq<real>>, coef: int -> real, n: nat, f: int -> real) {
    forall k :: 0 <= k < t.Size() ==> f(k) == Sum(Product(coef, Column(basis, k)), n)
  }

  ghost function SolvedBasis(t: Tree, basis: seq<seq<real>>, j: int): int -> real
    requires t.Valid()
  {
    a => t.Solve(Q(basis, a), j)
  }

  ghost function SolveTerms(t: Tree, basis: seq<seq<real>>, coef: int -> real, j: int): int -> real
    requires t.Valid()
  {
    Product(coef, SolvedBasis(t, basis, j))
  }

  ghost function AgainstBasis(t: Tree, basis: seq<seq<real>>, w: int -> real): int -> real {
    a => t.Dot(Q(basis, a), w)
  }

  ghost function DotTerms(t: Tree, basis: seq<seq<real>>, coef: int -> real, w: int -> real): int -> real {
    Product(coef, AgainstBasis(t, basis, w))
  }

  lemma SolvePeel(t: Tree, f: int -> real, f': int -> real, k: real, q: int -> real, j: int)
    requires t.Valid() && forall i :: 0 <= i < t.Size() ==> f(i) == f'(i) + k * q(i)
    ensures t.Solve(f, j) == t.Solve(f', j) + k * t.Solve(q, j)
  {
    SolveLinear(t, f, 1.0, f', k, q, j);
  }

  lemma DotPeel(t: Tree, f: int -> real, f': int -> real, k: real, q: int -> real, w: int -> real)
    requires forall i :: 0 <= i < t.Size() ==> f(i) == f'(i) + k * q(i)
    ensures t.Dot(f, w) == t.Dot(f', w) + k * t.Dot(q, w)
  {
    DotLinear(t, f, 1.0, f', k, q, w);
  }

  /** A combination without its last vector. */
  ghost function Partial(basis: seq<seq<real>>, coef: int -> real, n: nat): int -> real {
    k => Sum(Product(coef, Column(basis, k)), n)
  }

  lemma CombinationPeel(t: Tree, basis: seq<seq<real>>, coef: int -> real, n: nat, f: int -> real)
    requires n > 0 && IsCombination(t, basis, coef, n, f)
    ensures IsCombination(t, basis, coef, n - 1, Partial(basis, coef, n - 1))
    ensures forall i :: 0 <= i < t.Size() ==> f(i) == Partial(basis, coef, n - 1)(i) + coef(n - 1) * Q(basis, n - 1)(i)
  {
  }

  lemma SolveNothing(t: Tree, basis: seq<seq<real>>, coef: int -> real, f: int -> real, j: int)
    requires t.Valid() && IsCombination(t, basis, coef, 0, f)
    ensures t.Solve(f, j) == 0.0
  {
    SolveLinear(t, f, 0.0, f, 0.0, f, j);
  }

  lemma {:induction false} SolveCombination(t: Tree, basis: seq<seq<real>>, coef: int -> real, n: nat,
                                            f: int -> real, j: int)
    requires t.Valid() && IsCombination(t, basis, coef, n, f)
    ensures t.Solve(f, j) == Sum(SolveTerms(t, basis, coef, j), n)
  {
    hide Tree.Solve, Tree.Valid, IsCombination, Q, Partial;
    if n == 0 {
      SolveNothing(t, basis, coef, f, j);
    } else {
      CombinationPeel(t, basis, coef, n, f);
      SolveCombination(t, basis, coef, n - 1, Partial(basis, coef, n - 1), j);
      SolvePeel(t, f, Partial(basis, coef, n - 1), coef(n - 1), Q(basis, n - 1), j);
    }
  }

  lemma {:induction false} DotCombination(t: Tree, basis: seq<seq<real>>, coef: int -> real, n: nat, f: int -> real,
                                          w: int -> real)
    requires IsCombination(t, basis, coef, n, f)
    ensures t.Dot(f, w) == Sum(DotTerms(t, basis, coef, w), n)
  {
    if n == 0 {
      DotLinear(t, f, 0.0, f, 0.0, f, w);
    } else {
      CombinationPeel(t, basis, coef, n, f);
      DotCombination(t, basis, coef, n - 1, Partial(basis, coef, n - 1), w);
      DotPeel(t, f, Partial(basis, coef, n - 1), coef(n - 1), Q(basis, n - 1), w);
    }
  }

  /** A completed reduction: an orthonormal basis whose first vector is constant, and a
      tridiagonal matrix that is the network operator seen through that basis. */
  ghost predicate IsReduction(t: Tree, basis: seq<seq<real>>, d: seq<real>, e: seq<real>, sqc: real)
    requires t.Valid()
  {
    && |basis| > 0
    && Orthonormal(t, basis)
    && ThreeTerm(t, basis, d, e, |basis| - 1)
    && At(d, |basis| - 1) == t.Dot(Q(basis, |basis| - 1), Image(t, Q(basis, |basis| - 1)))
    && StartsConstant(t, basis, sqc)
  }

  /** R C applied to f, as a vector. */
  ghost function Image(t: Tree, f: int -> real): int -> real
    requires t.Valid()
  {
    j => t.Solve(f, j)
  }

  ghost predicate StartsConstant(t: Tree, basis: seq<seq<real>>, sqc: real) {
    forall j {:trigger Q(basis, 0)(j)} :: 0 <= j < t.Size() ==> Scaled(sqc, Q(basis, 0)(j)) == 1.0
  }

  function Scaled(k: real, x: real): real {
    k * x
  }

  lemma StartsConstantExtend(t: Tree, basis: seq<seq<real>>, next: seq<real>, sqc: real)
    requires |basis| > 0 && StartsConstant(t, basis, sqc)
    ensures StartsConstant(t, basis + [next], sqc)
  {
    assert Q(basis + [next], 0) == Q(basis, 0);
  }

  /** The normalized moments below the reduced order lie in the basis, with the powers of
      the tridiagonal matrix as coordinates. */
  lemma {:induction false} MomentsMatched(t: Tree, basis: seq<seq<real>>, d: seq<real>, e: seq<real>, sqc: real, m: nat)
    requires t.Valid() && m < |basis|
    requires ThreeTerm(t, basis, d, e, |basis| - 1) && StartsConstant(t, basis, sqc)
    ensures forall j :: 0 <= j < t.Size() ==>
              Moments(t, m)(j) == sqc * Seen(basis, Power(d, e, |basis|, m))(j)
  {
    hide Tree.Valid, Tree.Solve, ThreeTerm, Seen, Tri;
    if m == 0 {
      forall j | 0 <= j < t.Size()
        ensures Moments(t, m)(j) == sqc * Seen(basis, Power(d, e, |basis|, m))(j)
      {
        FirstCoordinate(basis, d, e, j);
      }
    } else {
      MomentsMatched(t, basis, d, e, sqc, m - 1);
      PowerNext(d, e, |basis|, m - 1);
      PowerSupport(d, e, |basis|, m - 1);
      assert Supported(Power(d, e, |basis|, m - 1), |basis| - 1);
      forall j | 0 <= j < t.Size()
        ensures Moments(t, m)(j) == sqc * Seen(basis, Power(d, e, |basis|, m))(j)
      {
        MomentStep(t, basis, d, e, sqc, Moments(t, m - 1), Power(d, e, |basis|, m - 1), j);
      }
    }
  }

  lemma FirstCoordinate(basis: seq<seq<real>>, d: seq<real>, e: seq<real>, j: int)
    requires |basis| > 0
    ensures Seen(basis, Power(d, e, |basis|, 0))(j) == Q(basis, 0)(j)
  {
    SumSingle(Product(Power(d, e, |basis|, 0), Column(basis, j)), |basis|, 0);
  }

  lemma MomentStep(t: Tree, basis: seq<seq<real>>, d: seq<real>, e: seq<real>, sqc: real, f: int -> real,
                   z: int -> real, j: int)
    requires t.Valid() && |basis| > 0 && ThreeTerm(t, basis, d, e, |basis| - 1)
    requires 0 <= j < t.Size() && Supported(z, |basis| - 1)
    requires forall k :: 0 <= k < t.Size() ==> f(k) == sqc * Seen(basis, z)(k)
    ensures t.Solve(f, j) == sqc * Seen(basis, Tri(d, e, |basis|, z))(j)
  {
    SolveLinear(t, f, sqc, Seen(basis, z), 0.0, Seen(basis, z), j);
    SolveSeen(t, basis, d, e, z, j);
  }

  /** The vector with coordinates z in the basis. */
  ghost function Seen(basis: seq<seq<real>>, z: int -> real): int -> real {
    k => Sum(Product(z, Column(basis, k)), |basis|)
  }

  lemma SolvedRows(t: Tree, basis: seq<seq<real>>, d: seq<real>, e: seq<real>, z: int -> real, j: int)
    requires t.Valid() && |basis| > 0 && ThreeTerm(t, basis, d, e, |basis| - 1)
    requires 0 <= j < t.Size() && Supported(z, |basis| - 1)
    ensures Sum(SolveTerms(t, basis, z, j), |basis|) == Sum(RowProduct(d, e, z, Column(basis, j)), |basis|)
  {
    var w := Column(basis, j);
    forall a | 0 <= a < |basis|
      ensures SolvedBasis(t, basis, j)(a) == TriRows(d, e, w)(a) || z(a) == 0.0
    {
      if a < |basis| - 1 {
        assert t.Solve(Q(basis, a), j) == Row(basis, d, e, a, j) == TriRow(d, e, w, a);
      }
    }
    ProductCongr(z, SolvedBasis(t, basis, j), TriRows(d, e, w), |basis|);
  }

  /** On vectors without a last coordinate the network operator is the tridiagonal matrix. */
  lemma SolveSeen(t: Tree, basis: seq<seq<real>>, d: seq<real>, e: seq<real>, z: int -> real, j: int)
    requires t.Valid() && |basis| > 0 && ThreeTerm(t, basis, d, e, |basis| - 1)
    requires 0 <= j < t.Size()
    requires Supported(z, |basis| - 1)
    ensures t.Solve(Seen(basis, z), j) == Seen(basis, Tri(d, e, |basis|, z))(j)
  {
    var order := |basis|;
    SolveCombination(t, basis, z, order, Seen(basis, z), j);
    var w := Column(basis, j);
    SolvedRows(t, basis, d, e, z, j);
    ByParts(d, e, z, w, order);
    ProductTri(d, e, order, w, z);
    SumCongr(Product(w, Tri(d, e, order, z)), Product(Tri(d, e, order, z), w), order);
  }

  // ---------------------------------------------------------------------------
  // Driving-point moments: matched to twice the order

  function Twice(k: real, x: real): real {
    k * k * x
  }

  /** The order m moment of the charge that the driver supplies. */
  ghost function ChargeMoment(t: Tree, m: nat): real
    requires t.Valid()
  {
    t.Dot(Moments(t, 0), Moments(t, m))
  }

  lemma {:induction false} MomentsShift(t: Tree, i: nat, j: nat)
    requires t.Valid()
    ensures t.Dot(Moments(t, i), Moments(t, j)) == ChargeMoment(t, i + j)
    decreases i
  {
    if i > 0 {
      SelfAdjoint(t, Moments(t, i - 1), Moments(t, i), Moments(t, j), Moments(t, j + 1));
      DotSymmetric(t, Moments(t, j), Moments(t, i));
      MomentsShift(t, i - 1, j + 1);
    }
  }

  lemma TriByEntries(d: seq<real>, e: seq<real>, order: nat, z: int -> real, b: int)
    requires Supported(z, order) && 0 <= b < order
    ensures Sum(Product(z, a => Entry(d, e, a, b)), order) == Tri(d, e, order, z)(b)
  {
    var f := Product(z, a => Entry(d, e, a, b));
    forall a | 0 <= a < order
      ensures f(a) == Spike(b - 1, At(e, b - 1) * z(b - 1))(a) + Spike(b, At(d, b) * z(b))(a)
                      + Spike(b + 1, At(e, b) * z(b + 1))(a)
    {
      EntrySplit(d, e, z, a, b);
    }
    ThreeSpikes(f, order, b, At(e, b - 1) * z(b - 1), At(d, b) * z(b), At(e, b) * z(b + 1));
  }

  lemma EntrySplit(d: seq<real>, e: seq<real>, z: int -> real, a: int, b: int)
    ensures z(a) * Entry(d, e, a, b) == Spike(b - 1, At(e, b - 1) * z(b - 1))(a) + Spike(b, At(d, b) * z(b))(a)
                                        + Spike(b + 1, At(e, b) * z(b + 1))(a)
  {
  }

  lemma ImageSelfAdjoint(t: Tree, f: int -> real, g: int -> real)
    requires t.Valid()
    ensures t.Dot(f, Image(t, g)) == t.Dot(g, Image(t, f))
  {
    SelfAdjoint(t, g, Image(t, g), f, Image(t, f));
  }

  /** Seen through the basis, the network operator is exactly the tridiagonal matrix. */
  ghost predicate Projected(t: Tree, basis: seq<seq<real>>, d: seq<real>, e: seq<real>)
    requires t.Valid()
  {
    forall a, b {:trigger t.Dot(Q(basis, a), Image(t, Q(basis, b)))} :: 0 <= a < |basis| && 0 <= b < |basis| ==>
      t.Dot(Q(basis, a), Image(t, Q(basis, b))) == Entry(d, e, a, b)
  }

  lemma Projection(t: Tree, basis: seq<seq<real>>, d: seq<real>, e: seq<real>, sqc: real)
    requires t.Valid() && IsReduction(t, basis, d, e, sqc)
    ensures Projected(t, basis, d, e)
  {
    var last := |basis| - 1;
    forall a, b | 0 <= a < |basis| && 0 <= b < |basis|
      ensures t.Dot(Q(basis, a), Image(t, Q(basis, b))) == Entry(d, e, a, b)
    {
      ImageSelfAdjoint(t, Q(basis, a), Q(basis, b));
      if a < b {
        ProjectionAbove(t, basis, d, e, a, b);
      } else if b < last {
        ProjectionAbove(t, basis, d, e, b, a);
      }
    }
  }

  lemma ProjectionAbove(t: Tree, basis: seq<seq<real>>, d: seq<real>, e: seq<real>, a: nat, b: nat)
    requires t.Valid() && a <= b < |basis| && a + 1 < |basis|
    requires Orthonormal(t, basis) && ThreeTerm(t, basis, d, e, |basis| - 1)
    ensures t.Dot(Q(basis, b), Image(t, Q(basis, a))) == Entry(d, e, a, b) == Entry(d, e, b, a)
  {
    DotSymmetric(t, Q(basis, b), Image(t, Q(basis, a)));
    forall j | 0 <= j < t.Size()
      ensures Image(t, Q(basis, a))(j) == Row(basis, d, e, a, j)
    {
    }
    DotRow(t, basis, d, e, a, Image(t, Q(basis, a)), Q(basis, b));
    ProjectionRow(t, basis, d, e, a, b);
  }

  lemma ProjectionRow(t: Tree, basis: seq<seq<real>>, d: seq<real>, e: seq<real>, a: nat, b: nat)
    requires Orthonormal(t, basis) && a <= b < |basis| && a + 1 < |basis|
    ensures At(e, a - 1) * t.Dot(Q(basis, a - 1), Q(basis, b)) + At(d, a) * t.Dot(Q(basis, a), Q(basis, b))
            + At(e, a) * t.Dot(Q(basis, a + 1), Q(basis, b)) == Entry(d, e, a, b)
  {
    assert t.Dot(Q(basis, a), Q(basis, b)) == Delta(a, b);
    assert t.Dot(Q(basis, a + 1), Q(basis, b)) == Delta(a + 1, b);
    if a > 0 {
      assert t.Dot(Q(basis, a - 1), Q(basis, b)) == Delta(a - 1, b);
    }
  }

  /** Pairing two vectors of the basis span through the network operator. */
  lemma SeenEnergy(t: Tree, basis: seq<seq<real>>, d: seq<real>, e: seq<real>, z: int -> real, w: int -> real)
    requires t.Valid() && Projected(t, basis, d, e)
    requires Supported(z, |basis|)
    ensures t.Dot(Seen(basis, z), Image(t, Seen(basis, w))) == Sum(Product(w, Tri(d, e, |basis|, z)), |basis|)
  {
    var n := |basis|;
    var yz := Image(t, Seen(basis, z));
    ImageSelfAdjoint(t, Seen(basis, z), Seen(basis, w));
    DotCombination(t, basis, w, n, Seen(basis, w), yz);
    SeenAgainstAll(t, basis, d, e, z);
    ProductCongr(w, AgainstBasis(t, basis, yz), Tri(d, e, n, z), n);
  }

  lemma SeenAgainstAll(t: Tree, basis: seq<seq<real>>, d: seq<real>, e: seq<real>, z: int -> real)
    requires t.Valid() && Projected(t, basis, d, e)
    requires Supported(z, |basis|)
    ensures forall b :: 0 <= b < |basis| ==>
              AgainstBasis(t, basis, Image(t, Seen(basis, z)))(b) == Tri(d, e, |basis|, z)(b)
  {
    forall b | 0 <= b < |basis|
      ensures AgainstBasis(t, basis, Image(t, Seen(basis, z)))(b) == Tri(d, e, |basis|, z)(b)
    {
      SeenAgainst(t, basis, d, e, z, b);
    }
  }

  lemma SeenAgainst(t: Tree, basis: seq<seq<real>>, d: seq<real>, e: seq<real>, z: int -> real, b: nat)
    requires t.Valid() && Projected(t, basis, d, e)
    requires Supported(z, |basis|) && b < |basis|
    ensures t.Dot(Q(basis, b), Image(t, Seen(basis, z))) == Tri(d, e, |basis|, z)(b)
  {
    var n := |basis|;
    var yb := Image(t, Q(basis, b));
    ImageSelfAdjoint(t, Q(basis, b), Seen(basis, z));
    DotCombination(t, basis, z, n, Seen(basis, z), yb);
    ProductCongr(z, AgainstBasis(t, basis, yb), a => Entry(d, e, a, b), n);
    TriByEntries(d, e, n, z, b);
  }

  lemma {:induction false} PowerProduct(d: seq<real>, e: seq<real>, order: nat, i: nat, j: nat)
    requires order > 0
    ensures Sum(Product(Power(d, e, order, i), Power(d, e, order, j)), order) == Power(d, e, order, i + j)(0)
    decreases i
  {
    hide Power, Tri, Product, Supported;
    if i == 0 {
      PowerStart(d, e, order, j);
    } else {
      var below, zj := Power(d, e, order, i - 1), Power(d, e, order, j);
      PowerNext(d, e, order, i - 1);
      PowerNext(d, e, order, j);
      PowerSupport(d, e, order, i - 1);
      PowerSupport(d, e, order, j);
      PowerProduct(d, e, order, i - 1, j + 1);
      TriSymmetric(d, e, order, below, zj);
      ProductSwap(Power(d, e, order, i), zj, order);
    }
  }

  lemma PowerStart(d: seq<real>, e: seq<real>, order: nat, j: nat)
    requires order > 0
    ensures Sum(Product(Power(d, e, order, 0), Power(d, e, order, j)), order) == Power(d, e, order, j)(0)
  {
    SumSingle(Product(Power(d, e, order, 0), Power(d, e, order, j)), order, 0);
  }

  lemma PowerNext(d: seq<real>, e: seq<real>, order: nat, i: nat)
    ensures Power(d, e, order, i + 1) == Tri(d, e, order, Power(d, e, order, i))
  {
  }

  lemma ProductSwap(z: int -> real, w: int -> real, n: nat)
    ensures Sum(Product(z, w), n) == Sum(Product(w, z), n)
  {
    SumCongr(Product(z, w), Product(w, z), n);
  }

  /** The reduced model supplies the same charge moments as the network up to 2*order - 1. */
  lemma ChargeMomentsMatched(t: Tree, basis: seq<seq<real>>, d: seq<real>, e: seq<real>, sqc: real, m: nat)
    requires t.Valid() && IsReduction(t, basis, d, e, sqc) && m < 2 * |basis|
    ensures ChargeMoment(t, m) == Twice(sqc, Power(d, e, |basis|, m)(0))
  {
    if m == 0 {
      TotalCharge(t, basis, sqc);
    } else {
      Projection(t, basis, d, e, sqc);
      HigherCharge(t, basis, d, e, sqc, m);
    }
  }

  lemma HigherCharge(t: Tree, basis: seq<seq<real>>, d: seq<real>, e: seq<real>, sqc: real, m: nat)
    requires t.Valid() && Projected(t, basis, d, e) && 0 < m < 2 * |basis|
    requires ThreeTerm(t, basis, d, e, |basis| - 1) && StartsConstant(t, basis, sqc)
    ensures ChargeMoment(t, m) == Twice(sqc, Power(d, e, |basis|, m)(0))
  {
    var i := (m - 1) / 2;
    var j := m - 1 - i;
    MomentsShift(t, i, j + 1);
    ChargeByEnergy(t, basis, d, e, sqc, i, j);
  }

  lemma TotalCharge(t: Tree, basis: seq<seq<real>>, sqc: real)
    requires t.Valid() && |basis| > 0 && Orthonormal(t, basis) && StartsConstant(t, basis, sqc)
    ensures ChargeMoment(t, 0) == Twice(sqc, 1.0)
  {
    var q := Q(basis, 0);
    ScaledPair(t, sqc, Moments(t, 0), q, Moments(t, 0), q);
    assert t.Dot(Q(basis, 0), Q(basis, 0)) == Delta(0, 0);
  }

  lemma ChargeByEnergy(t: Tree, basis: seq<seq<real>>, d: seq<real>, e: seq<real>, sqc: real, i: nat, j: nat)
    requires t.Valid() && i < |basis| && j < |basis|
    requires Projected(t, basis, d, e)
    requires ThreeTerm(t, basis, d, e, |basis| - 1) && StartsConstant(t, basis, sqc)
    ensures t.Dot(Moments(t, i), Moments(t, j + 1)) == Twice(sqc, Power(d, e, |basis|, i + j + 1)(0))
  {
    MomentsMatched(t, basis, d, e, sqc, i);
    MomentsMatched(t, basis, d, e, sqc, j);
    var fi, fj := Seen(basis, Power(d, e, |basis|, i)), Seen(basis, Power(d, e, |basis|, j));
    PairThroughImage(t, sqc, Moments(t, i), fi, Moments(t, j), fj);
    SpanCharge(t, basis, d, e, i, j);
  }

  lemma SpanCharge(t: Tree, basis: seq<seq<real>>, d: seq<real>, e: seq<real>, i: nat, j: nat)
    requires t.Valid() && |basis| > 0 && Projected(t, basis, d, e)
    ensures t.Dot(Seen(basis, Power(d, e, |basis|, i)), Image(t, Seen(basis, Power(d, e, |basis|, j))))
            == Power(d, e, |basis|, i + j + 1)(0)
  {
    var n := |basis|;
    PowerSupport(d, e, n, i);
    SeenEnergy(t, basis, d, e, Power(d, e, n, i), Power(d, e, n, j));
    PowerProduct(d, e, n, j, i + 1);
    assert Power(d, e, n, i + 1) == Tri(d, e, n, Power(d, e, n, i));
    assert i + j + 1 == j + (i + 1);
  }

  lemma PairThroughImage(t: Tree, k: real, f: int -> real, f0: int -> real, g: int -> real, g0: int -> real)
    requires t.Valid()
    requires forall j :: 0 <= j < t.Size() ==> f(j) == k * f0(j)
    requires forall j :: 0 <= j < t.Size() ==> g(j) == k * g0(j)
    ensures t.Dot(f, Image(t, g)) == Twice(k, t.Dot(f0, Image(t, g0)))
  {
    ScaledImage(t, k, g, g0);
    ScaledPair(t, k, f, f0, Image(t, g), Image(t, g0));
  }

  lemma ScaledImage(t: Tree, k: real, f: int -> real, f0: int -> real)
    requires t.Valid()
    requires forall j :: 0 <= j < t.Size() ==> f(j) == k * f0(j)
    ensures forall j :: 0 <= j < t.Size() ==> t.Solve(f, j) == k * Image(t, f0)(j)
  {
    forall j | 0 <= j < t.Size()
      ensures t.Solve(f, j) == k * Image(t, f0)(j)
    {
      SolveLinear(t, f, k, f0, 0.0, f0, j);
    }
  }

  lemma ScaledPair(t: Tree, k: real, f: int -> real, f0: int -> real, g: int -> real, g0: int -> real)
    requires forall j :: 0 <= j < t.Size() ==> f(j) == k * f0(j)
    requires forall j :: 0 <= j < t.Size() ==> g(j) == k * g0(j)
    ensures t.Dot(f, g) == Twice(k, t.Dot(f0, g0))
  {
    DotLinear(t, f, k, f0, 0.0, f0, g);
    DotSymmetric(t, f0, g);
    DotLinear(t, g, k, g0, 0.0, g0, f0);
    DotSymmetric(t, g0, f0);
  }
}
