/** Eigenvalues of a symmetric tridiagonal matrix by implicit QL sweeps of plane rotations. */
module Tridiagonal {
  import opened RealSums

  const TOL: real := 0.000000000000000001     // 1e-18

  /** Matrices; v(a, k) is component k of row a. */
  type Matrix = (int, int) -> real

  function Col(v: Matrix, k: int): int -> real {
    a => v(a, k)
  }

  function RowOf(v: Matrix, a: int): int -> real {
    k => v(a, k)
  }

  function Identity(): Matrix {
    (a, k) => Delta(a, k)
  }

  /** The rows of v are orthonormal. */
  ghost predicate RowsOrthonormal(v: Matrix, n: nat) {
    forall a, b {:trigger Inner(RowOf(v, a), RowOf(v, b), n)} :: 0 <= a < n && 0 <= b < n ==>
      Inner(RowOf(v, a), RowOf(v, b), n) == Delta(a, b)
  }

  /** The columns of v are orthonormal. */
  ghost predicate ColsOrthonormal(v: Matrix, n: nat) {
    forall k, l {:trigger Inner(Col(v, k), Col(v, l), n)} :: 0 <= k < n && 0 <= l < n ==>
      Inner(Col(v, k), Col(v, l), n) == Delta(k, l)
  }

  function Inner(x: int -> real, y: int -> real, n: nat): real {
    Sum(InnerTerm(x, y), n)
  }

  function InnerTerm(x: int -> real, y: int -> real): int -> real {
    a => Mul(x(a), y(a))
  }

  function Cross(x: int -> real, y: int -> real, a: int, b: int): real {
    CrossOf(x(a), y(a), x(b), y(b))
  }

  function CrossOf(u: real, U: real, w: real, W: real): real {
    u * W + w * U
  }

  /** One row's share of the bilinear form of the tridiagonal matrix with diagonal d and
      links e, where e[a] joins rows a-1 and a, and links above h are left out. */
  function TriTerm(d: seq<real>, e: seq<real>, h: int, x: int -> real, y: int -> real): int -> real {
    a => DiagShare(At(d, a), x(a), y(a)) + if 1 <= a <= h then LinkShare(At(e, a), x, y, a) else 0.0
  }

  function DiagShare(d: real, x: real, y: real): real {
    Mul(d, Mul(x, y))
  }

  function LinkShare(e: real, x: int -> real, y: int -> real, a: int): real {
    Mul(e, Cross(x, y, a - 1, a))
  }

  function TriForm(d: seq<real>, e: seq<real>, h: int, x: int -> real, y: int -> real, n: nat): real {
    Sum(TriTerm(d, e, h, x, y), n)
  }

  /** The local variables of a sweep before the rotation of rows i-1 and i: row i-1 still
      owes p on the diagonal and has link g to the row above it, and the link of row i is
      split by the last rotation (c, s) between the rows i-1 and i-2. */
  datatype Sweep = Sweep(d: seq<real>, e: seq<real>, i: int, p: real, g: real, s: real, c: real)

  /** The bilinear form half way through a sweep over the rows up to h. */
  function WorkTerm(w: Sweep, h: int, x: int -> real, y: int -> real): int -> real {
    a =>
      if a == w.i - 1 then
        Mul(At(w.d, a) - w.p, Mul(x(a), y(a))) + if a >= 1 then Mul(w.g, Cross(x, y, a - 1, a)) else 0.0
      else if a == w.i && w.i <= h then
        Mul(At(w.d, a), Mul(x(a), y(a))) + Mul(Mul(w.c, At(w.e, a)), Cross(x, y, a - 1, a))
        + if a >= 2 then Mul(Mul(w.s, At(w.e, a)), Cross(x, y, a - 2, a)) else 0.0
      else TriTerm(w.d, w.e, h, x, y)(a)
  }

  // ---------------------------------------------------------------------------
  // One rotation

  /** Rows i-1 and i turned by the plane rotation with cosine c and sine s. */
  function Rotated(v: Matrix, i: int, s: real, c: real): Matrix {
    (a, k) =>
      if a == i - 1 then s * v(i, k) + c * v(i - 1, k)
      else if a == i then c * v(i, k) - s * v(i - 1, k)
      else v(a, k)
  }

  ghost predicate IsTurned(x: int -> real, x': int -> real, i: int, s: real, c: real) {
    && x'(i - 1) == s * x(i) + c * x(i - 1)
    && x'(i) == c * x(i) - s * x(i - 1)
    && SameElsewhere(x, x', i)
  }

  ghost predicate SameElsewhere(x: int -> real, x': int -> real, i: int) {
    forall a {:trigger x'(a)} :: a != i - 1 && a != i ==> x'(a) == x(a)
  }

  /** c2, s2 and cs are the square of the cosine, of the sine, and their product. */
  lemma TurnedProducts(u: real, w: real, U: real, W: real, s: real, c: real, u': real, w': real, U': real, W': real)
    requires u' == s * w + c * u && w' == c * w - s * u
    requires U' == s * W + c * U && W' == c * W - s * U
    ensures Mul(u', U') == (s * s) * Mul(w, W) + (s * c) * CrossOf(u, U, w, W) + (c * c) * Mul(u, U)
    ensures Mul(w', W') == (c * c) * Mul(w, W) - (s * c) * CrossOf(u, U, w, W) + (s * s) * Mul(u, U)
    ensures CrossOf(u', U', w', W')
            == 2.0 * (s * c) * Mul(w, W) + (c * c - s * s) * CrossOf(u, U, w, W) - 2.0 * (s * c) * Mul(u, U)
  {
  }

  /** The 2x2 block of the rotation, coefficient by coefficient; g0 is the old diagonal
      entry, dl the other one, b their link. */
  lemma BlockCoefficients(g0: real, dl: real, b: real, s: real, c: real, r2: real, p: real, g: real)
    requires s * s + c * c == 1.0
    requires r2 == (dl - g0) * s + 2.0 * c * b && p == s * r2 && g == c * r2 - b
    ensures (g0 + p) * (c * c) + (dl - p) * (s * s) - 2.0 * g * (s * c) == g0
    ensures (g0 + p) * (s * s) + (dl - p) * (c * c) + 2.0 * g * (s * c) == dl
    ensures (g0 + p) * (s * c) - (dl - p) * (s * c) + g * (c * c - s * s) == b
  {
    var A, B, P, D := s * s, c * c, s * c, dl - g0;
    assert P * P == A * B by {
      assert (s * c) * (s * c) == (s * s) * (c * c);
    }
    assert p == A * D + 2.0 * P * b by {
      assert s * (D * s) == A * D;
      assert s * (2.0 * c * b) == 2.0 * P * b;
    }
    assert g == P * D + (B - A) * b by {
      assert c * (D * s) == P * D;
      assert c * (2.0 * c * b) == 2.0 * B * b;
      assert 2.0 * B - 1.0 == B - A;
      assert (B - A) * b == 2.0 * B * b - b;
    }
    BlockAlgebra(A, B, P, D, b, g0, dl, p, g);
  }

  lemma BlockAlgebra(A: real, B: real, P: real, D: real, b: real, g0: real, dl: real, p: real, g: real)
    requires A + B == 1.0 && P * P == A * B && dl == g0 + D
    requires p == A * D + 2.0 * P * b && g == P * D + (B - A) * b
    ensures (g0 + p) * B + (dl - p) * A - 2.0 * g * P == g0
    ensures (g0 + p) * A + (dl - p) * B + 2.0 * g * P == dl
    ensures (g0 + p) * P - (dl - p) * P + g * (B - A) == b
  {
    assert B == 1.0 - A;
    assert P * P == A - A * A;
    assert g * P == (A - A * A) * D + (1.0 - 2.0 * A) * (b * P) by {
      assert g * P == (P * P) * D + (B - A) * (b * P);
    }
    assert p * (B - A) == A * D - 2.0 * (A * A) * D + 2.0 * (1.0 - 2.0 * A) * (b * P) by {
      assert p * (B - A) == (A * D) * (1.0 - 2.0 * A) + 2.0 * (P * b) * (1.0 - 2.0 * A);
    }
    assert p * B - p * A == p * (B - A);
    assert g0 * B + dl * A == g0 + A * D;
    assert p * P == A * D * P + 2.0 * (A - A * A) * b by {
      assert p * P == A * D * P + 2.0 * (P * P) * b;
    }
    assert g * (B - A) == P * D * (1.0 - 2.0 * A) + (1.0 - 2.0 * A) * (1.0 - 2.0 * A) * b;
    assert (1.0 - 2.0 * A) * (1.0 - 2.0 * A) == 1.0 - 4.0 * (A - A * A);
  }

  /** The form of the 2x2 block is unchanged by the rotation. */
  lemma BlockForm(g0: real, dl: real, b: real, s: real, c: real, r2: real, p: real, g: real,
                  u: real, w: real, U: real, W: real, u': real, w': real, U': real, W': real)
    requires s * s + c * c == 1.0
    requires r2 == (dl - g0) * s + 2.0 * c * b && p == s * r2 && g == c * r2 - b
    requires u' == s * w + c * u && w' == c * w - s * u
    requires U' == s * W + c * U && W' == c * W - s * U
    ensures Mul(g0 + p, Mul(u', U')) + Mul(dl - p, Mul(w', W')) + Mul(g, CrossOf(u', U', w', W'))
            == Mul(g0, Mul(u, U)) + Mul(dl, Mul(w, W)) + Mul(b, CrossOf(u, U, w, W))
  {
    hide Mul, CrossOf, Block;
    TurnedProducts(u, w, U, W, s, c, u', w', U', W');
    BlockCoefficients(g0, dl, b, s, c, r2, p, g);
    var uu, ww, uw := Mul(u, U), Mul(w, W), CrossOf(u, U, w, W);
    Collect(g0 + p, dl - p, g, s * s, c * c, s * c, ww, uw, uu, g0, dl, b);
    Replace(g0 + p, dl - p, g, Mul(u', U'), Mul(w', W'), CrossOf(u', U', w', W'), s * s, c * c, s * c, ww, uw, uu);
  }

  /** The turned block with the products of the old rows put in. */
  function Block(a: real, d: real, g: real, S: real, C: real, P: real, ww: real, uw: real, uu: real): real {
    a * (S * ww + P * uw + C * uu) + d * (C * ww - P * uw + S * uu) + g * (2.0 * P * ww + (C - S) * uw - 2.0 * P * uu)
  }

  lemma Collect(a: real, d: real, g: real, S: real, C: real, P: real, ww: real, uw: real, uu: real, x: real, y: real,
                z: real)
    requires a * C + d * S - 2.0 * g * P == x && a * S + d * C + 2.0 * g * P == y && a * P - d * P + g * (C - S) == z
    ensures Block(a, d, g, S, C, P, ww, uw, uu) == Mul(x, uu) + Mul(y, ww) + Mul(z, uw)
  {
    assert a * (S * ww + P * uw + C * uu) + d * (C * ww - P * uw + S * uu)
           + g * (2.0 * P * ww + (C - S) * uw - 2.0 * P * uu)
           == (a * C + d * S - 2.0 * g * P) * uu + (a * S + d * C + 2.0 * g * P) * ww
               + (a * P - d * P + g * (C - S)) * uw;
  }

  lemma Replace(a: real, d: real, g: real, p1: real, p2: real, p3: real, S: real, C: real, P: real, ww: real,
                uw: real, uu: real)
    requires p1 == S * ww + P * uw + C * uu && p2 == C * ww - P * uw + S * uu
           && p3 == 2.0 * P * ww + (C - S) * uw - 2.0 * P * uu
    ensures Mul(a, p1) + Mul(d, p2) + Mul(g, p3) == Block(a, d, g, S, C, P, ww, uw, uu)
  {
  }

  /** The two links from the row above the block become one. */
  lemma LinkBefore(z: real, Z: real, u: real, w: real, U: real, W: real, f: real, g: real, r: real, s: real, c: real,
                   u': real, U': real)
    requires r * s == f && r * c == g
    requires u' == s * w + c * u && U' == s * W + c * U
    ensures Mul(r, CrossOf(z, Z, u', U')) == Mul(g, CrossOf(z, Z, u, U)) + Mul(f, CrossOf(z, Z, w, W))
  {
    assert r * u' == f * w + g * u;
    assert r * U' == f * W + g * U;
    assert r * (z * U' + u' * Z) == z * (r * U') + (r * u') * Z;
  }

  /** The link to the row below the block is split in two. */
  lemma LinkAfter(z: real, Z: real, u: real, w: real, U: real, W: real, e: real, s: real, c: real,
                  u': real, w': real, U': real, W': real)
    requires s * s + c * c == 1.0
    requires u' == s * w + c * u && w' == c * w - s * u
    requires U' == s * W + c * U && W' == c * W - s * U
    ensures Mul(Mul(c, e), CrossOf(w', W', z, Z)) + Mul(Mul(s, e), CrossOf(u', U', z, Z)) == Mul(e, CrossOf(w, W, z, Z))
  {
    Unturn(u, w, s, c, u', w');
    Unturn(U, W, s, c, U', W');
    Regroup(c, s, e, w', W', u', U', z, Z, w, W);
  }

  lemma Unturn(u: real, w: real, s: real, c: real, u': real, w': real)
    requires s * s + c * c == 1.0
    requires u' == s * w + c * u && w' == c * w - s * u
    ensures c * w' + s * u' == w
  {
    assert c * w' == c * c * w - c * s * u;
    assert s * u' == s * s * w + c * s * u;
    assert c * c * w + s * s * w == (s * s + c * c) * w;
  }

  lemma Regroup(c: real, s: real, e: real, w': real, W': real, u': real, U': real, z: real, Z: real, w: real, W: real)
    requires c * w' + s * u' == w && c * W' + s * U' == W
    ensures Mul(Mul(c, e), CrossOf(w', W', z, Z)) + Mul(Mul(s, e), CrossOf(u', U', z, Z)) == Mul(e, CrossOf(w, W, z, Z))
  {
    assert Mul(Mul(c, e), CrossOf(w', W', z, Z)) == e * (c * w' * Z) + e * (z * (c * W'));
    assert Mul(Mul(s, e), CrossOf(u', U', z, Z)) == e * (s * u' * Z) + e * (z * (s * U'));
    assert w * Z == c * w' * Z + s * u' * Z;
    assert z * W == z * (c * W') + z * (s * U');
  }

  /** w1 is the state after the rotation of rows i-1 and i, where r is the length of the
      vector (f, g) that the rotation aligns. */
  ghost predicate IsTurn(w: Sweep, w1: Sweep, r: real, h: int, n: int) {
    && Adjacent(w, w1, r, h, n)
    && r * w1.s == Mul(w.s, w.e[w.i]) && r * w1.c == w.g
    && w1.s * w1.s + w1.c * w1.c == 1.0
    && var g0 := w.d[w.i - 1] - w.p;
       var b := Mul(w.c, w.e[w.i]);
       var r2 := (w.d[w.i] - g0) * w1.s + 2.0 * w1.c * b;
       && w1.p == w1.s * r2 && w1.g == w1.c * r2 - b
       && w1.d[w.i - 1] == g0 + w1.p
  }

  /** w1 is one row further than w and differs from it only in row i-1. */
  ghost predicate Adjacent(w: Sweep, w1: Sweep, r: real, h: int, n: int) {
    && 1 <= w.i <= h < n && |w.d| == n && |w.e| >= n
    && w1.i == w.i + 1
    && |w1.d| == n && w1.d == w.d[w.i - 1 := w1.d[w.i - 1]] && w1.e == w.e[w.i - 1 := r]
  }

  lemma TurnRowBefore(w: Sweep, w1: Sweep, r: real, h: int, x: int -> real, y: int -> real, x': int -> real,
                      y': int -> real, n: nat)
    requires IsTurn(w, w1, r, h, n) && w.i >= 2
    requires IsTurned(x, x', w.i, w1.s, w1.c) && IsTurned(y, y', w.i, w1.s, w1.c)
    ensures Mul(r, Cross(x', y', w.i - 2, w.i - 1))
            == Mul(w.g, Cross(x, y, w.i - 2, w.i - 1)) + Mul(Mul(w.s, At(w.e, w.i)), Cross(x, y, w.i - 2, w.i))
  {
    var i := w.i;
    LinkBefore(x(i - 2), y(i - 2), x(i - 1), x(i), y(i - 1), y(i), Mul(w.s, w.e[i]), w.g, r, w1.s, w1.c, x'(i - 1),
        y'(i - 1));
  }

  lemma TurnBlock(w: Sweep, w1: Sweep, r: real, h: int, x: int -> real, y: int -> real, x': int -> real,
                  y': int -> real, n: nat)
    requires IsTurn(w, w1, r, h, n)
    requires IsTurned(x, x', w.i, w1.s, w1.c) && IsTurned(y, y', w.i, w1.s, w1.c)
    ensures Mul(At(w1.d, w.i - 1), Mul(x'(w.i - 1), y'(w.i - 1))) + Mul(At(w1.d, w.i) - w1.p, Mul(x'(w.i), y'(w.i)))
            + Mul(w1.g, Cross(x', y', w.i - 1, w.i))
            == Mul(At(w.d, w.i - 1) - w.p, Mul(x(w.i - 1), y(w.i - 1))) + Mul(At(w.d, w.i), Mul(x(w.i), y(w.i)))
                + Mul(Mul(w.c, At(w.e, w.i)), Cross(x, y, w.i - 1, w.i))
  {
    var i := w.i;
    var g0 := w.d[i - 1] - w.p;
    var b := Mul(w.c, w.e[i]);
    var r2 := (w.d[i] - g0) * w1.s + 2.0 * w1.c * b;
    BlockForm(g0, w.d[i], b, w1.s, w1.c, r2, w1.p, w1.g, x(i - 1), x(i), y(i - 1), y(i), x'(i - 1), x'(i), y'(i - 1),
        y'(i));
  }

  lemma TurnRowAfter(w: Sweep, w1: Sweep, r: real, h: int, x: int -> real, y: int -> real, x': int -> real,
                     y': int -> real, n: nat)
    requires IsTurn(w, w1, r, h, n) && w.i < h
    requires IsTurned(x, x', w.i, w1.s, w1.c) && IsTurned(y, y', w.i, w1.s, w1.c)
    ensures Mul(Mul(w1.c, At(w1.e, w.i + 1)), Cross(x', y', w.i, w.i + 1))
            + Mul(Mul(w1.s, At(w1.e, w.i + 1)), Cross(x', y', w.i - 1, w.i + 1))
            == Mul(At(w.e, w.i + 1), Cross(x, y, w.i, w.i + 1))
  {
    var i := w.i;
    LinkAfter(x(i + 1), y(i + 1), x(i - 1), x(i), y(i - 1), y(i), w.e[i + 1], w1.s, w1.c, x'(i - 1), x'(i),
        y'(i - 1), y'(i));
  }

  lemma TurnElsewhere(w: Sweep, w1: Sweep, r: real, h: int, x: int -> real, y: int -> real, x': int -> real,
                      y': int -> real, n: nat, a: int)
    requires Adjacent(w, w1, r, h, n)
    requires SameElsewhere(x, x', w.i) && SameElsewhere(y, y', w.i)
    requires a < w.i - 1 || a > w.i + 1
    ensures WorkTerm(w, h, x, y)(a) == WorkTerm(w1, h, x', y')(a)
  {
    TriTermSame(w.d, w.e, w1.d, w1.e, h, x, y, x', y', a);
  }

  lemma TriTermSame(d: seq<real>, e: seq<real>, d1: seq<real>, e1: seq<real>, h: int,
                    x: int -> real, y: int -> real, x': int -> real, y': int -> real, a: int)
    requires At(d, a) == At(d1, a) && (1 <= a <= h ==> At(e, a) == At(e1, a))
    requires x'(a) == x(a) && y'(a) == y(a) && Cross(x', y', a - 1, a) == Cross(x, y, a - 1, a)
    ensures TriTerm(d, e, h, x, y)(a) == TriTerm(d1, e1, h, x', y')(a)
  {
  }

  lemma TurnNeighbours(w: Sweep, w1: Sweep, r: real, h: int, x: int -> real, y: int -> real, x': int -> real,
                       y': int -> real, n: nat)
    requires Adjacent(w, w1, r, h, n)
    requires SameElsewhere(x, x', w.i) && SameElsewhere(y, y', w.i)
    requires w.i >= 2 ==>
               Mul(r, Cross(x', y', w.i - 2, w.i - 1))
               == Mul(w.g, Cross(x, y, w.i - 2, w.i - 1)) + Mul(Mul(w.s, At(w.e, w.i)), Cross(x, y, w.i - 2, w.i))
    requires Mul(At(w1.d, w.i - 1), Mul(x'(w.i - 1), y'(w.i - 1))) + Mul(At(w1.d, w.i) - w1.p, Mul(x'(w.i), y'(w.i)))
             + Mul(w1.g, Cross(x', y', w.i - 1, w.i))
            == Mul(At(w.d, w.i - 1) - w.p, Mul(x(w.i - 1), y(w.i - 1))) + Mul(At(w.d, w.i), Mul(x(w.i), y(w.i)))
                + Mul(Mul(w.c, At(w.e, w.i)), Cross(x, y, w.i - 1, w.i))
    requires w.i < h ==>
               Mul(Mul(w1.c, At(w1.e, w.i + 1)), Cross(x', y', w.i, w.i + 1))
                   + Mul(Mul(w1.s, At(w1.e, w.i + 1)), Cross(x', y', w.i - 1, w.i + 1))
               == Mul(At(w.e, w.i + 1), Cross(x, y, w.i, w.i + 1))
    ensures WorkTerm(w, h, x, y)(w.i - 1) + WorkTerm(w, h, x, y)(w.i) + WorkTerm(w, h, x, y)(w.i + 1)
            == WorkTerm(w1, h, x', y')(w.i - 1) + WorkTerm(w1, h, x', y')(w.i) + WorkTerm(w1, h, x', y')(w.i + 1)
    ensures w.i == n - 1 ==> WorkTerm(w, h, x, y)(n) == WorkTerm(w1, h, x', y')(n)
  {
  }

  /** Puts the three local identities together. */
  lemma TurnAssemble(w: Sweep, w1: Sweep, r: real, h: int, x: int -> real, y: int -> real, x': int -> real,
                     y': int -> real, n: nat)
    requires Adjacent(w, w1, r, h, n)
    requires SameElsewhere(x, x', w.i) && SameElsewhere(y, y', w.i)
    requires w.i >= 2 ==>
               Mul(r, Cross(x', y', w.i - 2, w.i - 1))
               == Mul(w.g, Cross(x, y, w.i - 2, w.i - 1)) + Mul(Mul(w.s, At(w.e, w.i)), Cross(x, y, w.i - 2, w.i))
    requires Mul(At(w1.d, w.i - 1), Mul(x'(w.i - 1), y'(w.i - 1))) + Mul(At(w1.d, w.i) - w1.p, Mul(x'(w.i), y'(w.i)))
             + Mul(w1.g, Cross(x', y', w.i - 1, w.i))
            == Mul(At(w.d, w.i - 1) - w.p, Mul(x(w.i - 1), y(w.i - 1))) + Mul(At(w.d, w.i), Mul(x(w.i), y(w.i)))
                + Mul(Mul(w.c, At(w.e, w.i)), Cross(x, y, w.i - 1, w.i))
    requires w.i < h ==>
               Mul(Mul(w1.c, At(w1.e, w.i + 1)), Cross(x', y', w.i, w.i + 1))
                   + Mul(Mul(w1.s, At(w1.e, w.i + 1)), Cross(x', y', w.i - 1, w.i + 1))
               == Mul(At(w.e, w.i + 1), Cross(x, y, w.i, w.i + 1))
    ensures Sum(WorkTerm(w1, h, x', y'), n) == Sum(WorkTerm(w, h, x, y), n)
  {
    var f, f1 := WorkTerm(w, h, x, y), WorkTerm(w1, h, x', y');
    TurnNeighbours(w, w1, r, h, x, y, x', y', n);
    forall a | 0 <= a < n && !(w.i - 1 <= a <= w.i + 1)
      ensures f(a) == f1(a)
    {
      TurnElsewhere(w, w1, r, h, x, y, x', y', n, a);
    }
    SumPatch(f, f1, n, w.i);
  }

  /** A rotation of the sweep leaves the bilinear form unchanged. */
  lemma TurnKeepsForm(w: Sweep, w1: Sweep, r: real, h: int, x: int -> real, y: int -> real, x': int -> real,
                      y': int -> real, n: nat)
    requires IsTurn(w, w1, r, h, n)
    requires IsTurned(x, x', w.i, w1.s, w1.c) && IsTurned(y, y', w.i, w1.s, w1.c)
    ensures Sum(WorkTerm(w1, h, x', y'), n) == Sum(WorkTerm(w, h, x, y), n)
  {
    TurnBlock(w, w1, r, h, x, y, x', y', n);
    if w.i >= 2 {
      TurnRowBefore(w, w1, r, h, x, y, x', y', n);
    }
    if w.i < h {
      TurnRowAfter(w, w1, r, h, x, y, x', y', n);
    }
    TurnAssemble(w, w1, r, h, x, y, x', y', n);
  }

  // ---------------------------------------------------------------------------
  // A whole sweep

  lemma SweepStart(d: seq<real>, e: seq<real>, g: real, h: int, x: int -> real, y: int -> real, n: nat)
    requires 1 <= h < n
    ensures Sum(WorkTerm(Sweep(d, e, 1, 0.0, g, 1.0, 1.0), h, x, y), n) == TriForm(d, e, h, x, y, n)
  {
    var w := Sweep(d, e, 1, 0.0, g, 1.0, 1.0);
    forall a | 0 <= a < n
      ensures WorkTerm(w, h, x, y)(a) == TriTerm(d, e, h, x, y)(a)
    {
      assert Mul(1.0, At(e, a)) == At(e, a);
    }
    SumCongr(WorkTerm(w, h, x, y), TriTerm(d, e, h, x, y), n);
  }

  lemma SweepEnd(w: Sweep, d: seq<real>, e: seq<real>, h: int, x: int -> real, y: int -> real, n: nat)
    requires 1 <= h < n == |w.d| && n <= |w.e| && w.i == h + 1
    requires d == w.d[h := w.d[h] - w.p] && e == w.e[h := w.g][0 := 0.0]
    ensures TriForm(d, e, h, x, y, n) == Sum(WorkTerm(w, h, x, y), n)
  {
    forall a | 0 <= a < n
      ensures WorkTerm(w, h, x, y)(a) == TriTerm(d, e, h, x, y)(a)
    {
      SweepEndTerm(w, d, e, h, x, y, n, a);
    }
    SumCongr(WorkTerm(w, h, x, y), TriTerm(d, e, h, x, y), n);
  }

  lemma SweepEndTerm(w: Sweep, d: seq<real>, e: seq<real>, h: int, x: int -> real, y: int -> real, n: nat, a: int)
    requires 1 <= h < n == |w.d| && n <= |w.e| && w.i == h + 1 && 0 <= a < n
    requires d == w.d[h := w.d[h] - w.p] && e == w.e[h := w.g][0 := 0.0]
    ensures WorkTerm(w, h, x, y)(a) == TriTerm(d, e, h, x, y)(a)
  {
    if a == h {
      assert At(d, h) == At(w.d, h) - w.p;
      assert At(e, h) == w.g;
    } else {
      TriTermSame(d, e, w.d, w.e, h, x, y, x, y, a);
    }
  }

  lemma TurnKeepsInner(x: int -> real, y: int -> real, x': int -> real, y': int -> real, i: int, s: real, c: real,
                       n: nat)
    requires 1 <= i < n && s * s + c * c == 1.0
    requires IsTurned(x, x', i, s, c) && IsTurned(y, y', i, s, c)
    ensures Inner(x', y', n) == Inner(x, y, n)
  {
    TurnedInner(x(i - 1), x(i), y(i - 1), y(i), s, c, x'(i - 1), x'(i), y'(i - 1), y'(i));
    PatchInner(x, y, x', y', i, n);
  }

  lemma PatchInner(x: int -> real, y: int -> real, x': int -> real, y': int -> real, i: int, n: nat)
    requires 1 <= i < n
    requires SameElsewhere(x, x', i) && SameElsewhere(y, y', i)
    requires x'(i - 1) * y'(i - 1) + x'(i) * y'(i) == x(i - 1) * y(i - 1) + x(i) * y(i)
    ensures Inner(x', y', n) == Inner(x, y, n)
  {
    SumPatch(InnerTerm(x', y'), InnerTerm(x, y), n, i);
  }

  lemma TurnedInner(u: real, w: real, U: real, W: real, s: real, c: real, u': real, w': real, U': real, W': real)
    requires s * s + c * c == 1.0
    requires u' == s * w + c * u && w' == c * w - s * u
    requires U' == s * W + c * U && W' == c * W - s * U
    ensures u' * U' + w' * W' == u * U + w * W
  {
    TurnedProducts(u, w, U, W, s, c, u', w', U', W');
    assert (s * s) * (w * W) + (c * c) * (w * W) == (s * s + c * c) * (w * W);
    assert (s * s) * (u * U) + (c * c) * (u * U) == (s * s + c * c) * (u * U);
  }

  lemma RotatedColumn(v: Matrix, i: int, s: real, c: real, k: int)
    ensures IsTurned(Col(v, k), Col(Rotated(v, i, s, c), k), i, s, c)
  {
  }

  /** Rotations keep the columns orthonormal. */
  lemma TurnKeepsCols(v: Matrix, i: int, s: real, c: real, n: nat)
    requires 1 <= i < n && s * s + c * c == 1.0 && ColsOrthonormal(v, n)
    ensures ColsOrthonormal(Rotated(v, i, s, c), n)
  {
    var v' := Rotated(v, i, s, c);
    forall k, l | 0 <= k < n && 0 <= l < n
      ensures Inner(Col(v', k), Col(v', l), n) == Delta(k, l)
    {
      RotatedColumn(v, i, s, c, k);
      RotatedColumn(v, i, s, c, l);
      TurnKeepsInner(Col(v, k), Col(v, l), Col(v', k), Col(v', l), i, s, c, n);
      assert Inner(Col(v, k), Col(v, l), n) == Delta(k, l);
    }
  }

  lemma InnerLinear(h: int -> real, a: real, f: int -> real, b: real, g: int -> real, w: int -> real, n: nat)
    requires forall k :: 0 <= k < n ==> h(k) == a * f(k) + b * g(k)
    ensures Inner(h, w, n) == a * Inner(f, w, n) + b * Inner(g, w, n)
    ensures Inner(w, h, n) == a * Inner(f, w, n) + b * Inner(g, w, n)
  {
    forall k | 0 <= k < n
      ensures InnerTerm(h, w)(k) == a * InnerTerm(f, w)(k) + b * InnerTerm(g, w)(k)
    {
      assert (a * f(k) + b * g(k)) * w(k) == a * (f(k) * w(k)) + b * (g(k) * w(k));
    }
    SumLinear(InnerTerm(h, w), a, InnerTerm(f, w), b, InnerTerm(g, w), n);
    SumCongr(InnerTerm(h, w), InnerTerm(w, h), n);
  }

  /** Rotations keep the rows orthonormal. */
  lemma TurnKeepsRows(v: Matrix, i: int, s: real, c: real, n: nat)
    requires 1 <= i < n && s * s + c * c == 1.0 && RowsOrthonormal(v, n)
    ensures RowsOrthonormal(Rotated(v, i, s, c), n)
  {
    var v' := Rotated(v, i, s, c);
    forall a, b | 0 <= a < n && 0 <= b < n
      ensures Inner(RowOf(v', a), RowOf(v', b), n) == Delta(a, b)
    {
      RowCases(v, i, s, c, n, a, b);
    }
  }

  /** The inner product of a rotated row with any vector. */
  lemma RowMix(v: Matrix, i: int, s: real, c: real, n: nat, a: int, w: int -> real)
    ensures Inner(RowOf(Rotated(v, i, s, c), a), w, n) == Inner(w, RowOf(Rotated(v, i, s, c), a), n)
            == if a == i - 1 then s * Inner(RowOf(v, i), w, n) + c * Inner(RowOf(v, i - 1), w, n)
               else if a == i then c * Inner(RowOf(v, i), w, n) - s * Inner(RowOf(v, i - 1), w, n)
               else Inner(RowOf(v, a), w, n)
  {
    hide Inner;
    var row := RowOf(Rotated(v, i, s, c), a);
    if a == i - 1 {
      InnerLinear(row, s, RowOf(v, i), c, RowOf(v, i - 1), w, n);
    } else if a == i {
      InnerLinear(row, c, RowOf(v, i), -s, RowOf(v, i - 1), w, n);
      NegatedFactor(s, Inner(RowOf(v, i - 1), w, n));
    } else {
      InnerLinear(row, 1.0, RowOf(v, a), 0.0, row, w, n);
    }
  }

  lemma NegatedFactor(s: real, x: real)
    ensures (-s) * x == -(s * x)
  {
  }

  lemma RowCases(v: Matrix, i: int, s: real, c: real, n: nat, a: int, b: int)
    requires 1 <= i < n && s * s + c * c == 1.0 && RowsOrthonormal(v, n) && 0 <= a < n && 0 <= b < n
    ensures Inner(RowOf(Rotated(v, i, s, c), a), RowOf(Rotated(v, i, s, c), b), n) == Delta(a, b)
  {
    var rb := RowOf(Rotated(v, i, s, c), b);
    RowMix(v, i, s, c, n, a, rb);
    RowMix(v, i, s, c, n, b, RowOf(v, i - 1));
    RowMix(v, i, s, c, n, b, RowOf(v, i));
    RowMix(v, i, s, c, n, b, RowOf(v, a));
    assert Inner(RowOf(v, i - 1), RowOf(v, i - 1), n) == Delta(i - 1, i - 1);
    assert Inner(RowOf(v, i - 1), RowOf(v, i), n) == Delta(i - 1, i);
    assert Inner(RowOf(v, i), RowOf(v, i - 1), n) == Delta(i, i - 1);
    assert Inner(RowOf(v, i), RowOf(v, i), n) == Delta(i, i);
    assert Inner(RowOf(v, i - 1), RowOf(v, a), n) == Delta(i - 1, a);
    assert Inner(RowOf(v, i), RowOf(v, a), n) == Delta(i, a);
    assert Inner(RowOf(v, b), RowOf(v, a), n) == Delta(b, a);
    assert Inner(RowOf(v, b), RowOf(v, i), n) == Delta(b, i);
    assert Inner(RowOf(v, b), RowOf(v, i - 1), n) == Delta(b, i - 1);
  }

  /** The bilinear form of the tridiagonal matrix in the basis of the rows of v, by columns. */
  function FormOf(d: seq<real>, e: seq<real>, h: int, v: Matrix, n: nat): Matrix {
    (k, l) => TriForm(d, e, h, Col(v, k), Col(v, l), n)
  }

  function WorkOf(w: Sweep, h: int, v: Matrix, n: nat): Matrix {
    (k, l) => Sum(WorkTerm(w, h, Col(v, k), Col(v, l)), n)
  }

  ghost predicate Same(m: Matrix, m': Matrix, n: nat) {
    forall k, l {:trigger m(k, l)} {:trigger m'(k, l)} :: 0 <= k < n && 0 <= l < n ==> m(k, l) == m'(k, l)
  }

  lemma StartForm(d: seq<real>, e: seq<real>, g: real, h: int, v: Matrix, n: nat)
    requires 1 <= h < n
    ensures Same(WorkOf(Sweep(d, e, 1, 0.0, g, 1.0, 1.0), h, v, n), FormOf(d, e, h, v, n), n)
  {
    forall k, l | 0 <= k < n && 0 <= l < n
      ensures WorkOf(Sweep(d, e, 1, 0.0, g, 1.0, 1.0), h, v, n)(k, l) == FormOf(d, e, h, v, n)(k, l)
    {
      SweepStart(d, e, g, h, Col(v, k), Col(v, l), n);
    }
  }

  lemma TurnForm(w: Sweep, w1: Sweep, r: real, h: int, v: Matrix, n: nat)
    requires IsTurn(w, w1, r, h, n)
    ensures Same(WorkOf(w1, h, Rotated(v, w.i, w1.s, w1.c), n), WorkOf(w, h, v, n), n)
  {
    var v' := Rotated(v, w.i, w1.s, w1.c);
    forall k, l | 0 <= k < n && 0 <= l < n
      ensures WorkOf(w1, h, v', n)(k, l) == WorkOf(w, h, v, n)(k, l)
    {
      RotatedColumn(v, w.i, w1.s, w1.c, k);
      RotatedColumn(v, w.i, w1.s, w1.c, l);
      TurnKeepsForm(w, w1, r, h, Col(v, k), Col(v, l), Col(v', k), Col(v', l), n);
    }
  }

  lemma EndForm(w: Sweep, d: seq<real>, e: seq<real>, h: int, v: Matrix, n: nat)
    requires 1 <= h < n == |w.d| && n <= |w.e| && w.i == h + 1
    requires d == w.d[h := w.d[h] - w.p] && e == w.e[h := w.g][0 := 0.0]
    ensures Same(FormOf(d, e, h, v, n), WorkOf(w, h, v, n), n)
  {
    forall k, l | 0 <= k < n && 0 <= l < n
      ensures FormOf(d, e, h, v, n)(k, l) == WorkOf(w, h, v, n)(k, l)
    {
      SweepEnd(w, d, e, h, Col(v, k), Col(v, l), n);
    }
  }

  // ---------------------------------------------------------------------------
  // Dead links

  /** A sweep over rows with a zero link strictly inside cannot complete. */
  ghost predicate Stuck(e: seq<real>, h: int) {
    && (At(e, h) > TOL || At(e, h) < -TOL)
    && exists j :: 1 <= j < h && At(e, j) == 0.0
  }

  /** Across a zero link the rotation has nothing left to chase. */
  lemma DeadLink(w: Sweep, w1: Sweep, r: real, h: int, n: int)
    requires IsTurn(w, w1, r, h, n) && r > 0.0 && w.e[w.i] == 0.0
    ensures w1.s == 0.0 && w1.g == 0.0
  {
    ZeroFactor(r, w1.s);
    var b := Mul(w.c, w.e[w.i]);
    assert b == 0.0;
    var g0 := w.d[w.i - 1] - w.p;
    assert (w.d[w.i] - g0) * w1.s == 0.0;
    assert 2.0 * w1.c * b == 0.0;
  }

  lemma ZeroFactor(r: real, s: real)
    requires r > 0.0 && r * s == 0.0
    ensures s == 0.0
  {
  }

  lemma UnitRotation(f: real, g: real, r: real, s: real, c: real)
    requires r > 0.0 && Square(r) == Square(f) + Square(g)
    requires r * s == f && r * c == g
    ensures s * s + c * c == 1.0
  {
    assert Square(f) == Mul(r * r, s * s);
    assert Square(g) == Mul(r * r, c * c);
    MulPositive(r, r);
    CancelOne(r * r, s * s + c * c);
  }

  lemma CancelOne(k: real, x: real)
    requires k > 0.0 && Mul(k, x) == k
    ensures x == 1.0
  {
    assert k * (x - 1.0) == 0.0;
    ZeroFactor(k, x - 1.0);
  }

  function Entries(d: seq<real>): int -> real {
    a => At(d, a)
  }

  function Trace(d: seq<real>): real {
    Sum(Entries(d), |d|)
  }

  lemma TraceUpdate(d: seq<real>, i: int, x: real)
    requires 0 <= i < |d|
    ensures Trace(d[i := x]) == Trace(d) - d[i] + x
  {
    var diff := a => At(d[i := x], a) - At(d, a);
    SumSingle(diff, |d|, i);
    SumLinear(diff, 1.0, Entries(d[i := x]), -1.0, Entries(d), |d|);
  }

  /** What a sweep keeps: rows and columns stay orthonormal, the bilinear form stays base
      and the diagonal, less the amount still owed, keeps its sum. */
  ghost predicate Sweeping(w: Sweep, h: int, v: Matrix, n: nat, base: Matrix, trace: real) {
    && RowsOrthonormal(v, n) && ColsOrthonormal(v, n)
    && Same(WorkOf(w, h, v, n), base, n)
    && Trace(w.d) - w.p == trace
  }

  lemma TurnKeepsSweeping(w: Sweep, w1: Sweep, r: real, h: int, v: Matrix, n: nat, base: Matrix, trace: real)
    requires IsTurn(w, w1, r, h, n) && Sweeping(w, h, v, n, base, trace)
    ensures Sweeping(w1, h, Rotated(v, w.i, w1.s, w1.c), n, base, trace)
  {
    hide RowsOrthonormal, ColsOrthonormal, Rotated, WorkOf, Mul, Trace;
    TurnForm(w, w1, r, h, v, n);
    TurnKeepsCols(v, w.i, w1.s, w1.c, n);
    TurnKeepsRows(v, w.i, w1.s, w1.c, n);
    TraceUpdate(w.d, w.i - 1, w1.d[w.i - 1]);
  }

  lemma StartSweeping(d: seq<real>, e: seq<real>, g: real, h: int, v: Matrix, n: nat)
    requires 1 <= h < n && RowsOrthonormal(v, n) && ColsOrthonormal(v, n)
    ensures Sweeping(Sweep(d, e, 1, 0.0, g, 1.0, 1.0), h, v, n, FormOf(d, e, h, v, n), Trace(d))
  {
    StartForm(d, e, g, h, v, n);
  }

  lemma EndSweeping(w: Sweep, d: seq<real>, e: seq<real>, h: int, v: Matrix, n: nat, base: Matrix, trace: real)
    requires Sweeping(w, h, v, n, base, trace)
    requires 1 <= h < n == |w.d| && n <= |w.e| && w.i == h + 1
    requires d == w.d[h := w.d[h] - w.p] && e == w.e[h := w.g][0 := 0.0]
    ensures Same(FormOf(d, e, h, v, n), base, n) && Trace(d) == trace
  {
    EndForm(w, d, e, h, v, n);
    TraceUpdate(w.d, h, w.d[h] - w.p);
    var f, m := FormOf(d, e, h, v, n), WorkOf(w, h, v, n);
    forall k, l | 0 <= k < n && 0 <= l < n
      ensures f(k, l) == base(k, l)
    {
      assert f(k, l) == m(k, l);
    }
  }

  // ---------------------------------------------------------------------------
  // Dropping negligible links, and sorting

  ghost predicate Near(m: Matrix, m': Matrix, bound: real, n: nat) {
    forall k, l {:trigger m(k, l)} {:trigger m'(k, l)} :: 0 <= k < n && 0 <= l < n ==> Abs(m(k, l) - m'(k, l)) <= bound
  }

  /** The matrix rebuilt from eigenvalues d and eigenvectors in the rows of v. */
  function Spectral(d: seq<real>, v: Matrix, n: nat): Matrix {
    (k, l) => Sum(DiagTerm(d, Col(v, k), Col(v, l)), n)
  }

  function DiagTerm(d: seq<real>, x: int -> real, y: int -> real): int -> real {
    a => DiagShare(At(d, a), x(a), y(a))
  }

  lemma NoLinks(d: seq<real>, e: seq<real>, v: Matrix, n: nat)
    ensures Same(Spectral(d, v, n), FormOf(d, e, 0, v, n), n)
  {
    forall k, l | 0 <= k < n && 0 <= l < n
      ensures Spectral(d, v, n)(k, l) == FormOf(d, e, 0, v, n)(k, l)
    {
      SumCongr(DiagTerm(d, Col(v, k), Col(v, l)), TriTerm(d, e, 0, Col(v, k), Col(v, l)), n);
    }
  }

  lemma NearSame(m: Matrix, f: Matrix, f': Matrix, bound: real, n: nat)
    requires Near(m, f, bound, n) && Same(f', f, n)
    ensures Near(m, f', bound, n)
  {
    forall k, l | 0 <= k < n && 0 <= l < n
      ensures Abs(m(k, l) - f'(k, l)) <= bound
    {
      assert f'(k, l) == f(k, l);
    }
  }

  /** Entries of a matrix with orthonormal columns are at most one. */
  lemma EntryBound(v: Matrix, n: nat, a: int, k: int)
    requires ColsOrthonormal(v, n) && 0 <= a < n && 0 <= k < n
    ensures Abs(v(a, k)) <= 1.0
  {
    var x := Col(v, k);
    assert Inner(x, x, n) == Delta(k, k);
    forall b | 0 <= b < n
      ensures InnerTerm(x, x)(b) >= 0.0
    {
      assert Square(x(b)) >= 0.0;
    }
    SumDominates(InnerTerm(x, x), n, a);
    assert Square(x(a)) == InnerTerm(x, x)(a);
    UnitSquare(x(a));
  }

  lemma UnitSquare(x: real)
    requires Square(x) <= 1.0
    ensures -1.0 <= x <= 1.0
  {
    if x > 1.0 {
      MulPositive(x - 1.0, x + 1.0);
    } else if x < -1.0 {
      MulPositive(-x - 1.0, 1.0 - x);
    }
  }

  lemma AbsMul(e: real, q: real)
    ensures Abs(Mul(e, q)) == Mul(Abs(e), Abs(q))
  {
    SignProduct(e, q);
  }

  lemma SignProduct(e: real, q: real)
    ensures e >= 0.0 && q >= 0.0 ==> Mul(e, q) >= 0.0
    ensures e <= 0.0 && q <= 0.0 ==> Mul(e, q) >= 0.0 && Mul(e, q) == Mul(-e, -q)
    ensures e >= 0.0 && q <= 0.0 ==> Mul(e, q) <= 0.0 && -Mul(e, q) == Mul(e, -q)
    ensures e <= 0.0 && q >= 0.0 ==> Mul(e, q) <= 0.0 && -Mul(e, q) == Mul(-e, q)
  {
  }

  lemma MulMonotone(x: real, y: real, bx: real, bound: real)
    requires 0.0 <= x <= bx && 0.0 <= y <= bound
    ensures Mul(x, y) <= Mul(bx, bound)
  {
    assert x * y <= bx * y;
    assert bx * y <= bx * bound;
  }

  lemma SmallProduct(e: real, q: real, tol: real, bound: real)
    requires Abs(e) <= tol && Abs(q) <= bound
    ensures Abs(Mul(e, q)) <= Mul(tol, bound)
  {
    AbsMul(e, q);
    MulMonotone(Abs(e), Abs(q), tol, bound);
  }

  lemma CrossOfUnits(u: real, U: real, w: real, W: real)
    requires Abs(u) <= 1.0 && Abs(U) <= 1.0 && Abs(w) <= 1.0 && Abs(W) <= 1.0
    ensures Abs(CrossOf(u, U, w, W)) <= 2.0
  {
    SmallProduct(u, W, 1.0, 1.0);
    SmallProduct(w, U, 1.0, 1.0);
    AbsAdd(Mul(u, W), Mul(w, U), 1.0, 1.0);
  }

  lemma CrossBound(v: Matrix, n: nat, k: int, l: int, a: int)
    requires ColsOrthonormal(v, n) && 1 <= a < n && 0 <= k < n && 0 <= l < n
    ensures Abs(Cross(Col(v, k), Col(v, l), a - 1, a)) <= 2.0
  {
    EntryBound(v, n, a, k);
    EntryBound(v, n, a, l);
    EntryBound(v, n, a - 1, k);
    EntryBound(v, n, a - 1, l);
    CrossOfUnits(v(a - 1, k), v(a - 1, l), v(a, k), v(a, l));
  }

  /** Dropping link h changes the form by that link's share only. */
  lemma DropTerm(d: seq<real>, e: seq<real>, h: int, x: int -> real, y: int -> real, n: nat)
    requires 1 <= h < n
    ensures TriForm(d, e, h, x, y, n) == TriForm(d, e, h - 1, x, y, n) + LinkShare(At(e, h), x, y, h)
  {
    var share := LinkShare(At(e, h), x, y, h);
    SumSpike(h, share, n);
    SumLinear(TriTerm(d, e, h, x, y), 1.0, TriTerm(d, e, h - 1, x, y), 1.0, Spike(h, share), n);
  }

  lemma DropLink(m: Matrix, d: seq<real>, e: seq<real>, h: int, v: Matrix, bound: real, n: nat)
    requires 1 <= h < n && ColsOrthonormal(v, n)
    requires -TOL <= At(e, h) <= TOL
    requires Near(m, FormOf(d, e, h, v, n), bound, n)
    ensures Near(m, FormOf(d, e, h - 1, v, n), bound + 2.0 * TOL, n)
  {
    forall k, l | 0 <= k < n && 0 <= l < n
      ensures Abs(m(k, l) - FormOf(d, e, h - 1, v, n)(k, l)) <= bound + 2.0 * TOL
    {
      var x, y := Col(v, k), Col(v, l);
      DropTerm(d, e, h, x, y, n);
      CrossBound(v, n, k, l, h);
      SmallProduct(At(e, h), Cross(x, y, h - 1, h), TOL, 2.0);
      assert Abs(m(k, l) - FormOf(d, e, h, v, n)(k, l)) <= bound;
      AbsAdd(m(k, l) - FormOf(d, e, h, v, n)(k, l), LinkShare(At(e, h), x, y, h), bound, 2.0 * TOL);
    }
  }

  /** The symmetric tridiagonal matrix with d on and e beside the diagonal. */
  function TriMatrix(d: seq<real>, e: seq<real>): Matrix {
    (k, l) => Entry(d, e, k, l)
  }

  /** The identity rows give back the matrix itself. */
  lemma IdentityForm(d: seq<real>, e: seq<real>, links: seq<real>, n: nat)
    requires n > 0 && forall a :: 0 <= a < n - 1 ==> At(links, a + 1) == At(e, a)
    ensures Same(FormOf(d, links, n - 1, Identity(), n), TriMatrix(d, e), n)
  {
    forall k, l | 0 <= k < n && 0 <= l < n
      ensures FormOf(d, links, n - 1, Identity(), n)(k, l) == Entry(d, e, k, l)
    {
      IdentityEntry(d, e, links, n, k, l);
    }
  }

  lemma IdentityEntry(d: seq<real>, e: seq<real>, links: seq<real>, n: nat, k: int, l: int)
    requires 0 <= k < n && 0 <= l < n && forall a :: 0 <= a < n - 1 ==> At(links, a + 1) == At(e, a)
    ensures FormOf(d, links, n - 1, Identity(), n)(k, l) == Entry(d, e, k, l)
  {
    var big := if k < l then l else k;
    var f := TriTerm(d, links, n - 1, Col(Identity(), k), Col(Identity(), l));
    forall a | 0 <= a < n
      ensures f(a) == Spike(big, Entry(d, e, k, l))(a)
    {
      IdentityTerm(d, e, links, n, k, l, a);
    }
    SumCongr(f, Spike(big, Entry(d, e, k, l)), n);
    SumSpike(big, Entry(d, e, k, l), n);
  }

  lemma IdentityTerm(d: seq<real>, e: seq<real>, links: seq<real>, n: nat, k: int, l: int, a: int)
    requires 0 <= k < n && 0 <= l < n && 0 <= a < n && forall b :: 0 <= b < n - 1 ==> At(links, b + 1) == At(e, b)
    ensures TriTerm(d, links, n - 1, Col(Identity(), k), Col(Identity(), l))(a)
            == if a == (if k < l then l else k) then Entry(d, e, k, l) else 0.0
  {
    var x, y := Col(Identity(), k), Col(Identity(), l);
    if a > 0 {
      assert At(links, a) == At(e, a - 1);
    }
    DeltaDiag(At(d, a), a, k, l);
    DeltaCross(At(links, a), a, k, l);
    assert DiagShare(At(d, a), x(a), y(a)) == if a == k == l then At(d, a) else 0.0;
    assert LinkShare(At(links, a), x, y, a)
           == if (a == k && a - 1 == l) || (a == l && a - 1 == k) then At(links, a) else 0.0;
  }

  lemma DeltaDiag(d: real, a: int, k: int, l: int)
    ensures Mul(d, Mul(Delta(a, k), Delta(a, l))) == if a == k == l then d else 0.0
  {
    var p := Mul(Delta(a, k), Delta(a, l));
    assert p == if a == k == l then 1.0 else 0.0;
    assert Mul(d, 0.0) == 0.0 && Mul(d, 1.0) == d;
  }

  lemma DeltaCross(e: real, a: int, k: int, l: int)
    ensures Mul(e, CrossOf(Delta(a - 1, k), Delta(a - 1, l), Delta(a, k), Delta(a, l)))
            == if (a == k && a - 1 == l) || (a == l && a - 1 == k) then e else 0.0
  {
    var p := CrossOf(Delta(a - 1, k), Delta(a - 1, l), Delta(a, k), Delta(a, l));
    assert p == if (a == k && a - 1 == l) || (a == l && a - 1 == k) then 1.0 else 0.0;
    assert Mul(e, 0.0) == 0.0 && Mul(e, 1.0) == e;
  }

  lemma IdentityOrthonormal(n: nat)
    ensures RowsOrthonormal(Identity(), n) && ColsOrthonormal(Identity(), n)
  {
    forall a, b | 0 <= a < n && 0 <= b < n
      ensures Inner(RowOf(Identity(), a), RowOf(Identity(), b), n) == Delta(a, b)
      ensures Inner(Col(Identity(), a), Col(Identity(), b), n) == Delta(a, b)
    {
      IdentityInner(RowOf(Identity(), a), RowOf(Identity(), b), n, a, b);
      IdentityInner(Col(Identity(), a), Col(Identity(), b), n, a, b);
    }
  }

  lemma IdentityInner(x: int -> real, y: int -> real, n: nat, a: int, b: int)
    requires 0 <= a < n && 0 <= b < n
    requires forall k :: x(k) == Delta(a, k) && y(k) == Delta(b, k)
    ensures Inner(x, y, n) == Delta(a, b)
  {
    forall k | 0 <= k < n && k != a
      ensures InnerTerm(x, y)(k) == 0.0
    {
      assert x(k) == 0.0;
    }
    SumSingle(InnerTerm(x, y), n, a);
    assert x(a) == 1.0;
  }

  /** Rows i and k exchanged. */
  function Exchanged(v: Matrix, i: int, k: int): Matrix {
    (a, l) => if a == i then v(k, l) else if a == k then v(i, l) else v(a, l)
  }

  lemma ExchangeDiagonal(d: seq<real>, d': seq<real>, x: int -> real, y: int -> real, x': int -> real,
                         y': int -> real, n: nat, i: int, k: int)
    requires 0 <= i < k < n == |d| && d' == d[i := d[k]][k := d[i]]
    requires forall a {:trigger x'(a)} :: x'(a) == x(if a == i then k else if a == k then i else a)
    requires forall a {:trigger y'(a)} :: y'(a) == y(if a == i then k else if a == k then i else a)
    ensures Sum(DiagTerm(d', x', y'), n) == Sum(DiagTerm(d, x, y), n)
  {
    var f, g := DiagTerm(d, x, y), DiagTerm(d', x', y');
    forall a | 0 <= a < n
      ensures g(a) == f(if a == i then k else if a == k then i else a)
    {
      var a0 := if a == i then k else if a == k then i else a;
      DiagSame(At(d', a), At(d, a0), x'(a), x(a0), y'(a), y(a0));
    }
    SumExchange(f, g, n, i, k);
  }

  lemma DiagSame(d: real, d': real, x: real, x': real, y: real, y': real)
    requires d == d' && x == x' && y == y'
    ensures DiagShare(d, x, y) == DiagShare(d', x', y')
  {
  }

  lemma ExchangeKeeps(d: seq<real>, v: Matrix, i: int, k: int, n: nat)
    requires 0 <= i < k < n == |d| && RowsOrthonormal(v, n) && ColsOrthonormal(v, n)
    ensures RowsOrthonormal(Exchanged(v, i, k), n) && ColsOrthonormal(Exchanged(v, i, k), n)
    ensures Same(Spectral(d[i := d[k]][k := d[i]], Exchanged(v, i, k), n), Spectral(d, v, n), n)
    ensures Trace(d[i := d[k]][k := d[i]]) == Trace(d)
  {
    var v', d' := Exchanged(v, i, k), d[i := d[k]][k := d[i]];
    forall a, b | 0 <= a < n && 0 <= b < n
      ensures Inner(RowOf(v', a), RowOf(v', b), n) == Delta(a, b)
    {
      var a0 := if a == i then k else if a == k then i else a;
      var b0 := if b == i then k else if b == k then i else b;
      SumCongr(InnerTerm(RowOf(v', a), RowOf(v', b)), InnerTerm(RowOf(v, a0), RowOf(v, b0)), n);
      assert Inner(RowOf(v, a0), RowOf(v, b0), n) == Delta(a0, b0);
    }
    forall a, b | 0 <= a < n && 0 <= b < n
      ensures Inner(Col(v', a), Col(v', b), n) == Delta(a, b)
    {
      SumExchange(InnerTerm(Col(v, a), Col(v, b)), InnerTerm(Col(v', a), Col(v', b)), n, i, k);
      assert Inner(Col(v, a), Col(v, b), n) == Delta(a, b);
    }
    forall a, b | 0 <= a < n && 0 <= b < n
      ensures Spectral(d', v', n)(a, b) == Spectral(d, v, n)(a, b)
    {
      ExchangeDiagonal(d, d', Col(v, a), Col(v, b), Col(v', a), Col(v', b), n, i, k);
    }
    SumExchange(Entries(d), Entries(d'), n, i, k);
  }
}
