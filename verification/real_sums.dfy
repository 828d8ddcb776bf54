/** Finite sums of real-valued functions, and the laws the numeric modules need.
    Every law takes the summands as arguments with a pointwise hypothesis, so
    that callers never depend on two lambda expressions being the same value. */
module RealSums {

  /** f(0) + ... + f(n-1) */
  function Sum(f: int -> real, n: nat): real {
    if n == 0 then 0.0 else Sum(f, n - 1) + f(n - 1)
  }

  /** The entry of a vector, zero outside it. */
  function At(s: seq<real>, i: int): real {
    if 0 <= i < |s| then s[i] else 0.0
  }

  function Square(x: real): (s: real)
    ensures s >= 0.0
  {
    x * x
  }

  function Mul(a: real, b: real): real {
    a * b
  }

  lemma MulPositive(a: real, b: real)
    requires a > 0.0 && b > 0.0
    ensures Mul(a, b) > 0.0
  {
  }

  lemma SquarePositive(x: real)
    requires x != 0.0
    ensures Square(x) > 0.0
  {
    var m := if x > 0.0 then x else -x;
    MulPositive(m, m);
    assert Mul(m, m) == Square(x);
  }

  lemma SumOfSquares(f: real, g: real)
    ensures Square(f) + Square(g) == 0.0 <==> f == 0.0 && g == 0.0
  {
    if f != 0.0 {
      SquarePositive(f);
    }
    if g != 0.0 {
      SquarePositive(g);
    }
  }

  /** What the numeric code asks of the square root of the C library. */
  ghost predicate IsSquareRoot(root: real -> real) {
    forall x {:trigger root(x)} :: x >= 0.0 ==> root(x) >= 0.0 && Square(root(x)) == x
  }

  lemma RootPositive(root: real -> real, x: real)
    requires IsSquareRoot(root) && x > 0.0
    ensures root(x) > 0.0 && Square(root(x)) == x
  {
  }

  function Abs(x: real): (a: real)
    ensures a >= 0.0 && -a <= x <= a
  {
    if x < 0.0 then -x else x
  }

  /** Kronecker delta */
  function Delta(a: int, b: int): real {
    if a == b then 1.0 else 0.0
  }

  /** Entry (a, b) of the symmetric tridiagonal matrix with d on and e beside the diagonal. */
  function Entry(d: seq<real>, e: seq<real>, a: int, b: int): real {
    if a == b then At(d, a) else if a == b + 1 then At(e, b) else if b == a + 1 then At(e, a) else 0.0
  }

  lemma {:induction false} SumCongr(f: int -> real, g: int -> real, n: nat)
    requires forall i :: 0 <= i < n ==> f(i) == g(i)
    ensures Sum(f, n) == Sum(g, n)
  {
    if n > 0 {
      SumCongr(f, g, n - 1);
    }
  }

  lemma {:induction false} SumZero(f: int -> real, n: nat)
    requires forall i :: 0 <= i < n ==> f(i) == 0.0
    ensures Sum(f, n) == 0.0
  {
    if n > 0 {
      SumZero(f, n - 1);
    }
  }

  lemma {:induction false} SumLinear(h: int -> real, a: real, f: int -> real, b: real, g: int -> real, n: nat)
    requires forall i :: 0 <= i < n ==> h(i) == a * f(i) + b * g(i)
    ensures Sum(h, n) == a * Sum(f, n) + b * Sum(g, n)
  {
    if n > 0 {
      SumLinear(h, a, f, b, g, n - 1);
      assert h(n - 1) == a * f(n - 1) + b * g(n - 1);
    }
  }

  /** Equals may be put for equals in a linear combination, ... */
  lemma SameLinear(h: real, h': real, a: real, f: real, f': real, b: real, g: real, g': real)
    requires h' == a * f' + b * g' && h == h' && f == f' && g == g'
    ensures h == a * f + b * g
  {
  }

  /** ... and in a product. */
  lemma SameScaled(x: real, q: real, s: real, s': real, x': real)
    requires x == q * s && s == s' && x' == s' * q
    ensures x == x'
  {
  }

  lemma {:induction false} SumScale(h: int -> real, a: real, f: int -> real, n: nat)
    requires forall i :: 0 <= i < n ==> h(i) == a * f(i)
    ensures Sum(h, n) == a * Sum(f, n)
  {
    if n > 0 {
      SumScale(h, a, f, n - 1);
      assert h(n - 1) == a * f(n - 1);
    }
  }

  /** All but one term vanish. */
  lemma {:induction false} SumSingle(f: int -> real, n: nat, k: nat)
    requires k < n
    requires forall i :: 0 <= i < n && i != k ==> f(i) == 0.0
    ensures Sum(f, n) == f(k)
  {
    if k == n - 1 {
      SumZero(f, n - 1);
    } else {
      SumSingle(f, n - 1, k);
    }
  }

  lemma {:induction false} SumNonNeg(f: int -> real, n: nat)
    requires forall i :: 0 <= i < n ==> f(i) >= 0.0
    ensures Sum(f, n) >= 0.0
  {
    if n > 0 {
      SumNonNeg(f, n - 1);
    }
  }

  /** A sum of non-negative terms dominates each of its terms. */
  lemma {:induction false} SumDominates(f: int -> real, n: nat, k: nat)
    requires k < n
    requires forall i :: 0 <= i < n ==> f(i) >= 0.0
    ensures f(k) <= Sum(f, n)
  {
    if k == n - 1 {
      SumNonNeg(f, n - 1);
    } else {
      SumDominates(f, n - 1, k);
    }
  }

  lemma AbsAdd(x: real, y: real, b: real, d: real)
    requires Abs(x) <= b && Abs(y) <= d
    ensures Abs(x + y) <= b + d
  {
  }

  lemma MulSucc(b: real, n: nat)
    requires n > 0
    ensures b * (n as real) == b * ((n - 1) as real) + b
  {
    assert n as real == (n - 1) as real + 1.0;
  }

  lemma {:induction false} SumAbsBound(f: int -> real, n: nat, b: real)
    requires forall i :: 0 <= i < n ==> Abs(f(i)) <= b
    ensures Abs(Sum(f, n)) <= b * (n as real)
  {
    if n > 0 {
      SumAbsBound(f, n - 1, b);
      MulSucc(b, n);
      var below := b * ((n - 1) as real);
      AbsAdd(Sum(f, n - 1), f(n - 1), below, b);
    }
  }

  /** Interchange of the order of summation: rows[i] sums F(i, .) and cols[j] sums F(., j). */
  lemma {:induction false} SumSwap(F: (int, int) -> real, rows: int -> real, cols: int -> real, m: nat, n: nat)
    requires forall i :: 0 <= i < m ==> rows(i) == Sum(j => F(i, j), n)
    requires forall j :: 0 <= j < n ==> cols(j) == Sum(i => F(i, j), m)
    ensures Sum(rows, m) == Sum(cols, n)
  {
    if m == 0 {
      SumZero(cols, n);
    } else {
      var cols' := j => Sum(i => F(i, j), m - 1);
      SumSwap(F, rows, cols', m - 1, n);
      var last := j => F(m - 1, j);
      forall j | 0 <= j < n
        ensures cols(j) == 1.0 * cols'(j) + 1.0 * last(j)
      {
      }
      SumLinear(cols, 1.0, cols', 1.0, last, n);
      SumCongr(last, j => F(m - 1, j), n);
    }
  }

  /** The function that is v at k and zero elsewhere. */
  function Spike(k: int, v: real): int -> real {
    a => if a == k then v else 0.0
  }

  lemma SumSpike(k: int, v: real, n: nat)
    ensures Sum(Spike(k, v), n) == if 0 <= k < n then v else 0.0
  {
    if 0 <= k < n {
      SumSingle(Spike(k, v), n, k);
    } else {
      SumZero(Spike(k, v), n);
    }
  }

  lemma ThreeSpikes(f: int -> real, n: nat, b: int, x: real, y: real, z: real)
    requires 0 <= b < n && (b == 0 ==> x == 0.0) && (b == n - 1 ==> z == 0.0)
    requires forall a :: 0 <= a < n ==> f(a) == Spike(b - 1, x)(a) + Spike(b, y)(a) + Spike(b + 1, z)(a)
    ensures Sum(f, n) == x + y + z
  {
    var two := a => Spike(b - 1, x)(a) + Spike(b, y)(a);
    SumLinear(two, 1.0, Spike(b - 1, x), 1.0, Spike(b, y), n);
    SumLinear(f, 1.0, two, 1.0, Spike(b + 1, z), n);
    SumSpike(b - 1, x, n);
    SumSpike(b, y, n);
    SumSpike(b + 1, z, n);
  }

  /** Two sums whose terms differ in at most three neighbouring places. */
  lemma {:induction false} SumPatch(f: int -> real, g: int -> real, n: nat, b: int)
    requires 0 < b < n
    requires forall a :: 0 <= a < n && !(b - 1 <= a <= b + 1) ==> f(a) == g(a)
    requires b == n - 1 ==> f(n) == g(n)
    requires f(b - 1) + f(b) + f(b + 1) == g(b - 1) + g(b) + g(b + 1)
    ensures Sum(f, n) == Sum(g, n)
  {
    if n > b + 2 {
      SumPatch(f, g, n - 1, b);
    } else {
      SumCongr(f, g, b - 1);
      assert Sum(f, b + 1) == Sum(f, b - 1) + f(b - 1) + f(b);
      assert Sum(g, b + 1) == Sum(g, b - 1) + g(b - 1) + g(b);
    }
  }

  /** Exchanging two terms does not change a sum. */
  lemma SumExchange(f: int -> real, g: int -> real, n: nat, i: int, k: int)
    requires 0 <= i < k < n
    requires g(i) == f(k) && g(k) == f(i)
    requires forall a :: 0 <= a < n && a != i && a != k ==> g(a) == f(a)
    ensures Sum(g, n) == Sum(f, n)
  {
    hide Sum;
    var low, high := Spike(i, f(k) - f(i)), Spike(k, f(i) - f(k));
    var diff := a => low(a) + high(a);
    SumLinear(diff, 1.0, low, 1.0, high, n);
    SumSpike(i, f(k) - f(i), n);
    SumSpike(k, f(i) - f(k), n);
    SumLinear(g, 1.0, f, 1.0, diff, n);
  }
}
