/** Root finding by Newton steps inside a bracket, with bisection where they do not help. */
module RootFinding {
  import opened RealSums

  /** The function and its derivative. */
  type Func = real -> (real, real)

  function Low(a: real, b: real): real { if a <= b then a else b }

  function High(a: real, b: real): real { if a <= b then b else a }

  predicate Between(a: real, b: real, x: real) { Low(a, b) <= x <= High(a, b) }

  /** The function changes sign from a to b. */
  predicate Brackets(f: Func, a: real, b: real) { f(a).0 < 0.0 <= f(b).0 }

  /** The function and its derivative both vanish at x, where a Newton step is 0 / 0. */
  predicate Flat(f: Func, x: real) { f(x).0 == 0.0 && f(x).1 == 0.0 }

  /** The Newton step stays between a and b, unless it is told to be out of range. */
  lemma NewtonInside(root: real, y: real, dy: real, a: real, b: real)
    requires y != 0.0 || dy != 0.0
    requires Mul((root - b) * dy - y, (root - a) * dy - y) <= 0.0
    ensures dy != 0.0 && Between(a, b, root - y / dy)
  {
    if dy == 0.0 {
      FlatOutOfRange(root, y, a, b);
    } else {
      var next := root - y / dy;
      assert y == (y / dy) * dy;
      Factor(root, y / dy, dy, b);
      Factor(root, y / dy, dy, a);
      MulSame((root - b) * dy - y, (next - b) * dy, (root - a) * dy - y, (next - a) * dy);
      ScaledSigns(next - b, next - a, dy);
    }
  }

  lemma MulSame(a: real, a': real, b: real, b': real)
    requires a == a' && b == b'
    ensures Mul(a, b) == Mul(a', b')
  {
  }

  lemma FlatOutOfRange(root: real, y: real, a: real, b: real)
    requires y != 0.0
    ensures Mul((root - b) * 0.0 - y, (root - a) * 0.0 - y) > 0.0
  {
    assert (root - b) * 0.0 == 0.0 && (root - a) * 0.0 == 0.0;
    MulSame((root - b) * 0.0 - y, -y, (root - a) * 0.0 - y, -y);
    SquarePositive(-y);
    assert Mul(-y, -y) == Square(-y);
  }

  lemma Factor(root: real, q: real, dy: real, b: real)
    ensures (root - b) * dy - q * dy == (root - q - b) * dy
  {
  }

  lemma ScaledSigns(u: real, v: real, d: real)
    requires d != 0.0 && Mul(u * d, v * d) <= 0.0
    ensures (u <= 0.0 <= v) || (v <= 0.0 <= u)
  {
    assert (u * d) * (v * d) == (u * v) * (d * d);
    SquarePositive(d);
    assert d * d > 0.0;
    if u > 0.0 && v > 0.0 {
      MulPositive(u, v);
      MulPositive(u * v, d * d);
    } else if u < 0.0 && v < 0.0 {
      MulPositive(-u, -v);
      assert (-u) * (-v) == u * v;
      MulPositive(u * v, d * d);
    }
  }

  lemma HalfWay(a: real, b: real)
    ensures Between(a, b, a + (b - a) * 0.5) && Between(a, b, (a + b) * 0.5)
    ensures Abs(a + (b - a) * 0.5 - a) == Abs((b - a) * 0.5) == Abs(b - (a + (b - a) * 0.5))
  {
  }

  /** The local variables of the search; the function is negative at x1 and not at x2. */
  datatype Search = Search(x1: real, x2: real, root: real, dx: real, dxPrev: real)

  function Start(a: real, b: real): Search {
    Search(a, b, (a + b) * 0.5, Abs(b - a), Abs(b - a))
  }

  /** Newton's step would leave the bracket, or is not getting shorter fast enough. */
  predicate Refused(x1: real, x2: real, root: real, y: real, dy: real, dxPrev: real) {
    Mul((root - x2) * dy - y, (root - x1) * dy - y) > 0.0 || Abs(2.0 * y) > Abs(dxPrev * dy)
  }

  lemma NotRefused(x1: real, x2: real, root: real, y: real, dy: real, dxPrev: real)
    requires !Refused(x1, x2, root, y, dy, dxPrev) && (y != 0.0 || dy != 0.0)
    ensures dy != 0.0 && Between(x1, x2, root - y / dy)
  {
    NewtonInside(root, y, dy, x1, x2);
  }

  /** A search is never at a flat place; there the next root is of no interest. */
  predicate Bisects(f: Func, s: Search) {
    Flat(f, s.root) || Refused(s.x1, s.x2, s.root, f(s.root).0, f(s.root).1, s.dxPrev)
  }

  function Bisected(s: Search): Search {
    s.(root := s.x1 + (s.x2 - s.x1) * 0.5, dx := (s.x2 - s.x1) * 0.5, dxPrev := s.dx)
  }

  function Stepped(s: Search, y: real, dy: real): Search
    requires dy != 0.0
  {
    s.(root := s.root - y / dy, dx := y / dy, dxPrev := s.dx)
  }

  /** The search with its next root. */
  function Moved(f: Func, s: Search): Search {
    if Bisects(f, s) then Bisected(s)
    else
      NotRefused(s.x1, s.x2, s.root, f(s.root).0, f(s.root).1, s.dxPrev);
      Stepped(s, f(s.root).0, f(s.root).1)
  }

  /** The last step is within the tolerance. */
  predicate Converged(s: Search, xTol: real) {
    Abs(s.dx) <= Mul(xTol, Abs(s.root))
  }

  /** The bracket with the root as its new end. */
  function Narrowed(f: Func, s: Search): Search {
    if f(s.root).0 < 0.0 then s.(x1 := s.root) else s.(x2 := s.root)
  }

  /** The search from the bracket a, b after k steps without convergence. */
  function After(f: Func, a: real, b: real, k: nat): Search {
    if k == 0 then Start(a, b) else Narrowed(f, Moved(f, After(f, a, b, k - 1)))
  }

  /** Step k is the first that converges. */
  ghost predicate FirstConverged(f: Func, a: real, b: real, xTol: real, k: nat) {
    && Converged(Moved(f, After(f, a, b, k)), xTol)
    && NoneConverged(f, a, b, xTol, k)
  }

  /** None of the first n steps converges. */
  ghost predicate NoneConverged(f: Func, a: real, b: real, xTol: real, n: nat) {
    forall k: nat {:trigger After(f, a, b, k)} :: k < n ==> !Converged(Moved(f, After(f, a, b, k)), xTol)
  }

  /** As long as it has not converged, the search meets no place where the function and its
      derivative both vanish. */
  ghost predicate NeverFlat(f: Func, a: real, b: real, xTol: real, maxIter: nat) {
    forall k: nat {:trigger After(f, a, b, k)} ::
      k < maxIter && NoneConverged(f, a, b, xTol, k) ==> !Flat(f, After(f, a, b, k).root)
  }

  /** The next root stays in the bracket; a bisection puts it as far from either end as the
      step is long, and the other step is Newton's. */
  lemma MovedInside(f: Func, s: Search)
    ensures Between(s.x1, s.x2, Moved(f, s).root)
    ensures Bisects(f, s) ==>
              Abs(s.x1 - Moved(f, s).root) == Abs(s.x2 - Moved(f, s).root) == Abs(Moved(f, s).dx)
    ensures !Bisects(f, s) ==> f(s.root).1 != 0.0 && Moved(f, s).dx == f(s.root).0 / f(s.root).1
  {
    if Bisects(f, s) {
      HalfWay(s.x1, s.x2);
    } else {
      NotRefused(s.x1, s.x2, s.root, f(s.root).0, f(s.root).1, s.dxPrev);
    }
  }

  /** A Newton step is taken if it ends between the ends of the bracket and is at most half as
      long as the step before the last one; otherwise the bracket is halved. */
  lemma StepTaken(f: Func, s: Search)
    requires f(s.root).0 != 0.0 || f(s.root).1 != 0.0
    ensures var m := Moved(f, s); m.x1 == s.x1 && m.x2 == s.x2 && m.dxPrev == s.dx
    ensures var y, dy := f(s.root).0, f(s.root).1; var m := Moved(f, s);
            if Mul((s.root - s.x2) * dy - y, (s.root - s.x1) * dy - y) <= 0.0 && Abs(2.0 * y) <= Abs(s.dxPrev * dy)
            then dy != 0.0 && m.dx == y / dy && m.root == s.root - y / dy && Abs(m.dx) <= Abs(s.dxPrev) * 0.5
            else m.dx == (s.x2 - s.x1) * 0.5 && m.root == s.x1 + (s.x2 - s.x1) * 0.5
  {
    hide Mul;
    BisectsWhen(f, s);
    hide Refused, Bisects;
    if !Bisects(f, s) {
      MovedInside(f, s);
      NewtonHalves(f, s);
    }
  }

  lemma BisectsWhen(f: Func, s: Search)
    requires f(s.root).0 != 0.0 || f(s.root).1 != 0.0
    ensures var y, dy := f(s.root).0, f(s.root).1;
            Bisects(f, s) <==> Mul((s.root - s.x2) * dy - y, (s.root - s.x1) * dy - y) > 0.0
                               || Abs(2.0 * y) > Abs(s.dxPrev * dy)
  {
    RefusedIs(s.x1, s.x2, s.root, f(s.root).0, f(s.root).1, s.dxPrev);
  }

  lemma RefusedIs(x1: real, x2: real, root: real, y: real, dy: real, dxPrev: real)
    ensures Refused(x1, x2, root, y, dy, dxPrev) <==>
            Mul((root - x2) * dy - y, (root - x1) * dy - y) > 0.0 || Abs(2.0 * y) > Abs(dxPrev * dy)
  {
  }

  /** The search starts in the middle of its bracket, with the whole of it as the last two steps,
      and the end on its own side of zero gives way to every new root. */
  lemma SearchGoesOn(f: Func, a: real, b: real, k: nat)
    ensures After(f, a, b, 0) == Search(a, b, (a + b) / 2.0, Abs(b - a), Abs(b - a))
    ensures var m, s := Moved(f, After(f, a, b, k)), After(f, a, b, k + 1);
            s == if f(m.root).0 < 0.0 then m.(x1 := m.root) else m.(x2 := m.root)
  {
  }

  /** Every step keeps a sign change between the ends, and ends and root inside the starting
      bracket. */
  lemma {:induction false} AfterInside(f: Func, a: real, b: real, k: nat)
    requires Brackets(f, a, b)
    ensures var s := After(f, a, b, k);
            Brackets(f, s.x1, s.x2) && Between(a, b, s.x1) && Between(a, b, s.x2) && Between(a, b, s.root)
  {
    if k == 0 {
      HalfWay(a, b);
    } else {
      AfterInside(f, a, b, k - 1);
      MovedInside(f, After(f, a, b, k - 1));
    }
  }

  /** What convergence means: the root lies between two points of opposite sign inside the
      starting bracket, and the last step, within the tolerance, is the distance to both of
      them or the Newton step from a point of that bracket. */
  lemma ConvergedRoot(f: Func, a: real, b: real, xTol: real, k: nat)
    requires Brackets(f, a, b) && Converged(Moved(f, After(f, a, b, k)), xTol)
    ensures var s, m := After(f, a, b, k), Moved(f, After(f, a, b, k));
            && Brackets(f, s.x1, s.x2) && Between(a, b, s.x1) && Between(a, b, s.x2) && Between(s.x1, s.x2, m.root)
            && (Bisects(f, s) ==> Abs(s.x1 - m.root) == Abs(s.x2 - m.root) <= Mul(xTol, Abs(m.root)))
            && (!Bisects(f, s) ==> Between(a, b, s.root) && f(s.root).1 != 0.0
                                   && Abs(f(s.root).0 / f(s.root).1) <= Mul(xTol, Abs(m.root)))
  {
    hide Moved, Bisects, Brackets;
    AfterInside(f, a, b, k);
    MovedInside(f, After(f, a, b, k));
  }

  function Width(s: Search): real {
    Abs(s.x2 - s.x1)
  }

  /** No step widens the bracket, and a bisection halves it. */
  lemma WidthShrinks(f: Func, a: real, b: real, k: nat)
    requires Brackets(f, a, b)
    ensures Width(After(f, a, b, k + 1)) <= Width(After(f, a, b, k))
    ensures Bisects(f, After(f, a, b, k)) ==> Width(After(f, a, b, k + 1)) == Width(After(f, a, b, k)) * 0.5
  {
    AfterInside(f, a, b, k);
    MovedInside(f, After(f, a, b, k));
  }

  function Halved(w: real, k: nat): real {
    if k == 0 then w else Halved(w, k - 1) * 0.5
  }

  lemma {:induction false} BisectedWidth(f: Func, a: real, b: real, k: nat)
    requires Brackets(f, a, b)
    requires forall j: nat {:trigger After(f, a, b, j)} :: j < k ==> Bisects(f, After(f, a, b, j))
    ensures Width(After(f, a, b, k)) == Halved(Abs(b - a), k)
  {
    if k > 0 {
      BisectedWidth(f, a, b, k - 1);
      WidthShrinks(f, a, b, k - 1);
    }
  }

  /** While Newton steps are refused, the search converges as fast as halving does: when the
      starting bracket, halved k + 1 times, is within the tolerance of its end nearest to zero,
      one of the first k + 1 steps converges. */
  lemma BisectionEnds(f: Func, a: real, b: real, xTol: real, k: nat, least: real)
    requires Brackets(f, a, b) && xTol >= 0.0
    requires forall j: nat {:trigger After(f, a, b, j)} :: j <= k ==> Bisects(f, After(f, a, b, j))
    requires forall x :: Between(a, b, x) ==> least <= Abs(x)
    requires Halved(Abs(b - a), k + 1) <= Mul(xTol, least)
    ensures !NoneConverged(f, a, b, xTol, k + 1)
  {
    var s := After(f, a, b, k);
    BisectedWidth(f, a, b, k);
    AfterInside(f, a, b, k);
    MovedInside(f, s);
    HalfWay(s.x1, s.x2);
    MulGrows(xTol, least, Abs(Moved(f, s).root));
    assert Converged(Moved(f, s), xTol);
  }

  lemma MulGrows(t: real, x: real, y: real)
    requires t >= 0.0 && x <= y
    ensures Mul(t, x) <= Mul(t, y)
  {
    assert t * (y - x) >= 0.0;
  }

  lemma {:induction false} HalvedOrder(w: real, j: nat, k: nat)
    requires w >= 0.0 && j <= k
    ensures 0.0 <= Halved(w, k) <= Halved(w, j)
    decreases k
  {
    if j < k {
      HalvedOrder(w, j, k - 1);
    } else if k > 0 {
      HalvedOrder(w, j - 1, k - 1);
    }
  }

  /** After i bisections, and r Newton steps since the last of them, the bracket has been
      halved i times and the last two steps about r / 2 times. */
  ghost predicate Shrunk(s: Search, w: real, i: nat, r: nat) {
    Width(s) <= Halved(w, i) && Abs(s.dx) <= Halved(w, (r + 1) / 2) && Abs(s.dxPrev) <= Halved(w, r / 2)
  }

  /** An accepted Newton step is at most half as long as the step before the last. */
  lemma NewtonHalves(f: Func, s: Search)
    requires !Bisects(f, s)
    ensures Abs(Moved(f, s).dx) <= Abs(s.dxPrev) * 0.5
  {
    var (y, dy) := f(s.root);
    NotRefused(s.x1, s.x2, s.root, y, dy, s.dxPrev);
    var q := y / dy;
    assert y == q * dy;
    QuotientHalves(q, dy, s.dxPrev);
  }

  lemma QuotientHalves(q: real, dy: real, d: real)
    requires dy != 0.0 && Abs(2.0 * (q * dy)) <= Abs(d * dy)
    ensures Abs(q) <= Abs(d) * 0.5
  {
    AbsTimes(q, dy);
    AbsTimes(d, dy);
    assert Abs(2.0 * (q * dy)) == 2.0 * Abs(q * dy);
    Spread(Abs(q), Abs(d), Abs(dy));
    CancelFactor(Abs(dy), Abs(q), Abs(d) * 0.5);
  }

  lemma CancelFactor(t: real, x: real, y: real)
    requires t > 0.0 && Mul(t, x) <= Mul(t, y)
    ensures x <= y
  {
    assert Mul(t, x - y) == Mul(t, x) - Mul(t, y);
    if x > y {
      MulPositive(t, x - y);
    }
  }

  lemma Spread(q: real, d: real, y: real)
    ensures Mul(y, q) == Mul(q, y) && Mul(y, d * 0.5) == Mul(d, y) * 0.5
  {
  }

  lemma AbsTimes(x: real, y: real)
    ensures Abs(x * y) == Mul(Abs(x), Abs(y))
  {
    assert x * y == (-x) * (-y) && x * y == -((-x) * y) && x * y == -(x * (-y));
    if x >= 0.0 && y >= 0.0 {
      assert x * y >= 0.0;
    } else if x < 0.0 && y < 0.0 {
      assert (-x) * (-y) >= 0.0;
    } else if x < 0.0 {
      assert (-x) * y >= 0.0;
    } else {
      assert x * (-y) >= 0.0;
    }
  }

  lemma ShrinkStep(f: Func, a: real, b: real, k: nat, i: nat, r: nat)
    requires Brackets(f, a, b) && Shrunk(After(f, a, b, k), Abs(b - a), i, r)
    ensures var s, w := After(f, a, b, k + 1), Abs(b - a);
            && s.dx == Moved(f, After(f, a, b, k)).dx
            && (Bisects(f, After(f, a, b, k)) ==> Shrunk(s, w, i + 1, 0) && Abs(s.dx) <= Halved(w, i + 1))
            && (!Bisects(f, After(f, a, b, k)) ==> Shrunk(s, w, i, r + 1) && Abs(s.dx) <= Halved(w, (r + 2) / 2))
  {
    hide Refused, Brackets;
    var s, w := After(f, a, b, k), Abs(b - a);
    WidthShrinks(f, a, b, k);
    if Bisects(f, s) {
      HalvedOrder(w, 0, i + 1);
      HalvedOrder(w, 0, (r + 1) / 2);
    } else {
      NewtonHalves(f, s);
    }
  }

  /** What is above the bound that m halvings of w reach has not been halved as often. */
  lemma FewHalvings(w: real, m: nat, n: nat, x: real, bound: real)
    requires w >= 0.0 && Halved(w, m) <= bound < x <= Halved(w, n)
    ensures n < m
  {
    if n >= m {
      HalvedOrder(w, m, n);
    }
  }

  /** While no step converges, there have been fewer than m bisections and fewer than 2m - 1
      Newton steps after each of them. */
  lemma {:induction false} SearchShrinks(f: Func, a: real, b: real, xTol: real, least: real, m: nat, k: nat)
    returns (i: nat, r: nat)
    requires Brackets(f, a, b) && xTol >= 0.0 && (forall x :: Between(a, b, x) ==> least <= Abs(x))
    requires m > 0 && Halved(Abs(b - a), m) <= Mul(xTol, least) && NoneConverged(f, a, b, xTol, k)
    ensures Shrunk(After(f, a, b, k), Abs(b - a), i, r)
    ensures i < m && r <= 2 * m - 2 && k <= Runs(i, m) + r
  {
    hide Brackets, Between, After, Moved, Shrunk, Bisects, Converged, Runs, Mul;
    if k == 0 {
      i, r := 0, 0;
      StartShrunk(f, a, b);
      NoRuns(m);
    } else {
      i, r := SearchShrinks(f, a, b, xTol, least, m, k - 1);
      ShrinkStep(f, a, b, k - 1, i, r);
      StillLong(f, a, b, xTol, least, k - 1);
      var s, w := After(f, a, b, k), Abs(b - a);
      if Bisects(f, After(f, a, b, k - 1)) {
        FewHalvings(w, m, i + 1, Abs(s.dx), Mul(xTol, least));
        NextRun(i, m, r, k);
        i, r := i + 1, 0;
      } else {
        FewHalvings(w, m, (r + 2) / 2, Abs(s.dx), Mul(xTol, least));
        r := r + 1;
      }
    }
  }

  /** Steps in i runs of at most 2m - 2 Newton steps, with the bisections that end them. */
  function Runs(i: nat, m: nat): int { i * (2 * m - 1) }

  lemma NoRuns(m: nat)
    ensures Runs(0, m) == 0
  {
  }

  lemma StartShrunk(f: Func, a: real, b: real)
    ensures Shrunk(After(f, a, b, 0), Abs(b - a), 0, 0)
  {
  }

  lemma NextRun(i: nat, m: nat, r: nat, k: nat)
    requires r <= 2 * m - 2 && k - 1 <= Runs(i, m) + r
    ensures k <= Runs(i + 1, m)
  {
    assert (i + 1) * (2 * m - 1) == i * (2 * m - 1) + (2 * m - 1);
  }

  /** A step that does not converge is longer than the tolerance at the end nearest to zero. */
  lemma StillLong(f: Func, a: real, b: real, xTol: real, least: real, k: nat)
    requires Brackets(f, a, b) && xTol >= 0.0 && (forall x :: Between(a, b, x) ==> least <= Abs(x))
    requires !Converged(Moved(f, After(f, a, b, k)), xTol)
    ensures Abs(Moved(f, After(f, a, b, k)).dx) > Mul(xTol, least)
  {
    hide Moved, Brackets, Mul;
    var s := After(f, a, b, k);
    AfterInside(f, a, b, k);
    MovedInside(f, s);
    MulGrows(xTol, least, Abs(Moved(f, s).root));
  }

  /** The search ends for every function: when the starting bracket, halved m times, is within
      the tolerance of its end nearest to zero, one of the first m (2m - 1) steps converges. */
  lemma SearchEnds(f: Func, a: real, b: real, xTol: real, least: real, m: nat)
    requires Brackets(f, a, b) && xTol >= 0.0 && (forall x :: Between(a, b, x) ==> least <= Abs(x))
    requires m > 0 && Halved(Abs(b - a), m) <= Mul(xTol, least)
    ensures !NoneConverged(f, a, b, xTol, m * (2 * m - 1))
  {
    if NoneConverged(f, a, b, xTol, m * (2 * m - 1)) {
      var i, r := SearchShrinks(f, a, b, xTol, least, m, m * (2 * m - 1));
      LastRun(i, m);
    }
  }

  lemma LastRun(i: nat, m: nat)
    requires i < m
    ensures Runs(i, m) + (2 * m - 2) < Runs(m, m)
  {
    MoreRuns(i + 1, m, m);
    assert Runs(i + 1, m) == Runs(i, m) + (2 * m - 1);
  }

  lemma {:induction false} MoreRuns(i: nat, j: nat, m: nat)
    requires i <= j && m > 0
    ensures Runs(i, m) <= Runs(j, m)
    decreases j
  {
    if i < j {
      MoreRuns(i, j - 1, m);
      assert Runs(j, m) == Runs(j - 1, m) + (2 * m - 1);
    }
  }

  /** Halvings that bring w down to e, and the steps that suffice for a search then. */
  function Halvings(w: real, e: real): nat
    requires w >= 0.0 && e > 0.0
  {
    PositiveQuotient(w, e);
    (w / e).Floor + 1
  }

  function EnoughSteps(w: real, e: real): nat
    requires w >= 0.0 && e > 0.0
  {
    Halvings(w, e) * (2 * Halvings(w, e) - 1)
  }

  lemma PositiveQuotient(w: real, e: real)
    requires w >= 0.0 && e > 0.0
    ensures w / e >= 0.0
  {
  }

  lemma {:induction false} HalvedBound(w: real, m: nat)
    requires w >= 0.0
    ensures 0.0 <= Halved(w, m) && Mul((m + 1) as real, Halved(w, m)) <= w
  {
    if m > 0 {
      HalvedBound(w, m - 1);
      HalfStep(m as real, Halved(w, m - 1));
    }
  }

  lemma HalfStep(m: real, h: real)
    requires m >= 1.0 && h >= 0.0
    ensures Mul(m + 1.0, h * 0.5) <= Mul(m, h)
  {
    assert (m - 1.0) * h >= 0.0;
    assert (m + 1.0) * (h * 0.5) == m * h - (m - 1.0) * h * 0.5;
  }

  lemma HalvingsSuffice(w: real, e: real)
    requires w >= 0.0 && e > 0.0
    ensures Halvings(w, e) > 0 && Halved(w, Halvings(w, e)) <= e
  {
    var m := Halvings(w, e);
    HalvedBound(w, m);
    assert w / e < m as real;
    assert w == (w / e) * e;
    TimesLess(w / e, (m + 1) as real, e);
    CancelFactor((m + 1) as real, Halved(w, m), e);
  }

  lemma TimesLess(x: real, y: real, e: real)
    requires x <= y && e > 0.0
    ensures x * e <= Mul(y, e)
  {
    MulGrows(e, x, y);
  }

  /** With a positive tolerance and a bracket away from zero, enough iterations never fail, and
      how many are enough depends on the bracket and the tolerance alone. */
  lemma NeverFails(f: Func, a: real, b: real, xTol: real, least: real, maxIter: nat, root: real, fail: bool)
    requires Brackets(f, a, b) && xTol > 0.0 && least > 0.0 && (forall x :: Between(a, b, x) ==> least <= Abs(x))
    requires Mul(xTol, least) > 0.0 && maxIter >= EnoughSteps(Abs(b - a), Mul(xTol, least))
    requires Outcome(f, a, b, xTol, maxIter, root, fail)
    ensures !fail
  {
    var m := Halvings(Abs(b - a), Mul(xTol, least));
    HalvingsSuffice(Abs(b - a), Mul(xTol, least));
    SearchEnds(f, a, b, xTol, least, m);
  }

  /** The ends do not have opposite signs, nor is one of them a zero. */
  predicate SameSign(y1: real, y2: real) {
    (y1 > 0.0 && y2 > 0.0) || (y1 < 0.0 && y2 < 0.0)
  }

  /** The end where the function is negative, and the other one. */
  function Negative(x1: real, y1: real, x2: real): real { if y1 > 0.0 then x2 else x1 }

  function Positive(x1: real, y1: real, x2: real): real { if y1 > 0.0 then x1 else x2 }

  /** The search fails on ends of the same sign, returns an end that is a zero, and otherwise
      fails exactly when none of maxIter steps converges; it returns the root of the first
      step that does. */
  method FindRoot(f: Func, x1: real, y1: real, x2: real, y2: real, xTol: real, maxIter: nat)
    returns (root: real, fail: bool)
    requires y1 == f(x1).0 && y2 == f(x2).0
    requires y1 * y2 < 0.0 ==> NeverFlat(f, Negative(x1, y1, x2), Positive(x1, y1, x2), xTol, maxIter)
    ensures SameSign(y1, y2) ==> fail && root == 0.0
    ensures y1 == 0.0 || y2 == 0.0 ==> !fail && f(root).0 == 0.0 && root == if y1 == 0.0 then x1 else x2
    ensures y1 * y2 < 0.0 ==>
              Outcome(f, Negative(x1, y1, x2), Positive(x1, y1, x2), xTol, maxIter, root, fail)
    ensures y1 * y2 < 0.0 ==>
              Between(x1, x2, root) && Brackets(f, Negative(x1, y1, x2), Positive(x1, y1, x2))
  {
    hide Outcome, NeverFlat;
    EndsBracket(f, x1, y1, x2, y2);
    if (y1 > 0.0 && y2 > 0.0) || (y1 < 0.0 && y2 < 0.0) {
      ProductSign(y1, y2);
      return 0.0, true;
    }
    if y1 == 0.0 {
      return x1, false;
    }
    if y2 == 0.0 {
      return x2, false;
    }
    if y1 > 0.0 {
      root, fail := Refine(f, x2, x1, xTol, maxIter);
    } else {
      root, fail := Refine(f, x1, x2, xTol, maxIter);
    }
    OutcomeInside(f, Negative(x1, y1, x2), Positive(x1, y1, x2), xTol, maxIter, root, fail);
  }

  /** The function is negative at the one end and positive at the other. */
  lemma EndsBracket(f: Func, x1: real, y1: real, x2: real, y2: real)
    requires y1 == f(x1).0 && y2 == f(x2).0
    ensures var a, b := Negative(x1, y1, x2), Positive(x1, y1, x2);
            && ((a == x1 && b == x2) || (a == x2 && b == x1))
            && (y1 * y2 < 0.0 <==> f(a).0 < 0.0 < f(b).0)
  {
    OppositeSigns(y1, y2);
  }

  lemma OppositeSigns(x: real, y: real)
    ensures x * y < 0.0 <==> (x < 0.0 < y) || (y < 0.0 < x)
  {
    if x > 0.0 && y < 0.0 {
      MulPositive(x, -y);
    } else if x < 0.0 && y > 0.0 {
      MulPositive(-x, y);
    } else if x > 0.0 && y > 0.0 {
      MulPositive(x, y);
    } else if x < 0.0 && y < 0.0 {
      MulPositive(-x, -y);
    }
  }

  /** Wherever it ends, the root is in the bracket. */
  lemma OutcomeInside(f: Func, a: real, b: real, xTol: real, maxIter: nat, root: real, fail: bool)
    requires Brackets(f, a, b) && Outcome(f, a, b, xTol, maxIter, root, fail)
    ensures Between(a, b, root)
  {
    hide Moved, Converged;
    AfterInside(f, a, b, maxIter);
    if !fail {
      var k: nat {:trigger After(f, a, b, k)} :| k < maxIter && FirstConverged(f, a, b, xTol, k)
        && root == Moved(f, After(f, a, b, k)).root;
      AfterInside(f, a, b, k);
      MovedInside(f, After(f, a, b, k));
    }
  }

  lemma ProductSign(y1: real, y2: real)
    ensures y1 * y2 > 0.0 <==> SameSign(y1, y2)
  {
    if SameSign(y1, y2) {
      MulPositive(Abs(y1), Abs(y2));
      assert Abs(y1) * Abs(y2) == y1 * y2;
    }
  }

  /** How the loop ends from the bracket a, b. */
  ghost predicate Outcome(f: Func, a: real, b: real, xTol: real, maxIter: nat, root: real, fail: bool) {
    && (fail <==> NoneConverged(f, a, b, xTol, maxIter))
    && (fail ==> root == After(f, a, b, maxIter).root)
    && (!fail ==> exists k: nat {:trigger After(f, a, b, k)} ::
          k < maxIter && FirstConverged(f, a, b, xTol, k) && root == Moved(f, After(f, a, b, k)).root)
  }

  /** The loop, from a bracket a, b with the function negative at a. */
  method Refine(f: Func, a: real, b: real, xTol: real, maxIter: nat) returns (root: real, fail: bool)
    requires NeverFlat(f, a, b, xTol, maxIter)
    ensures Outcome(f, a, b, xTol, maxIter, root, fail)
  {
    hide Refused, Mul, Abs, Between;
    var x1, x2 := a, b;
    root := (x1 + x2) * 0.5;
    var dxPrev := Abs(x2 - x1);
    var dx := dxPrev;
    var (y, dy) := f(root);
    for iter := 0 to maxIter
      invariant Search(x1, x2, root, dx, dxPrev) == After(f, a, b, iter)
      invariant y == f(root).0 && dy == f(root).1
      invariant NoneConverged(f, a, b, xTol, iter)
    {
      ghost var s := After(f, a, b, iter);
      if Refused(x1, x2, root, y, dy, dxPrev) {
        dxPrev := dx;
        dx := (x2 - x1) * 0.5;
        root := x1 + dx;
      } else {
        NotRefused(x1, x2, root, y, dy, dxPrev);
        dxPrev := dx;
        dx := y / dy;
        root := root - dx;
      }
      assert Search(x1, x2, root, dx, dxPrev) == Moved(f, s);
      if Abs(dx) <= Mul(xTol, Abs(root)) {
        return root, false;
      }
      var value := f(root);
      y, dy := value.0, value.1;
      if y < 0.0 {
        x1 := root;
      } else {
        x2 := root;
      }
    }
    return root, true;
  }

  /** The form that evaluates the function at the ends itself. */
  method FindRootIn(f: Func, x1: real, x2: real, xTol: real, maxIter: nat)
    returns (root: real, fail: bool)
    requires f(x1).0 * f(x2).0 < 0.0 ==>
               NeverFlat(f, Negative(x1, f(x1).0, x2), Positive(x1, f(x1).0, x2), xTol, maxIter)
    ensures f(x1).0 * f(x2).0 > 0.0 ==> fail && root == 0.0
    ensures f(x1).0 * f(x2).0 == 0.0 ==> !fail && f(root).0 == 0.0
    ensures f(x1).0 * f(x2).0 < 0.0 ==>
              Outcome(f, Negative(x1, f(x1).0, x2), Positive(x1, f(x1).0, x2), xTol, maxIter, root, fail)
  {
    var y1, y2 := f(x1).0, f(x2).0;
    root, fail := FindRoot(f, x1, y1, x2, y2, xTol, maxIter);
    ProductSign(y1, y2);
    ZeroProduct(y1, y2);
  }

  lemma ZeroProduct(y1: real, y2: real)
    ensures y1 * y2 == 0.0 <==> y1 == 0.0 || y2 == 0.0
  {
  }
}
