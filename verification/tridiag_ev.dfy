/** The eigenvalue routine itself, in place in the arrays of its caller. */
module TridiagEV {
  import opened RealSums
  import opened Tridiagonal
  import opened TridiagSweeps

  const MAX_N := 32

  /** The array v holds the matrix V. */
  ghost predicate Holds(v: array2<real>, n: nat, V: Matrix)
    reads v
  {
    && n <= v.Length0 && n <= v.Length1
    && forall a, k {:trigger v[a, k]} :: 0 <= a < n && 0 <= k < n ==> v[a, k] == V(a, k)
  }

  /** Turns rows i-1 and i of v. */
  method TurnRows(v: array2<real>, n: nat, i: nat, s: real, c: real, ghost V: Matrix)
    requires Holds(v, n, V) && 1 <= i < n
    modifies v
    ensures Holds(v, n, Rotated(V, i, s, c))
  {
    for k := 0 to n
      invariant forall a, l {:trigger v[a, l]} :: 0 <= a < n && 0 <= l < n ==>
                  v[a, l] == if l < k then Rotated(V, i, s, c)(a, l) else V(a, l)
    {
      var f := v[i - 1, k];
      v[i - 1, k] := s * v[i, k] + c * f;
      v[i, k] := c * v[i, k] - s * f;
    }
  }

  /** The state of a sweep before the rotation of rows i-1 and i. */
  ghost function StateOf(d: array<real>, e: array<real>, n: nat, i: int, p: real, g: real, s: real, c: real): Sweep
    requires n <= d.Length && n <= e.Length
    reads d, e
  {
    Sweep(d[..n], e[..n], i, p, g, s, c)
  }

  /** Diagonal and links in the work arrays. */
  ghost function LinksOf(d: array<real>, e: array<real>, n: nat): (l: Links)
    requires n <= d.Length && n <= e.Length
    reads d, e
    ensures l.Sized(n)
  {
    Links(d[..n], e[..n])
  }

  /** One rotation of a sweep; it stops when there is nothing left to rotate. */
  method Turn(n: nat, h: nat, i: nat, d: array<real>, e: array<real>, v: array2<real>,
              p: real, g: real, s: real, c: real, root: real -> real, ghost V: Matrix)
    returns (stop: bool, p1: real, g1: real, s1: real, c1: real)
    requires 1 <= i <= h < n <= d.Length && n <= e.Length && d != e
    requires Holds(v, n, V)
    modifies d, e, v
    ensures stop <==> Length(old(StateOf(d, e, n, i, p, g, s, c)), root) == 0.0
    ensures !stop ==> StateOf(d, e, n, i + 1, p1, g1, s1, c1) == Turned(old(StateOf(d, e, n, i, p, g, s, c)), root)
                      && Holds(v, n, Rotated(V, i, s1, c1))
    ensures stop ==> LinksOf(d, e, n) == Stopped(old(StateOf(d, e, n, i, p, g, s, c))) && Holds(v, n, V)
  {
    hide Holds, BlockTurn, Square, Mul;
    p1, g1, s1, c1 := p, g, s, c;
    var f, b := Mul(s, e[i]), Mul(c, e[i]);
    var r := root(Square(f) + Square(g));
    e[i - 1] := r;
    stop := r == 0.0;
    if stop {
      d[i - 1] := d[i - 1] - p;
      e[0] := 0.0;
    } else {
      s1, c1 := Over(f, r), Over(g, r);
      var g0 := d[i - 1] - p;
      var turn := BlockTurn(g0, d[i], b, s1, c1);
      p1, g1 := turn.0, turn.1;
      d[i - 1] := g0 + p1;
      TurnRows(v, n, i, s1, c1, V);
    }
  }

  /** One sweep of rotations over the rows 0 .. h.  It either completes, and is then an
      orthogonal change of basis, or it runs into a zero link. */
  method SweepRows(n: nat, h: nat, d: array<real>, e: array<real>, v: array2<real>, root: real -> real, ghost V: Matrix)
    returns (complete: bool, ghost V1: Matrix)
    requires 1 <= h < n <= d.Length && n <= e.Length && d != e && IsSquareRoot(root)
    requires Holds(v, n, V) && RowsOrthonormal(V, n) && ColsOrthonormal(V, n)
    requires !Negligible(e[h])
    modifies d, e, v
    ensures Holds(v, n, V1) && RowsOrthonormal(V1, n) && ColsOrthonormal(V1, n)
    ensures LinksOf(d, e, n) == Swept(old(LinksOf(d, e, n)), h, root)
    ensures Trace(d[..n]) == old(Trace(d[..n]))
    ensures complete <==> Completes(old(LinksOf(d, e, n)), h, root)
    ensures complete ==> Same(FormOf(d[..n], e[..n], h, V1, n), FormOf(old(d[..n]), old(e[..n]), h, V, n), n)
    ensures !complete ==> Stuck(e[..n], h)
  {
    hide Holds, Shift, Length, Turned, Sweeping;
    V1 := V;
    var g := Shift(d[0], d[h - 1], d[h], e[h], root);
    var s, c, p := 1.0, 1.0, 0.0;
    ghost var base, trace := FormOf(d[..n], e[..n], h, V, n), Trace(d[..n]);
    StartSweeping(d[..n], e[..n], g, h, V, n);
    var i := 1;
    while i <= h
      invariant 1 <= i <= h + 1 && (i == 1 ==> s == 1.0)
      invariant Holds(v, n, V1) && RowsOrthonormal(V1, n) && ColsOrthonormal(V1, n)
      invariant Sweeping(StateOf(d, e, n, i, p, g, s, c), h, V1, n, base, trace)
      invariant i <= h ==> !Negligible(e[h])
      invariant RunFrom(StateOf(d, e, n, i, p, g, s, c), h, root) == Swept(old(LinksOf(d, e, n)), h, root)
      invariant RunsThrough(StateOf(d, e, n, i, p, g, s, c), h, root) <==> Completes(old(LinksOf(d, e, n)), h, root)
    {
      var stop;
      stop, p, g, s, c, V1 := TurnStep(n, h, i, d, e, v, p, g, s, c, root, V1, base, trace);
      if stop {
        return false, V1;
      }
      i := i + 1;
    }
    EndSweep(n, h, d, e, p, g, s, c, V1, base, trace);
    complete := true;
  }

  method EndSweep(n: nat, h: nat, d: array<real>, e: array<real>, p: real, g: real, s: real, c: real,
                  ghost V: Matrix, ghost base: Matrix, ghost trace: real)
    requires 1 <= h < n <= d.Length && n <= e.Length && d != e
    requires Sweeping(StateOf(d, e, n, h + 1, p, g, s, c), h, V, n, base, trace)
    modifies d, e
    ensures LinksOf(d, e, n) == Ended(old(StateOf(d, e, n, h + 1, p, g, s, c)), h)
    ensures Same(FormOf(d[..n], e[..n], h, V, n), base, n) && Trace(d[..n]) == trace
  {
    ghost var w := StateOf(d, e, n, h + 1, p, g, s, c);
    d[h] := d[h] - p;
    e[h] := g;
    e[0] := 0.0;
    EndSweeping(w, d[..n], e[..n], h, V, n, base, trace);
  }

  /** One rotation with what it keeps. */
  method TurnStep(n: nat, h: nat, i: nat, d: array<real>, e: array<real>, v: array2<real>,
                  p: real, g: real, s: real, c: real, root: real -> real, ghost V: Matrix, ghost base: Matrix,
                  ghost trace: real)
    returns (stop: bool, p1: real, g1: real, s1: real, c1: real, ghost V1: Matrix)
    requires 1 <= i <= h < n <= d.Length && n <= e.Length && d != e
    requires Holds(v, n, V) && RowsOrthonormal(V, n) && ColsOrthonormal(V, n) && IsSquareRoot(root)
    requires Sweeping(StateOf(d, e, n, i, p, g, s, c), h, V, n, base, trace)
    requires !Negligible(e[h]) && (i == 1 ==> s == 1.0)
    modifies d, e, v
    ensures Holds(v, n, V1) && RowsOrthonormal(V1, n) && ColsOrthonormal(V1, n)
    ensures stop <==> Length(old(StateOf(d, e, n, i, p, g, s, c)), root) == 0.0
    ensures !stop ==> StateOf(d, e, n, i + 1, p1, g1, s1, c1) == Turned(old(StateOf(d, e, n, i, p, g, s, c)), root)
                      && Sweeping(StateOf(d, e, n, i + 1, p1, g1, s1, c1), h, V1, n, base, trace)
                      && e[h] == old(e[h])
    ensures stop ==> LinksOf(d, e, n) == Stopped(old(StateOf(d, e, n, i, p, g, s, c)))
                     && Trace(d[..n]) == trace && Stuck(e[..n], h)
  {
    ghost var w := StateOf(d, e, n, i, p, g, s, c);
    stop, p1, g1, s1, c1 := Turn(n, h, i, d, e, v, p, g, s, c, root, V);
    if stop {
      V1 := V;
      LengthZero(w, root);
      StoppedIsStuck(w, h);
      TraceUpdate(w.d, i - 1, w.d[i - 1] - p);
    } else {
      V1 := Rotated(V, i, s1, c1);
      TurnedIsTurn(w, h, n, root);
      TurnKeepsSweeping(w, Turned(w, root), Length(w, root), h, V, n, base, trace);
    }
  }

  /** The rows of v hold orthonormal vectors in which m is the spectral matrix of d, up to bound. */
  ghost predicate Diagonalizes(m: Matrix, d: seq<real>, V: Matrix, bound: real, n: nat) {
    RowsOrthonormal(V, n) && ColsOrthonormal(V, n) && Near(m, Spectral(d, V, n), bound, n)
  }

  lemma DiagonalBasis(m: Matrix, d: seq<real>, V: Matrix, bound: real, n: nat)
    requires Diagonalizes(m, d, V, bound, n)
    ensures RowsOrthonormal(V, n) && ColsOrthonormal(V, n)
  {
  }

  /** Reduces the link of row h by sweeps until it is negligible. */
  method ClearLink(n: nat, h: nat, d: array<real>, e: array<real>, v: array2<real>, root: real -> real,
                   ghost V: Matrix, ghost m: Matrix, ghost bound: real)
    returns (ok: bool, ghost V1: Matrix)
    requires 1 <= h < n <= d.Length && n <= e.Length && d != e && IsSquareRoot(root)
    requires Holds(v, n, V) && RowsOrthonormal(V, n) && ColsOrthonormal(V, n)
    requires Near(m, FormOf(d[..n], e[..n], h, V, n), bound, n)
    modifies d, e, v
    ensures Holds(v, n, V1) && RowsOrthonormal(V1, n) && ColsOrthonormal(V1, n)
    ensures Trace(d[..n]) == old(Trace(d[..n]))
    ensures var c := ClearedBy(old(LinksOf(d, e, n)), h, MAX_SWEEPS, root);
            (ok <==> c.Done?) && (ok ==> c.links == LinksOf(d, e, n))
    ensures ok ==> Near(m, FormOf(d[..n], e[..n], h - 1, V1, n), bound + 2.0 * TOL, n)
  {
    hide Holds, Swept, Near, Same, Trace, FormOf;
    V1 := V;
    var iter := 0;
    ghost var whole := true;
    while e[h] > TOL || e[h] < -TOL
      invariant 0 <= iter <= MAX_SWEEPS
      invariant Holds(v, n, V1) && RowsOrthonormal(V1, n) && ColsOrthonormal(V1, n)
      invariant Trace(d[..n]) == old(Trace(d[..n]))
      invariant ClearedBy(LinksOf(d, e, n), h, MAX_SWEEPS - iter, root)
                == ClearedBy(old(LinksOf(d, e, n)), h, MAX_SWEEPS, root)
      invariant whole ==> Near(m, FormOf(d[..n], e[..n], h, V1, n), bound, n)
      invariant !whole ==> Stuck(e[..n], h)
      decreases MAX_SWEEPS - iter
    {
      if iter == MAX_SWEEPS {
        return false, V1;
      }
      iter := iter + 1;
      ghost var form, before := FormOf(d[..n], e[..n], h, V1, n), LinksOf(d, e, n);
      var complete;
      complete, V1 := SweepRows(n, h, d, e, v, root, V1);
      if !whole {
        StuckStays(before, h, root);
      } else if complete {
        NearSame(m, form, FormOf(d[..n], e[..n], h, V1, n), bound, n);
      }
      whole := whole && complete;
    }
    DropLink(m, d[..n], e[..n], h, V1, bound, n);
    ok := true;
  }

  /** Clears the links from the last row up; the values are then on the diagonal. */
  method ClearLinks(n: nat, d: array<real>, e: array<real>, v: array2<real>, root: real -> real,
                    ghost V: Matrix, ghost m: Matrix, ghost total: real)
    returns (ok: bool, ghost V1: Matrix)
    requires 0 < n <= d.Length && n <= e.Length && d != e && IsSquareRoot(root)
    requires Holds(v, n, V) && RowsOrthonormal(V, n) && ColsOrthonormal(V, n)
    requires Near(m, FormOf(d[..n], e[..n], n - 1, V, n), 0.0, n) && total == 2.0 * TOL * ((n - 1) as real)
    modifies d, e, v
    ensures Holds(v, n, V1) && RowsOrthonormal(V1, n) && ColsOrthonormal(V1, n)
    ensures Trace(d[..n]) == old(Trace(d[..n]))
    ensures var c := AllCleared(old(LinksOf(d, e, n)), n - 1, root);
            (ok <==> c.Done?) && (ok ==> c.links == LinksOf(d, e, n))
    ensures ok ==> Diagonalizes(m, d[..n], V1, total, n)
  {
    hide Holds, RowsOrthonormal, ColsOrthonormal, Near, Same, ClearedBy, Diagonalizes, Trace;
    V1 := V;
    ghost var start, bound := LinksOf(d, e, n), 0.0;
    for h := n downto 1
      invariant Holds(v, n, V1) && RowsOrthonormal(V1, n) && ColsOrthonormal(V1, n)
      invariant Trace(d[..n]) == old(Trace(d[..n]))
      invariant AllCleared(LinksOf(d, e, n), h - 1, root) == AllCleared(start, n - 1, root)
      invariant Near(m, FormOf(d[..n], e[..n], h - 1, V1, n), bound, n)
      invariant bound == 2.0 * TOL * ((n - h) as real)
    {
      ok, V1 := ClearLink(n, h, d, e, v, root, V1, m, bound);
      if !ok {
        return;
      }
      bound := bound + 2.0 * TOL;
    }
    ClearedDiagonalizes(m, d[..n], e[..n], V1, bound, n);
    ok := true;
  }

  lemma ClearedDiagonalizes(m: Matrix, d: seq<real>, e: seq<real>, V: Matrix, bound: real, n: nat)
    requires 0 < n == |d| == |e| && RowsOrthonormal(V, n) && ColsOrthonormal(V, n)
    requires Near(m, FormOf(d, e, 0, V, n), bound, n)
    ensures Diagonalizes(m, d, V, bound, n)
  {
    hide RowsOrthonormal, ColsOrthonormal, Near, Same;
    NoLinks(d, e, V, n);
    NearSame(m, FormOf(d, e, 0, V, n), Spectral(d, V, n), bound, n);
  }

  ghost predicate Descending(d: seq<real>) {
    forall a, b :: 0 <= a < b < |d| ==> d[a] >= d[b]
  }

  /** The first m entries are in order and none of the others exceeds them. */
  ghost predicate SortedUpTo(d: seq<real>, m: int) {
    forall a, b :: 0 <= a < b < |d| && a < m ==> d[a] >= d[b]
  }

  /** Exchanges rows i and k of v. */
  method ExchangeRows(v: array2<real>, n: nat, i: nat, k: nat, ghost V: Matrix)
    requires Holds(v, n, V) && i < k < n
    modifies v
    ensures Holds(v, n, Exchanged(V, i, k))
  {
    for j := 0 to n
      invariant forall a, l {:trigger v[a, l]} :: 0 <= a < n && 0 <= l < n ==>
                  v[a, l] == if l < j then Exchanged(V, i, k)(a, l) else V(a, l)
    {
      var p := v[i, j];
      v[i, j] := v[k, j];
      v[k, j] := p;
    }
  }

  /** Position of the largest entry from i on. */
  method LargestFrom(d: array<real>, n: nat, i: nat) returns (k: nat)
    requires i < n <= d.Length
    ensures i <= k < n && forall b :: i <= b < n ==> d[b] <= d[k]
  {
    k := i;
    var p := d[k];
    for j := i + 1 to n
      invariant i <= k < j && p == d[k] && forall b :: i <= b < j ==> d[b] <= p
    {
      if d[j] > p {
        k := j;
        p := d[k];
      }
    }
  }

  function Swapped(d: seq<real>, i: nat, k: nat): seq<real>
    requires i < k < |d|
  {
    d[i := d[k]][k := d[i]]
  }

  lemma SwappedSorted(d: seq<real>, i: nat, k: nat)
    requires i < k < |d| && SortedUpTo(d, i) && forall b :: i <= b < |d| ==> d[b] <= d[k]
    ensures SortedUpTo(Swapped(d, i, k), i + 1) && multiset(Swapped(d, i, k)) == multiset(d)
  {
  }

  /** Two values exchanged with their rows. */
  lemma ExchangeDiagonalizes(m: Matrix, d: seq<real>, V: Matrix, bound: real, n: nat, i: nat, k: nat)
    requires i < k < n == |d| && Diagonalizes(m, d, V, bound, n)
    ensures Diagonalizes(m, Swapped(d, i, k), Exchanged(V, i, k), bound, n)
    ensures Trace(Swapped(d, i, k)) == Trace(d)
  {
    ExchangeKeeps(d, V, i, k, n);
    NearSame(m, Spectral(d, V, n), Spectral(Swapped(d, i, k), Exchanged(V, i, k), n), bound, n);
  }

  method SwapValues(d: array<real>, n: nat, i: nat, k: nat)
    requires i < k < n <= d.Length
    modifies d
    ensures d[..n] == Swapped(old(d[..n]), i, k)
  {
    d[i], d[k] := d[k], d[i];
  }

  /** Brings the eigenvalues into descending order, each with its row. */
  method SortDescending(n: nat, d: array<real>, v: array2<real>, ghost V: Matrix, ghost m: Matrix, ghost bound: real)
    returns (ghost V1: Matrix)
    requires 0 < n <= d.Length && Holds(v, n, V) && Diagonalizes(m, d[..n], V, bound, n)
    modifies d, v
    ensures Holds(v, n, V1) && Diagonalizes(m, d[..n], V1, bound, n)
    ensures Descending(d[..n]) && multiset(d[..n]) == multiset(old(d[..n])) && Trace(d[..n]) == old(Trace(d[..n]))
  {
    hide Holds, Diagonalizes, Exchanged, Trace, Swapped;
    V1 := V;
    for i := 0 to n - 1
      invariant Holds(v, n, V1) && Diagonalizes(m, d[..n], V1, bound, n)
      invariant SortedUpTo(d[..n], i) && multiset(d[..n]) == multiset(old(d[..n]))
      invariant Trace(d[..n]) == old(Trace(d[..n]))
    {
      var k := LargestFrom(d, n, i);
      if k != i {
        ExchangeDiagonalizes(m, d[..n], V1, bound, n, i, k);
        SwappedSorted(d[..n], i, k);
        SwapValues(d, n, i, k);
        ExchangeRows(v, n, i, k, V1);
        V1 := Exchanged(V1, i, k);
      }
    }
  }

  /** v = identity */
  method SetIdentity(v: array2<real>, n: nat)
    requires n <= v.Length0 && n <= v.Length1
    modifies v
    ensures Holds(v, n, Identity())
  {
    for j := 0 to n
      invariant forall a, l {:trigger v[a, l]} :: 0 <= a < j && 0 <= l < n ==> v[a, l] == 0.0
    {
      for k := 0 to n
        invariant forall a, l {:trigger v[a, l]} :: 0 <= a < j && 0 <= l < n ==> v[a, l] == 0.0
        invariant forall l :: 0 <= l < k ==> v[j, l] == 0.0
      {
        v[j, k] := 0.0;
      }
    }
    for j := 0 to n
      invariant forall a, l {:trigger v[a, l]} :: 0 <= a < n && 0 <= l < n ==>
                  v[a, l] == if a == l && a < j then 1.0 else 0.0
    {
      v[j, j] := 1.0;
    }
  }

  /** The diagonal and the links as the routine copies them. */
  ghost function LinksFrom(d: seq<real>, e: seq<real>, n: nat): (l: Links)
    requires |d| == n && 0 < n && n - 1 <= |e|
    ensures l.Sized(n)
  {
    Links(d, [0.0] + e[..n - 1])
  }

  /** A link of the input that is zero comes before one that is not negligible. */
  ghost predicate Broken(e: seq<real>) {
    exists a, b {:trigger e[a], e[b]} :: 0 <= a < b < |e| && e[a] == 0.0 && !Negligible(e[b])
  }

  lemma BrokenIsInterrupted(d: seq<real>, e: seq<real>, n: nat)
    requires |d| == n && 0 < n && n - 1 <= |e|
    ensures Broken(e[..n - 1]) <==> Interrupted(LinksFrom(d, e, n).e, n - 1)
  {
    var links, given := LinksFrom(d, e, n).e, e[..n - 1];
    if Broken(given) {
      var a, b :| 0 <= a < b < |given| && given[a] == 0.0 && !Negligible(given[b]);
      assert At(links, a + 1) == 0.0 && !Negligible(At(links, b + 1));
    }
    if Interrupted(links, n - 1) {
      var a, b :| 1 <= a < b <= n - 1 && At(links, a) == 0.0 && !Negligible(At(links, b));
      assert given[a - 1] == 0.0 && !Negligible(given[b - 1]);
    }
  }

  /** The matrix is not decomposed in two cases: its links are broken, or one of them outlasts
      twenty complete sweeps. */
  lemma DecomposesExactly(d: seq<real>, e: seq<real>, n: nat, root: real -> real)
    requires |d| == n && 0 < n && n - 1 <= |e| && IsSquareRoot(root)
    ensures var l := LinksFrom(d, e, n);
            && (AllComplete(l, n - 1, root) <==> !Broken(e[..n - 1]))
            && (AllCleared(l, n - 1, root).Done? <==> !Broken(e[..n - 1]) && !AnyOutlasts(l, n - 1, root))
  {
    hide LinksFrom, Broken, AllCleared, AllComplete, AnyOutlasts, Interrupted;
    BrokenIsInterrupted(d, e, n);
    CompleteExactly(LinksFrom(d, e, n), n - 1, root);
    FailsExactly(LinksFrom(d, e, n), n - 1, root);
  }

  /** A matrix of a row and a pair of rows, which share no link, is not decomposed. */
  lemma ApartFails(root: real -> real)
    requires IsSquareRoot(root)
    ensures LinksFrom([0.0, 0.0, 0.0], [0.0, 1.0], 3) == Links([0.0, 0.0, 0.0], [0.0, 0.0, 1.0])
    ensures AllCleared(Links([0.0, 0.0, 0.0], [0.0, 0.0, 1.0]), 2, root).Failed?
  {
    hide AllCleared, AllComplete;
    var l := Links([0.0, 0.0, 0.0], [0.0, 0.0, 1.0]);
    assert At(l.e, 1) == 0.0 && !Negligible(At(l.e, 2));
    CompleteExactly(l, 2, root);
    assert LinksFrom([0.0, 0.0, 0.0], [0.0, 1.0], 3).e == l.e;
  }

  /** The decomposition of the matrix that was copied, from the identity in v. */
  method Decompose(n: nat, d: array<real>, e: array<real>, v: array2<real>, root: real -> real,
                   ghost values: seq<real>, ghost links: seq<real>)
    returns (ok: bool, ghost V: Matrix)
    requires 0 < n <= d.Length && n <= e.Length && d != e && Holds(v, n, Identity()) && IsSquareRoot(root)
    requires |values| == n && n - 1 <= |links| && LinksOf(d, e, n) == LinksFrom(values, links, n)
    modifies d, e, v
    ensures ok ==> Descending(d[..n])
    ensures ok ==> Diagonalizes(TriMatrix(values, links), d[..n], V, 2.0 * TOL * ((n - 1) as real), n)
    ensures Holds(v, n, V) && RowsOrthonormal(V, n) && ColsOrthonormal(V, n) && Trace(d[..n]) == Trace(values)
    ensures var c := AllCleared(LinksFrom(values, links, n), n - 1, root);
            (ok <==> c.Done?) && (ok ==> multiset(d[..n]) == multiset(c.links.d))
  {
    hide Holds, RowsOrthonormal, ColsOrthonormal, Near, Same, Descending, Diagonalizes, Trace, AllCleared;
    hide TriMatrix, FormOf, Identity;
    V := Identity();
    ghost var m, bound := TriMatrix(values, links), 2.0 * TOL * ((n - 1) as real);
    IdentityForm(values, links, e[..n], n);
    IdentityOrthonormal(n);
    NearStart(m, FormOf(d[..n], e[..n], n - 1, V, n), n);
    ok, V := ClearLinks(n, d, e, v, root, V, m, bound);
    if !ok {
      return;
    }
    V := SortDescending(n, d, v, V, m, bound);
    DiagonalBasis(m, d[..n], V, bound, n);
  }

  /** Eigenvalues, in descending order, and eigenvectors of the tridiagonal matrix (din, ein).
      On success the matrix is rebuilt from them, entry by entry, to within the dropped links. */
  method TridiagEV(n: nat, din: array<real>, ein: array<real>, d: array<real>, v: array2<real>, root: real -> real)
    returns (ok: bool, ghost V: Matrix)
    requires 0 < n <= din.Length && n - 1 <= ein.Length && n <= d.Length && n <= v.Length0 && n <= v.Length1
    requires d != din && d != ein && IsSquareRoot(root)
    modifies d, v
    ensures ok ==> n <= MAX_N && Holds(v, n, V) && Descending(d[..n])
    ensures ok ==> Diagonalizes(TriMatrix(din[..n], ein[..]), d[..n], V, 2.0 * TOL * ((n - 1) as real), n)
    ensures n <= MAX_N ==>
              Holds(v, n, V) && RowsOrthonormal(V, n) && ColsOrthonormal(V, n) && Trace(d[..n]) == Trace(din[..n])
    ensures ok <==> n <= MAX_N && AllCleared(LinksFrom(din[..n], ein[..], n), n - 1, root).Done?
    ensures ok <==> n <= MAX_N && !Broken(ein[..n - 1]) && !AnyOutlasts(LinksFrom(din[..n], ein[..], n), n - 1, root)
    ensures ok ==> multiset(d[..n]) == multiset(AllCleared(LinksFrom(din[..n], ein[..], n), n - 1, root).links.d)
  {
    hide Holds, RowsOrthonormal, ColsOrthonormal, Descending, Diagonalizes, Trace, AllCleared, AnyOutlasts, Broken;
    hide TriMatrix;
    SetIdentity(v, n);
    if n > MAX_N {
      return false, Identity();
    }
    var e := new real[MAX_N];
    CopyMatrix(n, din, ein, d, e);
    ghost var values, links := din[..n], ein[..];
    ok, V := Decompose(n, d, e, v, root, values, links);
    assert din[..n] == values && ein[..] == links;
    DecomposesExactly(values, links, n, root);
  }

  lemma NearStart(m: Matrix, f: Matrix, n: nat)
    requires Same(f, m, n)
    ensures Near(m, f, 0.0, n)
  {
    forall k, l | 0 <= k < n && 0 <= l < n
      ensures Abs(m(k, l) - f(k, l)) <= 0.0
    {
      assert f(k, l) == m(k, l);
    }
  }

  /** d = din, and e[i+1] = ein[i] */
  method CopyMatrix(n: nat, din: array<real>, ein: array<real>, d: array<real>, e: array<real>)
    requires 0 < n <= din.Length && n - 1 <= ein.Length && n <= d.Length && n <= e.Length
    requires d != din && d != ein && e != din && e != ein && d != e
    modifies d, e
    ensures LinksOf(d, e, n) == LinksFrom(din[..n], ein[..], n)
  {
    for i := 0 to n
      invariant forall a :: 0 <= a < i ==> d[a] == din[a]
    {
      d[i] := din[i];
    }
    for i := 0 to n - 1
      modifies e
      invariant forall a :: 0 <= a < i ==> e[a + 1] == ein[a]
    {
      e[i + 1] := ein[i];
    }
    e[0] := 0.0;
  }
}
