/** The sweeps of the eigenvalue routine as functions: which values and links they leave, and
    when they clear every link. */
module TridiagSweeps {
  import opened RealSums
  import opened Tridiagonal

  const MAX_SWEEPS := 20

  /** Diagonal and links; e[a] joins rows a-1 and a. */
  datatype Links = Links(d: seq<real>, e: seq<real>) {
    predicate Sized(n: nat) { |d| == n == |e| }
  }

  datatype Cleared = Failed | Done(links: Links)

  function Over(x: real, y: real): real
    requires y != 0.0
  {
    x / y
  }

  // ---------------------------------------------------------------------------
  // One rotation

  /** The entry that the rotation of row i removes. */
  function Chased(w: Sweep): real
    requires 0 <= w.i < |w.e|
  {
    Mul(w.s, w.e[w.i])
  }

  /** The length of the vector that the rotation aligns. */
  function Length(w: Sweep, root: real -> real): real
    requires 0 <= w.i < |w.e|
  {
    root(Square(Chased(w)) + Square(w.g))
  }

  /** The rotated block: what row i-1 gains and row i owes, and the next link. */
  function BlockTurn(g0: real, dl: real, b: real, s: real, c: real): (real, real) {
    var r2 := (dl - g0) * s + 2.0 * c * b;
    (s * r2, c * r2 - b)
  }

  /** The rotation of rows i-1 and i. */
  function Turned(w: Sweep, root: real -> real): Sweep
    requires 1 <= w.i < |w.d| == |w.e| && Length(w, root) != 0.0
  {
    var r := Length(w, root);
    var s, c, g0 := Over(Chased(w), r), Over(w.g, r), w.d[w.i - 1] - w.p;
    var (p, g) := BlockTurn(g0, w.d[w.i], Mul(w.c, w.e[w.i]), s, c);
    Sweep(w.d[w.i - 1 := g0 + p], w.e[w.i - 1 := r], w.i + 1, p, g, s, c)
  }

  /** The state in which a sweep is given up. */
  function Stopped(w: Sweep): Links
    requires 1 <= w.i < |w.d| == |w.e|
  {
    Links(w.d[w.i - 1 := w.d[w.i - 1] - w.p], w.e[w.i - 1 := 0.0][0 := 0.0])
  }

  /** The state after the last rotation of a sweep. */
  function Ended(w: Sweep, h: int): Links
    requires 1 <= h < |w.d| == |w.e|
  {
    Links(w.d[h := w.d[h] - w.p], w.e[h := w.g][0 := 0.0])
  }

  lemma LengthZero(w: Sweep, root: real -> real)
    requires 0 <= w.i < |w.e| && IsSquareRoot(root)
    ensures Length(w, root) >= 0.0
    ensures Length(w, root) == 0.0 <==> Chased(w) == 0.0 && w.g == 0.0
  {
    var x := Square(Chased(w)) + Square(w.g);
    SumOfSquares(Chased(w), w.g);
    assert root(x) >= 0.0 && Square(root(x)) == x;
    if root(x) != 0.0 {
      SquarePositive(root(x));
    }
  }

  lemma TurnedIsTurn(w: Sweep, h: int, n: int, root: real -> real)
    requires 1 <= w.i <= h < n == |w.d| == |w.e| && IsSquareRoot(root) && Length(w, root) != 0.0
    ensures IsTurn(w, Turned(w, root), Length(w, root), h, n)
  {
    var r, w1 := Length(w, root), Turned(w, root);
    LengthZero(w, root);
    assert Square(r) == Square(Chased(w)) + Square(w.g);
    OverTimes(Chased(w), r);
    OverTimes(w.g, r);
    UnitRotation(Chased(w), w.g, r, w1.s, w1.c);
  }

  lemma OverTimes(x: real, y: real)
    requires y != 0.0
    ensures y * Over(x, y) == x
  {
  }

  // ---------------------------------------------------------------------------
  // One sweep

  /** The shifted first entry that starts a sweep. */
  function Shift(d0: real, dg: real, dh: real, eh: real, root: real -> real): real
    requires eh != 0.0 && IsSquareRoot(root)
  {
    var g := Over(dg - dh, 2.0 * eh);
    RootPositive(root, 1.0 + Square(g));
    var r := root(1.0 + Square(g));
    d0 - dh + Over(eh, g + if g < 0.0 then -r else r)
  }

  /** The rest of a sweep over the rows up to h. */
  function RunFrom(w: Sweep, h: int, root: real -> real): Links
    requires 1 <= w.i <= h + 1 <= |w.d| == |w.e| && 1 <= h
    decreases h - w.i
  {
    if w.i > h then Ended(w, h)
    else if Length(w, root) == 0.0 then Stopped(w)
    else RunFrom(Turned(w, root), h, root)
  }

  function Started(l: Links, h: int, root: real -> real): Sweep
    requires l.Sized(|l.d|) && 1 <= h < |l.d| && l.e[h] != 0.0 && IsSquareRoot(root)
  {
    Sweep(l.d, l.e, 1, 0.0, Shift(l.d[0], l.d[h - 1], l.d[h], l.e[h], root), 1.0, 1.0)
  }

  function Swept(l: Links, h: int, root: real -> real): (m: Links)
    requires l.Sized(|l.d|) && 1 <= h < |l.d| && l.e[h] != 0.0 && IsSquareRoot(root)
    ensures m.Sized(|l.d|)
  {
    RunSized(Started(l, h, root), h, root);
    RunFrom(Started(l, h, root), h, root)
  }

  lemma {:induction false} RunSized(w: Sweep, h: int, root: real -> real)
    requires 1 <= w.i <= h + 1 <= |w.d| == |w.e| && 1 <= h
    ensures RunFrom(w, h, root).Sized(|w.d|)
    decreases h - w.i
  {
    if w.i <= h && Length(w, root) != 0.0 {
      RunSized(Turned(w, root), h, root);
    }
  }

  /** No rotation from here on has radius zero: the sweep completes. */
  predicate RunsThrough(w: Sweep, h: int, root: real -> real)
    requires 1 <= w.i <= h + 1 <= |w.d| == |w.e| && 1 <= h
    decreases h - w.i
  {
    w.i > h || (Length(w, root) != 0.0 && RunsThrough(Turned(w, root), h, root))
  }

  predicate Completes(l: Links, h: int, root: real -> real)
    requires l.Sized(|l.d|) && 1 <= h < |l.d| && l.e[h] != 0.0 && IsSquareRoot(root)
  {
    RunsThrough(Started(l, h, root), h, root)
  }

  // ---------------------------------------------------------------------------
  // All sweeps

  predicate Negligible(e: real) { -TOL <= e <= TOL }

  /** The link of row h after as many sweeps as it needs, at most k. */
  function ClearedBy(l: Links, h: int, k: nat, root: real -> real): (c: Cleared)
    requires l.Sized(|l.d|) && 1 <= h < |l.d| && IsSquareRoot(root)
    ensures c.Done? ==> c.links.Sized(|l.d|) && Negligible(c.links.e[h])
    decreases k
  {
    if Negligible(l.e[h]) then Done(l)
    else if k == 0 then Failed
    else ClearedBy(Swept(l, h, root), h, k - 1, root)
  }

  /** All links from row h down, each by at most twenty sweeps. */
  function AllCleared(l: Links, h: nat, root: real -> real): (c: Cleared)
    requires l.Sized(|l.d|) && h < |l.d| && IsSquareRoot(root)
    ensures c.Done? ==> c.links.Sized(|l.d|)
    decreases h
  {
    if h == 0 then Done(l)
    else
      var c := ClearedBy(l, h, MAX_SWEEPS, root);
      if c.Failed? then Failed else AllCleared(c.links, h - 1, root)
  }

  // ---------------------------------------------------------------------------
  // Sweeps that cannot succeed

  /** Before row i a sweep is bound to stop: a zero link is still ahead, or has just been
      passed. */
  ghost predicate Doomed(w: Sweep, h: int) {
    && 1 <= w.i <= h < |w.d| == |w.e|
    && ((w.s == 0.0 && w.g == 0.0 && w.i > 1) || exists j :: w.i <= j < h && w.e[j] == 0.0)
  }

  lemma {:induction false} DoomedStops(w: Sweep, h: int, root: real -> real)
    requires Doomed(w, h) && IsSquareRoot(root) && !Negligible(w.e[h]) && (w.i == 1 ==> w.s == 1.0)
    ensures !RunsThrough(w, h, root)
    ensures var l := RunFrom(w, h, root); l.Sized(|w.d|) && l.e[h] == w.e[h] && Stuck(l.e, h)
    decreases h - w.i
  {
    LengthZero(w, root);
    if Length(w, root) == 0.0 {
      StoppedIsStuck(w, h);
    } else {
      var w1 := Turned(w, root);
      TurnedIsTurn(w, h, |w.d|, root);
      var j :| w.i <= j < h && w.e[j] == 0.0;
      if j == w.i {
        DeadLink(w, w1, Length(w, root), h, |w.d|);
      } else {
        assert w1.e[j] == 0.0;
      }
      DoomedStops(w1, h, root);
    }
  }

  /** A sweep that is given up leaves a zero link strictly inside the block. */
  lemma StoppedIsStuck(w: Sweep, h: int)
    requires 1 <= w.i <= h < |w.d| == |w.e| && (w.i == 1 ==> w.s == 1.0)
    requires Chased(w) == 0.0 && !Negligible(w.e[h])
    ensures Stuck(Stopped(w).e, h) && Stopped(w).e[h] == w.e[h]
  {
    var e := Stopped(w).e;
    if w.i == 1 {
      assert w.e[1] == 0.0;
      assert At(e, 1) == 0.0;
    } else {
      assert At(e, w.i - 1) == 0.0;
    }
  }

  /** Over a block with a zero link strictly inside, every sweep stops and leaves another. */
  lemma StuckStays(l: Links, h: int, root: real -> real)
    requires l.Sized(|l.d|) && 1 <= h < |l.d| && IsSquareRoot(root) && Stuck(l.e, h)
    ensures l.e[h] != 0.0 && !Completes(l, h, root) && Stuck(Swept(l, h, root).e, h)
  {
    var j :| 1 <= j < h && At(l.e, j) == 0.0;
    var w := Started(l, h, root);
    assert w.e[j] == 0.0;
    DoomedStops(w, h, root);
  }

  /** So its link is never cleared, however many sweeps are allowed. */
  lemma {:induction false} StuckFails(l: Links, h: int, k: nat, root: real -> real)
    requires l.Sized(|l.d|) && 1 <= h < |l.d| && IsSquareRoot(root) && Stuck(l.e, h)
    ensures ClearedBy(l, h, k, root).Failed?
    decreases k
  {
    hide Swept;
    if k > 0 {
      StuckStays(l, h, root);
      StuckFails(Swept(l, h, root), h, k - 1, root);
    }
  }

  // ---------------------------------------------------------------------------
  // When every sweep completes

  /** Every sweep that is made on the link of row h completes. */
  predicate EachCompletes(l: Links, h: int, k: nat, root: real -> real)
    requires l.Sized(|l.d|) && 1 <= h < |l.d| && IsSquareRoot(root)
    decreases k
  {
    Negligible(l.e[h]) || k == 0 || (Completes(l, h, root) && EachCompletes(Swept(l, h, root), h, k - 1, root))
  }

  /** Every sweep that is made on the rows up to h completes. */
  predicate AllComplete(l: Links, h: nat, root: real -> real)
    requires l.Sized(|l.d|) && h < |l.d| && IsSquareRoot(root)
    decreases h
  {
    h == 0
    || (EachCompletes(l, h, MAX_SWEEPS, root)
        && var c := ClearedBy(l, h, MAX_SWEEPS, root); c.Done? ==> AllComplete(c.links, h - 1, root))
  }

  /** A link that is zero comes before one that is not negligible. */
  ghost predicate Interrupted(e: seq<real>, h: int) {
    exists a, b {:trigger At(e, a), At(e, b)} :: 1 <= a < b <= h && At(e, a) == 0.0 && !Negligible(At(e, b))
  }

  ghost predicate Linked(e: seq<real>, h: int) {
    forall a {:trigger At(e, a)} :: 1 <= a <= h ==> At(e, a) != 0.0
  }

  lemma MulNonZero(a: real, b: real)
    requires a != 0.0 && b != 0.0
    ensures Mul(a, b) != 0.0
  {
  }

  /** Where no link is zero, a rotation has a radius, and leaves the next one something to
      chase. */
  lemma LinkedTurn(w: Sweep, h: int, root: real -> real)
    requires 1 <= w.i <= h < |w.d| == |w.e| && IsSquareRoot(root) && w.s != 0.0 && Linked(w.e, h)
    ensures Length(w, root) != 0.0 && Turned(w, root).s != 0.0 && Linked(Turned(w, root).e, h)
  {
    hide BlockTurn, Mul;
    assert At(w.e, w.i) != 0.0;
    MulNonZero(w.s, w.e[w.i]);
    LengthZero(w, root);
    OverTimes(Chased(w), Length(w, root));
    forall a | 1 <= a <= h
      ensures At(Turned(w, root).e, a) != 0.0
    {
      assert At(w.e, a) != 0.0;
    }
  }

  lemma {:induction false} LinkedRun(w: Sweep, h: int, root: real -> real)
    requires 1 <= w.i <= h + 1 <= |w.d| == |w.e| && 1 <= h && IsSquareRoot(root)
    requires w.s != 0.0 && Linked(w.e, h)
    ensures RunsThrough(w, h, root) && Linked(RunFrom(w, h, root).e, h - 1)
    decreases h - w.i
  {
    hide Turned, Length;
    if w.i > h {
      forall a | 1 <= a <= h - 1
        ensures At(Ended(w, h).e, a) != 0.0
      {
        assert At(w.e, a) != 0.0;
      }
    } else {
      LinkedTurn(w, h, root);
      TurnedShape(w, root);
      LinkedRun(Turned(w, root), h, root);
    }
  }

  lemma TurnedShape(w: Sweep, root: real -> real)
    requires 1 <= w.i < |w.d| == |w.e| && Length(w, root) != 0.0
    ensures var w1 := Turned(w, root); w1.i == w.i + 1 && |w1.d| == |w1.e| == |w.d|
  {
  }

  /** So every sweep on a block without a zero link strictly inside completes and leaves none. */
  lemma {:induction false} LinkedCompletes(l: Links, h: int, k: nat, root: real -> real)
    requires l.Sized(|l.d|) && 1 <= h < |l.d| && IsSquareRoot(root) && Linked(l.e, h - 1)
    ensures EachCompletes(l, h, k, root)
    ensures var c := ClearedBy(l, h, k, root); c.Done? ==> Linked(c.links.e, h - 1)
    decreases k
  {
    hide RunsThrough, RunFrom, Shift;
    if k > 0 && !Negligible(l.e[h]) {
      assert Linked(l.e, h);
      LinkedRun(Started(l, h, root), h, root);
      LinkedCompletes(Swept(l, h, root), h, k - 1, root);
    }
  }

  /** A row whose link is negligible makes no difference. */
  lemma NegligibleRow(e: seq<real>, h: int)
    requires 1 <= h < |e| && Negligible(e[h])
    ensures Interrupted(e, h) <==> Interrupted(e, h - 1)
  {
    if Interrupted(e, h) {
      var a, b :| 1 <= a < b <= h && At(e, a) == 0.0 && !Negligible(At(e, b));
      assert b != h;
      assert Interrupted(e, h - 1);
    }
  }

  lemma LinkedGoes(e: seq<real>, h: int)
    requires Linked(e, h - 1)
    ensures !Interrupted(e, h) && !Interrupted(e, h - 1)
  {
  }

  /** Every sweep completes exactly when no zero link comes before one that is not negligible;
      otherwise the links are never cleared. */
  lemma {:induction false} CompleteExactly(l: Links, h: nat, root: real -> real)
    requires l.Sized(|l.d|) && h < |l.d| && IsSquareRoot(root)
    ensures AllComplete(l, h, root) <==> !Interrupted(l.e, h)
    ensures Interrupted(l.e, h) ==> AllCleared(l, h, root).Failed?
    decreases h
  {
    hide Swept, Completes, Interrupted;
    if h == 0 {
      NoRows(l.e);
    } else if Negligible(l.e[h]) {
      NegligibleRow(l.e, h);
      CompleteExactly(l, h - 1, root);
    } else if Linked(l.e, h - 1) {
      LinkedGoes(l.e, h);
      LinkedCompletes(l, h, MAX_SWEEPS, root);
      var c := ClearedBy(l, h, MAX_SWEEPS, root);
      if c.Done? {
        LinkedGoes(c.links.e, h);
        CompleteExactly(c.links, h - 1, root);
      }
    } else {
      StuckBlock(l, h);
      StuckStays(l, h, root);
      StuckFails(l, h, MAX_SWEEPS, root);
    }
  }

  lemma NoRows(e: seq<real>)
    ensures !Interrupted(e, 0)
  {
  }

  lemma StuckBlock(l: Links, h: int)
    requires l.Sized(|l.d|) && 1 <= h < |l.d| && !Negligible(l.e[h]) && !Linked(l.e, h - 1)
    ensures Stuck(l.e, h) && Interrupted(l.e, h)
  {
    var a :| 1 <= a <= h - 1 && At(l.e, a) == 0.0;
    assert !Negligible(At(l.e, h));
  }

  /** The link of row h is still not negligible after k sweeps, all of them complete. */
  predicate Outlasts(l: Links, h: int, k: nat, root: real -> real)
    requires l.Sized(|l.d|) && 1 <= h < |l.d| && IsSquareRoot(root)
    decreases k
  {
    && !Negligible(l.e[h])
    && (k > 0 ==> Completes(l, h, root) && Outlasts(Swept(l, h, root), h, k - 1, root))
  }

  /** Some link outlasts twenty complete sweeps, once those below it are cleared. */
  predicate AnyOutlasts(l: Links, h: nat, root: real -> real)
    requires l.Sized(|l.d|) && h < |l.d| && IsSquareRoot(root)
    decreases h
  {
    h > 0
    && (Outlasts(l, h, MAX_SWEEPS, root)
        || var c := ClearedBy(l, h, MAX_SWEEPS, root); c.Done? && AnyOutlasts(c.links, h - 1, root))
  }

  lemma {:induction false} OutlastsFails(l: Links, h: int, k: nat, root: real -> real)
    requires l.Sized(|l.d|) && 1 <= h < |l.d| && IsSquareRoot(root)
    ensures Outlasts(l, h, k, root) <==> EachCompletes(l, h, k, root) && ClearedBy(l, h, k, root).Failed?
    decreases k
  {
    hide Swept, Completes;
    if k > 0 && !Negligible(l.e[h]) {
      OutlastsFails(Swept(l, h, root), h, k - 1, root);
    }
  }

  /** So the links are not cleared in two cases only, which exclude each other: a zero link
      comes before one that is not negligible, or a link outlasts twenty complete sweeps. */
  lemma FailsExactly(l: Links, h: nat, root: real -> real)
    requires l.Sized(|l.d|) && h < |l.d| && IsSquareRoot(root)
    ensures AllCleared(l, h, root).Failed? <==> Interrupted(l.e, h) || AnyOutlasts(l, h, root)
    ensures !(Interrupted(l.e, h) && AnyOutlasts(l, h, root))
  {
    CompleteExactly(l, h, root);
    FailsByOutlasting(l, h, root);
  }

  /** A link that is cleared is cleared by complete sweeps. */
  lemma DoneCompletes(l: Links, h: int, k: nat, root: real -> real)
    requires l.Sized(|l.d|) && 1 <= h < |l.d| && IsSquareRoot(root)
    ensures ClearedBy(l, h, k, root).Done? ==> EachCompletes(l, h, k, root)
  {
    hide Swept, Completes, Interrupted;
    if Linked(l.e, h - 1) {
      LinkedCompletes(l, h, k, root);
    } else if !Negligible(l.e[h]) {
      StuckBlock(l, h);
      StuckFails(l, h, k, root);
    }
  }

  lemma {:induction false} FailsByOutlasting(l: Links, h: nat, root: real -> real)
    requires l.Sized(|l.d|) && h < |l.d| && IsSquareRoot(root)
    ensures AnyOutlasts(l, h, root) <==> AllComplete(l, h, root) && AllCleared(l, h, root).Failed?
    decreases h
  {
    hide Outlasts, EachCompletes, ClearedBy;
    if h > 0 {
      OutlastsFails(l, h, MAX_SWEEPS, root);
      DoneCompletes(l, h, MAX_SWEEPS, root);
      var c := ClearedBy(l, h, MAX_SWEEPS, root);
      if c.Done? {
        FailsByOutlasting(c.links, h - 1, root);
      }
    }
  }

  // ---------------------------------------------------------------------------
  // The last link

  /** The shift is exact for two rows: the next link vanishes.  t is the correction, which
      solves t * t + (d0 - d1) * t == e * e. */
  lemma ExactShift(d0: real, d1: real, e: real, t: real, g: real, r: real, s: real, c: real)
    requires r != 0.0 && g == d0 - d1 + t && t * t + (d0 - d1) * t == e * e
    requires r * r == e * e + g * g && r * s == e && r * c == g
    ensures BlockTurn(d0, d1, e, s, c).1 == 0.0
  {
    var z := c * ((d1 - d0) * s + 2.0 * c * e) - e;
    assert (r * r) * z == (r * c) * ((d1 - d0) * (r * s) + 2.0 * (r * c) * e) - (r * r) * e;
    assert (r * r) * z == g * ((d1 - d0) * e + 2.0 * g * e) - (e * e + g * g) * e;
    assert g * ((d1 - d0) * e + 2.0 * g * e) - (e * e + g * g) * e == e * (g * (g + d1 - d0) - e * e);
    assert g * (g + d1 - d0) == g * t;
    assert g * t == t * t + (d0 - d1) * t;
    assert (r * r) * z == 0.0;
  }

  /** The correction that the shift adds solves that equation. */
  lemma Correction(d0: real, d1: real, e: real, g: real, u: real, t: real)
    requires e != 0.0 && g == (d0 - d1) / (2.0 * e) && u != 0.0 && u * u == 2.0 * g * u + 1.0 && t == e / u
    ensures t * t + (d0 - d1) * t == e * e
  {
    assert d0 - d1 == 2.0 * e * g;
    assert t * u == e;
    assert (t * t + 2.0 * e * g * t) * (u * u) == e * e * (1.0 + 2.0 * g * u);
    assert (t * t + (d0 - d1) * t) * (u * u) == (e * e) * (u * u);
    CancelSquare(t * t + (d0 - d1) * t, e * e, u);
  }

  lemma CancelSquare(x: real, y: real, u: real)
    requires u != 0.0 && x * (u * u) == y * (u * u)
    ensures x == y
  {
    assert u * u != 0.0;
  }

  /** The divisor in the shift, whose square is one more than twice its product with g. */
  lemma ShiftDivisor(g: real, root: real -> real)
    requires IsSquareRoot(root)
    ensures var r := root(1.0 + Square(g)); var u := g + if g < 0.0 then -r else r;
            u != 0.0 && u * u == 2.0 * g * u + 1.0
  {
    RootPositive(root, 1.0 + Square(g));
    var r := root(1.0 + Square(g));
    assert r * r == 1.0 + g * g;
  }

  /** What a sweep is shifted by, subtracted from the first value, is an eigenvalue of the last
      two rows of the block, and the one that is nearer to the last value. */
  lemma ShiftIsEigenvalue(d0: real, dg: real, dh: real, e: real, root: real -> real)
    requires e != 0.0 && IsSquareRoot(root)
    ensures var mu := d0 - Shift(d0, dg, dh, e, root);
            (dg - mu) * (dh - mu) == e * e && Abs(mu - dh) <= Abs(e)
  {
    var g := Over(dg - dh, 2.0 * e);
    ShiftDivisor(g, root);
    LargeDivisor(g, root);
    var r := root(1.0 + Square(g));
    var u := g + if g < 0.0 then -r else r;
    var t := Over(e, u);
    Correction(dg, dh, e, g, u, t);
    SmallQuotient(e, u, t);
    var mu := d0 - Shift(d0, dg, dh, e, root);
    assert mu == dh - t;
    assert (dg - mu) * (dh - mu) == (dg - dh + t) * t == t * t + (dg - dh) * t;
  }

  lemma LargeDivisor(g: real, root: real -> real)
    requires IsSquareRoot(root)
    ensures var r := root(1.0 + Square(g)); Abs(g + if g < 0.0 then -r else r) >= 1.0
  {
    RootPositive(root, 1.0 + Square(g));
    AtLeastOne(root(1.0 + Square(g)));
  }

  lemma AtLeastOne(r: real)
    requires r > 0.0 && Square(r) >= 1.0
    ensures r >= 1.0
  {
    if r < 1.0 {
      SmallerProduct(r, r, 1.0);
    }
  }

  lemma SmallQuotient(e: real, u: real, t: real)
    requires Abs(u) >= 1.0 && t == Over(e, u)
    ensures Abs(t) <= Abs(e)
  {
    OverTimes(e, u);
    assert u * t == e;
    AbsProduct(u, t);
  }

  lemma AbsProduct(u: real, t: real)
    requires Abs(u) >= 1.0
    ensures Abs(u * t) >= Abs(t)
  {
    if t > 0.0 {
      assert Abs(u) * t - t == (Abs(u) - 1.0) * t >= 0.0;
    } else if t < 0.0 {
      assert Abs(u) * (-t) + t == (Abs(u) - 1.0) * (-t) >= 0.0;
    }
  }

  /** So it is for a sweep on the link of row h. */
  lemma SweepShift(l: Links, h: int, root: real -> real)
    requires l.Sized(|l.d|) && 1 <= h < |l.d| && l.e[h] != 0.0 && IsSquareRoot(root)
    ensures var mu := l.d[0] - Started(l, h, root).g;
            (l.d[h - 1] - mu) * (l.d[h] - mu) == l.e[h] * l.e[h] && Abs(mu - l.d[h]) <= Abs(l.e[h])
  {
    hide Shift;
    ShiftIsEigenvalue(l.d[0], l.d[h - 1], l.d[h], l.e[h], root);
  }

  /** No other eigenvalue of the two rows is nearer. */
  lemma ShiftIsNearest(d0: real, dg: real, dh: real, e: real, root: real -> real, mu: real)
    requires e != 0.0 && IsSquareRoot(root) && (dg - mu) * (dh - mu) == e * e
    ensures Abs(d0 - Shift(d0, dg, dh, e, root) - dh) <= Abs(mu - dh)
  {
    hide Shift;
    ShiftIsEigenvalue(d0, dg, dh, e, root);
    var nearest := d0 - Shift(d0, dg, dh, e, root);
    FromLast(dg, dh, nearest, e);
    FromLast(dg, dh, mu, e);
    NearerRoot(dg - dh, e, dh - nearest, dh - mu);
  }

  lemma FromLast(dg: real, dh: real, mu: real, e: real)
    requires (dg - mu) * (dh - mu) == e * e
    ensures (dg - dh + (dh - mu)) * (dh - mu) == e * e
  {
    assert dg - dh + (dh - mu) == dg - mu;
  }

  /** Of two solutions of x (x + q) == e e, one that is no larger than e is the smaller. */
  lemma NearerRoot(q: real, e: real, x: real, y: real)
    requires (q + x) * x == e * e && (q + y) * y == e * e && Abs(x) <= Abs(e)
    ensures Abs(x) <= Abs(y)
  {
    assert (x - y) * (q + x + y) == (q + x) * x - (q + y) * y;
    OneIsZero(x - y, q + x + y);
    if q + x + y == 0.0 {
      assert q + x == -y;
      OtherRoot(x, y, e);
    }
  }

  lemma OneIsZero(a: real, b: real)
    requires a * b == 0.0
    ensures a == 0.0 || b == 0.0
  {
  }

  lemma OtherRoot(x: real, y: real, e: real)
    requires (-y) * x == e * e && Abs(x) <= Abs(e)
    ensures Abs(y) >= Abs(e)
  {
    if Abs(y) < Abs(e) {
      SmallerProduct(Abs(y), Abs(x), Abs(e));
    }
  }

  lemma SmallerProduct(p: real, q: real, r: real)
    requires 0.0 <= p < r && 0.0 <= q <= r
    ensures p * q < r * r
  {
    assert r * r - p * q == r * (r - p) + p * (r - q);
    MulPositive(r, r - p);
    assert p * (r - q) >= 0.0;
  }

  lemma CorrectedShift(d0: real, d1: real, e: real, root: real -> real) returns (t: real)
    requires e != 0.0 && IsSquareRoot(root)
    ensures Shift(d0, d0, d1, e, root) == d0 - d1 + t && t * t + (d0 - d1) * t == e * e
  {
    var g := Over(d0 - d1, 2.0 * e);
    ShiftDivisor(g, root);
    var r := root(1.0 + Square(g));
    var u := g + if g < 0.0 then -r else r;
    t := Over(e, u);
    Correction(d0, d1, e, g, u, t);
  }

  /** The first rotation of a sweep. */
  lemma FirstTurn(w: Sweep, root: real -> real)
    requires 1 < |w.d| == |w.e| && w.i == 1 && w.p == 0.0 && w.s == 1.0 && w.c == 1.0
    requires w.e[1] != 0.0 && IsSquareRoot(root)
    ensures var r := Length(w, root);
            && r != 0.0 && r * r == w.e[1] * w.e[1] + w.g * w.g
            && var w1 := Turned(w, root);
               r * w1.s == w.e[1] && r * w1.c == w.g && w1.g == BlockTurn(w.d[0], w.d[1], w.e[1], w1.s, w1.c).1
  {
    hide BlockTurn;
    LengthZero(w, root);
    assert Chased(w) == w.e[1] && Mul(w.c, w.e[1]) == w.e[1];
    var x := Square(Chased(w)) + Square(w.g);
    assert Square(root(x)) == x;
    OverTimes(Chased(w), Length(w, root));
    OverTimes(w.g, Length(w, root));
  }

  /** One sweep clears the link of two rows exactly. */
  lemma LastLink(l: Links, root: real -> real)
    requires l.Sized(|l.d|) && 1 < |l.d| && l.e[1] != 0.0 && IsSquareRoot(root)
    ensures Swept(l, 1, root).e[1] == 0.0
  {
    hide BlockTurn, Shift, Length;
    var w := Started(l, 1, root);
    var t := CorrectedShift(l.d[0], l.d[1], l.e[1], root);
    FirstTurn(w, root);
    var w1 := Turned(w, root);
    ExactShift(l.d[0], l.d[1], l.e[1], t, w.g, Length(w, root), w1.s, w1.c);
    assert RunFrom(w, 1, root) == Ended(w1, 1);
  }

  /** So a matrix of one or two rows is always decomposed. */
  lemma PairSucceeds(l: Links, root: real -> real)
    requires l.Sized(|l.d|) && 1 <= |l.d| <= 2 && IsSquareRoot(root)
    ensures AllCleared(l, |l.d| - 1, root).Done?
  {
    hide Swept;
    if |l.d| == 2 && !Negligible(l.e[1]) {
      LastLink(l, root);
    }
  }
}
