/** The resistor tree that the reducer works on: node 0 is the driver and every other
    node hangs, through resistance r[j], from a node with a smaller number.  The loops
    below compute y = R C u in two linear passes; the definitions here say what R is. */
module RcTree {
  import opened RealSums

  ghost predicate IsTree(par: seq<int>) {
    |par| > 0 && par[0] == -1 && forall j :: 1 <= j < |par| ==> 0 <= par[j] < j
  }

  /** Node i lies on the path from node k to the driver. */
  ghost predicate OnPath(par: seq<int>, i: int, k: int)
    requires IsTree(par) && 0 <= k < |par|
    decreases k
  {
    i == k || (k > 0 && OnPath(par, i, par[k]))
  }

  ghost function OnPathR(par: seq<int>, i: int, k: int): real
    requires IsTree(par)
  {
    if 0 <= k < |par| && OnPath(par, i, k) then 1.0 else 0.0
  }

  /** A tree with the resistance r above each node and the capacitance c at each node.
      The driver has no resistance above it. */
  datatype Tree = Tree(par: seq<int>, r: seq<real>, c: seq<real>) {
    ghost predicate Valid() {
      IsTree(par) && |r| == |par| && |c| == |par| && r[0] == 0.0
    }

    function Size(): nat { |par| }

    /** Resistance that the paths of j and k to the driver have in common. */
    ghost function Shared(j: int, k: int): real
      requires Valid()
    {
      Sum(SharedTerm(j, k), Size())
    }

    ghost function SharedTerm(j: int, k: int): int -> real
      requires Valid()
    {
      i => OnPathR(par, i, j) * OnPathR(par, i, k) * At(r, i)
    }

    /** Current that node k injects. */
    ghost function Load(u: int -> real, k: int): real {
      At(c, k) * u(k)
    }

    /** Current through the resistor above node i when node k injects c[k]*u[k]. */
    ghost function Current(u: int -> real, i: int): real
      requires Valid()
    {
      Sum(CurrentTerm(u, i), Size())
    }

    ghost function CurrentTerm(u: int -> real, i: int): int -> real
      requires Valid()
    {
      k => OnPathR(par, i, k) * Load(u, k)
    }

    /** The operator R C applied to u, row j, by its definition. */
    ghost function Solve(u: int -> real, j: int): real
      requires Valid()
    {
      Sum(SolveTerm(u, j), Size())
    }

    ghost function SolveTerm(u: int -> real, j: int): int -> real
      requires Valid()
    {
      k => Shared(j, k) * Load(u, k)
    }

    /** Inner product weighted by the capacitances. */
    ghost function Dot(u: int -> real, w: int -> real): real {
      Sum(DotTerm(u, w), Size())
    }

    ghost function DotTerm(u: int -> real, w: int -> real): int -> real {
      j => At(c, j) * u(j) * w(j)
    }

    /** The true Elmore delay of node j. */
    ghost function ElmoreDelay(j: int): real
      requires Valid()
    {
      Sum(ElmoreTerm(j), Size())
    }

    ghost function ElmoreTerm(j: int): int -> real
      requires Valid()
    {
      k => Shared(j, k) * At(c, k)
    }
  }

  // ---------------------------------------------------------------------------
  // Paths

  lemma {:induction false} OnPathAbove(par: seq<int>, i: int, k: int)
    requires IsTree(par) && 0 <= k < |par| && OnPath(par, i, k)
    ensures 0 <= i <= k
    decreases k
  {
    if i != k {
      OnPathAbove(par, i, par[k]);
    }
  }

  /** The first node at or below number j on the path of k. */
  ghost function Top(par: seq<int>, j: int, k: int): (t: int)
    requires IsTree(par) && 0 <= k < |par| && 0 <= j
    ensures 0 <= t <= j && t <= k
    decreases k
  {
    if k <= j then k else Top(par, j, par[k])
  }

  lemma {:induction false} TopIsOnPath(par: seq<int>, j: int, k: int)
    requires IsTree(par) && 0 <= j <= k < |par|
    ensures Top(par, j, k) == j <==> OnPath(par, j, k)
    decreases k
  {
    if k > j {
      if par[k] >= j {
        TopIsOnPath(par, j, par[k]);
      } else if OnPath(par, j, par[k]) {
        OnPathAbove(par, j, par[k]);
      }
    }
  }

  lemma {:induction false} TopStep(par: seq<int>, j: int, k: int)
    requires IsTree(par) && 1 <= j <= k < |par|
    ensures Top(par, j - 1, k) == if Top(par, j, k) == j then par[j] else Top(par, j, k)
    decreases k
  {
    if k > j {
      if par[k] >= j {
        TopStep(par, j, par[k]);
      }
    }
  }

  // ---------------------------------------------------------------------------
  // The fast passes against the definition

  /** y[j] by currents: the voltage drops along the path of j. */
  lemma {:induction false} SolveByCurrents(t: Tree, u: int -> real, j: int)
    requires t.Valid()
    ensures t.Solve(u, j) == Sum(DropTerm(t, u, j), t.Size())
  {
    var n := t.Size();
    var F := (i, k) => DropShare(t, u, j, i)(k);
    forall i | 0 <= i < n
      ensures DropTerm(t, u, j)(i) == Sum(k => F(i, k), n)
    {
      DropRow(t, u, j, i, k => F(i, k));
    }
    forall k | 0 <= k < n
      ensures t.SolveTerm(u, j)(k) == Sum(i => F(i, k), n)
    {
      DropColumn(t, u, j, k, i => F(i, k));
    }
    SumSwap(F, DropTerm(t, u, j), t.SolveTerm(u, j), n, n);
  }

  /** The part of the drop across the resistor of i, on the way to j, that each node causes. */
  ghost function DropShare(t: Tree, u: int -> real, j: int, i: int): int -> real
    requires t.Valid()
  {
    k => OnPathR(t.par, i, j) * At(t.r, i) * t.CurrentTerm(u, i)(k)
  }

  lemma DropRow(t: Tree, u: int -> real, j: int, i: int, f: int -> real)
    requires t.Valid() && forall k :: 0 <= k < t.Size() ==> f(k) == DropShare(t, u, j, i)(k)
    ensures DropTerm(t, u, j)(i) == Sum(f, t.Size())
  {
    SumScale(f, OnPathR(t.par, i, j) * At(t.r, i), t.CurrentTerm(u, i), t.Size());
  }

  lemma DropColumn(t: Tree, u: int -> real, j: int, k: int, f: int -> real)
    requires t.Valid() && forall i :: 0 <= i < t.Size() ==> f(i) == DropShare(t, u, j, i)(k)
    ensures t.SolveTerm(u, j)(k) == Sum(f, t.Size())
  {
    hide Tree.Valid, Tree.Load, Tree.SharedTerm, Tree.SolveTerm, DropShare;
    var q := t.Load(u, k);
    forall i | 0 <= i < t.Size()
      ensures f(i) == q * t.SharedTerm(j, k)(i)
    {
      DropEntry(t, u, j, i, k);
    }
    SumScale(f, q, t.SharedTerm(j, k), t.Size());
    SolveTermIs(t, u, j, k);
    SameScaled(Sum(f, t.Size()), q, Sum(t.SharedTerm(j, k), t.Size()), t.Shared(j, k), t.SolveTerm(u, j)(k));
  }

  lemma SolveTermIs(t: Tree, u: int -> real, j: int, k: int)
    requires t.Valid()
    ensures t.SolveTerm(u, j)(k) == t.Shared(j, k) * t.Load(u, k)
  {
    hide Tree.Valid, Tree.Load, Tree.Shared;
  }

  lemma DropEntry(t: Tree, u: int -> real, j: int, i: int, k: int)
    requires t.Valid()
    ensures DropShare(t, u, j, i)(k) == t.Load(u, k) * t.SharedTerm(j, k)(i)
  {
    Rearrange(OnPathR(t.par, i, j), At(t.r, i), t.CurrentTerm(u, i)(k), OnPathR(t.par, i, k), t.Load(u, k));
  }

  lemma Rearrange(a: real, r: real, v: real, b: real, q: real)
    requires v == b * q
    ensures a * r * v == q * (a * b * r)
  {
  }

  ghost function DropTerm(t: Tree, u: int -> real, j: int): int -> real
    requires t.Valid()
  {
    i => OnPathR(t.par, i, j) * At(t.r, i) * t.Current(u, i)
  }

  /** The drop to j is the drop to its parent plus the drop across its own resistor. */
  lemma SolveStep(t: Tree, u: int -> real, j: int)
    requires t.Valid() && 1 <= j < t.Size()
    ensures t.Solve(u, j) == t.Solve(u, t.par[j]) + t.r[j] * t.Current(u, j)
  {
    var n := t.Size();
    SolveByCurrents(t, u, j);
    SolveByCurrents(t, u, t.par[j]);
    var own := i => if i == j then t.r[j] * t.Current(u, j) else 0.0;
    forall i | 0 <= i < n
      ensures DropTerm(t, u, j)(i) == 1.0 * DropTerm(t, u, t.par[j])(i) + 1.0 * own(i)
    {
      if i == j {
        if OnPath(t.par, j, t.par[j]) {
          OnPathAbove(t.par, j, t.par[j]);
        }
      }
    }
    SumLinear(DropTerm(t, u, j), 1.0, DropTerm(t, u, t.par[j]), 1.0, own, n);
    SumSingle(own, n, j);
  }

  lemma SolveRoot(t: Tree, u: int -> real)
    requires t.Valid()
    ensures t.Solve(u, 0) == 0.0
  {
    SolveByCurrents(t, u, 0);
    SumZero(DropTerm(t, u, 0), t.Size());
  }

  /** Current collected at node i once the nodes above number j have passed theirs on. */
  ghost function Collected(t: Tree, u: int -> real, j: int, i: int): real
    requires t.Valid() && 0 <= j
  {
    Sum(CollectedTerm(t, u, j, i), t.Size())
  }

  ghost function CollectedTerm(t: Tree, u: int -> real, j: int, i: int): int -> real
    requires t.Valid() && 0 <= j
  {
    k => if j < k < t.Size() && Top(t.par, j, k) == i then t.Load(u, k) else 0.0
  }

  lemma CollectedNone(t: Tree, u: int -> real, i: int)
    requires t.Valid()
    ensures Collected(t, u, t.Size() - 1, i) == 0.0
  {
    SumZero(CollectedTerm(t, u, t.Size() - 1, i), t.Size());
  }

  lemma CollectedComplete(t: Tree, u: int -> real, j: int)
    requires t.Valid() && 0 <= j < t.Size()
    ensures Collected(t, u, j, j) + t.Load(u, j) == t.Current(u, j)
  {
    hide Tree.Valid, Tree.Load, Tree.CurrentTerm, CollectedTerm, OnPath;
    var own := Spike(j, t.Load(u, j));
    forall k | 0 <= k < t.Size()
      ensures t.CurrentTerm(u, j)(k) == 1.0 * CollectedTerm(t, u, j, j)(k) + 1.0 * own(k)
    {
      CollectedOwn(t, u, j, k);
    }
    SumLinear(t.CurrentTerm(u, j), 1.0, CollectedTerm(t, u, j, j), 1.0, own, t.Size());
    SumSpike(j, t.Load(u, j), t.Size());
  }

  lemma CollectedOwn(t: Tree, u: int -> real, j: int, k: int)
    requires t.Valid() && 0 <= j < t.Size() && 0 <= k < t.Size()
    ensures t.CurrentTerm(u, j)(k) == CollectedTerm(t, u, j, j)(k) + Spike(j, t.Load(u, j))(k)
  {
    hide Tree.Load;
    if k >= j {
      TopIsOnPath(t.par, j, k);
    } else if OnPath(t.par, j, k) {
      OnPathAbove(t.par, j, k);
    }
  }

  /** Node j hands the whole of its current to its parent and nothing to any other node. */
  lemma CollectedStep(t: Tree, u: int -> real, j: int, i: int)
    requires t.Valid() && 1 <= j < t.Size() && 0 <= i < j
    ensures Collected(t, u, j - 1, i) ==
            Collected(t, u, j, i) + (if i == t.par[j] then t.Current(u, j) else 0.0)
  {
    hide Tree.CurrentTerm, CollectedTerm;
    var before, after := CollectedTerm(t, u, j, i), CollectedTerm(t, u, j - 1, i);
    forall k | 0 <= k < t.Size()
      ensures after(k) == before(k) + (if i == t.par[j] then t.CurrentTerm(u, j)(k) else 0.0)
    {
      CollectedOne(t, u, j, i, k);
    }
    if i == t.par[j] {
      SumLinear(after, 1.0, before, 1.0, t.CurrentTerm(u, j), t.Size());
    } else {
      SumCongr(after, before, t.Size());
    }
  }

  lemma CollectedOne(t: Tree, u: int -> real, j: int, i: int, k: int)
    requires t.Valid() && 1 <= j < t.Size() && 0 <= i < j && 0 <= k < t.Size()
    ensures CollectedTerm(t, u, j - 1, i)(k) ==
            CollectedTerm(t, u, j, i)(k) + (if i == t.par[j] then t.CurrentTerm(u, j)(k) else 0.0)
  {
    if k >= j {
      TopStep(t.par, j, k);
      TopIsOnPath(t.par, j, k);
    } else if OnPath(t.par, j, k) {
      OnPathAbove(t.par, j, k);
    }
  }

  /** The state of the upward pass before it handles node j-1: the nodes from j on hold
      their whole current, the others what has been handed to them so far. */
  ghost predicate PassedDownTo(t: Tree, u: int -> real, j: nat, iv: seq<real>)
    requires t.Valid()
  {
    && 1 <= j <= t.Size() == |iv|
    && (forall i :: 0 <= i < j ==> iv[i] == Collected(t, u, j - 1, i))
    && (forall i :: j <= i < |iv| ==> iv[i] == t.Current(u, i))
  }

  lemma PassStart(t: Tree, u: int -> real, iv: seq<real>)
    requires t.Valid() && |iv| == t.Size() && forall i :: 0 <= i < |iv| ==> iv[i] == 0.0
    ensures PassedDownTo(t, u, t.Size(), iv)
  {
    forall i | 0 <= i < |iv|
      ensures iv[i] == Collected(t, u, t.Size() - 1, i)
    {
      CollectedNone(t, u, i);
    }
  }

  /** Node j keeps its total current and its parent receives it too. */
  ghost function HandedOver(par: seq<int>, j: nat, iv: seq<real>, own: real): seq<real>
    requires IsTree(par) && 1 <= j < |par| == |iv|
  {
    iv[j := own][par[j] := iv[par[j]] + own]
  }

  lemma PassStep(t: Tree, u: int -> real, j: nat, iv: seq<real>, own: real)
    requires t.Valid() && 1 <= j < t.Size() && PassedDownTo(t, u, j + 1, iv)
    requires own == iv[j] + t.Load(u, j)
    ensures PassedDownTo(t, u, j, HandedOver(t.par, j, iv, own))
  {
    CollectedComplete(t, u, j);
    forall i | 0 <= i < j
      ensures Collected(t, u, j - 1, i) == Collected(t, u, j, i) + (if i == t.par[j] then t.Current(u, j) else 0.0)
    {
      CollectedStep(t, u, j, i);
    }
  }

  // ---------------------------------------------------------------------------
  // Linearity, symmetry and energy

  lemma DotLinear(t: Tree, h: int -> real, a: real, f: int -> real, b: real, g: int -> real, w: int -> real)
    requires forall j :: 0 <= j < t.Size() ==> h(j) == a * f(j) + b * g(j)
    ensures t.Dot(h, w) == a * t.Dot(f, w) + b * t.Dot(g, w)
  {
    hide Tree.DotTerm, Sum;
    var n := t.Size();
    forall j | 0 <= j < n
      ensures t.DotTerm(h, w)(j) == a * t.DotTerm(f, w)(j) + b * t.DotTerm(g, w)(j)
    {
      DotTermLinear(t, h, a, f, b, g, w, j);
    }
    SumLinear(t.DotTerm(h, w), a, t.DotTerm(f, w), b, t.DotTerm(g, w), n);
    SameLinear(t.Dot(h, w), Sum(t.DotTerm(h, w), n), a, t.Dot(f, w), Sum(t.DotTerm(f, w), n), b, t.Dot(g, w),
        Sum(t.DotTerm(g, w), n));
  }

  lemma DotTermLinear(t: Tree, h: int -> real, a: real, f: int -> real, b: real, g: int -> real, w: int -> real, j: int)
    requires h(j) == a * f(j) + b * g(j)
    ensures t.DotTerm(h, w)(j) == a * t.DotTerm(f, w)(j) + b * t.DotTerm(g, w)(j)
  {
    var c := At(t.c, j);
    Distribute(c, h(j), a, f(j), b, g(j), w(j));
    SameLinear(t.DotTerm(h, w)(j), c * h(j) * w(j), a, t.DotTerm(f, w)(j), c * f(j) * w(j), b, t.DotTerm(g, w)(j),
        c * g(j) * w(j));
  }

  lemma DotLinear3(t: Tree, h: int -> real, a: real, f: int -> real, b: real, g: int -> real, c: real,
                   k: int -> real, w: int -> real)
    requires forall j :: 0 <= j < t.Size() ==> h(j) == a * f(j) + b * g(j) + c * k(j)
    ensures t.Dot(h, w) == a * t.Dot(f, w) + b * t.Dot(g, w) + c * t.Dot(k, w)
  {
    hide Tree.Dot;
    var fg := j => a * f(j) + b * g(j);
    DotLinear(t, fg, a, f, b, g, w);
    DotLinear(t, h, 1.0, fg, c, k, w);
  }

  lemma Distribute(c: real, h: real, a: real, f: real, b: real, g: real, w: real)
    requires h == a * f + b * g
    ensures c * h * w == a * (c * f * w) + b * (c * g * w)
  {
    assert c * h == a * (c * f) + b * (c * g);
  }

  lemma DistributeLoad(q: real, c: real, h: real, a: real, f: real, b: real, g: real)
    requires h == a * f + b * g
    ensures q * (c * h) == a * (q * (c * f)) + b * (q * (c * g))
  {
    assert c * h == a * (c * f) + b * (c * g);
  }

  lemma DotSymmetric(t: Tree, u: int -> real, w: int -> real)
    ensures t.Dot(u, w) == t.Dot(w, u)
  {
    SumCongr(t.DotTerm(u, w), t.DotTerm(w, u), t.Size());
  }

  lemma DotCongr(t: Tree, u: int -> real, u': int -> real, w: int -> real)
    requires forall j :: 0 <= j < t.Size() ==> u(j) == u'(j)
    ensures t.Dot(u, w) == t.Dot(u', w)
  {
    SumCongr(t.DotTerm(u, w), t.DotTerm(u', w), t.Size());
  }

  lemma SolveLinear(t: Tree, h: int -> real, a: real, f: int -> real, b: real, g: int -> real, j: int)
    requires t.Valid()
    requires forall k :: 0 <= k < t.Size() ==> h(k) == a * f(k) + b * g(k)
    ensures t.Solve(h, j) == a * t.Solve(f, j) + b * t.Solve(g, j)
  {
    hide Tree.Valid, Tree.SolveTerm, Sum;
    var n := t.Size();
    forall k | 0 <= k < n
      ensures t.SolveTerm(h, j)(k) == a * t.SolveTerm(f, j)(k) + b * t.SolveTerm(g, j)(k)
    {
      SolveTermLinear(t, h, a, f, b, g, j, k);
    }
    SumLinear(t.SolveTerm(h, j), a, t.SolveTerm(f, j), b, t.SolveTerm(g, j), n);
    SameLinear(t.Solve(h, j), Sum(t.SolveTerm(h, j), n), a, t.Solve(f, j), Sum(t.SolveTerm(f, j), n), b,
        t.Solve(g, j), Sum(t.SolveTerm(g, j), n));
  }

  lemma SolveTermLinear(t: Tree, h: int -> real, a: real, f: int -> real, b: real, g: int -> real, j: int, k: int)
    requires t.Valid() && h(k) == a * f(k) + b * g(k)
    ensures t.SolveTerm(h, j)(k) == a * t.SolveTerm(f, j)(k) + b * t.SolveTerm(g, j)(k)
  {
    hide Tree.Valid, Tree.Shared, Tree.SolveTerm;
    var q, c := t.Shared(j, k), At(t.c, k);
    DistributeLoad(q, c, h(k), a, f(k), b, g(k));
    LoadedTerm(t, h, j, k);
    LoadedTerm(t, f, j, k);
    LoadedTerm(t, g, j, k);
    SameLinear(t.SolveTerm(h, j)(k), q * (c * h(k)), a, t.SolveTerm(f, j)(k), q * (c * f(k)), b,
        t.SolveTerm(g, j)(k), q * (c * g(k)));
  }

  lemma LoadedTerm(t: Tree, u: int -> real, j: int, k: int)
    requires t.Valid()
    ensures t.SolveTerm(u, j)(k) == t.Shared(j, k) * (At(t.c, k) * u(k))
  {
    hide Tree.Valid, Tree.Shared;
  }

  ghost function EnergyTerm(t: Tree, u: int -> real, w: int -> real): int -> real
    requires t.Valid()
  {
    i => At(t.r, i) * (t.Current(u, i) * t.Current(w, i))
  }

  /** Energy: pairing w with R C u is the power dissipated in the resistors. */
  lemma Energy(t: Tree, u: int -> real, w: int -> real, y: int -> real)
    requires t.Valid()
    requires forall j :: 0 <= j < t.Size() ==> y(j) == t.Solve(u, j)
    ensures t.Dot(w, y) == Sum(EnergyTerm(t, u, w), t.Size())
  {
    var n := t.Size();
    var F := (j, i) => t.Load(w, j) * DropTerm(t, u, j)(i);
    forall j | 0 <= j < n
      ensures t.DotTerm(w, y)(j) == Sum(i => F(j, i), n)
    {
      EnergyRow(t, u, w, y, j, i => F(j, i));
    }
    forall i | 0 <= i < n
      ensures EnergyTerm(t, u, w)(i) == Sum(j => F(j, i), n)
    {
      EnergyColumn(t, u, w, i, j => F(j, i));
    }
    SumSwap(F, t.DotTerm(w, y), EnergyTerm(t, u, w), n, n);
  }

  lemma EnergyRow(t: Tree, u: int -> real, w: int -> real, y: int -> real, j: int, f: int -> real)
    requires t.Valid() && y(j) == t.Solve(u, j)
    requires forall i :: 0 <= i < t.Size() ==> f(i) == t.Load(w, j) * DropTerm(t, u, j)(i)
    ensures t.DotTerm(w, y)(j) == Sum(f, t.Size())
  {
    SolveByCurrents(t, u, j);
    SumScale(f, t.Load(w, j), DropTerm(t, u, j), t.Size());
  }

  lemma EnergyColumn(t: Tree, u: int -> real, w: int -> real, i: int, f: int -> real)
    requires t.Valid() && 0 <= i < t.Size()
    requires forall j :: 0 <= j < t.Size() ==> f(j) == t.Load(w, j) * DropTerm(t, u, j)(i)
    ensures EnergyTerm(t, u, w)(i) == Sum(f, t.Size())
  {
    hide Tree.Valid, Tree.CurrentTerm, Tree.Load, DropTerm, EnergyTerm;
    var q := At(t.r, i) * t.Current(u, i);
    forall j | 0 <= j < t.Size()
      ensures f(j) == q * t.CurrentTerm(w, i)(j)
    {
      EnergyEntry(t, u, w, i, j);
    }
    SumScale(f, q, t.CurrentTerm(w, i), t.Size());
    EnergyTermIs(t, u, w, i);
    SameScaled(Sum(f, t.Size()), q, Sum(t.CurrentTerm(w, i), t.Size()), t.Current(w, i), EnergyTerm(t, u, w)(i));
  }

  lemma EnergyEntry(t: Tree, u: int -> real, w: int -> real, i: int, j: int)
    requires t.Valid()
    ensures t.Load(w, j) * DropTerm(t, u, j)(i) == (At(t.r, i) * t.Current(u, i)) * t.CurrentTerm(w, i)(j)
  {
    hide Tree.Current, Tree.Load, OnPathR, OnPath;
    Reorder(t.Load(w, j), OnPathR(t.par, i, j), At(t.r, i), t.Current(u, i));
  }

  lemma EnergyTermIs(t: Tree, u: int -> real, w: int -> real, i: int)
    requires t.Valid()
    ensures EnergyTerm(t, u, w)(i) == t.Current(w, i) * (At(t.r, i) * t.Current(u, i))
  {
    hide Tree.Valid, Tree.Current;
  }

  lemma Reorder(l: real, p: real, r: real, v: real)
    ensures l * (p * r * v) == r * v * (p * l)
  {
  }

  /** R C is self-adjoint in the capacitance inner product. */
  lemma SelfAdjoint(t: Tree, u: int -> real, yu: int -> real, w: int -> real, yw: int -> real)
    requires t.Valid()
    requires forall j :: 0 <= j < t.Size() ==> yu(j) == t.Solve(u, j)
    requires forall j :: 0 <= j < t.Size() ==> yw(j) == t.Solve(w, j)
    ensures t.Dot(w, yu) == t.Dot(u, yw)
  {
    Energy(t, u, w, yu);
    Energy(t, w, u, yw);
    SumCongr(EnergyTerm(t, u, w), EnergyTerm(t, w, u), t.Size());
  }

  /** With no negative resistance, R C is positive semidefinite. */
  lemma EnergyNonNegative(t: Tree, u: int -> real, y: int -> real)
    requires t.Valid()
    requires forall j :: 0 <= j < t.Size() ==> y(j) == t.Solve(u, j)
    requires forall i :: 0 <= i < t.Size() ==> t.r[i] >= 0.0
    ensures t.Dot(u, y) >= 0.0
  {
    Energy(t, u, u, y);
    forall i | 0 <= i < t.Size()
      ensures EnergyTerm(t, u, u)(i) >= 0.0
    {
      assert Square(t.Current(u, i)) >= 0.0;
    }
    SumNonNeg(EnergyTerm(t, u, u), t.Size());
  }

  /** The Elmore delay is R C applied to the all-ones vector. */
  lemma ElmoreIsSolve(t: Tree, one: int -> real, j: int)
    requires t.Valid()
    requires forall k :: 0 <= k < t.Size() ==> one(k) == 1.0
    ensures t.Solve(one, j) == t.ElmoreDelay(j)
  {
    SumCongr(t.SolveTerm(one, j), t.ElmoreTerm(j), t.Size());
  }
}
