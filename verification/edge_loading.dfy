/** How the reducer gives every point the list of its edges: one flat array holds all the
    lists, and every point has a start in it and a count. */
module EdgeLoading {
  import opened ResistorWalk

  /** Edge e touches point p. */
  predicate AtPoint(ends: seq<(int, int)>, e: int, p: int)
    requires 0 <= e < |ends|
  {
    ends[e].0 == p || ends[e].1 == p
  }

  /** The first m edges that touch p, in order; a self loop once. */
  function Incident(ends: seq<(int, int)>, p: int, m: nat): seq<int>
    requires m <= |ends|
  {
    if m == 0 then [] else Incident(ends, p, m - 1) + if AtPoint(ends, m - 1, p) then [m - 1] else []
  }

  lemma {:induction false} IncidentEntries(ends: seq<(int, int)>, p: int, m: nat)
    requires m <= |ends|
    ensures forall k :: 0 <= k < |Incident(ends, p, m)| ==>
              0 <= Incident(ends, p, m)[k] < m && AtPoint(ends, Incident(ends, p, m)[k], p)
    ensures forall j, k :: 0 <= j < k < |Incident(ends, p, m)| ==> Incident(ends, p, m)[j] < Incident(ends, p, m)[k]
  {
    if m > 0 {
      IncidentEntries(ends, p, m - 1);
    }
  }

  lemma {:induction false} IncidentAll(ends: seq<(int, int)>, p: int, m: nat, e: int)
    requires m <= |ends| && 0 <= e < m && AtPoint(ends, e, p)
    ensures e in Incident(ends, p, m)
  {
    if e < m - 1 {
      IncidentAll(ends, p, m - 1, e);
    }
  }

  lemma {:induction false} IncidentGrows(ends: seq<(int, int)>, p: int, m: nat, k: nat)
    requires m <= k <= |ends|
    ensures |Incident(ends, p, m)| <= |Incident(ends, p, k)|
    decreases k
  {
    if m < k {
      IncidentGrows(ends, p, m, k - 1);
    }
  }

  /** Entries needed for the first p points. */
  function ListStart(ends: seq<(int, int)>, p: nat): nat {
    if p == 0 then 0 else ListStart(ends, p - 1) + |Incident(ends, p - 1, |ends|)|
  }

  lemma {:induction false} StartGrows(ends: seq<(int, int)>, p: nat, q: nat)
    requires p < q
    ensures ListStart(ends, p) + |Incident(ends, p, |ends|)| <= ListStart(ends, q)
    decreases q
  {
    if p < q - 1 {
      StartGrows(ends, p, q - 1);
    }
  }

  /** Entries that the first m edges put in the lists of the first p points. */
  function Entries(ends: seq<(int, int)>, p: nat, m: nat): nat
    requires m <= |ends|
  {
    if p == 0 then 0 else Entries(ends, p - 1, m) + |Incident(ends, p - 1, m)|
  }

  function In(x: int, p: nat): nat { if 0 <= x < p then 1 else 0 }

  lemma {:induction false} EntriesOfEdge(ends: seq<(int, int)>, p: nat, m: nat)
    requires m < |ends|
    ensures Entries(ends, p, m + 1) <= Entries(ends, p, m) + In(ends[m].0, p) + In(ends[m].1, p)
  {
    if p > 0 {
      EntriesOfEdge(ends, p - 1, m);
    }
  }

  /** Every edge needs at most two entries. */
  lemma {:induction false} EntriesFit(ends: seq<(int, int)>, p: nat, m: nat)
    requires m <= |ends|
    ensures Entries(ends, p, m) <= 2 * m
  {
    if m == 0 {
      NoEntries(ends, p);
    } else {
      EntriesFit(ends, p, m - 1);
      EntriesOfEdge(ends, p, m - 1);
    }
  }

  lemma {:induction false} NoEntries(ends: seq<(int, int)>, p: nat)
    ensures Entries(ends, p, 0) == 0
  {
    if p > 0 {
      NoEntries(ends, p - 1);
    }
  }

  lemma {:induction false} StartIsEntries(ends: seq<(int, int)>, p: nat)
    ensures ListStart(ends, p) == Entries(ends, p, |ends|) <= 2 * |ends|
  {
    if p > 0 {
      StartIsEntries(ends, p - 1);
    }
    EntriesFit(ends, p, |ends|);
  }

  /** A list stands in eV from its start on. */
  ghost predicate LaidAt(eV: seq<int>, start: nat, list: seq<int>) {
    start + |list| <= |eV| && eV[start..start + |list|] == list
  }

  /** The lists built so far lie at their starts. */
  ghost predicate Laid(eV: seq<int>, ends: seq<(int, int)>, lists: seq<seq<int>>) {
    forall p {:trigger lists[p]} :: 0 <= p < |lists| ==> LaidAt(eV, ListStart(ends, p), lists[p])
  }

  ghost predicate Within(ends: seq<(int, int)>, lists: seq<seq<int>>) {
    forall p {:trigger lists[p]} :: 0 <= p < |lists| ==> |lists[p]| <= |Incident(ends, p, |ends|)|
  }

  lemma LaidApart(eV: seq<int>, start: nat, list: seq<int>, at: nat, e: int)
    requires LaidAt(eV, start, list) && at < |eV| && (at < start || start + |list| <= at)
    ensures LaidAt(eV[at := e], start, list)
  {
    assert eV[at := e][start..start + |list|] == eV[start..start + |list|];
  }

  lemma LaidNext(eV: seq<int>, start: nat, list: seq<int>, e: int)
    requires LaidAt(eV, start, list) && start + |list| < |eV|
    ensures LaidAt(eV[start + |list| := e], start, list + [e])
  {
    var eV' := eV[start + |list| := e];
    assert eV'[start..start + |list| + 1] == eV'[start..start + |list|] + [e];
    assert eV'[start..start + |list|] == eV[start..start + |list|];
  }

  /** Adding an entry to one list disturbs no other. */
  lemma LayOne(eV: seq<int>, ends: seq<(int, int)>, lists: seq<seq<int>>, p: nat, e: int)
    requires Laid(eV, ends, lists) && Within(ends, lists) && p < |lists|
    requires |lists[p]| < |Incident(ends, p, |ends|)| && ListStart(ends, p) + |lists[p]| < |eV|
    ensures Laid(eV[ListStart(ends, p) + |lists[p]| := e], ends, lists[p := lists[p] + [e]])
    ensures Within(ends, lists[p := lists[p] + [e]])
  {
    var lists' := lists[p := lists[p] + [e]];
    var at := ListStart(ends, p) + |lists[p]|;
    forall q | 0 <= q < |lists'|
      ensures LaidAt(eV[at := e], ListStart(ends, q), lists'[q])
    {
      assert LaidAt(eV, ListStart(ends, q), lists[q]);
      if q == p {
        LaidNext(eV, ListStart(ends, p), lists[p], e);
      } else {
        if q < p {
          StartGrows(ends, q, p);
        } else {
          StartGrows(ends, p, q);
        }
        LaidApart(eV, ListStart(ends, q), lists[q], at, e);
      }
    }
  }

  /** The lists after the first m edges. */
  ghost function Lists(ends: seq<(int, int)>, n: nat, m: nat): seq<seq<int>>
    requires m <= |ends|
  {
    seq(n, p requires 0 <= p < n => Incident(ends, p, m))
  }

  /** What edge e adds to the lists. */
  lemma NextLists(ends: seq<(int, int)>, n: nat, e: nat, lists: seq<seq<int>>)
    requires e < |ends| && 0 <= ends[e].0 < n && 0 <= ends[e].1 < n
    requires var (a, b) := ends[e]; var was := Lists(ends, n, e); var with := was[a := was[a] + [e]];
             lists == if a == b then with else with[b := with[b] + [e]]
    ensures lists == Lists(ends, n, e + 1)
  {
    forall p | 0 <= p < n
      ensures lists[p] == Incident(ends, p, e + 1)
    {
      assert Lists(ends, n, e)[p] == Incident(ends, p, e);
    }
  }

  lemma LaidEmpty(eV: seq<int>, ends: seq<(int, int)>, n: nat)
    requires |eV| == 2 * |ends|
    ensures Laid(eV, ends, Lists(ends, n, 0)) && Within(ends, Lists(ends, n, 0))
  {
    forall p | 0 <= p < n
      ensures LaidAt(eV, ListStart(ends, p), Lists(ends, n, 0)[p])
    {
      StartIsEntries(ends, p);
    }
  }

  class Loader {
    const n: nat
    const ends: seq<(int, int)>
    const eN: array<nat>
    const start: array<nat>
    const eV: array<int>

    constructor (n: nat, ends: seq<(int, int)>)
      ensures this.n == n && this.ends == ends && Shaped()
      ensures fresh(eN) && fresh(start) && fresh(eV)
    {
      this.n, this.ends := n, ends;
      eN := new nat[n];
      start := new nat[n];
      eV := new int[2 * |ends|];
    }

    ghost predicate Shaped() {
      && eN.Length == n && start.Length == n && eN != start && eV.Length == 2 * |ends|
      && (eN as object) != eV && (start as object) != eV
    }

    ghost predicate InRange() {
      forall e {:trigger ends[e]} :: 0 <= e < |ends| ==> 0 <= ends[e].0 < n && 0 <= ends[e].1 < n
    }

    /** Counts the edges at every point. */
    method Count()
      requires Shaped() && InRange()
      modifies eN
      ensures forall p {:trigger eN[p]} :: 0 <= p < n ==> eN[p] == |Incident(ends, p, |ends|)|
    {
      for p := 0 to n
        invariant forall q {:trigger eN[q]} :: 0 <= q < p ==> eN[q] == 0
      {
        eN[p] := 0;
      }
      for e := 0 to |ends|
        invariant forall p {:trigger eN[p]} :: 0 <= p < n ==> eN[p] == |Incident(ends, p, e)|
      {
        var (a, b) := ends[e];
        eN[a] := eN[a] + 1;
        if a != b {
          eN[b] := eN[b] + 1;
        }
      }
    }

    /** Gives every point its start and empties its list. */
    method Allot()
      requires Shaped() && forall p {:trigger eN[p]} :: 0 <= p < n ==> eN[p] == |Incident(ends, p, |ends|)|
      modifies eN, start
      ensures forall p {:trigger eN[p]} {:trigger start[p]} :: 0 <= p < n ==>
                eN[p] == 0 && start[p] == ListStart(ends, p)
    {
      var next := 0;
      for p := 0 to n
        invariant next == ListStart(ends, p)
        invariant forall q {:trigger eN[q]} {:trigger start[q]} :: 0 <= q < p ==>
                  eN[q] == 0 && start[q] == ListStart(ends, q)
        invariant forall q {:trigger eN[q]} :: p <= q < n ==> eN[q] == |Incident(ends, q, |ends|)|
      {
        start[p] := next;
        next := next + eN[p];
        eN[p] := 0;
      }
    }

    /** The lists stand in eV. */
    ghost predicate Holding(lists: seq<seq<int>>)
      reads eN, start, eV
    {
      && |lists| == n && Shaped()
      && Laid(eV[..], ends, lists) && Within(ends, lists)
      && forall p {:trigger lists[p]} :: 0 <= p < n ==> eN[p] == |lists[p]| && start[p] == ListStart(ends, p)
    }

    method Add(p: int, e: int, ghost lists: seq<seq<int>>) returns (ghost lists': seq<seq<int>>)
      requires Holding(lists) && 0 <= p < n && |lists[p]| < |Incident(ends, p, |ends|)|
      modifies eN, eV
      ensures lists' == lists[p := lists[p] + [e]] && Holding(lists')
    {
      hide Laid, Within, Incident, ListStart;
      assert eN[p] == |lists[p]| && start[p] == ListStart(ends, p);
      StartGrows(ends, p, p + 1);
      StartIsEntries(ends, p + 1);
      LayOne(eV[..], ends, lists, p, e);
      lists' := lists[p := lists[p] + [e]];
      eV[start[p] + eN[p]] := e;
      assert eV[..] == old(eV[..])[ListStart(ends, p) + |lists[p]| := e];
      eN[p] := eN[p] + 1;
    }

    /** Puts every edge in the lists of its ends. */
    method Fill()
      requires Shaped() && InRange()
      requires forall p {:trigger eN[p]} {:trigger start[p]} :: 0 <= p < n ==>
                eN[p] == 0 && start[p] == ListStart(ends, p)
      modifies eN, eV
      ensures Holding(Lists(ends, n, |ends|))
    {
      hide Laid, Within, ListStart;
      ghost var lists := Lists(ends, n, 0);
      LaidEmpty(eV[..], ends, n);
      for e := 0 to |ends|
        invariant lists == Lists(ends, n, e) && Holding(lists)
      {
        var (a, b) := ends[e];
        IncidentGrows(ends, a, e + 1, |ends|);
        IncidentGrows(ends, b, e + 1, |ends|);
        lists := Add(a, e, lists);
        if a != b {
          lists := Add(b, e, lists);
        }
        NextLists(ends, n, e, lists);
      }
    }

    method Collect() returns (adj: seq<seq<int>>)
      requires Holding(Lists(ends, n, |ends|))
      ensures |adj| == n
      ensures forall p {:trigger adj[p]} :: 0 <= p < n ==> adj[p] == Incident(ends, p, |ends|)
    {
      ghost var lists := Lists(ends, n, |ends|);
      adj := [];
      for p := 0 to n
        invariant |adj| == p
        invariant forall q {:trigger adj[q]} :: 0 <= q < p ==> adj[q] == Incident(ends, q, |ends|)
      {
        assert LaidAt(eV[..], ListStart(ends, p), lists[p]) && eN[p] == |lists[p]| && start[p] == ListStart(ends, p);
        assert eV[start[p]..start[p] + eN[p]] == eV[..][start[p]..start[p] + eN[p]];
        adj := adj + [eV[start[p]..start[p] + eN[p]]];
      }
    }

    /** The net with its lists of edges. */
    method Load() returns (g: Net)
      requires Shaped() && InRange()
      modifies eN, start, eV
      ensures g.n == n && g.ends == ends && g.Valid()
      ensures forall p {:trigger g.adj[p]} :: 0 <= p < n ==> g.adj[p] == Incident(ends, p, |ends|)
    {
      Count();
      Allot();
      Fill();
      var adj := Collect();
      g := Net(n, ends, adj);
      NetValid(g);
    }
  }

  lemma NetValid(g: Net)
    requires |g.adj| == g.n && forall p {:trigger g.adj[p]} :: 0 <= p < g.n ==>
              g.adj[p] == Incident(g.ends, p, |g.ends|)
    requires forall e {:trigger g.ends[e]} :: 0 <= e < |g.ends| ==> 0 <= g.ends[e].0 < g.n && 0 <= g.ends[e].1 < g.n
    ensures g.Valid()
  {
    forall p | 0 <= p < g.n
      ensures forall k {:trigger g.adj[p][k]} :: 0 <= k < |g.adj[p]| ==>
                0 <= g.adj[p][k] < |g.ends| && g.Touches(g.adj[p][k], p)
      ensures forall j, k {:trigger g.adj[p][j], g.adj[p][k]} :: 0 <= j < k < |g.adj[p]| ==> g.adj[p][j] != g.adj[p][k]
    {
      IncidentEntries(g.ends, p, |g.ends|);
      assert forall k :: 0 <= k < |g.adj[p]| ==> AtPoint(g.ends, g.adj[p][k], p);
    }
    forall e, p | 0 <= e < |g.ends| && 0 <= p < g.n && g.Touches(e, p)
      ensures e in g.adj[p]
    {
      IncidentAll(g.ends, p, |g.ends|, e);
    }
  }
}
