/** The walk itself, in the points, edges and stack of the reducer. */
module DfsWalk {
  import opened ResistorWalk

  /** A point's edges, and an edge's ends, are the fields that the walk reads and writes;
      inEdge is -1 for the driver. */
  class Walker {
    const g: Net
    const ordV: array<int>
    const stackV: array<int>
    var visited: seq<bool>
    var ts: seq<int>
    var inEdge: seq<int>
    var from: seq<int>
    var to: seq<int>
    var ordN: nat

    constructor (g: Net)
      requires |g.adj| == g.n
      ensures this.g == g && Shaped() && Oriented(g, Now())
      ensures fresh(ordV) && fresh(stackV)
    {
      this.g := g;
      ordV, stackV := new int[g.n], new int[|g.ends|];
      visited := seq(g.n, p => false);
      ts, inEdge := seq(g.n, p => 0), seq(g.n, p => 0);
      from := seq(|g.ends|, e requires 0 <= e < |g.ends| => g.ends[e].0);
      to := seq(|g.ends|, e requires 0 <= e < |g.ends| => g.ends[e].1);
      ordN := 0;
    }

    ghost predicate Shaped()
      reads this
    {
      && |from| == |to| == stackV.Length == |g.ends|
      && |visited| == |ts| == |inEdge| == ordV.Length == |g.adj| == g.n
      && ordN <= ordV.Length && ordV != stackV
    }

    function Now(): State
      requires ordN <= ordV.Length
      reads this, ordV
    {
      State(visited, ts, inEdge, ordV[..ordN], from, to)
    }

    /** Makes e lead away from p. */
    method OrientEdge(p: int, e: int)
      requires Shaped() && 0 <= e < |g.ends|
      modifies `from, `to
      ensures Shaped() && Now() == Orient(old(Now()), p, e)
    {
      if from[e] != p {
        to := to[e := from[e]];
        from := from[e := p];
      }
    }

    /** Gives q the next number. */
    method Discover(q: int, e: int)
      requires Shaped() && ordN < g.n && 0 <= q < g.n
      modifies `ordN, `visited, `inEdge, `ts, ordV
      ensures Shaped() && Now() == Visit(old(Now()), q, e)
    {
      visited := visited[q := true];
      ts := ts[q := ordN];
      ordV[ordN] := q;
      ordN := ordN + 1;
      inEdge := inEdge[q := e];
      assert ordV[..ordN] == old(ordV[..ordN]) + [q];
    }

    /** The place of e among the edges of p. */
    method FindSlot(p: int, e: int) returns (k: nat)
      requires 0 <= p < |g.adj| && e in g.adj[p]
      ensures k == Slot(g.adj[p], e)
    {
      k := 0;
      while g.adj[p][k] != e
        invariant k < |g.adj[p]| && e !in g.adj[p][..k]
        decreases |g.adj[p]| - k
      {
        k := k + 1;
      }
      SlotFirst(g.adj[p], e, k);
    }

    /** Where to go on at the point p that the last edge leaves. */
    method NextSlot(p: int, stackN: nat) returns (k: nat)
      requires 0 < stackN <= stackV.Length && 0 <= p < |g.adj| && stackV[stackN - 1] in g.adj[p]
      ensures k == After(g.adj[p], stackV[..stackN])
    {
      k := FindSlot(p, stackV[stackN - 1]);
      k := k + 1;
      if k < |g.adj[p]| && stackN > 1 && g.adj[p][k] == stackV[stackN - 2] {
        k := k + 1;
      }
    }

    /** The first edge of q other than e. */
    method FirstOther(q: int, e: int) returns (k: nat)
      requires 0 <= q < |g.adj| && |g.adj[q]| > 1 && g.adj[q][0] != g.adj[q][1]
      ensures k == Onward(g.adj[q], e)
    {
      k := 0;
      while k < |g.adj[q]| && g.adj[q][k] == e
        invariant k <= 1 && (k == 1 ==> g.adj[q][0] == e)
      {
        k := k + 1;
      }
    }

    /** Puts edge e of p in place m of the stack. */
    method Put(m: nat, p: int, e: int)
      requires Shaped() && 0 <= e < |g.ends| && m < stackV.Length
      modifies `from, `to, stackV
      ensures Shaped() && Now() == Orient(old(Now()), p, e)
      ensures stackV[..m + 1] == old(stackV[..m]) + [e]
    {
      OrientEdge(p, e);
      stackV[m] := e;
    }

    /** Goes back up to the nearest point with an edge left, and on to that edge. */
    method Ascend(stackN0: nat) returns (stackN: nat)
      requires Shaped() && stackN0 <= stackV.Length
      requires AllReady(g, Walk(Now(), stackV[..stackN0]))
      modifies `from, `to, stackV
      ensures Shaped() && stackN <= stackN0
      ensures Walk(Now(), stackV[..stackN]) == old(Up(g, Walk(Now(), stackV[..stackN0])))
    {
      hide Up;
      stackN := stackN0;
      ghost var w := Walk(Now(), stackV[..stackN]);
      ghost var w0 := w;
      while stackN > 0
        invariant stackN <= stackN0 && Shaped()
        invariant w.s == Now() && w.stack == stackV[..stackN] && AllReady(g, w) && Up(g, w) == Up(g, w0)
      {
        UpStep(g, w);
        stackN := stackN - 1;
        assert w.stack[..stackN] == stackV[..stackN] && w.stack[stackN] == stackV[stackN];
        var p := from[stackV[stackN]];
        var k := NextSlot(p, stackN + 1);
        if k < |g.adj[p]| {
          Put(stackN, p, g.adj[p][k]);
          stackN := stackN + 1;
          return;
        }
        w := Walk(w.s, w.stack[..stackN]);
      }
      UpEnd(g, w);
    }

    /** One turn of the walk's loop. */
    method Advance(stackN0: nat) returns (stackN: nat)
      requires Shaped() && 0 < stackN0 <= stackV.Length && g.Valid()
      requires CanMove(g, Walk(Now(), stackV[..stackN0]))
      modifies `ordN, `visited, `inEdge, `ts, `from, `to, ordV, stackV
      ensures Shaped() && stackN <= stackV.Length
      ensures Walk(Now(), stackV[..stackN]) == old(Move(g, Walk(Now(), stackV[..stackN0])))
    {
      hide CanMove, Ready, Up;
      ghost var w := Walk(Now(), stackV[..stackN0]);
      var e := stackV[stackN0 - 1];
      assert w.stack[stackN0 - 1] == e;
      MoveCases(g, w);
      var q := to[e];
      if !visited[q] {
        Discover(q, e);
        if |g.adj[q]| > 1 {
          var k := FirstOther(q, e);
          Put(stackN0, q, g.adj[q][k]);
          return stackN0 + 1;
        }
      }
      stackN := Ascend(stackN0);
    }

    /** Marks no point but the driver, and puts its first edge on the stack. */
    method Begin(drv: int)
      requires Shaped() && 0 <= drv < g.n && |g.adj[drv]| > 0 && 0 <= g.adj[drv][0] < |g.ends|
      requires Oriented(g, Now())
      modifies `ordN, `visited, `inEdge, `ts, `from, `to, ordV, stackV
      ensures Shaped() && 1 <= stackV.Length && stackV[..1] == [g.adj[drv][0]]
      ensures Start(g, old(Now()), Now(), drv) && inEdge[drv] == -1
    {
      ghost var s0 := Now();
      for p := 0 to |visited|
        invariant Shaped() && from == s0.fr && to == s0.to
        invariant forall i :: 0 <= i < p ==> !visited[i]
      {
        visited := visited[p := false];
      }
      Put(0, drv, g.adj[drv][0]);
      visited := visited[drv := true];
      inEdge := inEdge[drv := -1];
      ts := ts[drv := 0];
      ordV[0] := drv;
      ordN := 1;
    }

    /** The walk from the driver. */
    method MakeRcmodelDfs(drv: int)
      requires Shaped() && 0 <= drv < g.n && |g.adj[drv]| > 0
      requires g.Valid() && Oriented(g, Now())
      modifies `ordN, `visited, `inEdge, `ts, `from, `to, ordV, stackV
      ensures Shaped() && Spans(g, Now(), drv)
    {
      ghost var s0 := Now();
      Begin(drv);
      ghost var k := StartEnds(g, s0, Now(), drv);
      ghost var w := Walk(Now(), [g.adj[drv][0]]);
      var stackN: nat := 1;
      while stackN > 0
        invariant Shaped() && stackN <= stackV.Length
        invariant w.s == Now() && w.stack == stackV[..stackN] && EndsIn(g, w, k, drv)
        decreases k
      {
        w, k := Move(g, w), k - 1;
        stackN := Advance(stackN);
      }
    }
  }
}
