/** The depth-first walk of the reducer over the resistors of a net.  The walk turns edges
    around in place, so that every edge it keeps points away from the driver. */
module ResistorWalk {
  import opened FiniteSets

  /** The net: n points, the two ends of every resistor, and for every point the edges that
      touch it, each once. */
  datatype Net = Net(n: nat, ends: seq<(int, int)>, adj: seq<seq<int>>) {
    ghost predicate Valid() {
      && |adj| == n
      && (forall e :: 0 <= e < |ends| ==> 0 <= ends[e].0 < n && 0 <= ends[e].1 < n)
      && (forall p, k {:trigger adj[p][k]} :: 0 <= p < n && 0 <= k < |adj[p]| ==>
            0 <= adj[p][k] < |ends| && Touches(adj[p][k], p))
      && (forall e, p {:trigger Touches(e, p)} :: 0 <= e < |ends| && 0 <= p < n && Touches(e, p) ==> e in adj[p])
      && (forall p, j, k {:trigger adj[p][j], adj[p][k]} :: 0 <= p < n && 0 <= j < k < |adj[p]| ==>
           adj[p][j] != adj[p][k])
    }

    predicate Touches(e: int, p: int)
      requires 0 <= e < |ends|
    {
      ends[e].0 == p || ends[e].1 == p
    }

    /** The end of e that is not p; p itself for a self loop. */
    function Other(e: int, p: int): int
      requires 0 <= e < |ends|
    {
      if ends[e].0 == p then ends[e].1 else ends[e].0
    }
  }

  /** What the walk writes: visited marks, numbers, incoming edges, the points in order, and
      the current direction of every edge. */
  datatype State = State(vis: seq<bool>, ts: seq<int>, inE: seq<int>, ord: seq<int>, fr: seq<int>, to: seq<int>)

  /** Every edge still has its own two ends, in one direction or the other. */
  ghost predicate Oriented(g: Net, s: State) {
    && |s.fr| == |g.ends| && |s.to| == |g.ends|
    && forall e {:trigger s.fr[e]} {:trigger s.to[e]} :: 0 <= e < |g.ends| ==>
         (s.fr[e] == g.ends[e].0 && s.to[e] == g.ends[e].1) || (s.fr[e] == g.ends[e].1 && s.to[e] == g.ends[e].0)
  }

  /** The visited points are numbered 0, 1, ... in the order of ord, each once. */
  ghost predicate Numbered(g: Net, s: State, drv: int) {
    && |s.vis| == g.n && |s.ts| == g.n && |s.inE| == g.n
    && |s.ord| > 0 && s.ord[0] == drv && 0 <= drv < g.n
    && (forall i {:trigger s.ord[i]} :: 0 <= i < |s.ord| ==>
         0 <= s.ord[i] < g.n && s.vis[s.ord[i]] && s.ts[s.ord[i]] == i)
    && (forall p {:trigger s.vis[p]} :: 0 <= p < g.n && s.vis[p] ==> 0 <= s.ts[p] < |s.ord| && s.ord[s.ts[p]] == p)
  }

  /** The incoming edge of a visited point leads to it from a point with a smaller number. */
  ghost predicate TreeEdge(g: Net, s: State, p: int)
    requires Oriented(g, s) && |s.vis| == g.n && |s.ts| == g.n && |s.inE| == g.n && 0 <= p < g.n
  {
    var e := s.inE[p];
    0 <= e < |g.ends| && s.to[e] == p && 0 <= s.fr[e] < g.n && s.vis[s.fr[e]] && s.ts[s.fr[e]] < s.ts[p]
  }

  ghost predicate Trees(g: Net, s: State, drv: int) {
    && Oriented(g, s) && Numbered(g, s, drv)
    && forall p {:trigger s.inE[p]} :: 0 <= p < g.n && s.vis[p] && p != drv ==> TreeEdge(g, s, p)
  }

  /** The edges on the stack form a path of tree edges from the driver; the last one may
      lead anywhere. */
  ghost predicate Path(g: Net, s: State, drv: int, stack: seq<int>) {
    && Trees(g, s, drv)
    && (forall j {:trigger stack[j]} :: 0 <= j < |stack| ==>
         0 <= stack[j] < |g.ends| && 0 <= s.fr[stack[j]] < g.n && s.vis[s.fr[stack[j]]])
    && (|stack| > 0 ==> s.fr[stack[0]] == drv)
    && (forall j {:trigger Linked(g, s, drv, stack, j)} :: 1 <= j < |stack| ==> Linked(g, s, drv, stack, j))
  }

  /** The edge at level j starts where the one below it ends, at a point that the one below
      it discovered. */
  ghost predicate Linked(g: Net, s: State, drv: int, stack: seq<int>, j: int) {
    && 1 <= j < |stack| && 0 <= stack[j] < |s.fr| && 0 <= stack[j - 1] < |s.to|
    && var p := s.fr[stack[j]];
       0 <= p < |s.inE| && s.to[stack[j - 1]] == p && p != drv && s.inE[p] == stack[j - 1]
  }

  /** Point p is on the path at level j. */
  ghost predicate OnStack(s: State, stack: seq<int>, j: int, p: int) {
    0 <= j < |stack| && 0 <= stack[j] < |s.fr| && s.fr[stack[j]] == p
  }

  /** done[p] edges of every visited point have been dealt with, and lead to visited points;
      a point on the path is at the edge on the stack, and the others are finished. */
  ghost predicate Covered(g: Net, s: State, stack: seq<int>, done: seq<nat>)
    requires g.Valid() && |s.vis| == g.n
  {
    && |done| == g.n
    && (forall p {:trigger done[p]} :: 0 <= p < g.n ==> done[p] <= |g.adj[p]|)
    && (forall p, k {:trigger s.vis[p], g.adj[p][k]} :: 0 <= p < g.n && s.vis[p] && 0 <= k < done[p] ==>
         s.vis[g.Other(g.adj[p][k], p)])
    && (forall j {:trigger stack[j]} :: 0 <= j < |stack| && 0 <= stack[j] < |s.fr| && 0 <= s.fr[stack[j]] < g.n ==>
          var p := s.fr[stack[j]]; done[p] < |g.adj[p]| && g.adj[p][done[p]] == stack[j])
    && (forall p {:trigger s.vis[p]} :: 0 <= p < g.n && s.vis[p] && done[p] < |g.adj[p]| ==>
         exists j :: OnStack(s, stack, j, p))
  }

  /** The point k tree edges above p, or the driver if that is nearer. */
  function Forebear(s: State, drv: int, p: int, k: nat): int
    decreases k
  {
    if k == 0 || p == drv || !(0 <= p < |s.inE|) || !(0 <= s.inE[p] < |s.fr|) then p
    else Forebear(s, drv, s.fr[s.inE[p]], k - 1)
  }

  ghost predicate Ancestor(s: State, drv: int, a: int, p: int) {
    exists k: nat :: Forebear(s, drv, p, k) == a
  }

  /** Every edge between visited points joins a point and an ancestor of it: the walk is depth
      first, and no edge leads across from one branch of the tree to another. */
  ghost predicate Nested(g: Net, s: State, drv: int) {
    forall e {:trigger g.ends[e]} :: 0 <= e < |g.ends| && Seen(s, g.ends[e].0) && Seen(s, g.ends[e].1) ==>
      Ancestor(s, drv, g.ends[e].0, g.ends[e].1) || Ancestor(s, drv, g.ends[e].1, g.ends[e].0)
  }

  predicate Seen(s: State, p: int) { 0 <= p < |s.vis| && s.vis[p] }

  ghost predicate Inv(g: Net, s: State, drv: int, stack: seq<int>, done: seq<nat>) {
    g.Valid() && Path(g, s, drv, stack) && Covered(g, s, stack, done) && Nested(g, s, drv)
  }

  /** The invariant with the last edge of the stack dealt with. */
  ghost predicate InvUp(g: Net, s: State, drv: int, stack: seq<int>, done: seq<nat>) {
    && Inv(g, s, drv, stack, done)
    && (|stack| > 0 ==> s.vis[s.to[stack[|stack| - 1]]])
  }

  // ---------------------------------------------------------------------------
  // Steps

  function Orient(s: State, p: int, e: int): State
    requires 0 <= e < |s.fr| && e < |s.to|
  {
    if s.fr[e] == p then s else s.(fr := s.fr[e := p], to := s.to[e := s.fr[e]])
  }

  function Visit(s: State, q: int, e: int): State
    requires 0 <= q < |s.vis| && q < |s.ts| && q < |s.inE|
  {
    State(s.vis[q := true], s.ts[q := |s.ord|], s.inE[q := e], s.ord + [q], s.fr, s.to)
  }

  /** Numbers grow along the path. */
  lemma {:induction false} PathGrows(g: Net, s: State, drv: int, stack: seq<int>, i: int, j: int)
    requires Path(g, s, drv, stack) && 0 <= i < j < |stack|
    ensures s.ts[s.fr[stack[i]]] < s.ts[s.fr[stack[j]]]
    decreases j
  {
    var p := s.fr[stack[j]];
    assert Linked(g, s, drv, stack, j);
    assert TreeEdge(g, s, p);
    if i < j - 1 {
      PathGrows(g, s, drv, stack, i, j - 1);
    }
  }

  /** The edges on the stack are all different. */
  lemma StackDistinct(g: Net, s: State, drv: int, stack: seq<int>, i: int, j: int)
    requires Path(g, s, drv, stack) && 0 <= i < j < |stack|
    ensures stack[i] != stack[j]
  {
    PathGrows(g, s, drv, stack, i, j);
  }

  /** Point p is where the path has got to: the driver while the stack is empty, otherwise
      the point that the last edge discovered. */
  ghost predicate Head(g: Net, s: State, drv: int, stack: seq<int>, p: int) {
    && |s.vis| == g.n && |s.inE| == g.n && 0 <= p < g.n && s.vis[p]
    && (|stack| == 0 ==> p == drv)
    && (|stack| > 0 ==> var e := stack[|stack| - 1]; 0 <= e < |s.to| && s.to[e] == p && p != drv && s.inE[p] == e)
  }

  /** Every point on the path has a smaller number than its head. */
  lemma HeadLast(g: Net, s: State, drv: int, stack: seq<int>, p: int, j: int)
    requires Path(g, s, drv, stack) && Head(g, s, drv, stack, p) && 0 <= j < |stack|
    ensures s.ts[s.fr[stack[j]]] < s.ts[p]
  {
    assert TreeEdge(g, s, p);
    if j < |stack| - 1 {
      PathGrows(g, s, drv, stack, j, |stack| - 1);
    }
  }

  /** An edge of the head other than its incoming edge is not on the stack. */
  lemma NotOnStack(g: Net, s: State, drv: int, stack: seq<int>, p: int, e: int)
    requires g.Valid() && Path(g, s, drv, stack) && Head(g, s, drv, stack, p)
    requires 0 <= e < |g.ends| && g.Touches(e, p)
    requires |stack| > 0 ==> e != stack[|stack| - 1]
    ensures e !in stack
  {
    forall j | 0 <= j < |stack|
      ensures stack[j] != e
    {
      HeadLast(g, s, drv, stack, p, j);
      if j < |stack| - 1 {
        assert Linked(g, s, drv, stack, j + 1);
        HeadLast(g, s, drv, stack, p, j + 1);
        assert s.to[stack[j]] != p;
      }
    }
  }

  /** Turning such an edge around does not touch any tree edge. */
  lemma OrientKeepsTrees(g: Net, s: State, drv: int, stack: seq<int>, p: int, e: int)
    requires g.Valid() && Path(g, s, drv, stack) && Head(g, s, drv, stack, p)
    requires 0 <= e < |g.ends| && g.Touches(e, p)
    requires |stack| > 0 ==> e != stack[|stack| - 1]
    ensures Trees(g, Orient(s, p, e), drv) && Orient(s, p, e).fr[e] == p
  {
    var s' := Orient(s, p, e);
    if s.fr[e] != p {
      assert s.to[e] == p;
      forall x | 0 <= x < g.n && s'.vis[x] && x != drv
        ensures TreeEdge(g, s', x)
      {
        assert TreeEdge(g, s, x);
        assert s.inE[x] != e;
      }
    }
  }

  /** Pushing an unused edge of the head. */
  lemma PushPath(g: Net, s: State, drv: int, stack: seq<int>, p: int, e: int)
    requires g.Valid() && Path(g, s, drv, stack) && Head(g, s, drv, stack, p)
    requires 0 <= e < |g.ends| && g.Touches(e, p)
    requires |stack| > 0 ==> e != stack[|stack| - 1]
    ensures Path(g, Orient(s, p, e), drv, stack + [e])
    ensures e !in stack
  {
    var s', stack' := Orient(s, p, e), stack + [e];
    NotOnStack(g, s, drv, stack, p, e);
    OrientKeepsTrees(g, s, drv, stack, p, e);
    assert forall j :: 0 <= j < |stack| ==>
             stack'[j] == stack[j] && s'.fr[stack[j]] == s.fr[stack[j]] && s'.to[stack[j]] == s.to[stack[j]];
    forall j | 1 <= j < |stack'|
      ensures Linked(g, s', drv, stack', j)
    {
      if j < |stack| {
        assert Linked(g, s, drv, stack, j);
      }
    }
  }

  /** Discovering the point that the last edge leads to. */
  lemma VisitPath(g: Net, s: State, drv: int, stack: seq<int>)
    requires g.Valid() && Path(g, s, drv, stack) && |stack| > 0
    requires !s.vis[s.to[stack[|stack| - 1]]]
    ensures var e := stack[|stack| - 1];
            Path(g, Visit(s, s.to[e], e), drv, stack) && Head(g, Visit(s, s.to[e], e), drv, stack, s.to[e])
  {
    var e := stack[|stack| - 1];
    var q := s.to[e];
    var s' := Visit(s, q, e);
    VisitTrees(g, s, drv, e);
    forall j | 1 <= j < |stack|
      ensures Linked(g, s', drv, stack, j)
    {
      assert Linked(g, s, drv, stack, j);
    }
  }

  lemma VisitTrees(g: Net, s: State, drv: int, e: int)
    requires g.Valid() && Trees(g, s, drv) && 0 <= e < |g.ends|
    requires s.vis[s.fr[e]] && !s.vis[s.to[e]]
    ensures Trees(g, Visit(s, s.to[e], e), drv)
  {
    var q := s.to[e];
    var s' := Visit(s, q, e);
    forall x | 0 <= x < g.n && s'.vis[x] && x != drv
      ensures TreeEdge(g, s', x)
    {
      if x != q {
        assert TreeEdge(g, s, x);
      }
    }
  }

  // ---------------------------------------------------------------------------
  // Depth first

  /** The tree edges of the points seen in s are the same in s'. */
  ghost predicate SameTree(s: State, s': State, drv: int) {
    && |s'.inE| == |s.inE| && |s'.fr| == |s.fr|
    && forall p {:trigger s.inE[p]} :: 0 <= p < |s.inE| && Seen(s, p) && p != drv ==>
         s'.inE[p] == s.inE[p] && 0 <= s.inE[p] < |s.fr| && s'.fr[s.inE[p]] == s.fr[s.inE[p]]
  }

  lemma {:induction false} ForebearKept(g: Net, s: State, s': State, drv: int, p: int, k: nat)
    requires Trees(g, s, drv) && SameTree(s, s', drv) && Seen(s, p)
    ensures Forebear(s', drv, p, k) == Forebear(s, drv, p, k)
    decreases k
  {
    if k > 0 && p != drv {
      assert TreeEdge(g, s, p);
      ForebearKept(g, s, s', drv, s.fr[s.inE[p]], k - 1);
    }
  }

  lemma AncestorKept(g: Net, s: State, s': State, drv: int, a: int, p: int)
    requires Trees(g, s, drv) && SameTree(s, s', drv) && Seen(s, p) && Ancestor(s, drv, a, p)
    ensures Ancestor(s', drv, a, p)
  {
    var k: nat :| Forebear(s, drv, p, k) == a;
    ForebearKept(g, s, s', drv, p, k);
  }

  lemma EdgeKept(g: Net, s: State, s': State, drv: int, e: int)
    requires Trees(g, s, drv) && SameTree(s, s', drv) && Nested(g, s, drv)
    requires 0 <= e < |g.ends| && Seen(s, g.ends[e].0) && Seen(s, g.ends[e].1)
    ensures Ancestor(s', drv, g.ends[e].0, g.ends[e].1) || Ancestor(s', drv, g.ends[e].1, g.ends[e].0)
  {
    hide Trees, SameTree, Ancestor, Seen;
    if Ancestor(s, drv, g.ends[e].0, g.ends[e].1) {
      AncestorKept(g, s, s', drv, g.ends[e].0, g.ends[e].1);
    } else {
      AncestorKept(g, s, s', drv, g.ends[e].1, g.ends[e].0);
    }
  }

  lemma OrientNested(g: Net, s: State, drv: int, stack: seq<int>, p: int, e: int)
    requires g.Valid() && Path(g, s, drv, stack) && Head(g, s, drv, stack, p) && Nested(g, s, drv)
    requires 0 <= e < |g.ends| && g.Touches(e, p)
    requires |stack| > 0 ==> e != stack[|stack| - 1]
    ensures Nested(g, Orient(s, p, e), drv)
  {
    var s' := Orient(s, p, e);
    OrientSameTree(g, s, drv, stack, p, e);
    forall x | 0 <= x < |g.ends| && Seen(s', g.ends[x].0) && Seen(s', g.ends[x].1)
      ensures Ancestor(s', drv, g.ends[x].0, g.ends[x].1) || Ancestor(s', drv, g.ends[x].1, g.ends[x].0)
    {
      EdgeKept(g, s, s', drv, x);
    }
  }

  lemma OrientSameTree(g: Net, s: State, drv: int, stack: seq<int>, p: int, e: int)
    requires g.Valid() && Path(g, s, drv, stack) && Head(g, s, drv, stack, p)
    requires 0 <= e < |g.ends| && g.Touches(e, p)
    requires |stack| > 0 ==> e != stack[|stack| - 1]
    ensures SameTree(s, Orient(s, p, e), drv)
  {
    var s' := Orient(s, p, e);
    forall x | 0 <= x < |s.inE| && Seen(s, x) && x != drv
      ensures 0 <= s.inE[x] < |s.fr| && s'.fr[s.inE[x]] == s.fr[s.inE[x]]
    {
      assert TreeEdge(g, s, x);
      if s.fr[e] != p {
        assert s.to[e] == p;
      }
    }
  }

  /** The points on the path are the ancestors of its last point. */
  lemma {:induction false} PathAbove(g: Net, s: State, drv: int, stack: seq<int>, i: int, j: int)
    requires Path(g, s, drv, stack) && 0 <= i <= j < |stack|
    ensures Forebear(s, drv, s.fr[stack[j]], j - i) == s.fr[stack[i]]
    decreases j
  {
    if i < j {
      assert Linked(g, s, drv, stack, j);
      PathAbove(g, s, drv, stack, i, j - 1);
    }
  }

  /** A visited neighbour of a point not yet visited is on the path. */
  lemma NeighbourOnPath(g: Net, s: State, drv: int, stack: seq<int>, done: seq<nat>, p: int, x: int) returns (j: int)
    requires Inv(g, s, drv, stack, done) && 0 <= x < |g.ends| && g.Touches(x, p) && Seen(s, p)
    requires 0 <= g.Other(x, p) < g.n && !s.vis[g.Other(x, p)]
    ensures OnStack(s, stack, j, p)
  {
    hide Nested;
    var i :| 0 <= i < |g.adj[p]| && g.adj[p][i] == x;
    assert done[p] < |g.adj[p]|;
    j :| OnStack(s, stack, j, p);
  }

  /** So it is an ancestor of that point, once that is visited. */
  lemma NewEdge(g: Net, s: State, drv: int, stack: seq<int>, done: seq<nat>, p: int, x: int)
    requires Inv(g, s, drv, stack, done) && |stack| > 0 && !s.vis[s.to[stack[|stack| - 1]]]
    requires 0 <= x < |g.ends| && g.Touches(x, p) && Seen(s, p) && g.Other(x, p) == s.to[stack[|stack| - 1]]
    ensures var e := stack[|stack| - 1]; Ancestor(Visit(s, s.to[e], e), drv, p, s.to[e])
  {
    var last := |stack| - 1;
    var e := stack[last];
    var q := s.to[e];
    var s1 := Visit(s, q, e);
    var j := NeighbourOnPath(g, s, drv, stack, done, p, x);
    PathAbove(g, s, drv, stack, j, last);
    VisitSameTree(g, s, drv, e);
    ForebearKept(g, s, s1, drv, s.fr[e], last - j);
    assert s.vis[s.ord[0]];
    assert Forebear(s1, drv, q, last - j + 1) == Forebear(s1, drv, s.fr[e], last - j);
  }

  lemma VisitSameTree(g: Net, s: State, drv: int, e: int)
    requires Trees(g, s, drv) && 0 <= e < |g.ends| && 0 <= s.to[e] < g.n && !s.vis[s.to[e]]
    ensures SameTree(s, Visit(s, s.to[e], e), drv)
  {
    forall x | 0 <= x < |s.inE| && Seen(s, x) && x != drv
      ensures 0 <= s.inE[x] < |s.fr|
    {
      assert TreeEdge(g, s, x);
    }
  }

  lemma VisitNested(g: Net, s: State, drv: int, stack: seq<int>, done: seq<nat>)
    requires Inv(g, s, drv, stack, done) && |stack| > 0 && !s.vis[s.to[stack[|stack| - 1]]]
    ensures var e := stack[|stack| - 1]; Nested(g, Visit(s, s.to[e], e), drv)
  {
    var e := stack[|stack| - 1];
    var q := s.to[e];
    var s1 := Visit(s, q, e);
    VisitSameTree(g, s, drv, e);
    forall x | 0 <= x < |g.ends| && Seen(s1, g.ends[x].0) && Seen(s1, g.ends[x].1)
      ensures Ancestor(s1, drv, g.ends[x].0, g.ends[x].1) || Ancestor(s1, drv, g.ends[x].1, g.ends[x].0)
    {
      if g.ends[x].0 == g.ends[x].1 {
        assert Forebear(s1, drv, g.ends[x].1, 0) == g.ends[x].0;
      } else if g.ends[x].0 == q {
        NewEdge(g, s, drv, stack, done, g.ends[x].1, x);
      } else if g.ends[x].1 == q {
        NewEdge(g, s, drv, stack, done, g.ends[x].0, x);
      } else {
        EdgeKept(g, s, s1, drv, x);
      }
    }
  }

  // ---------------------------------------------------------------------------
  // The moves of the walk

  /** Going down to an undiscovered point that has another edge to follow. */
  lemma Descend(g: Net, s: State, drv: int, stack: seq<int>, done: seq<nat>, k: nat)
    requires Inv(g, s, drv, stack, done) && |stack| > 0
    requires !s.vis[s.to[stack[|stack| - 1]]]
    requires var e := stack[|stack| - 1]; var adj := g.adj[s.to[e]];
             k < |adj| && adj[k] != e && (k == 0 || (k == 1 && adj[0] == e))
    ensures var e := stack[|stack| - 1]; var q := s.to[e]; var e' := g.adj[q][k];
            Inv(g, Orient(Visit(s, q, e), q, e'), drv, stack + [e'], done[q := k])
  {
    hide Nested, TreeEdge, Linked, CoveredBut;
    var e := stack[|stack| - 1];
    var q := s.to[e];
    VisitPath(g, s, drv, stack);
    var s1 := Visit(s, q, e);
    PushPath(g, s1, drv, stack, q, g.adj[q][k]);
    VisitNested(g, s, drv, stack, done);
    OrientNested(g, s1, drv, stack, q, g.adj[q][k]);
    VisitCovered(g, s, drv, stack, done, k);
    OrientFrom(g, s1, q, g.adj[q][k]);
    PushCovered(g, s1, Orient(s1, q, g.adj[q][k]), stack, done[q := k], q, k);
  }

  /** done is right for every point except that p may be unfinished although not on the stack. */
  ghost predicate CoveredBut(g: Net, s: State, stack: seq<int>, done: seq<nat>, q: int)
    requires g.Valid() && |s.vis| == g.n
  {
    && |done| == g.n
    && (forall p {:trigger done[p]} :: 0 <= p < g.n ==> done[p] <= |g.adj[p]|)
    && (forall p, k {:trigger s.vis[p], g.adj[p][k]} :: 0 <= p < g.n && s.vis[p] && 0 <= k < done[p] ==>
         s.vis[g.Other(g.adj[p][k], p)])
    && (forall j {:trigger stack[j]} :: 0 <= j < |stack| && 0 <= stack[j] < |s.fr| && 0 <= s.fr[stack[j]] < g.n ==>
          var p := s.fr[stack[j]]; p != q && done[p] < |g.adj[p]| && g.adj[p][done[p]] == stack[j])
    && (forall p {:trigger s.vis[p]} :: 0 <= p < g.n && p != q && s.vis[p] && done[p] < |g.adj[p]| ==>
         exists j :: OnStack(s, stack, j, p))
  }

  lemma VisitCovered(g: Net, s: State, drv: int, stack: seq<int>, done: seq<nat>, k: nat)
    requires Inv(g, s, drv, stack, done) && |stack| > 0
    requires !s.vis[s.to[stack[|stack| - 1]]]
    requires var e := stack[|stack| - 1]; var adj := g.adj[s.to[e]];
             k <= |adj| && (k == 0 || (k == 1 && adj[0] == e))
    ensures var e := stack[|stack| - 1]; var q := s.to[e];
            CoveredBut(g, Visit(s, q, e), stack, done[q := k], q)
  {
    hide Nested;
    var e := stack[|stack| - 1];
    var q := s.to[e];
    var s1 := Visit(s, q, e);
    forall p | 0 <= p < g.n && p != q && s1.vis[p] && done[p] < |g.adj[p]|
      ensures exists j :: OnStack(s1, stack, j, p)
    {
      var j :| OnStack(s, stack, j, p);
      assert OnStack(s1, stack, j, p);
    }
    assert s1.vis[g.Other(e, q)];
  }

  /** Pushing edge k of q puts q on the stack. */
  lemma PushCovered(g: Net, s: State, s': State, stack: seq<int>, done: seq<nat>, q: int, k: nat)
    requires g.Valid() && |s.vis| == g.n && |s.fr| == |g.ends| && CoveredBut(g, s, stack, done, q)
    requires 0 <= q < g.n && done[q] == k < |g.adj[q]| && g.adj[q][k] !in stack
    requires s'.vis == s.vis && s'.fr == s.fr[g.adj[q][k] := q]
    ensures Covered(g, s', stack + [g.adj[q][k]], done)
  {
    var stack' := stack + [g.adj[q][k]];
    assert OnStack(s', stack', |stack|, q);
    forall p | 0 <= p < g.n && s'.vis[p] && done[p] < |g.adj[p]|
      ensures exists j :: OnStack(s', stack', j, p)
    {
      if p != q {
        var j :| OnStack(s, stack, j, p);
        assert OnStack(s', stack', j, p);
      }
    }
  }

  lemma OrientFrom(g: Net, s: State, p: int, e: int)
    requires Oriented(g, s) && 0 <= e < |g.ends|
    ensures Orient(s, p, e).fr == s.fr[e := p] && Orient(s, p, e).vis == s.vis
  {
  }

  /** Discovering a point without another edge to follow. */
  lemma Leaf(g: Net, s: State, drv: int, stack: seq<int>, done: seq<nat>)
    requires Inv(g, s, drv, stack, done) && |stack| > 0
    requires !s.vis[s.to[stack[|stack| - 1]]]
    requires |g.adj[s.to[stack[|stack| - 1]]]| <= 1
    ensures var e := stack[|stack| - 1]; var q := s.to[e];
            InvUp(g, Visit(s, q, e), drv, stack, done[q := |g.adj[q]|])
  {
    hide Nested;
    var e := stack[|stack| - 1];
    var q := s.to[e];
    assert g.Touches(e, q);
    assert e in g.adj[q];
    assert g.adj[q][0] == e;
    VisitPath(g, s, drv, stack);
    VisitNested(g, s, drv, stack, done);
    VisitCovered(g, s, drv, stack, done, 1);
  }

  /** The point that the last edge leaves, once that edge is taken off. */
  lemma PopHead(g: Net, s: State, drv: int, stack: seq<int>)
    requires Path(g, s, drv, stack) && |stack| > 0
    ensures var last := |stack| - 1;
            Path(g, s, drv, stack[..last]) && Head(g, s, drv, stack[..last], s.fr[stack[last]])
  {
    var last := |stack| - 1;
    var below := stack[..last];
    forall j | 1 <= j < last
      ensures Linked(g, s, drv, below, j)
    {
      assert Linked(g, s, drv, stack, j);
    }
    if last > 0 {
      assert Linked(g, s, drv, stack, last);
    }
  }

  /** The edges of p strictly between i and k can only be its incoming edge, which is the one
      below the last on the stack. */
  ghost predicate OnlyIncoming(g: Net, stack: seq<int>, p: int, i: nat, k: nat)
    requires 0 <= p < |g.adj|
  {
    forall j {:trigger g.adj[p][j]} :: i < j < k && j < |g.adj[p]| ==> |stack| >= 2 && g.adj[p][j] == stack[|stack| - 2]
  }

  /** Edge e is among the edges of the point it leaves. */
  ghost predicate Ready(g: Net, s: State, e: int) {
    && 0 <= e < |s.fr| && 0 <= s.fr[e] < |g.adj| && e in g.adj[s.fr[e]]
    && forall k {:trigger g.adj[s.fr[e]][k]} :: 0 <= k < |g.adj[s.fr[e]]| ==> 0 <= g.adj[s.fr[e]][k] < |g.ends|
  }

  /** The last edge of the stack is the edge of its point that is being dealt with. */
  lemma LastEdge(g: Net, s: State, drv: int, stack: seq<int>, done: seq<nat>)
    requires Inv(g, s, drv, stack, done) && |stack| > 0
    ensures var e := stack[|stack| - 1];
            Ready(g, s, e) && done[s.fr[e]] < |g.adj[s.fr[e]]| && g.adj[s.fr[e]][done[s.fr[e]]] == e
  {
    hide Nested;
  }

  /** After the last edge its point is left with k edges dealt with. */
  lemma PopCovered(g: Net, s: State, drv: int, stack: seq<int>, done: seq<nat>, k: nat)
    requires InvUp(g, s, drv, stack, done) && |stack| > 0
    requires var last := |stack| - 1; var p := s.fr[stack[last]];
             done[p] < k <= |g.adj[p]| && OnlyIncoming(g, stack, p, done[p], k)
    ensures var last := |stack| - 1; var p := s.fr[stack[last]];
            CoveredBut(g, s, stack[..last], done[p := k], p)
  {
    hide Nested, Linked;
    var last := |stack| - 1;
    var p := s.fr[stack[last]];
    var below := stack[..last];
    PopHead(g, s, drv, stack);
    forall j | 0 <= j < last
      ensures s.fr[stack[j]] != p
    {
      PathGrows(g, s, drv, stack, j, last);
    }
    forall x | 0 <= x < g.n && x != p && s.vis[x] && done[x] < |g.adj[x]|
      ensures exists j :: OnStack(s, below, j, x)
    {
      var j :| OnStack(s, stack, j, x);
      assert OnStack(s, below, j, x);
    }
    PopHandled(g, s, drv, stack, done, k);
  }

  lemma PopHandled(g: Net, s: State, drv: int, stack: seq<int>, done: seq<nat>, k: nat)
    requires InvUp(g, s, drv, stack, done) && |stack| > 0
    requires var last := |stack| - 1; var p := s.fr[stack[last]];
             done[p] < k <= |g.adj[p]| && OnlyIncoming(g, stack, p, done[p], k)
    ensures var p := s.fr[stack[|stack| - 1]];
            forall i :: 0 <= i < k ==> s.vis[g.Other(g.adj[p][i], p)]
  {
    hide Nested;
    var last := |stack| - 1;
    var p := s.fr[stack[last]];
    assert g.adj[p][done[p]] == stack[last];
    forall i | 0 <= i < k
      ensures s.vis[g.Other(g.adj[p][i], p)]
    {
      if i > done[p] {
        assert Linked(g, s, drv, stack, last);
      }
    }
  }

  /** Leaving a point whose edges have all been dealt with. */
  lemma AscendPop(g: Net, s: State, drv: int, stack: seq<int>, done: seq<nat>)
    requires InvUp(g, s, drv, stack, done) && |stack| > 0
    requires var last := |stack| - 1; var p := s.fr[stack[last]];
             OnlyIncoming(g, stack, p, done[p], |g.adj[p]|)
    ensures var last := |stack| - 1; var p := s.fr[stack[last]];
            InvUp(g, s, drv, stack[..last], done[p := |g.adj[p]|])
  {
    hide Nested;
    var last := |stack| - 1;
    var p := s.fr[stack[last]];
    PopHead(g, s, drv, stack);
    assert g.adj[p][done[p]] == stack[last];
    PopCovered(g, s, drv, stack, done, |g.adj[p]|);
  }

  /** Going on to the next edge k of the point. */
  lemma AscendPush(g: Net, s: State, drv: int, stack: seq<int>, done: seq<nat>, k: nat)
    requires InvUp(g, s, drv, stack, done) && |stack| > 0
    requires var last := |stack| - 1; var p := s.fr[stack[last]];
             && done[p] < k < |g.adj[p]|
             && OnlyIncoming(g, stack, p, done[p], k)
             && (last > 0 ==> g.adj[p][k] != stack[last - 1])
    ensures var last := |stack| - 1; var p := s.fr[stack[last]]; var e := g.adj[p][k];
            Inv(g, Orient(s, p, e), drv, stack[..last] + [e], done[p := k])
  {
    hide Nested, TreeEdge, Linked, CoveredBut;
    var last := |stack| - 1;
    var p := s.fr[stack[last]];
    PopHead(g, s, drv, stack);
    assert g.adj[p][done[p]] == stack[last];
    PopCovered(g, s, drv, stack, done, k);
    PushInv(g, s, drv, stack[..last], p, done[p := k]);
  }

  lemma PushInv(g: Net, s: State, drv: int, below: seq<int>, p: int, done: seq<nat>)
    requires g.Valid() && Path(g, s, drv, below) && Head(g, s, drv, below, p) && Nested(g, s, drv)
    requires 0 <= p < g.n == |done| && CoveredBut(g, s, below, done, p) && done[p] < |g.adj[p]|
    requires |below| > 0 ==> g.adj[p][done[p]] != below[|below| - 1]
    ensures var e := g.adj[p][done[p]];
            0 <= e < |g.ends| && Inv(g, Orient(s, p, e), drv, below + [e], done)
  {
    hide Nested, TreeEdge, Linked, CoveredBut, Covered;
    var e := g.adj[p][done[p]];
    assert 0 <= e < |g.ends| && g.Touches(e, p);
    PushPath(g, s, drv, below, p, e);
    OrientNested(g, s, drv, below, p, e);
    OrientFrom(g, s, p, e);
    PushCovered(g, s, Orient(s, p, e), below, done, p, done[p]);
  }

  // ---------------------------------------------------------------------------
  // Reachability and bounds

  /** A walk from drv to p along resistors. */
  ghost predicate IsWalk(g: Net, drv: int, p: int, w: seq<int>) {
    && |w| > 0 && w[0] == drv && w[|w| - 1] == p
    && (forall i {:trigger w[i]} :: 0 <= i < |w| ==> 0 <= w[i] < g.n)
    && forall i {:trigger Joined(g, w, i)} :: 0 <= i < |w| - 1 ==> Joined(g, w, i)
  }

  ghost predicate Joined(g: Net, w: seq<int>, i: int) {
    0 <= i < |w| - 1 && exists e :: 0 <= e < |g.ends| && g.Touches(e, w[i]) && g.Other(e, w[i]) == w[i + 1]
  }

  ghost predicate Reachable(g: Net, drv: int, p: int) {
    exists w :: IsWalk(g, drv, p, w)
  }

  /** When the stack is empty, whatever a visited point touches is visited. */
  lemma {:induction false} ReachableVisited(g: Net, s: State, drv: int, done: seq<nat>, p: int, w: seq<int>)
    requires InvUp(g, s, drv, [], done) && IsWalk(g, drv, p, w)
    ensures s.vis[p]
    decreases |w|
  {
    assert s.vis[s.ord[0]];
    if |w| > 1 {
      var m := |w| - 1;
      var w' := w[..m];
      forall i | 0 <= i < m - 1
        ensures Joined(g, w', i)
      {
        assert Joined(g, w, i);
        var e :| 0 <= e < |g.ends| && g.Touches(e, w[i]) && g.Other(e, w[i]) == w[i + 1];
        assert g.Other(e, w'[i]) == w'[i + 1];
      }
      ReachableVisited(g, s, drv, done, w[m - 1], w');
      assert Joined(g, w, m - 1);
      var e :| 0 <= e < |g.ends| && g.Touches(e, w[m - 1]) && g.Other(e, w[m - 1]) == w[m];
      Finished(g, s, drv, done, w[m - 1], e);
    }
  }

  lemma Finished(g: Net, s: State, drv: int, done: seq<nat>, p: int, e: int)
    requires InvUp(g, s, drv, [], done)
    requires 0 <= p < g.n && s.vis[p] && 0 <= e < |g.ends| && g.Touches(e, p)
    ensures s.vis[g.Other(e, p)]
  {
    assert forall j :: !OnStack(s, [], j, p);
    var k :| 0 <= k < |g.adj[p]| && g.adj[p][k] == e;
    assert s.vis[g.Other(g.adj[p][k], p)];
  }

  /** A visited point is reached along its incoming edges. */
  lemma {:induction false} VisitedReachable(g: Net, s: State, drv: int, p: int) returns (w: seq<int>)
    requires g.Valid() && Trees(g, s, drv) && 0 <= p < g.n && s.vis[p]
    ensures IsWalk(g, drv, p, w)
    decreases s.ts[p]
  {
    if p == drv {
      w := [drv];
    } else {
      assert TreeEdge(g, s, p);
      var e := s.inE[p];
      var w0 := VisitedReachable(g, s, drv, s.fr[e]);
      w := w0 + [p];
      var m := |w0| - 1;
      assert g.Touches(e, s.fr[e]) && g.Other(e, s.fr[e]) == p;
      assert w[m] == s.fr[e] && w[m + 1] == p;
      forall i | 0 <= i < |w| - 1
        ensures Joined(g, w, i)
      {
        if i < m {
          assert Joined(g, w0, i);
          var e0 :| 0 <= e0 < |g.ends| && g.Touches(e0, w0[i]) && g.Other(e0, w0[i]) == w0[i + 1];
          assert g.Touches(e0, w[i]) && g.Other(e0, w[i]) == w[i + 1];
        }
      }
    }
  }

  function Elements(q: seq<int>): (b: set<int>)
    ensures forall x :: x in b <==> x in q
  {
    if |q| == 0 then {} else Elements(q[..|q| - 1]) + {q[|q| - 1]}
  }

  lemma {:induction false} DistinctSize(q: seq<int>)
    requires forall i, j :: 0 <= i < j < |q| ==> q[i] != q[j]
    ensures |Elements(q)| == |q|
  {
    if |q| > 0 {
      DistinctSize(q[..|q| - 1]);
    }
  }

  /** Different numbers below m are at most m many. */
  lemma DistinctBound(q: seq<int>, m: nat)
    requires forall i {:trigger q[i]} :: 0 <= i < |q| ==> 0 <= q[i] < m
    requires forall i, j :: 0 <= i < j < |q| ==> q[i] != q[j]
    ensures |q| <= m
  {
    DistinctSize(q);
    SubsetSize(Elements(q), Below(m));
  }

  lemma StackFits(g: Net, s: State, drv: int, stack: seq<int>)
    requires Path(g, s, drv, stack)
    ensures |stack| <= |g.ends|
  {
    forall i, j | 0 <= i < j < |stack|
      ensures stack[i] != stack[j]
    {
      StackDistinct(g, s, drv, stack, i, j);
    }
    DistinctBound(stack, |g.ends|);
  }

  lemma OrderFits(g: Net, s: State, drv: int, q: int)
    requires Numbered(g, s, drv) && 0 <= q < g.n && !s.vis[q]
    ensures |s.ord| < g.n
  {
    var all := s.ord + [q];
    forall i, j | 0 <= i < j < |all|
      ensures all[i] != all[j]
    {
      assert s.vis[s.ord[i]] && s.ts[s.ord[i]] == i;
      if j < |s.ord| {
        assert s.ts[s.ord[j]] == j;
      }
    }
    DistinctBound(all, g.n);
  }

  /** Edges that the walk has still to deal with, over the first m points. */
  ghost function Slack(g: Net, done: seq<nat>, m: nat): int
    requires m <= |g.adj| && m <= |done|
  {
    if m == 0 then 0 else Slack(g, done, m - 1) + |g.adj[m - 1]| - done[m - 1]
  }

  lemma {:induction false} SlackUpdate(g: Net, done: seq<nat>, m: nat, p: int, v: nat)
    requires m <= |g.adj| && m <= |done| && 0 <= p < |done|
    ensures Slack(g, done[p := v], m) == Slack(g, done, m) - if p < m then v - done[p] else 0
  {
    if m > 0 {
      SlackUpdate(g, done, m - 1, p, v);
    }
  }

  lemma {:induction false} SlackNonNegative(g: Net, done: seq<nat>, m: nat)
    requires m <= |g.adj| && m <= |done| && forall p {:trigger done[p]} :: 0 <= p < m ==> done[p] <= |g.adj[p]|
    ensures Slack(g, done, m) >= 0
  {
    if m > 0 {
      SlackNonNegative(g, done, m - 1);
    }
  }

  // ---------------------------------------------------------------------------
  // The walk as a function of its state and stack

  datatype Walk = Walk(s: State, stack: seq<int>)

  /** The first place of e. */
  function Slot(edges: seq<int>, e: int): (k: nat)
    requires e in edges
    ensures k < |edges| && edges[k] == e
  {
    if edges[0] == e then 0 else 1 + Slot(edges[1..], e)
  }

  lemma {:induction false} SlotFirst(edges: seq<int>, e: int, k: nat)
    requires k < |edges| && edges[k] == e && e !in edges[..k]
    ensures Slot(edges, e) == k
  {
    if k > 0 {
      assert edges[0] == edges[..k][0];
      assert edges[..k][1..] == edges[1..][..k - 1];
      SlotFirst(edges[1..], e, k - 1);
    }
  }

  /** Where the walk goes on at a point after its edge e: at the next edge that is not the
      one below the top of the stack. */
  function After(edges: seq<int>, stack: seq<int>): nat
    requires |stack| > 0 && stack[|stack| - 1] in edges
  {
    var slot := Slot(edges, stack[|stack| - 1]);
    if slot + 1 < |edges| && |stack| > 1 && edges[slot + 1] == stack[|stack| - 2] then slot + 2 else slot + 1
  }

  /** Every edge on the stack can be found at the point it leaves. */
  ghost predicate AllReady(g: Net, w: Walk) {
    |w.s.fr| == |w.s.to| && forall j {:trigger w.stack[j]} :: 0 <= j < |w.stack| ==> Ready(g, w.s, w.stack[j])
  }

  /** Back up to the nearest point with an edge left, and on to that edge. */
  ghost function Up(g: Net, w: Walk): Walk
    requires AllReady(g, w) && |w.s.fr| == |g.ends|
    decreases |w.stack|
  {
    if |w.stack| == 0 then w else
      var last := |w.stack| - 1;
      var p := w.s.fr[w.stack[last]];
      var k := After(g.adj[p], w.stack);
      if k < |g.adj[p]| then Walk(Orient(w.s, p, g.adj[p][k]), w.stack[..last] + [g.adj[p][k]])
      else Up(g, Walk(w.s, w.stack[..last]))
  }

  lemma UpEnd(g: Net, w: Walk)
    requires AllReady(g, w) && |w.s.fr| == |g.ends| && w.stack == []
    ensures Up(g, w) == w
  {
  }

  /** The way back up, one level at a time. */
  lemma UpStep(g: Net, w: Walk)
    requires AllReady(g, w) && |w.s.fr| == |g.ends| && |w.stack| > 0
    ensures var last := |w.stack| - 1; var p := w.s.fr[w.stack[last]];
            && 0 <= p < |g.adj| && w.stack[last] in g.adj[p]
            && var k := After(g.adj[p], w.stack);
            && (k < |g.adj[p]| ==>
                 0 <= g.adj[p][k] < |g.ends| &&
                 Up(g, w) == Walk(Orient(w.s, p, g.adj[p][k]), w.stack[..last] + [g.adj[p][k]]))
            && (k >= |g.adj[p]| ==>
                 AllReady(g, Walk(w.s, w.stack[..last])) && Up(g, w) == Up(g, Walk(w.s, w.stack[..last])))
  {
    assert Ready(g, w.s, w.stack[|w.stack| - 1]);
  }

  lemma InvReady(g: Net, s: State, drv: int, stack: seq<int>, done: seq<nat>)
    requires Inv(g, s, drv, stack, done)
    ensures AllReady(g, Walk(s, stack)) && |s.fr| == |g.ends|
  {
  }

  /** The walk finds the edge it came back along where it left off. */
  lemma SlotIsDone(g: Net, s: State, drv: int, stack: seq<int>, done: seq<nat>)
    requires Inv(g, s, drv, stack, done) && |stack| > 0
    ensures var e := stack[|stack| - 1];
            Ready(g, s, e) && Slot(g.adj[s.fr[e]], e) == done[s.fr[e]] < |g.adj[s.fr[e]]|
  {
    hide Nested;
    LastEdge(g, s, drv, stack, done);
  }

  /** One step back up that pops the edge for good. */
  lemma PopStep(g: Net, s: State, drv: int, stack: seq<int>, done: seq<nat>)
    requires InvUp(g, s, drv, stack, done) && |stack| > 0
    requires Ready(g, s, stack[|stack| - 1])
    requires var p := s.fr[stack[|stack| - 1]]; After(g.adj[p], stack) >= |g.adj[p]|
    ensures var p := s.fr[stack[|stack| - 1]];
            && InvUp(g, s, drv, stack[..|stack| - 1], done[p := |g.adj[p]|])
            && Slack(g, done[p := |g.adj[p]|], g.n) < Slack(g, done, g.n)
  {
    hide Nested;
    SlotIsDone(g, s, drv, stack, done);
    var p := s.fr[stack[|stack| - 1]];
    AscendPop(g, s, drv, stack, done);
    SlackUpdate(g, done, g.n, p, |g.adj[p]|);
  }

  /** One step back up that turns to the next edge. */
  lemma TurnStep(g: Net, s: State, drv: int, stack: seq<int>, done: seq<nat>)
    requires InvUp(g, s, drv, stack, done) && |stack| > 0
    requires Ready(g, s, stack[|stack| - 1])
    requires var p := s.fr[stack[|stack| - 1]]; After(g.adj[p], stack) < |g.adj[p]|
    ensures var p := s.fr[stack[|stack| - 1]]; var k := After(g.adj[p], stack); var e := g.adj[p][k];
            Inv(g, Orient(s, p, e), drv, stack[..|stack| - 1] + [e], done[p := k])
  {
    hide Nested;
    SlotIsDone(g, s, drv, stack, done);
    var p := s.fr[stack[|stack| - 1]];
    var k := After(g.adj[p], stack);
    AscendPush(g, s, drv, stack, done, k);
  }

  lemma TurnSlack(g: Net, s: State, drv: int, stack: seq<int>, done: seq<nat>)
    requires Inv(g, s, drv, stack, done) && |stack| > 0 && Ready(g, s, stack[|stack| - 1])
    ensures var p := s.fr[stack[|stack| - 1]]; var k := After(g.adj[p], stack);
            p < |done| && Slack(g, done[p := k], g.n) < Slack(g, done, g.n)
  {
    SlotIsDone(g, s, drv, stack, done);
    var p := s.fr[stack[|stack| - 1]];
    SlackUpdate(g, done, g.n, p, After(g.adj[p], stack));
  }

  /** Going back up keeps the invariant and deals with an edge. */
  lemma {:induction false} UpKeeps(g: Net, s: State, drv: int, stack: seq<int>,
                                   done: seq<nat>) returns (done': seq<nat>)
    requires InvUp(g, s, drv, stack, done) && |stack| > 0
    requires AllReady(g, Walk(s, stack)) && |s.fr| == |g.ends|
    ensures var w := Up(g, Walk(s, stack));
            && w.s.ord == s.ord
            && Inv(g, w.s, drv, w.stack, done')
            && Slack(g, done', g.n) < Slack(g, done, g.n)
    decreases |stack|
  {
    hide Nested, Linked, TreeEdge, Trees;
    var last := |stack| - 1;
    var p := s.fr[stack[last]];
    assert Ready(g, s, stack[last]);
    var k := After(g.adj[p], stack);
    if k < |g.adj[p]| {
      TurnStep(g, s, drv, stack, done);
      TurnSlack(g, s, drv, stack, done);
      done' := done[p := k];
    } else {
      PopStep(g, s, drv, stack, done);
      done' := done[p := |g.adj[p]|];
      if last > 0 {
        done' := UpKeeps(g, s, drv, stack[..last], done');
      }
    }
  }

  /** What one move of the walk needs to be defined. */
  ghost predicate Movable(g: Net, w: Walk) {
    && AllReady(g, w) && |w.s.fr| == |g.ends| && |w.stack| > 0
    && |w.s.vis| == |w.s.ts| == |w.s.inE| == |g.adj|
    && 0 <= w.s.to[w.stack[|w.stack| - 1]] < |g.adj|
    && forall p, k {:trigger g.adj[p][k]} :: 0 <= p < |g.adj| && 0 <= k < |g.adj[p]| ==> 0 <= g.adj[p][k] < |g.ends|
  }

  lemma InvMovable(g: Net, s: State, drv: int, stack: seq<int>, done: seq<nat>)
    requires Inv(g, s, drv, stack, done) && |stack| > 0
    ensures Movable(g, Walk(s, stack))
    ensures !s.vis[s.to[stack[|stack| - 1]]] ==> |s.ord| < g.n
  {
    InvReady(g, s, drv, stack, done);
    if !s.vis[s.to[stack[|stack| - 1]]] {
      OrderFits(g, s, drv, s.to[stack[|stack| - 1]]);
    }
  }

  /** The first edge of a point other than e, if it has more than one. */
  function Onward(edges: seq<int>, e: int): nat {
    if |edges| > 1 && edges[0] == e then 1 else 0
  }

  /** One move of the walk: a new point is numbered and the walk goes down along its first
      other edge; otherwise it goes back up. */
  ghost function Move(g: Net, w: Walk): Walk
    requires Movable(g, w)
  {
    var e := w.stack[|w.stack| - 1];
    var q := w.s.to[e];
    if w.s.vis[q] then Up(g, w) else Enter(g, w, e, q)
  }

  ghost function Enter(g: Net, w: Walk, e: int, q: int): Walk
    requires Movable(g, w) && 0 <= q < |g.adj|
  {
    var s := Visit(w.s, q, e);
    if |g.adj[q]| > 1 then
      var e' := g.adj[q][Onward(g.adj[q], e)];
      Walk(Orient(s, q, e'), w.stack + [e'])
    else
      assert forall j :: 0 <= j < |w.stack| ==> Ready(g, w.s, w.stack[j]) ==> Ready(g, s, w.stack[j]);
      Up(g, Walk(s, w.stack))
  }

  /** Every move keeps the invariant, and either numbers a point or deals with an edge. */
  lemma MoveKeeps(g: Net, s: State, drv: int, stack: seq<int>, done: seq<nat>) returns (done': seq<nat>)
    requires Inv(g, s, drv, stack, done) && |stack| > 0 && Movable(g, Walk(s, stack))
    ensures var w := Move(g, Walk(s, stack));
            && Inv(g, w.s, drv, w.stack, done')
            && (|w.s.ord| > |s.ord| || (|w.s.ord| == |s.ord| && Slack(g, done', g.n) < Slack(g, done, g.n)))
  {
    hide Nested;
    var e := stack[|stack| - 1];
    var q := s.to[e];
    if s.vis[q] {
      done' := UpKeeps(g, s, drv, stack, done);
    } else {
      done' := EnterKeeps(g, s, drv, stack, done);
    }
  }

  lemma EnterKeeps(g: Net, s: State, drv: int, stack: seq<int>, done: seq<nat>) returns (done': seq<nat>)
    requires Inv(g, s, drv, stack, done) && |stack| > 0 && Movable(g, Walk(s, stack))
    requires !s.vis[s.to[stack[|stack| - 1]]]
    ensures var e := stack[|stack| - 1]; var w := Enter(g, Walk(s, stack), e, s.to[e]);
            Inv(g, w.s, drv, w.stack, done') && |w.s.ord| == |s.ord| + 1
  {
    hide Nested;
    var e := stack[|stack| - 1];
    var q := s.to[e];
    if |g.adj[q]| > 1 {
      var k := Onward(g.adj[q], e);
      OtherEdge(g, q, e);
      Descend(g, s, drv, stack, done, k);
      done' := done[q := k];
    } else {
      Leaf(g, s, drv, stack, done);
      InvReady(g, Visit(s, q, e), drv, stack, done[q := |g.adj[q]|]);
      done' := UpKeeps(g, Visit(s, q, e), drv, stack, done[q := |g.adj[q]|]);
    }
  }

  lemma OtherEdge(g: Net, q: int, e: int)
    requires g.Valid() && 0 <= q < g.n && |g.adj[q]| > 1
    ensures var k := Onward(g.adj[q], e); g.adj[q][k] != e
  {
    assert g.adj[q][0] != g.adj[q][1];
  }

  /** What the walk starts from: everything unvisited except the driver, whose first edge is
      on the stack. */
  ghost predicate Start(g: Net, s0: State, s: State, drv: int) {
    && 0 <= drv < g.n == |g.adj| && |g.adj[drv]| > 0
    && |s.vis| == g.n && |s.ts| == g.n && |s.inE| == g.n && s.ord == [drv] && s.ts[drv] == 0
    && (forall p :: 0 <= p < g.n ==> s.vis[p] == (p == drv))
    && Oriented(g, s0)
    && 0 <= g.adj[drv][0] < |g.ends|
    && Orient(s0, drv, g.adj[drv][0]).fr == s.fr && Orient(s0, drv, g.adj[drv][0]).to == s.to
  }

  lemma StartInv(g: Net, s0: State, s: State, drv: int) returns (done: seq<nat>)
    requires g.Valid() && Start(g, s0, s, drv)
    ensures Inv(g, s, drv, [g.adj[drv][0]], done)
  {
    done := seq(g.n, p => 0);
    var stack := [g.adj[drv][0]];
    assert s.vis[drv];
    assert OnStack(s, stack, 0, drv);
    assert g.Touches(g.adj[drv][0], drv);
    assert Forebear(s, drv, drv, 0) == drv;
  }

  /** What the walk leaves behind: a depth-first tree of edges leading away from the driver,
      over exactly the points that resistors join to the driver. */
  ghost predicate Spans(g: Net, s: State, drv: int) {
    && g.Valid() && Trees(g, s, drv) && Nested(g, s, drv)
    && forall p {:trigger s.vis[p]} :: 0 <= p < g.n ==> (s.vis[p] <==> Reachable(g, drv, p))
  }

  lemma EmptySpans(g: Net, s: State, drv: int, stack: seq<int>, done: seq<nat>)
    requires Inv(g, s, drv, stack, done) && |stack| == 0
    ensures Spans(g, s, drv)
  {
    assert stack == [];
    forall p | 0 <= p < g.n
      ensures s.vis[p] <==> Reachable(g, drv, p)
    {
      if s.vis[p] {
        var w := VisitedReachable(g, s, drv, p);
      }
      if Reachable(g, drv, p) {
        var w :| IsWalk(g, drv, p, w);
        ReachableVisited(g, s, drv, done, p, w);
      }
    }
  }

  /** Numbers left to give out, and edges left to deal with, stay in bounds. */
  lemma InvBounds(g: Net, s: State, drv: int, stack: seq<int>, done: seq<nat>)
    requires Inv(g, s, drv, stack, done)
    ensures |stack| <= |g.ends| && |s.ord| <= g.n && Slack(g, done, g.n) >= 0
  {
    hide Nested;
    StackFits(g, s, drv, stack);
    SlackNonNegative(g, done, g.n);
    forall i, j | 0 <= i < j < |s.ord|
      ensures s.ord[i] != s.ord[j]
    {
      assert s.ts[s.ord[i]] == i && s.ts[s.ord[j]] == j;
    }
    DistinctBound(s.ord, g.n);
  }

  /** One move of a walk that has not ended: it can be made, it keeps the invariant and it
      fits the buffers. */
  lemma MoveFits(g: Net, w: Walk, drv: int, done: seq<nat>) returns (w': Walk, done': seq<nat>)
    requires Inv(g, w.s, drv, w.stack, done) && |w.stack| > 0
    ensures Movable(g, w) && w' == Move(g, w) && Inv(g, w'.s, drv, w'.stack, done')
    ensures !w.s.vis[w.s.to[w.stack[|w.stack| - 1]]] ==> |w.s.ord| < g.n
    ensures |w'.stack| <= |g.ends| && |w'.s.ord| <= g.n && Slack(g, done', g.n) >= 0
    ensures |w'.s.ord| > |w.s.ord| || (|w'.s.ord| == |w.s.ord| && Slack(g, done', g.n) < Slack(g, done, g.n))
  {
    hide Nested;
    InvMovable(g, w.s, drv, w.stack, done);
    done' := MoveKeeps(g, w.s, drv, w.stack, done);
    w' := Move(g, w);
    InvBounds(g, w'.s, drv, w'.stack, done');
  }

  /** The next move can be made and leaves room in the buffers. */
  ghost predicate CanMove(g: Net, w: Walk) {
    && Movable(g, w)
    && (!w.s.vis[w.s.to[w.stack[|w.stack| - 1]]] ==> |w.s.ord| < g.n)
    && |Move(g, w).stack| <= |g.ends|
  }

  /** Where the next move starts, and what it does. */
  lemma MoveCases(g: Net, w: Walk)
    requires g.Valid() && CanMove(g, w)
    ensures var e := w.stack[|w.stack| - 1];
            && 0 <= e < |w.s.to| && 0 <= w.s.to[e] < g.n && AllReady(g, w) && |w.s.fr| == |w.s.to| == |g.ends|
            && |w.s.vis| == |w.s.ts| == |w.s.inE| == |g.adj| == g.n
            && var q := w.s.to[e];
               (w.s.vis[q] ==> Move(g, w) == Up(g, w)) && (!w.s.vis[q] ==> Entering(g, w, e, q))
  {
    assert Ready(g, w.s, w.stack[|w.stack| - 1]);
    var e := w.stack[|w.stack| - 1];
    var q := w.s.to[e];
    if !w.s.vis[q] && |g.adj[q]| > 1 {
      assert g.adj[q][0] != g.adj[q][1];
    }
  }

  ghost predicate Entering(g: Net, w: Walk, e: int, q: int) {
    && Movable(g, w) && 0 <= q < |g.adj| && |w.s.ord| < g.n
    && q < |w.s.vis| && q < |w.s.ts| && q < |w.s.inE|
    && var s := Visit(w.s, q, e);
       if |g.adj[q]| > 1 then
         var e' := g.adj[q][Onward(g.adj[q], e)];
         && g.adj[q][0] != g.adj[q][1] && |w.stack| < |g.ends| && 0 <= e' < |g.ends| && |s.fr| == |s.to| == |g.ends|
         && Move(g, w) == Walk(Orient(s, q, e'), w.stack + [e'])
       else AllReady(g, Walk(s, w.stack)) && |s.fr| == |g.ends| && Move(g, w) == Up(g, Walk(s, w.stack))
  }

  /** Within k moves the walk ends, having spanned what the driver reaches. */
  ghost predicate EndsIn(g: Net, w: Walk, k: nat, drv: int)
    decreases k
  {
    if |w.stack| == 0 then Spans(g, w.s, drv) else CanMove(g, w) && k > 0 && EndsIn(g, Move(g, w), k - 1, drv)
  }

  lemma {:induction false} WalkEnds(g: Net, w: Walk, drv: int, done: seq<nat>) returns (k: nat)
    requires Inv(g, w.s, drv, w.stack, done)
    ensures EndsIn(g, w, k, drv)
    decreases g.n - |w.s.ord|, Slack(g, done, g.n)
  {
    hide Nested, Path, Covered, Spans, Movable;
    if |w.stack| == 0 {
      EmptySpans(g, w.s, drv, w.stack, done);
      k := 0;
    } else {
      InvBounds(g, w.s, drv, w.stack, done);
      var w', done' := MoveFits(g, w, drv, done);
      k := WalkEnds(g, w', drv, done');
      k := k + 1;
    }
  }

  /** A walk that has just begun ends. */
  lemma StartEnds(g: Net, s0: State, s: State, drv: int) returns (k: nat)
    requires g.Valid() && Start(g, s0, s, drv)
    ensures EndsIn(g, Walk(s, [g.adj[drv][0]]), k, drv)
  {
    var done := StartInv(g, s0, s, drv);
    k := WalkEnds(g, Walk(s, [g.adj[drv][0]]), drv, done);
  }
}
