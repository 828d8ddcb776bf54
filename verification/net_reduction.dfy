/** The whole reduction of a net: its points and edges are loaded, the walk from the driver
    turns it into a tree, and the tree is reduced. */
module NetReduction {
  import opened RealSums
  import opened RcTree
  import opened Lanczos
  import opened ResistorWalk
  import opened EdgeLoading
  import opened NetPoints
  import opened ArnoldiReduction
  import opened ArnoldiModel
  import DfsWalk

  const MIN_CAPACITANCE: real := 0.0000000000000000000001      // 1e-22

  /** The ends of the resistors as points. */
  ghost predicate EndsOf(net: Parasitics, ends: seq<(int, int)>) {
    && |ends| == |net.resistors|
    && forall e {:trigger ends[e]} :: 0 <= e < |ends| ==>
         && net.Internal(net.resistors[e].node1) && net.Internal(net.resistors[e].node2)
         && ends[e] == (net.Point(net.resistors[e].node1), net.Point(net.resistors[e].node2))
  }

  method FindEnds(net: Parasitics, pt: seq<int>, ghost nodeAt: seq<int>) returns (ends: seq<(int, int)>)
    requires net.Valid() && Placed(net, pt, nodeAt)
    ensures EndsOf(net, ends)
    ensures forall e {:trigger ends[e]} :: 0 <= e < |ends| ==>
              0 <= ends[e].0 < net.PointN() && 0 <= ends[e].1 < net.PointN()
  {
    ends := [];
    for e := 0 to |net.resistors|
      invariant |ends| == e
      invariant forall d {:trigger ends[d]} :: 0 <= d < e ==>
         && net.Internal(net.resistors[d].node1) && net.Internal(net.resistors[d].node2)
         && ends[d] == (net.Point(net.resistors[d].node1), net.Point(net.resistors[d].node2))
    {
      var resistor := net.resistors[e];
      assert PlacedAt(net, pt, nodeAt, resistor.node1) && PlacedAt(net, pt, nodeAt, resistor.node2);
      ends := ends + [(pt[resistor.node1], pt[resistor.node2])];
    }
    forall e | 0 <= e < |ends|
      ensures 0 <= ends[e].0 < net.PointN() && 0 <= ends[e].1 < net.PointN()
    {
      PointInRange(net, net.resistors[e].node1);
      PointInRange(net, net.resistors[e].node2);
    }
  }

  // ---------------------------------------------------------------------------
  // Terminals

  /** The driver's terminal k0 comes first, in exchange for terminal 0. */
  function DriverFirst(k0: int, k: int): int {
    if k == 0 then k0 else if k == k0 then 0 else k
  }

  lemma DriverFirstTwice(k0: int, k: int)
    ensures DriverFirst(k0, DriverFirst(k0, k)) == k
  {
  }

  /** Terminal k of the model is terminal termV[k] of the net, and its number is outV[k]. */
  method SetTerms(k0: nat, termN: nat, firstTerm: nat, ts: seq<int>, outV: array<int>) returns (termV: seq<int>)
    requires k0 < termN && outV.Length == termN && firstTerm + termN <= |ts|
    modifies outV
    ensures |termV| == termN && forall k {:trigger termV[k]} :: 0 <= k < termN ==> termV[k] == DriverFirst(k0, k)
    ensures forall k {:trigger outV[k]} :: 0 <= k < termN ==> outV[k] == ts[firstTerm + DriverFirst(k0, k)]
  {
    termV := [k0];
    for k := 1 to termN
      invariant |termV| == k && forall i {:trigger termV[i]} :: 0 <= i < k ==> termV[i] == DriverFirst(k0, i)
    {
      termV := termV + [if k == k0 then 0 else k];
    }
    for k := 0 to termN
      modifies outV
      invariant forall i {:trigger outV[i]} :: 0 <= i < k ==> outV[i] == ts[firstTerm + DriverFirst(k0, i)]
    {
      outV[k] := ts[firstTerm + termV[k]];
    }
  }

  // ---------------------------------------------------------------------------
  // The tree

  /** Node j of the tree is the j-th point of the walk: its parent is the point its incoming
      edge leaves, and above it is the resistance of that edge. */
  ghost predicate TreeNode(net: Parasitics, s: State, par: int, r: real, j: int) {
    && 0 <= j < |s.ord| && 0 <= s.ord[j] < |s.inE|
    && var e := s.inE[s.ord[j]];
       && 0 <= e < |s.fr| && 0 <= s.fr[e] < |s.ts| && e < |net.resistors|
       && par == s.ts[s.fr[e]] && r == net.resistors[e].value
  }

  predicate Reached(s: State, p: nat, n: nat) {
    p < |s.vis| && p < |s.ts| && s.vis[p] && 0 <= s.ts[p] < n
  }

  /** The tree of a finished walk over the net. */
  ghost predicate TreeOf(net: Parasitics, s: State, t: Tree) {
    && |t.par| == |t.r| == |t.c| == |s.ord| > 0
    && t.par[0] == -1 && t.r[0] == 0.0
    && (forall j {:trigger t.par[j]} :: 1 <= j < |s.ord| ==> TreeNode(net, s, t.par[j], t.r[j], j))
    && forall i {:trigger net.Point(i)} :: net.Internal(i) && Reached(s, net.Point(i), |t.c|) ==>
         t.c[s.ts[net.Point(i)]] == net.Own(i) + net.Coupled(i, |net.capacitors|)
  }

  lemma WalkIsTree(net: Parasitics, g: Net, s: State, drv: int, t: Tree)
    requires Trees(g, s, drv) && TreeOf(net, s, t)
    ensures t.Valid()
  {
    forall j | 1 <= j < |t.par|
      ensures 0 <= t.par[j] < j
    {
      assert TreeNode(net, s, t.par[j], t.r[j], j);
      var p := s.ord[j];
      assert s.vis[p] && s.ts[p] == j && s.ts[s.ord[0]] == 0;
      assert TreeEdge(g, s, p);
      var q := s.fr[s.inE[p]];
      assert s.vis[q];
    }
  }

  /** Every point of the walk is the point of a node. */
  lemma WalkOnNodes(net: Parasitics, g: Net, s: State, drv: int, dn: int, p: int) returns (i: int)
    requires Trees(g, s, drv) && EndsOf(net, g.ends) && net.Internal(dn) && net.Point(dn) == drv
    requires 0 <= p < g.n && s.vis[p]
    ensures net.Internal(i) && net.Point(i) == p
  {
    i := dn;
    if p != drv {
      assert TreeEdge(g, s, p);
      var e := s.inE[p];
      assert g.ends[e].0 == p || g.ends[e].1 == p;
      i := if g.ends[e].0 == p then net.resistors[e].node1 else net.resistors[e].node2;
    }
  }

  /** No coupling capacitance is negative. */
  ghost predicate CouplingNonNegative(net: Parasitics) {
    forall k {:trigger net.capacitors[k]} :: 0 <= k < |net.capacitors| ==>
         Mul(net.capacitors[k].value, net.factor) >= 0.0
  }

  lemma {:induction false} CoupledNonNegative(net: Parasitics, i: int, m: nat)
    requires CouplingNonNegative(net) && m <= |net.capacitors|
    ensures net.Coupled(i, m) >= 0.0
  {
    if m > 0 {
      CoupledNonNegative(net, i, m - 1);
      assert Mul(net.capacitors[m - 1].value, net.factor) >= 0.0;
    }
  }

  /** Node i has been visited and has capacitance, to ground or to other nodes. */
  ghost predicate LoadedAt(net: Parasitics, s: State, i: int) {
    && net.Internal(i) && net.Point(i) < |s.vis| && s.vis[net.Point(i)]
    && net.Own(i) + net.Coupled(i, |net.capacitors|) > 0.0
  }

  /** The tree has capacitance exactly when some visited node has. */
  lemma TreeLoaded(net: Parasitics, g: Net, s: State, drv: int, dn: int, t: Tree)
    requires Trees(g, s, drv) && TreeOf(net, s, t) && EndsOf(net, g.ends) && g.n == net.PointN()
    requires net.Internal(dn) && net.Point(dn) == drv && CouplingNonNegative(net)
    ensures Sum(Fn(t.c), t.Size()) > 0.0 <==> exists i :: LoadedAt(net, s, i)
  {
    forall j | 0 <= j < t.Size()
      ensures Fn(t.c)(j) >= 0.0 && (Fn(t.c)(j) > 0.0 ==> exists i :: LoadedAt(net, s, i))
    {
      var i := TreeCapacitance(net, g, s, drv, dn, t, j);
      assert t.c[j] > 0.0 ==> LoadedAt(net, s, i);
    }
    if i :| LoadedAt(net, s, i) {
      var k := s.ts[net.Point(i)];
      assert t.c[k] == net.Own(i) + net.Coupled(i, |net.capacitors|);
      SumDominates(Fn(t.c), t.Size(), k);
    } else {
      SumZero(Fn(t.c), t.Size());
    }
  }

  lemma TreeCapacitance(net: Parasitics, g: Net, s: State, drv: int, dn: int, t: Tree, j: int) returns (i: int)
    requires Trees(g, s, drv) && TreeOf(net, s, t) && EndsOf(net, g.ends) && g.n == net.PointN()
    requires net.Internal(dn) && net.Point(dn) == drv && CouplingNonNegative(net) && 0 <= j < t.Size()
    ensures net.Internal(i) && net.Point(i) == s.ord[j] && s.vis[s.ord[j]]
    ensures 0.0 <= t.c[j] == net.Own(i) + net.Coupled(i, |net.capacitors|)
  {
    var p := s.ord[j];
    assert s.vis[p] && s.ts[p] == j;
    i := WalkOnNodes(net, g, s, drv, dn, p);
    CoupledNonNegative(net, i, |net.capacitors|);
    assert t.c[s.ts[net.Point(i)]] == net.Own(i) + net.Coupled(i, |net.capacitors|);
  }

  /** A node of the tree has the capacitance of its node of the net: that to ground and of its
      pin, if positive, and the value of every coupling capacitor for each of its ends there. */
  lemma TreeCarries(net: Parasitics, s: State, t: Tree, i: int)
    requires TreeOf(net, s, t) && net.Internal(i) && Reached(s, net.Point(i), |t.c|)
    ensures var own := net.nodes[i].gndCap + net.nodes[i].pinCap;
            t.c[s.ts[net.Point(i)]] == (if own > 0.0 then own else 0.0) + Sum(EndsHere(net, i), |net.capacitors|)
  {
    CoupledByEnds(net, i, |net.capacitors|);
  }

  // ---------------------------------------------------------------------------
  // The reduction

  /** Copies the walk and the values of its points into the reducer. */
  method FillTree(ghost net: Parasitics, ghost g: Net, s: State, ghost drv: int, c: seq<real>, r: seq<real>,
                  a: ArnoldiReduce)
    requires Trees(g, s, drv) && EndsOf(net, g.ends) && g.n == net.PointN() && a.Shaped() && a.Apart() && a.n == |s.ord|
    requires a.r != a.c && Carried(net, s.inE, c, r, |net.capacitors|) && OnNodes(net, g, s)
    modifies a.par, a.r, a.c
    ensures TreeOf(net, s, a.T())
  {
    a.par[0] := -1;
    a.r[0] := 0.0;
    a.c[0] := c[s.ord[0]];
    for j := 1 to a.n
      invariant a.par[0] == -1 && a.r[0] == 0.0
      invariant forall i {:trigger a.c[i]} :: 0 <= i < j ==> a.c[i] == c[s.ord[i]]
      invariant forall i {:trigger a.par[i]} :: 1 <= i < j ==> TreeNode(net, s, a.par[i], a.r[i], i)
    {
      FillNode(net, g, s, drv, c, r, a, j);
    }
    CapacitancesPlaced(net, g, s, drv, c, r, a.T());
  }

  ghost predicate OnNodes(net: Parasitics, g: Net, s: State) {
    forall p {:trigger s.vis[p]} :: 0 <= p < g.n && p < |s.vis| && s.vis[p] ==>
         exists i :: net.Internal(i) && net.Point(i) == p
  }

  method FillNode(ghost net: Parasitics, ghost g: Net, s: State, ghost drv: int, c: seq<real>, r: seq<real>,
                  a: ArnoldiReduce, j: int)
    requires Trees(g, s, drv) && EndsOf(net, g.ends) && g.n == net.PointN() && a.Shaped() && a.Apart() && a.n == |s.ord|
    requires a.r != a.c && Carried(net, s.inE, c, r, |net.capacitors|) && OnNodes(net, g, s) && 1 <= j < a.n
    modifies a.par, a.r, a.c
    ensures TreeNode(net, s, a.par[j], a.r[j], j) && a.c[j] == c[s.ord[j]]
    ensures forall i :: 0 <= i < a.n && i != j ==>
              a.par[i] == old(a.par[i]) && a.r[i] == old(a.r[i]) && a.c[i] == old(a.c[i])
  {
    var p := s.ord[j];
    assert s.vis[p] && s.ts[p] == j && s.ts[s.ord[0]] == 0;
    assert TreeEdge(g, s, p);
    ghost var i :| net.Internal(i) && net.Point(i) == p;
    assert r[net.Point(i)] == Above(net, s.inE[p]);
    a.c[j] := c[p];
    a.r[j] := r[p];
    a.par[j] := s.ts[s.fr[s.inE[p]]];
  }

  lemma CapacitancesPlaced(net: Parasitics, g: Net, s: State, drv: int, c: seq<real>, r: seq<real>, t: Tree)
    requires Trees(g, s, drv) && g.n == net.PointN() && Carried(net, s.inE, c, r, |net.capacitors|)
    requires |t.par| == |t.r| == |t.c| == |s.ord| && forall i {:trigger t.c[i]} :: 0 <= i < |t.c| ==>
              t.c[i] == c[s.ord[i]]
    ensures forall i {:trigger net.Point(i)} :: net.Internal(i) && Reached(s, net.Point(i), |t.c|) ==>
              t.c[s.ts[net.Point(i)]] == net.Own(i) + net.Coupled(i, |net.capacitors|)
  {
    forall i | net.Internal(i) && Reached(s, net.Point(i), |t.c|)
      ensures t.c[s.ts[net.Point(i)]] == net.Own(i) + net.Coupled(i, |net.capacitors|)
    {
      var p := net.Point(i);
      assert s.ord[s.ts[p]] == p;
    }
  }

  ghost function EndsAt(net: Parasitics): seq<(int, int)>
    requires net.Valid()
  {
    seq(|net.resistors|, e requires 0 <= e < |net.resistors| =>
      assert net.Internal(net.resistors[e].node1) && net.Internal(net.resistors[e].node2);
      (net.Point(net.resistors[e].node1), net.Point(net.resistors[e].node2)))
  }

  /** The net as the walk sees it. */
  ghost function NetOf(net: Parasitics): Net
    requires net.Valid()
  {
    Net(net.PointN(), EndsAt(net), Lists(EndsAt(net), net.PointN(), |EndsAt(net)|))
  }

  lemma NetOfIs(net: Parasitics, g: Net)
    requires net.Valid() && EndsOf(net, g.ends) && g.n == net.PointN() == |g.adj|
    requires forall p {:trigger g.adj[p]} :: 0 <= p < g.n ==> g.adj[p] == Incident(g.ends, p, |g.ends|)
    ensures g == NetOf(net)
  {
    assert g.ends == EndsAt(net);
    assert g.adj == NetOf(net).adj;
  }

  /** Loads the points and edges of the net. */
  method LoadWork(net: Parasitics) returns (g: Net, pt: seq<int>, nodeAt: seq<int>, firstTerm: nat, termN: nat)
    requires net.Valid()
    ensures g == NetOf(net) && g.Valid() && EndsOf(net, g.ends) && Placed(net, pt, nodeAt)
    ensures firstTerm == net.FirstTerm() && termN == net.Pins(|net.nodes|)
  {
    pt, nodeAt, firstTerm, termN := PlaceNodes(net);
    var ends := FindEnds(net, pt, nodeAt);
    var loader := new Loader(firstTerm + termN, ends);
    g := loader.Load();
    NetOfIs(net, g);
  }

  /** The walk over a loaded net. */
  method WalkNet(g: Net, drv: int) returns (s: State)
    requires g.Valid() && 0 <= drv < g.n && |g.adj[drv]| > 0
    ensures Spans(g, s, drv)
  {
    var walker := new DfsWalk.Walker(g);
    walker.MakeRcmodelDfs(drv);
    s := walker.Now();
  }

  /** A model of the net: the walk from the driver spans what it reaches, t is the tree of
      that walk, the model is the reduction of t, and its terminal k is the pin pinV[k], at
      the node of the tree that the walk made of that pin's node.  The driver comes first. */
  ghost predicate ModelOf(net: Parasitics, dn: int, mod: RcModel, s: State, t: Tree, basis: seq<seq<real>>,
                          nodes: seq<int>)
    requires net.Valid() && net.Internal(dn) && net.nodes[dn].isPin
    reads mod.d, mod.e, mod.U
  {
    && Spans(NetOf(net), s, net.Point(dn)) && TreeOf(net, s, t)
    && mod.Models(t, basis, nodes)
    && Terminals(net, dn, s, nodes)
    && PinsInOrder(net, dn, mod.pinV, s, nodes)
  }

  ghost predicate PinsInOrder(net: Parasitics, dn: int, pinV: seq<int>, s: State, nodes: seq<int>) {
    && |pinV| == |nodes| == net.Pins(|net.nodes|) && |s.ts| == net.PointN() && |pinV| > 0 && pinV[0] == dn
    && (forall i, j {:trigger pinV[i], pinV[j]} :: 0 <= i < j < |pinV| ==> pinV[i] != pinV[j])
    && forall k {:trigger pinV[k]} :: 0 <= k < |pinV| ==>
         && net.Internal(pinV[k]) && net.nodes[pinV[k]].isPin
         && net.Point(pinV[k]) < |s.ts| && nodes[k] == s.ts[net.Point(pinV[k])]
  }

  ghost predicate Terminals(net: Parasitics, dn: int, s: State, nodes: seq<int>)
    requires net.Internal(dn)
  {
    && |nodes| == net.Pins(|net.nodes|) && |s.ts| == net.PointN()
    && forall k {:trigger nodes[k]} :: 0 <= k < |nodes| ==>
         var p := net.FirstTerm() + DriverFirst(net.Point(dn) - net.FirstTerm(), k);
         0 <= p < |s.ts| && nodes[k] == s.ts[p]
  }

  /** Every terminal is joined to the driver. */
  ghost predicate Connected(net: Parasitics, dn: int)
    requires net.Valid() && net.Internal(dn)
  {
    forall i {:trigger net.Point(i)} :: net.Internal(i) && net.nodes[i].isPin ==>
      Reachable(NetOf(net), net.Point(dn), net.Point(i))
  }

  /** Some node that is joined to the driver has capacitance, to ground or to other nodes. */
  ghost predicate Loaded(net: Parasitics, dn: int)
    requires net.Valid() && net.Internal(dn)
  {
    exists i {:trigger net.Own(i)} :: net.Internal(i) && Reachable(NetOf(net), net.Point(dn), net.Point(i))
      && net.Own(i) + net.Coupled(i, |net.capacitors|) > 0.0
  }

  /** The node with capacitance is in the tree, and so are the terminals. */
  lemma LoadReached(net: Parasitics, dn: int, s: State)
    requires net.Valid() && net.Internal(dn) && Loaded(net, dn) && Spans(NetOf(net), s, net.Point(dn))
    ensures exists i :: LoadedAt(net, s, i)
  {
    var i {:trigger net.Own(i)} :| net.Internal(i) && Reachable(NetOf(net), net.Point(dn), net.Point(i))
      && net.Own(i) + net.Coupled(i, |net.capacitors|) > 0.0;
    PointInRange(net, i);
    assert LoadedAt(net, s, i);
  }

  lemma WalkLoaded(net: Parasitics, dn: int, s: State, t: Tree)
    requires net.Valid() && net.Internal(dn) && Loaded(net, dn) && CouplingNonNegative(net)
    requires Spans(NetOf(net), s, net.Point(dn)) && EndsOf(net, NetOf(net).ends) && TreeOf(net, s, t)
    ensures Sum(Fn(t.c), t.Size()) > 0.0
  {
    LoadReached(net, dn, s);
    TreeLoaded(net, NetOf(net), s, net.Point(dn), dn, t);
  }

  lemma TerminalsReached(net: Parasitics, dn: int, s: State)
    requires net.Valid() && net.Internal(dn) && Connected(net, dn) && Spans(NetOf(net), s, net.Point(dn))
    ensures forall i {:trigger net.Point(i)} :: net.Internal(i) && net.nodes[i].isPin ==>
              Reached(s, net.Point(i), |s.ord|)
  {
    forall i | net.Internal(i) && net.nodes[i].isPin
      ensures Reached(s, net.Point(i), |s.ord|)
    {
      PointInRange(net, i);
      assert Reachable(NetOf(net), net.Point(dn), net.Point(i));
    }
  }

  lemma AllOnNodes(net: Parasitics, g: Net, s: State, drv: int, dn: int)
    requires Trees(g, s, drv) && EndsOf(net, g.ends) && net.Internal(dn) && net.Point(dn) == drv
    ensures OnNodes(net, g, s)
  {
    forall p | 0 <= p < g.n && p < |s.vis| && s.vis[p]
      ensures exists i :: net.Internal(i) && net.Point(i) == p
    {
      var i := WalkOnNodes(net, g, s, drv, dn, p);
    }
  }

  /** Every place from FirstTerm on is the point of a terminal. */
  lemma {:induction false} TerminalNode(net: Parasitics, k: nat, m: nat) returns (i: int)
    requires m <= |net.nodes| && k < net.Pins(m)
    ensures net.Internal(i) && net.nodes[i].isPin && net.Point(i) == net.FirstTerm() + k
  {
    if net.Internal(m - 1) && net.nodes[m - 1].isPin && net.Pins(m - 1) == k {
      i := m - 1;
    } else {
      i := TerminalNode(net, k, m - 1);
    }
  }

  lemma OutputsInRange(net: Parasitics, dn: int, s: State, nodes: seq<int>)
    requires net.Valid() && net.Internal(dn) && net.nodes[dn].isPin && Terminals(net, dn, s, nodes)
    requires forall i {:trigger net.Point(i)} :: net.Internal(i) && net.nodes[i].isPin ==>
              Reached(s, net.Point(i), |s.ord|)
    ensures forall k {:trigger nodes[k]} :: 0 <= k < |nodes| ==> 0 <= nodes[k] < |s.ord|
  {
    PointInRange(net, dn);
    forall k | 0 <= k < |nodes|
      ensures 0 <= nodes[k] < |s.ord|
    {
      var i := TerminalNode(net, DriverFirst(net.Point(dn) - net.FirstTerm(), k), |net.nodes|);
    }
  }

  lemma OutputsPlaced(net: Parasitics, dn: int, s: State, nodes: seq<int>)
    requires net.Valid() && net.Internal(dn) && net.nodes[dn].isPin && |nodes| == net.Pins(|net.nodes|)
    requires |s.ts| == net.PointN()
    requires forall k {:trigger nodes[k]} :: 0 <= k < |nodes| ==>
               var p := net.FirstTerm() + DriverFirst(net.Point(dn) - net.FirstTerm(), k);
               0 <= p < |s.ts| ==> nodes[k] == s.ts[p]
    requires forall i {:trigger net.Point(i)} :: net.Internal(i) && net.nodes[i].isPin ==>
              Reached(s, net.Point(i), |s.ord|)
    ensures Terminals(net, dn, s, nodes)
    ensures forall k {:trigger nodes[k]} :: 0 <= k < |nodes| ==> 0 <= nodes[k] < |s.ord|
  {
    PointInRange(net, dn);
    var k0 := net.Point(dn) - net.FirstTerm();
    forall k | 0 <= k < |nodes|
      ensures var p := net.FirstTerm() + DriverFirst(k0, k); 0 <= p < |s.ts| && nodes[k] == s.ts[p]
    {
      assert 0 <= DriverFirst(k0, k) < |nodes|;
    }
    OutputsInRange(net, dn, s, nodes);
  }

  /** Fills the reducer with the tree and the terminals of the walk. */
  method Prepare(ghost net: Parasitics, ghost dn: int, s: State, v: PointValues, k0: nat, firstTerm: nat, termN: nat)
    returns (a: ArnoldiReduce, termV: seq<int>)
    requires net.Valid() && net.Internal(dn) && net.nodes[dn].isPin
    requires Connected(net, dn) && Spans(NetOf(net), s, net.Point(dn)) && EndsOf(net, NetOf(net).ends)
    requires Carried(net, s.inE, v.c[..], v.r[..], |net.capacitors|)
    requires firstTerm == net.FirstTerm() && termN == net.Pins(|net.nodes|) && k0 == net.Point(dn) - firstTerm
           && k0 < termN
    ensures fresh(a) && a.Valid() && TreeOf(net, s, a.T()) && Terminals(net, dn, s, a.outV[..])
    ensures fresh(a.iv) && fresh(a.y) && fresh(a.u0) && fresh(a.u1) && fresh(a.d) && fresh(a.e) && fresh(a.U)
    ensures |termV| == termN == a.nterms && forall k {:trigger termV[k]} :: 0 <= k < termN ==>
              termV[k] == DriverFirst(k0, k)
  {
    a := new ArnoldiReduce(|s.ord|, termN);
    AllOnNodes(net, NetOf(net), s, net.Point(dn), dn);
    FillTree(net, NetOf(net), s, net.Point(dn), v.c[..], v.r[..], a);
    termV := SetTerms(k0, termN, firstTerm, s.ts, a.outV);
    WalkIsTree(net, NetOf(net), s, net.Point(dn), a.T());
    TerminalsReached(net, dn, s);
    OutputsPlaced(net, dn, s, a.outV[..]);
  }

  /** The pins of the terminals, by place. */
  ghost predicate TermPins(net: Parasitics, pins: seq<int>) {
    && |pins| == net.Pins(|net.nodes|)
    && forall k {:trigger pins[k]} :: 0 <= k < |pins| ==>
         net.Internal(pins[k]) && net.nodes[pins[k]].isPin && net.Point(pins[k]) == net.FirstTerm() + k
  }

  method LoadPins(net: Parasitics, ghost pt: seq<int>, nodeAt: seq<int>, firstTerm: nat, termN: nat)
    returns (pins: seq<int>)
    requires Placed(net, pt, nodeAt) && firstTerm == net.FirstTerm() && termN == net.Pins(|net.nodes|)
    ensures TermPins(net, pins)
  {
    pins := nodeAt[firstTerm..firstTerm + termN];
    forall k | 0 <= k < |pins|
      ensures net.Internal(pins[k]) && net.nodes[pins[k]].isPin && net.Point(pins[k]) == firstTerm + k
    {
      var i := TerminalNode(net, k, |net.nodes|);
      assert PlacedAt(net, pt, nodeAt, i);
    }
  }

  lemma PinsOrdered(net: Parasitics, dn: int, pins: seq<int>, pinV: seq<int>, s: State, nodes: seq<int>)
    requires net.Internal(dn) && net.nodes[dn].isPin && TermPins(net, pins) && Terminals(net, dn, s, nodes)
    requires |pinV| == |pins| && forall k {:trigger pinV[k]} :: 0 <= k < |pinV| ==>
               var from := DriverFirst(net.Point(dn) - net.FirstTerm(), k); 0 <= from < |pins| ==> pinV[k] == pins[from]
    ensures PinsInOrder(net, dn, pinV, s, nodes)
  {
    PointInRange(net, dn);
    var k0 := net.Point(dn) - net.FirstTerm();
    if pins[k0] != dn {
      PointsDiffer(net, pins[k0], dn);
    }
    forall k | 0 <= k < |pinV|
      ensures net.Internal(pinV[k]) && net.nodes[pinV[k]].isPin
      ensures net.Point(pinV[k]) == net.FirstTerm() + DriverFirst(k0, k) && nodes[k] == s.ts[net.Point(pinV[k])]
    {
      assert 0 <= DriverFirst(k0, k) < |pins| && pinV[k] == pins[DriverFirst(k0, k)];
    }
  }

  /** Reduces the walked net. */
  method ReduceWalk(ghost net: Parasitics, ghost dn: int, s: State, v: PointValues, pins: seq<int>,
                    k0: nat, firstTerm: nat, termN: nat, root: real -> real)
    returns (mod: RcModel, ghost t: Tree, ghost basis: seq<seq<real>>, ghost nodes: seq<int>)
    requires net.Valid() && net.Internal(dn) && net.nodes[dn].isPin && IsSquareRoot(root)
    requires CouplingNonNegative(net) && Connected(net, dn) && Loaded(net, dn)
    requires Spans(NetOf(net), s, net.Point(dn)) && EndsOf(net, NetOf(net).ends)
    requires Carried(net, s.inE, v.c[..], v.r[..], |net.capacitors|) && TermPins(net, pins)
    requires firstTerm == net.FirstTerm() && termN == net.Pins(|net.nodes|) && k0 == net.Point(dn) - firstTerm
           && k0 < termN
    ensures fresh(mod) && ModelOf(net, dn, mod, s, t, basis, nodes)
  {
    hide TreeOf, Spans, NetOf, EndsOf, Connected, Loaded, PinsInOrder, Carried, Terminals;
    var a, termV := Prepare(net, dn, s, v, k0, firstTerm, termN);
    t, nodes := a.T(), a.outV[..];
    WalkLoaded(net, dn, s, t);
    basis := a.MakeRcmodelFromTs(root);
    mod := MakeRcmodelFromW(a, termV, pins, basis);
    PinsOrdered(net, dn, pins, mod.pinV, s, nodes);
  }

  /** The model of the net seen from the driver's node dn; none exactly if the net has
      practically no capacitance to ground.  Otherwise the terminals and some capacitance must
      be joined to the driver. */
  method MakeRcmodelDrv(net: Parasitics, dn: int, root: real -> real)
    returns (mod: RcModel?, ghost s: State, ghost t: Tree, ghost basis: seq<seq<real>>, ghost nodes: seq<int>)
    requires net.Valid() && net.Internal(dn) && net.nodes[dn].isPin && HasResistor(net, dn) && IsSquareRoot(root)
    requires GroundCapacitance(net) >= MIN_CAPACITANCE ==>
               CouplingNonNegative(net) && Connected(net, dn) && Loaded(net, dn)
    ensures mod == null <==> GroundCapacitance(net) < MIN_CAPACITANCE
    ensures mod != null ==> fresh(mod) && ModelOf(net, dn, mod, s, t, basis, nodes)
  {
    mod := null;
    t, basis, nodes := Tree([], [], []), [], [];
    var walked, v, pins, k0, firstTerm, termN := WalkAndLoad(net, dn);
    s := walked;
    if v.ctot >= MIN_CAPACITANCE {
      mod, t, basis, nodes := ReduceWalk(net, dn, walked, v, pins, k0, firstTerm, termN, root);
    }
  }

  method WalkAndLoad(net: Parasitics, dn: int)
    returns (s: State, v: PointValues, pins: seq<int>, k0: nat, firstTerm: nat, termN: nat)
    requires net.Valid() && net.Internal(dn) && net.nodes[dn].isPin && HasResistor(net, dn)
    ensures v.ctot == GroundCapacitance(net) && TermPins(net, pins)
    ensures Spans(NetOf(net), s, net.Point(dn)) && EndsOf(net, NetOf(net).ends)
    ensures Carried(net, s.inE, v.c[..], v.r[..], |net.capacitors|)
    ensures firstTerm == net.FirstTerm() && termN == net.Pins(|net.nodes|) && k0 == net.Point(dn) - firstTerm
          && k0 < termN
  {
    var g, pt, nodeAt;
    g, pt, nodeAt, firstTerm, termN := LoadWork(net);
    assert PlacedAt(net, pt, nodeAt, dn);
    PointInRange(net, dn);
    DriverHasEdge(net, g, dn);
    s := WalkNet(g, pt[dn]);
    k0 := pt[dn] - firstTerm;
    pins := LoadPins(net, pt, nodeAt, firstTerm, termN);
    v := new PointValues(firstTerm + termN);
    v.GetRC(net, pt, nodeAt, s.inE);
  }

  ghost predicate HasResistor(net: Parasitics, dn: int) {
    exists e :: 0 <= e < |net.resistors| && (net.resistors[e].node1 == dn || net.resistors[e].node2 == dn)
  }

  lemma DriverHasEdge(net: Parasitics, g: Net, dn: int)
    requires net.Valid() && g == NetOf(net) && net.Internal(dn) && HasResistor(net, dn)
    ensures |g.adj| == net.PointN() && net.Point(dn) < net.PointN()
    ensures |g.adj[net.Point(dn)]| > 0
  {
    var e :| 0 <= e < |net.resistors| && (net.resistors[e].node1 == dn || net.resistors[e].node2 == dn);
    PointInRange(net, dn);
    assert g.adj[net.Point(dn)] == Incident(g.ends, net.Point(dn), |g.ends|);
    IncidentAll(g.ends, net.Point(dn), |g.ends|, e);
    assert e in g.adj[net.Point(dn)];
  }
}
