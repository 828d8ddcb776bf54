/** The capacitance matrix of the simulated network. */
module PrimaCapacitors {
  import opened RealSums
  import opened PrimaNetwork
  import opened ConductanceStamps

  /** A node of a parasitic, with its capacitance to ground and that of its pin. */
  datatype NodeCap = NodeCap(node: Node, external: bool, gndCap: real, pinCap: real)

  /** A capacitor between two nodes, each on a net; a net of -1 is unknown. */
  datatype Cap = Cap(node1: Node, node2: Node, net1: int, net2: int, value: real)

  datatype CapNet = CapNet(net: int, nodes: seq<NodeCap>, caps: seq<Cap>)

  /** Only internal nodes of the network are stamped. */
  function NodeStamp(index: map<Node, nat>, n: NodeCap): seq<Stamp> {
    if !n.external && n.node in index then [Ground(index[n.node], n.gndCap + n.pinCap)] else []
  }

  /** With its first end on the driven net, a capacitor to another driven net counts half,
      and one to any other net is taken to ground. */
  function CapStamp(index: map<Node, nat>, net: int, drvrNets: set<int>, c: Cap): seq<Stamp> {
    var (node1, node2, net2) := if c.net2 == net then (c.node2, c.node1, c.net1) else (c.node1, c.node2, c.net2);
    if node1 !in index then []
    else if net2 >= 0 && net2 in drvrNets then
      if node2 in index then [Floating(index[node1], index[node2], c.value * 0.5)] else []
    else [Ground(index[node1], c.value)]
  }

  function NodeStamps(index: map<Node, nat>, nodes: seq<NodeCap>): seq<Stamp> {
    if |nodes| == 0 then [] else NodeStamps(index, nodes[..|nodes| - 1]) + NodeStamp(index, nodes[|nodes| - 1])
  }

  function CapStamps(index: map<Node, nat>, net: int, drvrNets: set<int>, caps: seq<Cap>): seq<Stamp> {
    if |caps| == 0 then []
    else
      CapStamps(index, net, drvrNets, caps[..|caps| - 1]) + CapStamp(index, net, drvrNets, caps[|caps| - 1])
  }

  class CapMatrix {
    const n: nat
    const C: array2<real>

    constructor (n: nat)
      ensures this.n == n && C.Length0 == n && C.Length1 == n && fresh(C)
    {
      this.n := n;
      C := new real[n, n];
    }

    ghost predicate Holds(stamps: seq<Stamp>)
      reads C
    {
      && C.Length0 == n && C.Length1 == n
      && forall i, j {:trigger C[i, j]} :: 0 <= i < n && 0 <= j < n ==> C[i, j] == Stamped(stamps, i, j)
    }

    method SetZero()
      requires C.Length0 == n && C.Length1 == n
      modifies C
      ensures Holds([])
    {
      forall i, j | 0 <= i < n && 0 <= j < n {
        C[i, j] := 0.0;
      }
    }

    /** A capacitor to ground. */
    method StampGrounded(n1: nat, cap: real, ghost stamps: seq<Stamp>)
      requires Holds(stamps) && n1 < n
      modifies C
      ensures Holds(stamps + [Ground(n1, cap)])
    {
      C[n1, n1] := C[n1, n1] + cap;
      forall i, j | 0 <= i < n && 0 <= j < n
        ensures C[i, j] == Stamped(stamps + [Ground(n1, cap)], i, j)
      {
        StampedNext(stamps, Ground(n1, cap), i, j);
      }
    }

    /** A capacitor between two nodes, which may have been merged into one. */
    method StampFloating(n1: nat, n2: nat, cap: real, ghost stamps: seq<Stamp>)
      requires Holds(stamps) && n1 < n && n2 < n
      modifies C
      ensures Holds(stamps + [Floating(n1, n2, cap)])
    {
      AddFloating(n1, n2, cap);
      forall i, j | 0 <= i < n && 0 <= j < n
        ensures C[i, j] == Stamped(stamps + [Floating(n1, n2, cap)], i, j)
      {
        StampedNext(stamps, Floating(n1, n2, cap), i, j);
      }
    }

    method AddFloating(n1: nat, n2: nat, cap: real)
      requires C.Length0 == n && C.Length1 == n && n1 < n && n2 < n
      modifies C
      ensures forall i, j {:trigger C[i, j]} :: 0 <= i < n && 0 <= j < n ==>
                C[i, j] == old(C[i, j]) + Part(Floating(n1, n2, cap), i, j)
    {
      C[n1, n1] := C[n1, n1] + cap;
      C[n2, n2] := C[n2, n2] + cap;
      C[n1, n2] := C[n1, n2] - cap;
      C[n2, n1] := C[n2, n1] - cap;
    }

    method StampNodes(index: map<Node, nat>, nodes: seq<NodeCap>, ghost stamps: seq<Stamp>)
      requires Holds(stamps) && InRange(index, n)
      modifies C
      ensures Holds(stamps + NodeStamps(index, nodes))
    {
      hide Holds;
      assert stamps + [] == stamps;
      for k := 0 to |nodes|
        invariant Holds(stamps + NodeStamps(index, nodes[..k]))
      {
        ghost var sofar := stamps + NodeStamps(index, nodes[..k]);
        assert nodes[..k + 1][..k] == nodes[..k];
        assert stamps + NodeStamps(index, nodes[..k + 1]) == sofar + NodeStamp(index, nodes[k]);
        if !nodes[k].external && nodes[k].node in index {
          var cap := nodes[k].gndCap + nodes[k].pinCap;
          StampGrounded(index[nodes[k].node], cap, sofar);
        } else {
          assert sofar + [] == sofar;
        }
      }
      assert nodes[..|nodes|] == nodes;
    }

    method StampCap(index: map<Node, nat>, net: int, drvrNets: set<int>, c: Cap, ghost stamps: seq<Stamp>)
      requires Holds(stamps) && InRange(index, n)
      modifies C
      ensures Holds(stamps + CapStamp(index, net, drvrNets, c))
    {
      assert stamps + [] == stamps;
      var node1, node2, net2 := c.node1, c.node2, c.net2;
      if c.net2 == net {
        node1, node2, net2 := node2, node1, c.net1;
      }
      if node1 in index {
        if net2 >= 0 && net2 in drvrNets {
          if node2 in index {
            StampFloating(index[node1], index[node2], c.value * 0.5, stamps);
          }
        } else {
          StampGrounded(index[node1], c.value, stamps);
        }
      }
    }

    method StampCapacitors(index: map<Node, nat>, p: CapNet, drvrNets: set<int>, ghost stamps: seq<Stamp>)
      requires Holds(stamps) && InRange(index, n)
      modifies C
      ensures Holds(stamps + NodeStamps(index, p.nodes) + CapStamps(index, p.net, drvrNets, p.caps))
    {
      StampNodes(index, p.nodes, stamps);
      ghost var grounded := stamps + NodeStamps(index, p.nodes);
      assert grounded + [] == grounded;
      for k := 0 to |p.caps|
        invariant Holds(grounded + CapStamps(index, p.net, drvrNets, p.caps[..k]))
      {
        ghost var sofar := grounded + CapStamps(index, p.net, drvrNets, p.caps[..k]);
        assert p.caps[..k + 1][..k] == p.caps[..k];
        assert grounded + CapStamps(index, p.net, drvrNets, p.caps[..k + 1])
               == sofar + CapStamp(index, p.net, drvrNets, p.caps[k]);
        StampCap(index, p.net, drvrNets, p.caps[k], sofar);
      }
      assert p.caps[..|p.caps|] == p.caps;
    }
  }

  // ---------------------------------------------------------------------------
  // What the matrix means

  lemma {:induction false} StoredNonNegative(stamps: seq<Stamp>, v: int -> real)
    requires forall m {:trigger stamps[m]} :: 0 <= m < |stamps| ==> stamps[m].g >= 0.0
    ensures Energy(stamps, v) >= 0.0
  {
    if |stamps| > 0 {
      var last := |stamps| - 1;
      StoredNonNegative(stamps[..last], v);
      var s := stamps[last];
      TimesSquare(s.g, if s.Ground? then v(s.n1) else v(s.n1) - v(s.n2));
    }
  }

  lemma TimesSquare(g: real, x: real)
    requires g >= 0.0
    ensures Mul(g, Square(x)) >= 0.0
  {
    if g > 0.0 && x != 0.0 {
      SquarePositive(x);
      MulPositive(g, Square(x));
    }
  }

  /** Every capacitance is at least zero. */
  ghost predicate NonNegative(p: CapNet) {
    && (forall k {:trigger p.nodes[k]} :: 0 <= k < |p.nodes| ==> p.nodes[k].gndCap + p.nodes[k].pinCap >= 0.0)
    && (forall k {:trigger p.caps[k]} :: 0 <= k < |p.caps| ==> p.caps[k].value >= 0.0)
  }

  lemma {:induction false} NodeStampsNonNegative(index: map<Node, nat>, nodes: seq<NodeCap>)
    requires forall k {:trigger nodes[k]} :: 0 <= k < |nodes| ==> nodes[k].gndCap + nodes[k].pinCap >= 0.0
    ensures forall m {:trigger NodeStamps(index, nodes)[m]} :: 0 <= m < |NodeStamps(index, nodes)| ==>
              NodeStamps(index, nodes)[m].g >= 0.0
  {
    if |nodes| > 0 {
      NodeStampsNonNegative(index, nodes[..|nodes| - 1]);
    }
  }

  lemma {:induction false} CapStampsNonNegative(index: map<Node, nat>, net: int, drvrNets: set<int>, caps: seq<Cap>)
    requires forall k {:trigger caps[k]} :: 0 <= k < |caps| ==> caps[k].value >= 0.0
    ensures forall m {:trigger CapStamps(index, net, drvrNets, caps)[m]} ::
            0 <= m < |CapStamps(index, net, drvrNets, caps)| ==>
              CapStamps(index, net, drvrNets, caps)[m].g >= 0.0
  {
    if |caps| > 0 {
      CapStampsNonNegative(index, net, drvrNets, caps[..|caps| - 1]);
    }
  }

  lemma {:induction false} NodeStampsWithin(index: map<Node, nat>, nodes: seq<NodeCap>, n: nat)
    requires InRange(index, n)
    ensures Within(NodeStamps(index, nodes), n)
  {
    if |nodes| > 0 {
      NodeStampsWithin(index, nodes[..|nodes| - 1], n);
    }
  }

  lemma {:induction false} CapStampsWithin(index: map<Node, nat>, net: int, drvrNets: set<int>, caps: seq<Cap>, n: nat)
    requires InRange(index, n)
    ensures Within(CapStamps(index, net, drvrNets, caps), n)
  {
    if |caps| > 0 {
      CapStampsWithin(index, net, drvrNets, caps[..|caps| - 1], n);
    }
  }

  /** v'Cv is the energy that v stores, which is never negative. */
  lemma CapacitanceStores(index: map<Node, nat>, p: CapNet, drvrNets: set<int>, v: int -> real, n: nat)
    requires NonNegative(p)
    requires InRange(index, n)
    ensures var stamps := NodeStamps(index, p.nodes) + CapStamps(index, p.net, drvrNets, p.caps);
            Sum(PowerTerm(stamps, v), n) == Energy(stamps, v) >= 0.0
  {
    NodeStampsWithin(index, p.nodes, n);
    CapStampsWithin(index, p.net, drvrNets, p.caps, n);
    PowerIsEnergy(NodeStamps(index, p.nodes) + CapStamps(index, p.net, drvrNets, p.caps), v, n);
    NodeStampsNonNegative(index, p.nodes);
    CapStampsNonNegative(index, p.net, drvrNets, p.caps);
    StoredNonNegative(NodeStamps(index, p.nodes) + CapStamps(index, p.net, drvrNets, p.caps), v);
  }

  // ---------------------------------------------------------------------------
  // What becomes of one coupling capacitor

  /** The ends of a capacitor in either order. */
  predicate SameCap(c: Cap, d: Cap) {
    d == c || d == Cap(c.node2, c.node1, c.net2, c.net1, c.value)
  }

  /** What capacitor c adds to the matrix: the net of either end lists it, as c and d, and a
      net that has both ends lists it once. */
  function Contribution(index: map<Node, nat>, drvrNets: set<int>, c: Cap, d: Cap, i: int, j: int): real {
    Stamped(CapStamp(index, c.net1, drvrNets, c), i, j)
    + if c.net1 == c.net2 then 0.0 else Stamped(CapStamp(index, c.net2, drvrNets, d), i, j)
  }

  lemma {:induction false} StampedBoth(s: seq<Stamp>, t: seq<Stamp>, i: int, j: int)
    ensures Stamped(s + t, i, j) == Stamped(s, i, j) + Stamped(t, i, j)
  {
    if |t| == 0 {
      assert s + t == s;
    } else {
      var last := |t| - 1;
      assert (s + t)[..|s + t| - 1] == s + t[..last];
      StampedBoth(s, t[..last], i, j);
    }
  }

  function Rest(caps: seq<Cap>, k: nat): seq<Cap>
    requires k < |caps|
  {
    caps[..k] + caps[k + 1..]
  }

  /** One capacitor's share of what a list adds. */
  lemma {:induction false} CapShare(index: map<Node, nat>, net: int, drvrNets: set<int>, caps: seq<Cap>, k: nat,
                                    i: int, j: int)
    requires k < |caps|
    ensures Stamped(CapStamps(index, net, drvrNets, caps), i, j)
            == Stamped(CapStamps(index, net, drvrNets, Rest(caps, k)), i, j)
                + Stamped(CapStamp(index, net, drvrNets, caps[k]), i, j)
    decreases |caps|
  {
    hide CapStamp;
    var last := |caps| - 1;
    StampedBoth(CapStamps(index, net, drvrNets, caps[..last]), CapStamp(index, net, drvrNets, caps[last]), i, j);
    if k == last {
      assert Rest(caps, k) == caps[..last];
    } else {
      CapShare(index, net, drvrNets, caps[..last], k, i, j);
      var rest := Rest(caps, k);
      assert rest[..|rest| - 1] == Rest(caps[..last], k) && rest[|rest| - 1] == caps[last];
      StampedBoth(CapStamps(index, net, drvrNets, rest[..|rest| - 1]),
                  CapStamp(index, net, drvrNets, caps[last]), i, j);
    }
  }

  /** Net a lists c at place k, and net b, if it is another one, lists it at place l. */
  ghost predicate ListedBy(a: CapNet, k: nat, b: CapNet, l: nat) {
    && k < |a.caps| && l < |b.caps| && SameCap(a.caps[k], b.caps[l])
    && a.caps[k].net1 == a.net && a.caps[k].net2 == b.net && (a.net == b.net ==> a == b && k == l)
  }

  /** What the lists of the nets add, c apart. */
  function WithoutIt(index: map<Node, nat>, drvrNets: set<int>, a: CapNet, k: nat, b: CapNet, l: nat, i: int,
                     j: int): real
    requires k < |a.caps| && l < |b.caps|
  {
    Stamped(CapStamps(index, a.net, drvrNets, Rest(a.caps, k)), i, j)
    + if a.net == b.net then 0.0 else Stamped(CapStamps(index, b.net, drvrNets, Rest(b.caps, l)), i, j)
  }

  /** What the lists of the nets add. */
  function WithIt(index: map<Node, nat>, drvrNets: set<int>, a: CapNet, b: CapNet, i: int, j: int): real {
    Stamped(CapStamps(index, a.net, drvrNets, a.caps), i, j)
    + if a.net == b.net then 0.0 else Stamped(CapStamps(index, b.net, drvrNets, b.caps), i, j)
  }

  lemma ContributionInLists(index: map<Node, nat>, drvrNets: set<int>, a: CapNet, k: nat, b: CapNet, l: nat, i: int,
                            j: int)
    requires ListedBy(a, k, b, l)
    ensures WithIt(index, drvrNets, a, b, i, j)
            == WithoutIt(index, drvrNets, a, k, b, l, i, j) + Contribution(index, drvrNets, a.caps[k], b.caps[l], i, j)
  {
    CapShare(index, a.net, drvrNets, a.caps, k, i, j);
    CapShare(index, b.net, drvrNets, b.caps, l, i, j);
  }

  lemma StampedOne(s: Stamp, i: int, j: int)
    ensures Stamped([s], i, j) == Part(s, i, j) && Stamped([], i, j) == 0.0
  {
    StampedNext([], s, i, j);
    assert [] + [s] == [s];
  }

  /** Both ends of c are numbered. */
  predicate BothNumbered(index: map<Node, nat>, c: Cap) {
    c.node1 in index && c.node2 in index
  }

  /** What c adds when both its nets are driven: all of it if the nets differ, half of it if
      they are the same, and nothing unless both ends are numbered. */
  lemma DrivenContribution(index: map<Node, nat>, drvrNets: set<int>, c: Cap, d: Cap, i: int, j: int)
    requires c.net1 in drvrNets && c.net2 in drvrNets && c.net1 >= 0 && c.net2 >= 0 && SameCap(c, d)
    ensures Contribution(index, drvrNets, c, d, i, j) ==
            if !BothNumbered(index, c) then 0.0
            else Part(Floating(index[c.node1], index[c.node2],
                               if c.net1 == c.net2 then c.value * 0.5 else c.value), i, j)
  {
    if BothNumbered(index, c) {
      StampedOne(Floating(index[c.node1], index[c.node2], c.value * 0.5), i, j);
      StampedOne(Floating(index[c.node2], index[c.node1], c.value * 0.5), i, j);
    }
  }

  /** Both nets list the capacitor, and what it adds to the matrix is all of it: one capacitor
      of its value between the indices of its nodes. */
  ghost predicate StampedWhole(index: map<Node, nat>, drvrNets: set<int>, a: CapNet, k: nat, b: CapNet, l: nat)
    requires k < |a.caps| && l < |b.caps|
  {
    && BothNumbered(index, a.caps[k])
    && forall i, j {:trigger WithIt(index, drvrNets, a, b, i, j)} ::
         WithIt(index, drvrNets, a, b, i, j) == WithoutIt(index, drvrNets, a, k, b, l, i, j)
           + Part(Floating(index[a.caps[k].node1], index[a.caps[k].node2], a.caps[k].value), i, j)
  }

  /** A capacitor between driven nets comes out whole exactly when both its nodes are numbered
      and its nets differ, unless it is zero or between merged nodes, where it adds nothing. */
  lemma CouplingWhole(index: map<Node, nat>, drvrNets: set<int>, a: CapNet, k: nat, b: CapNet, l: nat)
    requires ListedBy(a, k, b, l) && a.net in drvrNets && b.net in drvrNets && a.net >= 0 && b.net >= 0
    ensures StampedWhole(index, drvrNets, a, k, b, l) <==>
            BothNumbered(index, a.caps[k])
            && (a.net != b.net || a.caps[k].value == 0.0 || index[a.caps[k].node1] == index[a.caps[k].node2])
  {
    var c := a.caps[k];
    forall i, j
      ensures BothNumbered(index, c) ==>
                WithIt(index, drvrNets, a, b, i, j) == WithoutIt(index, drvrNets, a, k, b, l, i, j)
                + Part(Floating(index[c.node1], index[c.node2],
                                if a.net == b.net then c.value * 0.5 else c.value), i, j)
    {
      ContributionInLists(index, drvrNets, a, k, b, l, i, j);
      DrivenContribution(index, drvrNets, c, b.caps[l], i, j);
    }
    if BothNumbered(index, c) {
      var n := index[c.node1];
      var total := WithIt(index, drvrNets, a, b, n, n);
    }
  }

  /** One whose far node is not numbered is dropped: the matrix is what it is without it. */
  lemma CouplingDropped(index: map<Node, nat>, drvrNets: set<int>, a: CapNet, k: nat, b: CapNet, l: nat)
    requires ListedBy(a, k, b, l) && a.net in drvrNets && b.net in drvrNets && a.net >= 0 && b.net >= 0
    ensures (forall i, j {:trigger WithIt(index, drvrNets, a, b, i, j)} ::
               WithIt(index, drvrNets, a, b, i, j) == WithoutIt(index, drvrNets, a, k, b, l, i, j)) <==>
            !BothNumbered(index, a.caps[k]) || a.caps[k].value == 0.0
                || index[a.caps[k].node1] == index[a.caps[k].node2]
  {
    var c := a.caps[k];
    forall i, j
      ensures WithIt(index, drvrNets, a, b, i, j) == WithoutIt(index, drvrNets, a, k, b, l, i, j)
              + if !BothNumbered(index, c) then 0.0
                else Part(Floating(index[c.node1], index[c.node2],
                                   if a.net == b.net then c.value * 0.5 else c.value), i, j)
    {
      ContributionInLists(index, drvrNets, a, k, b, l, i, j);
      DrivenContribution(index, drvrNets, c, b.caps[l], i, j);
    }
    if BothNumbered(index, c) {
      var n := index[c.node1];
      var total := WithIt(index, drvrNets, a, b, n, n);
    }
  }

  /** One inside a single driven net adds half its value to the matrix. */
  lemma CouplingInsideHalved(index: map<Node, nat>, drvrNets: set<int>, a: CapNet, k: nat, i: int, j: int)
    requires k < |a.caps| && a.caps[k].net1 == a.caps[k].net2 == a.net >= 0 && a.net in drvrNets
    requires BothNumbered(index, a.caps[k])
    ensures var c := a.caps[k];
            Stamped(CapStamps(index, a.net, drvrNets, a.caps), i, j)
            == Stamped(CapStamps(index, a.net, drvrNets, Rest(a.caps, k)), i, j)
               + Part(Floating(index[c.node1], index[c.node2], c.value * 0.5), i, j)
  {
    hide Stamped, CapStamps, CapStamp, Contribution, Part, Rest;
    ContributionInLists(index, drvrNets, a, k, a, k, i, j);
    DrivenContribution(index, drvrNets, a.caps[k], a.caps[k], i, j);
  }

  /** One to a net that is not driven goes to ground whole, at the driven net's node. */
  lemma CouplingGrounded(index: map<Node, nat>, drvrNets: set<int>, a: CapNet, k: nat, i: int, j: int)
    requires k < |a.caps| && a.caps[k].net1 == a.net && a.caps[k].net2 != a.net && a.caps[k].net2 !in drvrNets
    requires a.caps[k].node1 in index
    ensures Stamped(CapStamps(index, a.net, drvrNets, a.caps), i, j)
            == Stamped(CapStamps(index, a.net, drvrNets, Rest(a.caps, k)), i, j)
               + Part(Ground(index[a.caps[k].node1], a.caps[k].value), i, j)
  {
    CapShare(index, a.net, drvrNets, a.caps, k, i, j);
    StampedOne(Ground(index[a.caps[k].node1], a.caps[k].value), i, j);
  }
  // ---------------------------------------------------------------------------
  // What the matrix stores

  /** What node k stores at voltages v: C v v, with its capacitance to ground and of its pin, if
      it is a node of the network. */
  function NodeStores(index: map<Node, nat>, nodes: seq<NodeCap>, v: int -> real): int -> real {
    k =>
      if 0 <= k < |nodes| && !nodes[k].external && nodes[k].node in index
      then Mul(nodes[k].gndCap + nodes[k].pinCap, Square(v(index[nodes[k].node]))) else 0.0
  }

  /** What capacitor k stores as its net lists it: the part of the voltage across it if its other
      net is driven and both ends are numbered, of half its value; the voltage of its end on the
      net if the other net is not driven. */
  function CapStores(index: map<Node, nat>, net: int, drvrNets: set<int>, caps: seq<Cap>, v: int -> real): int -> real {
    k =>
      if 0 <= k < |caps| then
        var (near, far, other) := if caps[k].net2 == net then (caps[k].node2, caps[k].node1, caps[k].net1)
                                  else (caps[k].node1, caps[k].node2, caps[k].net2);
        if near !in index then 0.0
        else if other < 0 || other !in drvrNets then Mul(caps[k].value, Square(v(index[near])))
        else if far !in index then 0.0
        else Mul(caps[k].value * 0.5, Square(v(index[near]) - v(index[far])))
      else 0.0
  }

  lemma {:induction false} NodesEnergy(index: map<Node, nat>, nodes: seq<NodeCap>, all: seq<NodeCap>, v: int -> real)
    requires nodes <= all
    ensures Energy(NodeStamps(index, nodes), v) == Sum(NodeStores(index, all, v), |nodes|)
  {
    hide NodeStamp, NodeStores;
    if |nodes| > 0 {
      var last := |nodes| - 1;
      NodesEnergy(index, nodes[..last], all, v);
      EnergyBoth(NodeStamps(index, nodes[..last]), NodeStamp(index, nodes[last]), v);
      NodeEnergy(index, all, v, last);
    }
  }

  lemma NodeEnergy(index: map<Node, nat>, nodes: seq<NodeCap>, v: int -> real, k: nat)
    requires k < |nodes|
    ensures Energy(NodeStamp(index, nodes[k]), v) == NodeStores(index, nodes, v)(k)
  {
    hide Square, Mul;
    var n := nodes[k];
    if !n.external && n.node in index {
      EnergyOne(Ground(index[n.node], n.gndCap + n.pinCap), v);
    }
  }

  lemma CapEnergy(index: map<Node, nat>, net: int, drvrNets: set<int>, caps: seq<Cap>, v: int -> real, k: nat)
    requires k < |caps|
    ensures Energy(CapStamp(index, net, drvrNets, caps[k]), v) == CapStores(index, net, drvrNets, caps, v)(k)
  {
    hide Square, Mul;
    var c := caps[k];
    var (node1, node2, net2) := if c.net2 == net then (c.node2, c.node1, c.net1) else (c.node1, c.node2, c.net2);
    if node1 in index {
      EnergyOne(Ground(index[node1], c.value), v);
      if node2 in index {
        EnergyOne(Floating(index[node1], index[node2], c.value * 0.5), v);
      }
    }
  }

  lemma {:induction false} CapsEnergy(index: map<Node, nat>, net: int, drvrNets: set<int>, caps: seq<Cap>,
                                      all: seq<Cap>, v: int -> real)
    requires caps <= all
    ensures Energy(CapStamps(index, net, drvrNets, caps), v) == Sum(CapStores(index, net, drvrNets, all, v), |caps|)
  {
    hide CapStamp, CapStores;
    if |caps| > 0 {
      var last := |caps| - 1;
      CapsEnergy(index, net, drvrNets, caps[..last], all, v);
      EnergyBoth(CapStamps(index, net, drvrNets, caps[..last]), CapStamp(index, net, drvrNets, caps[last]), v);
      CapEnergy(index, net, drvrNets, all, v, last);
    }
  }

  /** Stamping a net adds to v'Cv, twice the stored energy, what its nodes and its capacitors
      store.  The matrix is symmetric, so this says what every entry is. */
  lemma StoresCapacitances(m: CapMatrix, index: map<Node, nat>, p: CapNet, drvrNets: set<int>, stamps: seq<Stamp>,
                           M: (int, int) -> real, v: int -> real)
    requires m.Holds(stamps + NodeStamps(index, p.nodes) + CapStamps(index, p.net, drvrNets, p.caps))
    requires InRange(index, m.n) && Within(stamps, m.n)
    requires forall i, j {:trigger M(i, j)} :: 0 <= i < m.n && 0 <= j < m.n ==> M(i, j) == m.C[i, j]
    ensures Form(M, v, m.n)
            == Energy(stamps, v) + Sum(NodeStores(index, p.nodes, v), |p.nodes|)
               + Sum(CapStores(index, p.net, drvrNets, p.caps, v), |p.caps|)
    ensures forall i, j {:trigger M(i, j)} :: 0 <= i < m.n && 0 <= j < m.n ==> M(i, j) == M(j, i)
  {
    hide NodeStores, CapStores, NodeStamps, CapStamps, Energy;
    var all := stamps + NodeStamps(index, p.nodes) + CapStamps(index, p.net, drvrNets, p.caps);
    NodeStampsWithin(index, p.nodes, m.n);
    CapStampsWithin(index, p.net, drvrNets, p.caps, m.n);
    forall i, j | 0 <= i < m.n && 0 <= j < m.n
      ensures M(i, j) == Stamped(all, i, j) && M(i, j) == M(j, i)
    {
      assert M(i, j) == m.C[i, j] && M(j, i) == m.C[j, i];
      StampedSymmetric(all, i, j);
    }
    FormIsEnergy(all, M, v, m.n);
    EnergyBoth(stamps + NodeStamps(index, p.nodes), CapStamps(index, p.net, drvrNets, p.caps), v);
    EnergyBoth(stamps, NodeStamps(index, p.nodes), v);
    NodesEnergy(index, p.nodes, p.nodes, v);
    CapsEnergy(index, p.net, drvrNets, p.caps, p.caps, v);
  }

  /** The capacitance of one that goes to ground. */
  function Grounding(index: map<Node, nat>, net: int, drvrNets: set<int>, caps: seq<Cap>): int -> real {
    k =>
      if 0 <= k < |caps| then
        var (near, other) := if caps[k].net2 == net then (caps[k].node2, caps[k].net1)
                             else (caps[k].node1, caps[k].net2);
        if near in index && (other < 0 || other !in drvrNets) then caps[k].value else 0.0
      else 0.0
  }

  function NodeGrounding(index: map<Node, nat>, nodes: seq<NodeCap>): int -> real {
    k =>
      if 0 <= k < |nodes| && !nodes[k].external && nodes[k].node in index
      then nodes[k].gndCap + nodes[k].pinCap else 0.0
  }

  lemma UnitVoltage(c: real)
    ensures Mul(c, Square(1.0)) == c && Mul(c, Square(1.0 - 1.0)) == 0.0
  {
    assert Square(1.0) == 1.0 && Square(1.0 - 1.0) == 0.0;
  }

  /** The entries of the matrix of one net add up to its capacitance to ground. */
  lemma EntriesAddUp(m: CapMatrix, index: map<Node, nat>, p: CapNet, drvrNets: set<int>, M: (int, int) -> real)
    requires m.Holds(NodeStamps(index, p.nodes) + CapStamps(index, p.net, drvrNets, p.caps)) && InRange(index, m.n)
    requires forall i, j {:trigger M(i, j)} :: 0 <= i < m.n && 0 <= j < m.n ==> M(i, j) == m.C[i, j]
    ensures Form(M, i => 1.0, m.n)
            == Sum(NodeGrounding(index, p.nodes), |p.nodes|) + Sum(Grounding(index, p.net, drvrNets, p.caps), |p.caps|)
  {
    hide Form, Mul, Square, CapStamp, CapStamps, NodeStamps;
    var one := i => 1.0;
    assert [] + NodeStamps(index, p.nodes) == NodeStamps(index, p.nodes);
    StoresCapacitances(m, index, p, drvrNets, [], M, one);
    forall k | 0 <= k < |p.nodes|
      ensures NodeStores(index, p.nodes, one)(k) == NodeGrounding(index, p.nodes)(k)
    {
      UnitVoltage(p.nodes[k].gndCap + p.nodes[k].pinCap);
    }
    SumCongr(NodeStores(index, p.nodes, one), NodeGrounding(index, p.nodes), |p.nodes|);
    forall k | 0 <= k < |p.caps|
      ensures CapStores(index, p.net, drvrNets, p.caps, one)(k) == Grounding(index, p.net, drvrNets, p.caps)(k)
    {
      UnitVoltage(p.caps[k].value);
      UnitVoltage(p.caps[k].value * 0.5);
    }
    SumCongr(CapStores(index, p.net, drvrNets, p.caps, one), Grounding(index, p.net, drvrNets, p.caps), |p.caps|);
  }
}
