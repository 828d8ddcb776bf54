/** The points of a net: how parasitic nodes become points, and the capacitance and
    resistance that every point carries. */
module NetPoints {
  import opened RealSums

  datatype Node = Node(external: bool, isPin: bool, gndCap: real, pinCap: real)
  datatype Resistor = Resistor(node1: nat, node2: nat, value: real)
  datatype Capacitor = Capacitor(node1: nat, node2: nat, value: real)

  datatype Parasitics = Parasitics(nodes: seq<Node>, resistors: seq<Resistor>, capacitors: seq<Capacitor>,
      factor: real) {
    ghost predicate Valid() {
      && (forall e {:trigger resistors[e]} :: 0 <= e < |resistors| ==>
           Internal(resistors[e].node1) && Internal(resistors[e].node2))
      && (forall k {:trigger capacitors[k]} :: 0 <= k < |capacitors| ==>
           capacitors[k].node1 < |nodes| && capacitors[k].node2 < |nodes|)
    }

    predicate Internal(i: int) {
      0 <= i < |nodes| && !nodes[i].external
    }

    /** Internal nodes among the first m that have, or do not have, a pin. */
    function Pins(m: nat): nat
      requires m <= |nodes|
    {
      if m == 0 then 0 else Pins(m - 1) + if Internal(m - 1) && nodes[m - 1].isPin then 1 else 0
    }

    function Subnodes(m: nat): nat
      requires m <= |nodes|
    {
      if m == 0 then 0 else Subnodes(m - 1) + if Internal(m - 1) && !nodes[m - 1].isPin then 1 else 0
    }

    function FirstTerm(): nat { Subnodes(|nodes|) + 1 }

    function PointN(): nat { FirstTerm() + Pins(|nodes|) }

    /** The point of an internal node: nodes without a pin come first, then, after an unused
        point, the terminals. */
    function Point(i: int): nat
      requires Internal(i)
    {
      if nodes[i].isPin then FirstTerm() + Pins(i) else Subnodes(i)
    }

    /** Capacitance to ground and of the pin, if positive. */
    function Own(i: int): real
      requires Internal(i)
    {
      var cap := nodes[i].gndCap + nodes[i].pinCap;
      if cap > 0.0 then cap else 0.0
    }

    /** Capacitance of node i through the first m coupling capacitors. */
    function Coupled(i: int, m: nat): real
      requires m <= |capacitors|
    {
      if m == 0 then 0.0 else
        var cap := Mul(capacitors[m - 1].value, factor);
        Coupled(i, m - 1)
        + (if capacitors[m - 1].node1 == i then cap else 0.0)
        + (if capacitors[m - 1].node2 == i then cap else 0.0)
    }
  }

  lemma {:induction false} CountsGrow(net: Parasitics, i: nat, j: nat)
    requires i < j <= |net.nodes|
    ensures net.Pins(i) <= net.Pins(j) && (net.Internal(i) && net.nodes[i].isPin ==> net.Pins(i) < net.Pins(j))
    ensures net.Subnodes(i) <= net.Subnodes(j) && (net.Internal(i) && !net.nodes[i].isPin ==>
              net.Subnodes(i) < net.Subnodes(j))
  {
    if i < j - 1 {
      CountsGrow(net, i, j - 1);
    }
  }

  /** Points are in range, the terminals are those from FirstTerm on, and the point just
      before them belongs to no node. */
  lemma PointInRange(net: Parasitics, i: int)
    requires net.Internal(i)
    ensures net.Point(i) < net.PointN() && net.Point(i) != net.FirstTerm() - 1
    ensures net.nodes[i].isPin <==> net.Point(i) >= net.FirstTerm()
  {
    CountsGrow(net, i, |net.nodes|);
  }

  /** Different nodes have different points. */
  lemma PointsDiffer(net: Parasitics, i: int, j: int)
    requires net.Internal(i) && net.Internal(j) && i != j
    ensures net.Point(i) != net.Point(j)
    ensures net.nodes[i].isPin == net.nodes[j].isPin ==> (i < j <==> net.Point(i) < net.Point(j))
  {
    PointInRange(net, i);
    PointInRange(net, j);
    if i < j {
      CountsGrow(net, i, j);
    } else {
      CountsGrow(net, j, i);
    }
  }

  ghost predicate PlacedAt(net: Parasitics, pt: seq<int>, nodeAt: seq<int>, i: int)
    requires net.Internal(i) && i < |pt|
  {
    pt[i] == net.Point(i) && net.Point(i) < |nodeAt| && nodeAt[net.Point(i)] == i
  }

  /** pt gives the point of every internal node, and nodeAt the node of every point. */
  ghost predicate Placed(net: Parasitics, pt: seq<int>, nodeAt: seq<int>) {
    && |pt| == |net.nodes| && |nodeAt| == net.PointN()
    && (forall i {:trigger PlacedAt(net, pt, nodeAt, i)} {:trigger pt[i]} :: net.Internal(i) ==>
         PlacedAt(net, pt, nodeAt, i))
    && (forall p {:trigger nodeAt[p]} :: 0 <= p < |nodeAt| && nodeAt[p] >= 0 ==>
         net.Internal(nodeAt[p]) && net.Point(nodeAt[p]) == p)
  }

  /** The same for the first m nodes. */
  ghost predicate PlacedTo(net: Parasitics, pt: seq<int>, nodeAt: seq<int>, m: nat) {
    && |pt| == |net.nodes| && |nodeAt| == net.PointN() && m <= |net.nodes|
    && (forall i {:trigger PlacedAt(net, pt, nodeAt, i)} {:trigger pt[i]} :: i < m && net.Internal(i) ==>
         PlacedAt(net, pt, nodeAt, i))
    && (forall p {:trigger nodeAt[p]} :: 0 <= p < |nodeAt| && nodeAt[p] >= 0 ==>
         nodeAt[p] < m && net.Internal(nodeAt[p]) && net.Point(nodeAt[p]) == p)
  }

  lemma PlaceOne(net: Parasitics, pt: seq<int>, nodeAt: seq<int>, m: nat)
    requires PlacedTo(net, pt, nodeAt, m) && net.Internal(m) && net.Point(m) < |nodeAt|
    ensures PlacedTo(net, pt[m := net.Point(m)], nodeAt[net.Point(m) := m], m + 1)
  {
    var pt', nodeAt' := pt[m := net.Point(m)], nodeAt[net.Point(m) := m];
    forall i | i < m && net.Internal(i)
      ensures PlacedAt(net, pt', nodeAt', i)
    {
      assert PlacedAt(net, pt, nodeAt, i);
      PointsDiffer(net, i, m);
    }
    assert PlacedAt(net, pt', nodeAt', m);
  }

  method CountNodes(net: Parasitics) returns (termN: nat, subnodes: nat)
    ensures termN == net.Pins(|net.nodes|) && subnodes == net.Subnodes(|net.nodes|)
  {
    termN, subnodes := 0, 0;
    for i := 0 to |net.nodes|
      invariant termN == net.Pins(i) && subnodes == net.Subnodes(i)
    {
      if !net.nodes[i].external {
        if net.nodes[i].isPin {
          termN := termN + 1;
        } else {
          subnodes := subnodes + 1;
        }
      }
    }
  }

  /** Gives every internal node its point. */
  method PlaceNodes(net: Parasitics) returns (pt: seq<int>, nodeAt: seq<int>, firstTerm: nat, termN: nat)
    ensures Placed(net, pt, nodeAt) && firstTerm == net.FirstTerm() && termN == net.Pins(|net.nodes|)
  {
    var subnodes;
    termN, subnodes := CountNodes(net);
    firstTerm := subnodes + 1;
    pt := seq(|net.nodes|, i => 0);
    nodeAt := seq(firstTerm + termN, p => -1);
    var index, term := 0, firstTerm;
    for i := 0 to |net.nodes|
      invariant index == net.Subnodes(i) && term == firstTerm + net.Pins(i)
      invariant PlacedTo(net, pt, nodeAt, i)
    {
      if !net.nodes[i].external {
        PointInRange(net, i);
        PlaceOne(net, pt, nodeAt, i);
        if net.nodes[i].isPin {
          pt := pt[i := term];
          nodeAt := nodeAt[term := i];
          term := term + 1;
        } else {
          pt := pt[i := index];
          nodeAt := nodeAt[index := i];
          index := index + 1;
        }
      }
    }
  }

  /** What the points carry: the capacitance of their node, and the resistance of their
      incoming edge. */
  ghost predicate Carried(net: Parasitics, inEdge: seq<int>, c: seq<real>, r: seq<real>, m: nat)
    requires m <= |net.capacitors|
  {
    && |c| == net.PointN() && |r| == net.PointN() && |inEdge| == net.PointN()
    && forall i {:trigger net.Point(i)} :: net.Internal(i) && net.Point(i) < net.PointN() ==>
         && c[net.Point(i)] == net.Own(i) + net.Coupled(i, m)
         && r[net.Point(i)] == Above(net, inEdge[net.Point(i)])
  }

  function Above(net: Parasitics, e: int): real {
    if 0 <= e < |net.resistors| then net.resistors[e].value else 0.0
  }

  /** The capacitance to ground at a point. */
  function OwnAt(net: Parasitics, nodeAt: seq<int>): int -> real {
    p => if 0 <= p < |nodeAt| && net.Internal(nodeAt[p]) then net.Own(nodeAt[p]) else 0.0
  }

  function GroundTerm(net: Parasitics): int -> real {
    i => if net.Internal(i) then net.Own(i) else 0.0
  }

  /** The capacitance to ground of the whole net. */
  function GroundCapacitance(net: Parasitics): real {
    Sum(GroundTerm(net), |net.nodes|)
  }

  /** The capacitance to ground at a point of one of the first m nodes. */
  function OwnBelow(net: Parasitics, nodeAt: seq<int>, m: nat): int -> real {
    p => if 0 <= p < |nodeAt| && nodeAt[p] < m && net.Internal(nodeAt[p]) then net.Own(nodeAt[p]) else 0.0
  }

  /** Point by point and node by node, the sum is the same. */
  lemma {:induction false} GroundByPoint(net: Parasitics, pt: seq<int>, nodeAt: seq<int>, m: nat)
    requires Placed(net, pt, nodeAt) && m <= |net.nodes|
    ensures Sum(OwnBelow(net, nodeAt, m), net.PointN()) == Sum(GroundTerm(net), m)
  {
    var n := net.PointN();
    if m == 0 {
      SumZero(OwnBelow(net, nodeAt, 0), n);
    } else {
      GroundByPoint(net, pt, nodeAt, m - 1);
      var f, g := OwnBelow(net, nodeAt, m), OwnBelow(net, nodeAt, m - 1);
      if net.Internal(m - 1) {
        assert PlacedAt(net, pt, nodeAt, m - 1);
        var k, own := net.Point(m - 1), net.Own(m - 1);
        forall p | 0 <= p < n
          ensures f(p) == 1.0 * g(p) + 1.0 * Spike(k, own)(p)
        {
          if p != k {
            assert nodeAt[p] != m - 1;
          }
        }
        SumLinear(f, 1.0, g, 1.0, Spike(k, own), n);
        SumSpike(k, own, n);
      } else {
        SumCongr(f, g, n);
      }
    }
  }

  lemma GroundOfPoints(net: Parasitics, pt: seq<int>, nodeAt: seq<int>)
    requires Placed(net, pt, nodeAt)
    ensures Sum(OwnAt(net, nodeAt), net.PointN()) == GroundCapacitance(net)
  {
    GroundByPoint(net, pt, nodeAt, |net.nodes|);
    SumCongr(OwnAt(net, nodeAt), OwnBelow(net, nodeAt, |net.nodes|), net.PointN());
  }

  // ---------------------------------------------------------------------------
  // What the capacitance of a point is

  /** What capacitor k adds at node i: its value times the factor for every end at i. */
  function EndsHere(net: Parasitics, i: int): int -> real {
    k => if 0 <= k < |net.capacitors|
         then (if net.capacitors[k].node1 == i then net.capacitors[k].value * net.factor else 0.0)
           + (if net.capacitors[k].node2 == i then net.capacitors[k].value * net.factor else 0.0)
         else 0.0
  }

  /** What it adds at all nodes: the same for every end at a node of the net. */
  function EndsInside(net: Parasitics): int -> real {
    k => if 0 <= k < |net.capacitors|
         then (if net.Internal(net.capacitors[k].node1) then net.capacitors[k].value * net.factor else 0.0)
           + (if net.Internal(net.capacitors[k].node2) then net.capacitors[k].value * net.factor else 0.0)
         else 0.0
  }

  lemma {:induction false} CoupledByEnds(net: Parasitics, i: int, m: nat)
    requires m <= |net.capacitors|
    ensures net.Coupled(i, m) == Sum(EndsHere(net, i), m)
  {
    if m > 0 {
      CoupledByEnds(net, i, m - 1);
    }
  }

  /** A point carries the capacitance to ground and of the pin of its node, if that is positive,
      the value of every coupling capacitor for each of its ends there, and the resistance of its
      incoming edge. */
  lemma PointCarries(net: Parasitics, inEdge: seq<int>, c: seq<real>, r: seq<real>, i: int)
    requires Carried(net, inEdge, c, r, |net.capacitors|) && net.Internal(i)
    ensures net.Point(i) < |c|
    ensures var own := net.nodes[i].gndCap + net.nodes[i].pinCap;
            c[net.Point(i)] == (if own > 0.0 then own else 0.0) + Sum(EndsHere(net, i), |net.capacitors|)
    ensures var e := inEdge[net.Point(i)];
            r[net.Point(i)] == if 0 <= e < |net.resistors| then net.resistors[e].value else 0.0
  {
    PointInRange(net, i);
    CoupledByEnds(net, i, |net.capacitors|);
  }

  /** Capacitor k with its ends exchanged. */
  function Exchanged(net: Parasitics, k: nat): Parasitics
    requires k < |net.capacitors|
  {
    var c := net.capacitors[k];
    net.(capacitors := net.capacitors[k := Capacitor(c.node2, c.node1, c.value)])
  }

  /** It makes no difference which end of a capacitor comes first. */
  lemma EndsExchange(net: Parasitics, k: nat, inEdge: seq<int>, c: seq<real>, r: seq<real>, c': seq<real>,
                     r': seq<real>, i: int)
    requires k < |net.capacitors| && net.Internal(i)
    requires Carried(net, inEdge, c, r, |net.capacitors|)
    requires Carried(Exchanged(net, k), inEdge, c', r', |net.capacitors|)
    ensures net.Point(i) < |c| && net.Point(i) < |c'| && c[net.Point(i)] == c'[net.Point(i)]
  {
    var net' := Exchanged(net, k);
    SamePoints(net, net', |net.nodes|);
    SamePoints(net, net', i);
    PointCarries(net, inEdge, c, r, i);
    PointCarries(net', inEdge, c', r', i);
    SumCongr(EndsHere(net, i), EndsHere(net', i), |net.capacitors|);
  }

  lemma {:induction false} SamePoints(net: Parasitics, net': Parasitics, m: nat)
    requires net'.nodes == net.nodes && m <= |net.nodes|
    ensures net'.Pins(m) == net.Pins(m) && net'.Subnodes(m) == net.Subnodes(m)
  {
    if m > 0 {
      SamePoints(net, net', m - 1);
    }
  }

  /** The capacitance to ground is that of the nodes of the net for which it is positive. */
  lemma GroundCapacitanceIs(net: Parasitics)
    ensures GroundCapacitance(net)
            == Sum(i => if 0 <= i < |net.nodes| && !net.nodes[i].external
                           && net.nodes[i].gndCap + net.nodes[i].pinCap > 0.0
                        then net.nodes[i].gndCap + net.nodes[i].pinCap else 0.0, |net.nodes|)
  {
    SumCongr(GroundTerm(net),
             i => if 0 <= i < |net.nodes| && !net.nodes[i].external
                     && net.nodes[i].gndCap + net.nodes[i].pinCap > 0.0
                  then net.nodes[i].gndCap + net.nodes[i].pinCap else 0.0, |net.nodes|);
  }

  function Held(c: seq<real>): int -> real {
    p => At(c, p)
  }

  lemma SumHeld(c: seq<real>, f: int -> real)
    requires forall p {:trigger c[p]} :: 0 <= p < |c| ==> c[p] == f(p)
    ensures Sum(Held(c), |c|) == Sum(f, |c|)
  {
    SumCongr(Held(c), f, |c|);
  }

  lemma AddedEntry(c: seq<real>, p: nat, x: real)
    requires p < |c|
    ensures Sum(Held(c[p := c[p] + x]), |c|) == Sum(Held(c), |c|) + x
  {
    SumLinear(Held(c[p := c[p] + x]), 1.0, Held(c), 1.0, Spike(p, x), |c|);
    SumSpike(p, x, |c|);
  }

  class PointValues {
    const c: array<real>
    const r: array<real>
    var ctot: real

    constructor (n: nat)
      ensures c.Length == n && r.Length == n && c != r && fresh(c) && fresh(r)
    {
      c := new real[n];
      r := new real[n];
      ctot := 0.0;
    }

    method GetRC(net: Parasitics, pt: seq<int>, nodeAt: seq<int>, inEdge: seq<int>)
      requires net.Valid() && Placed(net, pt, nodeAt) && |inEdge| == net.PointN()
      requires c.Length == net.PointN() && r.Length == net.PointN() && c != r
      modifies this, c, r
      ensures Carried(net, inEdge, c[..], r[..], |net.capacitors|)
      ensures ctot == GroundCapacitance(net)
      ensures Sum(Held(c[..]), c.Length) == GroundCapacitance(net) + Sum(EndsInside(net), |net.capacitors|)
    {
      hide Carried;
      GetGround(net, pt, nodeAt, inEdge);
      GroundOfPoints(net, pt, nodeAt);
      for k := 0 to |net.capacitors|
        modifies c
        invariant Carried(net, inEdge, c[..], r[..], k)
        invariant Sum(Held(c[..]), c.Length) == ctot + Sum(EndsInside(net), k)
      {
        AddCoupling(net, pt, nodeAt, inEdge, k);
      }
    }

    method GetGround(net: Parasitics, pt: seq<int>, nodeAt: seq<int>, inEdge: seq<int>)
      requires Placed(net, pt, nodeAt) && |inEdge| == net.PointN()
      requires c.Length == net.PointN() && r.Length == net.PointN() && c != r
      modifies this, c, r
      ensures Carried(net, inEdge, c[..], r[..], 0)
      ensures ctot == Sum(OwnAt(net, nodeAt), net.PointN()) == Sum(Held(c[..]), c.Length)
    {
      hide Held, Parasitics.Pins, Parasitics.Subnodes, Parasitics.Point, Parasitics.PointN;
      ctot := 0.0;
      for p := 0 to c.Length
        invariant ctot == Sum(OwnAt(net, nodeAt), p)
        invariant forall q {:trigger c[q]} :: 0 <= q < p ==> c[q] == OwnAt(net, nodeAt)(q)
        invariant forall q {:trigger nodeAt[q]} :: 0 <= q < p && nodeAt[q] >= 0 ==>
                  c[q] == net.Own(nodeAt[q]) && r[q] == Above(net, inEdge[q])
      {
        c[p], r[p] := 0.0, 0.0;
        if nodeAt[p] >= 0 {
          var node := net.nodes[nodeAt[p]];
          var cap := node.gndCap + node.pinCap;
          if cap > 0.0 {
            c[p] := cap;
            ctot := ctot + cap;
          }
          if 0 <= inEdge[p] < |net.resistors| {
            r[p] := net.resistors[inEdge[p]].value;
          }
        }
      }
      SumHeld(c[..], OwnAt(net, nodeAt));
      forall i | net.Internal(i) && net.Point(i) < net.PointN()
        ensures c[net.Point(i)] == net.Own(i) && r[net.Point(i)] == Above(net, inEdge[net.Point(i)])
      {
        assert PlacedAt(net, pt, nodeAt, i);
      }
    }

    /** Adds capacitor k to the points at both its ends. */
    method AddCoupling(net: Parasitics, pt: seq<int>, nodeAt: seq<int>, inEdge: seq<int>, k: nat)
      requires net.Valid() && Placed(net, pt, nodeAt) && k < |net.capacitors|
      requires c.Length == net.PointN() && r.Length == net.PointN() && c != r
      requires Carried(net, inEdge, c[..], r[..], k)
      modifies c
      ensures Carried(net, inEdge, c[..], r[..], k + 1)
      ensures Sum(Held(c[..]), c.Length) == old(Sum(Held(c[..]), c.Length)) + EndsInside(net)(k)
    {
      hide Sum, Held, Parasitics.Point, Parasitics.PointN, Above, Parasitics.Own;
      var capacitor := net.capacitors[k];
      var cap := Mul(capacitor.value, net.factor);
      assert net.Internal(capacitor.node1) ==> PlacedAt(net, pt, nodeAt, capacitor.node1);
      assert net.Internal(capacitor.node2) ==> PlacedAt(net, pt, nodeAt, capacitor.node2);
      AddAt(net, pt, capacitor.node1, cap);
      AddAt(net, pt, capacitor.node2, cap);
      forall i | net.Internal(i) && net.Point(i) < net.PointN()
        ensures c[net.Point(i)] == net.Own(i) + net.Coupled(i, k + 1)
      {
        assert c[..][net.Point(i)] == c[net.Point(i)];
        assert old(c[..])[net.Point(i)] == old(c[net.Point(i)]);
      }
    }

    /** Adds cap to the point of node j, if it is internal, and to no other. */
    method AddAt(net: Parasitics, pt: seq<int>, j: nat, cap: real)
      requires j < |net.nodes| && |pt| == |net.nodes| && c.Length == net.PointN()
      requires net.Internal(j) ==> pt[j] == net.Point(j)
      modifies c
      ensures forall i {:trigger net.Point(i)} :: net.Internal(i) && net.Point(i) < net.PointN() ==>
                c[net.Point(i)] == old(c[net.Point(i)]) + if i == j then cap else 0.0
      ensures Sum(Held(c[..]), c.Length) == old(Sum(Held(c[..]), c.Length)) + if net.Internal(j) then cap else 0.0
    {
      hide Sum, Held, Parasitics.Point, Parasitics.PointN;
      if !net.nodes[j].external {
        PointInRange(net, j);
        AddedEntry(c[..], pt[j], cap);
        assert c[..][pt[j] := c[..][pt[j]] + cap] == c[..][pt[j] := c[pt[j]] + cap];
        c[pt[j]] := c[pt[j]] + cap;
        forall i | net.Internal(i) && net.Point(i) < net.PointN() && i != j
          ensures c[net.Point(i)] == old(c[net.Point(i)])
        {
          PointsDiffer(net, i, j);
        }
      }
    }
  }
}
