/** The conductance matrix of the simulated network, stamped in place, and why it is not
    singular. */
module PrimaStamping {
  import opened RealSums
  import opened PrimaNetwork
  import opened ConductanceStamps

  const DRIVER_CONDUCTANCE: real := 0.000001      // 1e-6

  // ---------------------------------------------------------------------------
  // What is stamped

  /** A resistor between two numbered nodes with different indices conducts, if its value is
      positive. */
  function ResistorStamps(c: Circuit, index: map<Node, nat>, par: nat, m: nat): seq<Stamp>
    requires par < |c.parasitics| && m <= |c.parasitics[par].resistors|
  {
    if m == 0 then [] else
      ResistorStamps(c, index, par, m - 1) + ResistorStamp(c, index, par, c.parasitics[par].resistors[m - 1])
  }

  function ResistorStamp(c: Circuit, index: map<Node, nat>, par: nat, r: Resistor): seq<Stamp> {
    var x, y := Node(par, r.node1), Node(par, r.node2);
    if x in index && y in index && index[x] != index[y] && r.value > 0.0
    then [Floating(index[x], index[y], 1.0 / r.value)] else []
  }

  /** The index of a driver pin; a pin without a node reads as index 0. */
  function DriverIndex(pins: map<int, nat>, pin: int): nat {
    if pin in pins then pins[pin] else 0
  }

  predicate FirstUse(c: Circuit, k: nat)
    requires k < |c.args|
  {
    forall i :: 0 <= i < k ==> c.args[i].parasitic != c.args[k].parasitic
  }

  /** Every driver is tied to ground by a small conductance, and the resistors of every
      parasitic are stamped once. */
  function ArgStamps(c: Circuit, index: map<Node, nat>, pins: map<int, nat>, k: nat): seq<Stamp>
    requires c.Valid() && k <= |c.args|
  {
    if k == 0 then [] else
      var arg := c.args[k - 1];
      ArgStamps(c, index, pins, k - 1) + [Ground(DriverIndex(pins, arg.drvrPin), DRIVER_CONDUCTANCE)]
      + if FirstUse(c, k - 1)
        then ResistorStamps(c, index, arg.parasitic, |c.parasitics[arg.parasitic].resistors|)
        else []
  }

  /** The indices of the first k drivers. */
  function Drivers(c: Circuit, pins: map<int, nat>, k: nat): (d: seq<nat>)
    requires k <= |c.args|
    ensures |d| == k
  {
    if k == 0 then [] else Drivers(c, pins, k - 1) + [DriverIndex(pins, c.args[k - 1].drvrPin)]
  }

  /** The sum of the values of the resistors that conduct. */
  function ResistorSum(c: Circuit, index: map<Node, nat>, par: nat, m: nat): real
    requires par < |c.parasitics| && m <= |c.parasitics[par].resistors|
  {
    if m == 0 then 0.0 else
      var r := c.parasitics[par].resistors[m - 1];
      ResistorSum(c, index, par, m - 1) + if ResistorStamp(c, index, par, r) == [] then 0.0 else r.value
  }

  function ArgSum(c: Circuit, index: map<Node, nat>, k: nat): real
    requires c.Valid() && k <= |c.args|
  {
    if k == 0 then 0.0 else
      var par := c.args[k - 1].parasitic;
      ArgSum(c, index, k - 1)
      + if FirstUse(c, k - 1) then ResistorSum(c, index, par, |c.parasitics[par].resistors|) else 0.0
  }

  /** Where the sources enter: the current of driver j flows into its node. */
  function Port(drivers: seq<nat>, i: int, j: int): real {
    if 0 <= j < |drivers| && i == drivers[j] then 1.0 else 0.0
  }

  /** The whole matrix: the stamps among the nodes, and for every driver a row that makes its
      port voltage the voltage of its node. */
  function System(stamps: seq<Stamp>, drivers: seq<nat>, nodes: nat, i: int, j: int): real {
    if i < nodes then (if j < nodes then Stamped(stamps, i, j) else 0.0)
    else if i - nodes < |drivers| then (if j == drivers[i - nodes] then 1.0 else if j == i then -1.0 else 0.0)
    else 0.0
  }

  // ---------------------------------------------------------------------------
  // Stamping in place

  class PrimaMatrices {
    const nodeCount: nat
    const portCount: nat
    const G: array2<real>
    const B: array2<real>
    var resistanceSum: real

    constructor (nodeCount: nat, portCount: nat)
      ensures this.nodeCount == nodeCount && this.portCount == portCount && Shaped() && fresh(G) && fresh(B)
    {
      this.nodeCount, this.portCount := nodeCount, portCount;
      G := new real[nodeCount + portCount, nodeCount + portCount];
      B := new real[nodeCount + portCount, portCount];
      resistanceSum := 0.0;
    }

    ghost predicate Shaped() {
      && G.Length0 == nodeCount + portCount && G.Length1 == nodeCount + portCount
      && B.Length0 == nodeCount + portCount && B.Length1 == portCount && G != B
    }

    /** G is the matrix of these stamps and driver rows, and B has the ports of the drivers. */
    ghost predicate Holds(stamps: seq<Stamp>, drivers: seq<nat>)
      reads G, B
    {
      && Shaped() && |drivers| <= portCount
      && (forall i, j {:trigger G[i, j]} :: 0 <= i < nodeCount + portCount && 0 <= j < nodeCount + portCount ==>
           G[i, j] == System(stamps, drivers, nodeCount, i, j))
      && forall i, j {:trigger B[i, j]} :: 0 <= i < nodeCount + portCount && 0 <= j < portCount ==>
           B[i, j] == Port(drivers, i, j)
    }

    method SetZero()
      requires Shaped()
      modifies this, G, B
      ensures Holds([], []) && resistanceSum == 0.0
    {
      forall i, j | 0 <= i < B.Length0 && 0 <= j < B.Length1 {
        B[i, j] := 0.0;
      }
      forall i, j | 0 <= i < G.Length0 && 0 <= j < G.Length1 {
        G[i, j] := 0.0;
      }
      resistanceSum := 0.0;
    }

    /** A resistor between two nodes. */
    method StampConductance(n1: nat, n2: nat, g: real, ghost stamps: seq<Stamp>, ghost drivers: seq<nat>)
      requires Holds(stamps, drivers) && n1 < nodeCount && n2 < nodeCount && n1 != n2
      modifies G
      ensures Holds(stamps + [Floating(n1, n2, g)], drivers)
    {
      G[n1, n1] := G[n1, n1] + g;
      G[n2, n2] := G[n2, n2] + g;
      G[n1, n2] := G[n1, n2] - g;
      G[n2, n1] := G[n2, n1] - g;
      forall i, j | 0 <= i < nodeCount && 0 <= j < nodeCount
        ensures G[i, j] == Stamped(stamps + [Floating(n1, n2, g)], i, j)
      {
        StampedNext(stamps, Floating(n1, n2, g), i, j);
      }
    }

    /** The row of driver number |drivers|, and its tie to ground. */
    method StampDriver(node: nat, ghost stamps: seq<Stamp>, ghost drivers: seq<nat>, drvrIdx: nat)
      requires Holds(stamps, drivers) && node < nodeCount && drvrIdx == |drivers| < portCount
      modifies G, B
      ensures Holds(stamps + [Ground(node, DRIVER_CONDUCTANCE)], drivers + [node])
    {
      G[nodeCount + drvrIdx, node] := 1.0;
      G[nodeCount + drvrIdx, nodeCount + drvrIdx] := -1.0;
      G[node, node] := G[node, node] + DRIVER_CONDUCTANCE;
      B[node, drvrIdx] := 1.0;
      forall i, j | 0 <= i < nodeCount && 0 <= j < nodeCount
        ensures G[i, j] == Stamped(stamps + [Ground(node, DRIVER_CONDUCTANCE)], i, j)
      {
        StampedNext(stamps, Ground(node, DRIVER_CONDUCTANCE), i, j);
      }
    }

    method StampResistors(c: Circuit, index: map<Node, nat>, par: nat, ghost stamps: seq<Stamp>,
                          ghost drivers: seq<nat>)
      requires Holds(stamps, drivers) && par < |c.parasitics| && InRange(index, nodeCount)
      modifies this, G
      ensures Holds(stamps + ResistorStamps(c, index, par, |c.parasitics[par].resistors|), drivers)
      ensures resistanceSum == old(resistanceSum) + ResistorSum(c, index, par, |c.parasitics[par].resistors|)
    {
      assert stamps + [] == stamps;
      for m := 0 to |c.parasitics[par].resistors|
        invariant Holds(stamps + ResistorStamps(c, index, par, m), drivers)
        invariant resistanceSum == old(resistanceSum) + ResistorSum(c, index, par, m)
      {
        var r := c.parasitics[par].resistors[m];
        ghost var sofar := stamps + ResistorStamps(c, index, par, m);
        var x, y := Node(par, r.node1), Node(par, r.node2);
        assert stamps + ResistorStamps(c, index, par, m + 1) == sofar + ResistorStamp(c, index, par, r);
        if x in index && y in index && index[x] != index[y] && r.value > 0.0 {
          StampConductance(index[x], index[y], 1.0 / r.value, sofar, drivers);
          resistanceSum := resistanceSum + r.value;
        } else {
          assert sofar + [] == sofar;
        }
      }
    }

    /** Stamps driver k, and the resistors of its parasitic if they have not been yet. */
    method StampArg(c: Circuit, index: map<Node, nat>, pins: map<int, nat>, k: nat, first: bool)
      requires c.Valid() && InRange(index, nodeCount) && k < |c.args| == portCount && first == FirstUse(c, k)
      requires DriverIndex(pins, c.args[k].drvrPin) < nodeCount
      requires Holds(ArgStamps(c, index, pins, k), Drivers(c, pins, k)) && resistanceSum == ArgSum(c, index, k)
      modifies this, G, B
      ensures Holds(ArgStamps(c, index, pins, k + 1), Drivers(c, pins, k + 1))
              && resistanceSum == ArgSum(c, index, k + 1)
    {
      var arg := c.args[k];
      ghost var stamps, drivers := ArgStamps(c, index, pins, k), Drivers(c, pins, k);
      StampDriver(DriverIndex(pins, arg.drvrPin), stamps, drivers, k);
      ghost var tied := stamps + [Ground(DriverIndex(pins, arg.drvrPin), DRIVER_CONDUCTANCE)];
      if first {
        StampResistors(c, index, arg.parasitic, tied, Drivers(c, pins, k + 1));
      } else {
        assert tied + [] == tied;
      }
    }

    method StampEqns(c: Circuit, index: map<Node, nat>, pins: map<int, nat>)
      requires Shaped() && c.Valid() && InRange(index, nodeCount) && portCount == |c.args|
      requires forall k {:trigger c.args[k]} :: 0 <= k < |c.args| ==> DriverIndex(pins, c.args[k].drvrPin) < nodeCount
      modifies this, G, B
      ensures Holds(ArgStamps(c, index, pins, |c.args|), Drivers(c, pins, |c.args|))
      ensures resistanceSum == ArgSum(c, index, |c.args|)
    {
      hide Holds, Circuit.Valid, InRange;
      SetZero();
      var visited := {};
      for k := 0 to |c.args|
        invariant Holds(ArgStamps(c, index, pins, k), Drivers(c, pins, k)) && resistanceSum == ArgSum(c, index, k)
        invariant forall par {:trigger par in visited} :: par in visited <==>
                  exists i :: 0 <= i < k && c.args[i].parasitic == par
      {
        var par := c.args[k].parasitic;
        StampArg(c, index, pins, k, par !in visited);
        visited := visited + {par};
      }
    }
  }

  // ---------------------------------------------------------------------------
  // The kernel of the system

  function SystemTerm(stamps: seq<Stamp>, drivers: seq<nat>, nodes: nat, x: int -> real, i: int): int -> real {
    j => Mul(System(stamps, drivers, nodes, i, j), x(j))
  }

  /** x solves the system with no sources. */
  ghost predicate InKernel(stamps: seq<Stamp>, drivers: seq<nat>, nodes: nat, x: int -> real) {
    forall i {:trigger SystemTerm(stamps, drivers, nodes, x, i)} :: 0 <= i < nodes + |drivers| ==>
      Sum(SystemTerm(stamps, drivers, nodes, x, i), nodes + |drivers|) == 0.0
  }

  lemma {:induction false} SumTail(f: int -> real, n: nat, m: nat)
    requires n <= m && forall j :: n <= j < m ==> f(j) == 0.0
    ensures Sum(f, m) == Sum(f, n)
    decreases m
  {
    if n < m {
      SumTail(f, n, m - 1);
    }
  }

  lemma MulCongr(a: real, b: real, v: real)
    requires a == b
    ensures Mul(a, v) == Mul(b, v)
  {
  }

  lemma NodeRow(stamps: seq<Stamp>, drivers: seq<nat>, nodes: nat, x: int -> real, i: int)
    requires Within(stamps, nodes) && 0 <= i < nodes
    ensures Sum(SystemTerm(stamps, drivers, nodes, x, i), nodes + |drivers|) == Flow(stamps, x, i)
  {
    var f := SystemTerm(stamps, drivers, nodes, x, i);
    forall j | nodes <= j < nodes + |drivers|
      ensures f(j) == 0.0
    {
      MulZero(x(j));
    }
    SumTail(f, nodes, nodes + |drivers|);
    forall j | 0 <= j < nodes
      ensures f(j) == RowTerm(stamps, x, i)(j)
    {
      MulCongr(System(stamps, drivers, nodes, i, j), Stamped(stamps, i, j), x(j));
    }
    SumCongr(f, RowTerm(stamps, x, i), nodes);
    RowIsFlow(stamps, x, i, nodes);
  }

  lemma PortRow(stamps: seq<Stamp>, drivers: seq<nat>, nodes: nat, x: int -> real, k: nat)
    requires k < |drivers| && drivers[k] < nodes
    ensures Sum(SystemTerm(stamps, drivers, nodes, x, nodes + k), nodes + |drivers|) == x(drivers[k]) - x(nodes + k)
  {
    var f := SystemTerm(stamps, drivers, nodes, x, nodes + k);
    var a, b := drivers[k], nodes + k;
    forall j | 0 <= j < nodes + |drivers|
      ensures f(j) == 1.0 * Spike(a, x(a))(j) + 1.0 * Spike(b, -x(b))(j)
    {
      PortTerm(x(j));
    }
    SumLinear(f, 1.0, Spike(a, x(a)), 1.0, Spike(b, -x(b)), nodes + |drivers|);
    SumSpike(a, x(a), nodes + |drivers|);
    SumSpike(b, -x(b), nodes + |drivers|);
  }

  lemma PortTerm(x: real)
    ensures Mul(1.0, x) == x && Mul(-1.0, x) == -x && Mul(0.0, x) == 0.0
  {
  }

  /** The system with its drivers has only the zero solution when every node is joined to a
      grounded one. */
  lemma KernelTrivial(stamps: seq<Stamp>, drivers: seq<nat>, nodes: nat, x: int -> real)
    requires Within(stamps, nodes) && Conducting(stamps) && InKernel(stamps, drivers, nodes, x)
    requires forall k {:trigger drivers[k]} :: 0 <= k < |drivers| ==> drivers[k] < nodes
    requires forall i {:trigger Grounded(stamps, i)} :: 0 <= i < nodes ==> Grounded(stamps, i)
    ensures forall i {:trigger x(i)} :: 0 <= i < nodes + |drivers| ==> x(i) == 0.0
  {
    forall i | 0 <= i < nodes
      ensures PowerTerm(stamps, x)(i) == 0.0
    {
      assert Sum(SystemTerm(stamps, drivers, nodes, x, i), nodes + |drivers|) == 0.0;
      NodeRow(stamps, drivers, nodes, x, i);
      MulZero(x(i));
    }
    SumZero(PowerTerm(stamps, x), nodes);
    PowerIsEnergy(stamps, x, nodes);
    DefiniteWhenGrounded(stamps, nodes);
    forall i | 0 <= i < nodes
      ensures x(i) == 0.0
    {
      assert x(i) != 0.0 ==> Energy(stamps, x) > 0.0;
    }
    forall i | nodes <= i < nodes + |drivers|
      ensures x(i) == 0.0
    {
      assert Sum(SystemTerm(stamps, drivers, nodes, x, i), nodes + |drivers|) == 0.0;
      PortRow(stamps, drivers, nodes, x, i - nodes);
      assert drivers[i - nodes] < nodes;
    }
  }

  /** If some node is not, there is another solution. */
  lemma KernelAdrift(stamps: seq<Stamp>, drivers: seq<nat>, nodes: nat, i0: int) returns (x: int -> real)
    requires Within(stamps, nodes) && 0 <= i0 < nodes && !Grounded(stamps, i0)
    requires forall k {:trigger drivers[k]} :: 0 <= k < |drivers| ==> drivers[k] < nodes
    ensures InKernel(stamps, drivers, nodes, x) && x(i0) == 1.0
  {
    var v := Adrift(stamps);
    x := i => if i < nodes then v(i) else if i - nodes < |drivers| then v(drivers[i - nodes]) else 0.0;
    forall i | 0 <= i < nodes + |drivers|
      ensures Sum(SystemTerm(stamps, drivers, nodes, x, i), nodes + |drivers|) == 0.0
    {
      if i < nodes {
        NodeRow(stamps, drivers, nodes, x, i);
        AdriftHasNoFlow(stamps, stamps, nodes, x, i);
      } else {
        PortRow(stamps, drivers, nodes, x, i - nodes);
      }
    }
  }

  lemma {:induction false} AdriftHasNoFlow(all: seq<Stamp>, stamps: seq<Stamp>, nodes: nat, x: int -> real, i: int)
    requires forall m {:trigger stamps[m]} :: 0 <= m < |stamps| ==> stamps[m] in all
    requires Within(stamps, nodes) && forall j {:trigger x(j)} :: 0 <= j < nodes ==> x(j) == Adrift(all)(j)
    ensures Flow(stamps, x, i) == 0.0
  {
    if |stamps| > 0 {
      var last := |stamps| - 1;
      AdriftHasNoFlow(all, stamps[..last], nodes, x, i);
      assert PartWithin(stamps[last], nodes);
      AdriftPart(all, stamps[last]);
      MulZero(stamps[last].g);
    }
  }

  // ---------------------------------------------------------------------------
  // The numbered network

  lemma {:induction false} ResistorStampsFit(c: Circuit, index: map<Node, nat>, par: nat, m: nat, count: nat)
    requires par < |c.parasitics| && m <= |c.parasitics[par].resistors| && InRange(index, count)
    ensures Within(ResistorStamps(c, index, par, m), count) && Conducting(ResistorStamps(c, index, par, m))
  {
    if m > 0 {
      ResistorStampsFit(c, index, par, m - 1, count);
      PositiveReciprocal(c.parasitics[par].resistors[m - 1].value);
    }
  }

  lemma PositiveReciprocal(x: real)
    ensures x > 0.0 ==> 1.0 / x > 0.0
  {
  }

  lemma {:induction false} ArgStampsFit(c: Circuit, index: map<Node, nat>, pins: map<int, nat>, k: nat, count: nat)
    requires c.Valid() && k <= |c.args| && InRange(index, count)
    requires forall i {:trigger c.args[i]} :: 0 <= i < |c.args| ==> DriverIndex(pins, c.args[i].drvrPin) < count
    ensures Within(ArgStamps(c, index, pins, k), count) && Conducting(ArgStamps(c, index, pins, k))
  {
    if k > 0 {
      ArgStampsFit(c, index, pins, k - 1, count);
      var par := c.args[k - 1].parasitic;
      ResistorStampsFit(c, index, par, |c.parasitics[par].resistors|, count);
    }
  }

  /** Every driver is tied to ground. */
  lemma {:induction false} DriverTied(c: Circuit, index: map<Node, nat>, pins: map<int, nat>, k: nat, i: nat)
    requires c.Valid() && i < k <= |c.args|
    ensures Ground(DriverIndex(pins, c.args[i].drvrPin), DRIVER_CONDUCTANCE) in ArgStamps(c, index, pins, k)
  {
    if i < k - 1 {
      DriverTied(c, index, pins, k - 1, i);
    }
  }

  lemma {:induction false} ResistorStamped(c: Circuit, index: map<Node, nat>, par: nat, m: nat, e: nat, s: Stamp)
    requires par < |c.parasitics| && e < m <= |c.parasitics[par].resistors|
    requires ResistorStamp(c, index, par, c.parasitics[par].resistors[e]) == [s]
    ensures s in ResistorStamps(c, index, par, m)
  {
    if e < m - 1 {
      ResistorStamped(c, index, par, m - 1, e, s);
    }
  }

  /** The resistors of every parasitic in use are stamped. */
  lemma {:induction false} UsedStamped(c: Circuit, index: map<Node, nat>, pins: map<int, nat>, k: nat, i: nat, s: Stamp)
    requires c.Valid() && i < k <= |c.args|
    requires var par := c.args[i].parasitic; s in ResistorStamps(c, index, par, |c.parasitics[par].resistors|)
    ensures s in ArgStamps(c, index, pins, k)
  {
    hide ResistorStamps, Circuit.Valid;
    if i < k - 1 {
      UsedStamped(c, index, pins, k - 1, i, s);
    } else if !FirstUse(c, i) {
      var j :| 0 <= j < i && c.args[j].parasitic == c.args[i].parasitic;
      UsedStamped(c, index, pins, k - 1, j, s);
    }
  }

  /** With no negative resistor, every index is joined to a driver's by stamped resistors. */
  lemma {:induction false} IndexGrounded(c: Circuit, index: map<Node, nat>, pins: map<int, nat>, count: nat, i: nat)
    requires c.Valid() && c.NonNegative() && Sound(c, index, pins, count) && i < count
    ensures Grounded(ArgStamps(c, index, pins, |c.args|), i)
    decreases i
  {
    var stamps := ArgStamps(c, index, pins, |c.args|);
    assert Based(c, index, i);
    if d :| OwnIndex(c, index, i, d) {
      DriverGrounded(c, index, pins, count, i, d);
    } else {
      var x, y, e :| StepsUp(c, index, i, x, y, e);
      IndexGrounded(c, index, pins, count, index[y]);
      var s := StepStamped(c, index, pins, count, i, x, y, e);
      var m :| 0 <= m < |stamps| && stamps[m] == s;
      SameSide(stamps, m, i, index[y]);
    }
  }

  lemma DriverGrounded(c: Circuit, index: map<Node, nat>, pins: map<int, nat>, count: nat, i: nat, d: Node)
    requires c.Valid() && Sound(c, index, pins, count) && OwnIndex(c, index, i, d)
    ensures Grounded(ArgStamps(c, index, pins, |c.args|), i)
  {
    var stamps := ArgStamps(c, index, pins, |c.args|);
    var k :| 0 <= k < |c.args| && c.FindNode(d.par, c.args[k].drvrPin) == d.id;
    assert c.HasPin(Node(d.par, c.FindNode(d.par, c.args[k].drvrPin)), c.args[k].drvrPin);
    assert c.HasPin(d, c.args[k].drvrPin);
    DriverTied(c, index, pins, |c.args|, k);
    var m :| 0 <= m < |stamps| && stamps[m] == Ground(i, DRIVER_CONDUCTANCE);
    assert Grounds(stamps, m, i);
    assert GroundedIn(stamps, i, 0);
  }

  lemma StepStamped(c: Circuit, index: map<Node, nat>, pins: map<int, nat>, count: nat, i: nat, x: Node, y: Node,
                    e: int) returns (s: Stamp)
    requires c.Valid() && c.NonNegative() && Sound(c, index, pins, count) && StepsUp(c, index, i, x, y, e)
    ensures s in ArgStamps(c, index, pins, |c.args|)
    ensures s.Floating? && ((s.n1 == i && s.n2 == index[y]) || (s.n1 == index[y] && s.n2 == i))
  {
    var r := c.parasitics[y.par].resistors[e];
    s := Floating(index[Node(y.par, r.node1)], index[Node(y.par, r.node2)], 1.0 / r.value);
    ResistorStamped(c, index, y.par, |c.parasitics[y.par].resistors|, e, s);
    ReachedUsed(c, y);
    var k :| 0 <= k < |c.args| && c.args[k].parasitic == y.par;
    UsedStamped(c, index, pins, |c.args|, k, s);
  }

  lemma ReachedUsed(c: Circuit, x: Node)
    requires c.Reached(x)
    ensures c.Used(x.par)
  {
    var k: nat :| c.ReachedIn(x, k);
    ReachedInUsed(c, x, k);
  }

  lemma {:induction false} ReachedInUsed(c: Circuit, x: Node, k: nat)
    requires c.ReachedIn(x, k)
    ensures c.Used(x.par)
    decreases k
  {
    if k > 0 {
      var y, e :| c.ReachedIn(y, k - 1) && c.Joins(e, y, x);
      ReachedInUsed(c, y, k - 1);
    }
  }

  /** With no negative resistor the stamped matrix is positive definite on the nodes, and the
      whole system has no solution but zero. */
  lemma NotSingular(c: Circuit, index: map<Node, nat>, pins: map<int, nat>, count: nat, x: int -> real)
    requires c.Valid() && c.NonNegative() && Sound(c, index, pins, count)
    requires forall i {:trigger c.args[i]} :: 0 <= i < |c.args| ==> DriverIndex(pins, c.args[i].drvrPin) < count
    ensures PositiveDefinite(ArgStamps(c, index, pins, |c.args|), count)
    ensures InKernel(ArgStamps(c, index, pins, |c.args|), Drivers(c, pins, |c.args|), count, x) ==>
              forall i {:trigger x(i)} :: 0 <= i < count + |c.args| ==> x(i) == 0.0
  {
    var stamps, drivers := ArgStamps(c, index, pins, |c.args|), Drivers(c, pins, |c.args|);
    ArgStampsFit(c, index, pins, |c.args|, count);
    forall i | 0 <= i < count
      ensures Grounded(stamps, i)
    {
      IndexGrounded(c, index, pins, count, i);
    }
    DefiniteWhenGrounded(stamps, count);
    DriversInRange(c, pins, |c.args|, count);
    if InKernel(stamps, drivers, count, x) {
      KernelTrivial(stamps, drivers, count, x);
    }
  }

  lemma {:induction false} DriversInRange(c: Circuit, pins: map<int, nat>, k: nat, count: nat)
    requires k <= |c.args|
    requires forall i {:trigger c.args[i]} :: 0 <= i < |c.args| ==> DriverIndex(pins, c.args[i].drvrPin) < count
    ensures forall i {:trigger Drivers(c, pins, k)[i]} :: 0 <= i < k ==> Drivers(c, pins, k)[i] < count
  {
    if k > 0 {
      DriversInRange(c, pins, k - 1, count);
    }
  }

  /** Only zero solves the system without sources. */
  ghost predicate OnlyZero(stamps: seq<Stamp>, drivers: seq<nat>, count: nat) {
    forall x: int -> real {:trigger InKernel(stamps, drivers, count, x)} :: InKernel(stamps, drivers, count, x) ==>
      forall i {:trigger x(i)} :: 0 <= i < count + |drivers| ==> x(i) == 0.0
  }

  /** Whatever the resistor values, the system is singular exactly when positive resistors do
      not join every index to a driver's. */
  lemma SingularExactly(c: Circuit, index: map<Node, nat>, pins: map<int, nat>, count: nat)
    requires c.Valid() && Sound(c, index, pins, count)
    requires forall i {:trigger c.args[i]} :: 0 <= i < |c.args| ==> DriverIndex(pins, c.args[i].drvrPin) < count
    ensures var stamps := ArgStamps(c, index, pins, |c.args|);
            OnlyZero(stamps, Drivers(c, pins, |c.args|), count) <==>
            forall i {:trigger Grounded(stamps, i)} :: 0 <= i < count ==> Grounded(stamps, i)
  {
    var stamps, drivers := ArgStamps(c, index, pins, |c.args|), Drivers(c, pins, |c.args|);
    ArgStampsFit(c, index, pins, |c.args|, count);
    DriversInRange(c, pins, |c.args|, count);
    if forall i :: 0 <= i < count ==> Grounded(stamps, i) {
      forall x: int -> real | InKernel(stamps, drivers, count, x)
        ensures forall i {:trigger x(i)} :: 0 <= i < count + |drivers| ==> x(i) == 0.0
      {
        KernelTrivial(stamps, drivers, count, x);
      }
    } else {
      var i0 :| 0 <= i0 < count && !Grounded(stamps, i0);
      var x := KernelAdrift(stamps, drivers, count, i0);
      assert x(i0) == 1.0;
    }
  }

  /** A driver's node joined to one other node by a negative resistor. */
  function NegativeCircuit(): Circuit {
    Circuit([Parasitic([Resistor(0, 1, -1.0)], {}, map[0 := 7], map[7 := 0])], [Arg(0, 7)])
  }

  /** The walk numbers the other node, but nothing is stamped for it. */
  lemma NegativeSingular()
    ensures var c, index, pins := NegativeCircuit(), map[Node(0, 0) := 0, Node(0, 1) := 1], map[7 := 0];
            && c.Valid() && Sound(c, index, pins, 2)
            && !OnlyZero(ArgStamps(c, index, pins, 1), Drivers(c, pins, 1), 2)
  {
    var c, index, pins := NegativeCircuit(), map[Node(0, 0) := 0, Node(0, 1) := 1], map[7 := 0];
    NegativeSound();
    var stamps := ArgStamps(c, index, pins, 1);
    assert ArgStamps(c, index, pins, 0) == [];
    assert ResistorStamp(c, index, 0, c.parasitics[0].resistors[0]) == [];
    assert ResistorStamps(c, index, 0, 1) == [];
    assert stamps == [Ground(0, DRIVER_CONDUCTANCE)];
    assert forall m :: !Grounds(stamps, m, 1);
    assert forall m, j :: !Floats(stamps, m, 1, j);
    forall k: nat
      ensures !GroundedIn(stamps, 1, k)
    {
    }
    assert !Grounded(stamps, 1);
    SingularExactly(c, index, pins, 2);
  }

  lemma NegativeSound()
    ensures NegativeCircuit().Valid() && Sound(NegativeCircuit(), map[Node(0, 0) := 0, Node(0, 1) := 1], map[7 := 0], 2)
  {
    var c, index := NegativeCircuit(), map[Node(0, 0) := 0, Node(0, 1) := 1];
    var a, b := Node(0, 0), Node(0, 1);
    assert c.args[0].parasitic == 0 && c.FindNode(0, c.args[0].drvrPin) == 0;
    assert c.IsDriver(a);
    assert c.ReachedIn(a, 0);
    assert c.Joins(0, a, b);
    ReachedNext(c, a, b, 0);
    assert OwnIndex(c, index, 0, a);
    assert StepsUp(c, index, 1, b, a, 0);
    assert c.ShortedIn(a, a, 0) && c.ShortedIn(b, b, 0);
  }

  // ---------------------------------------------------------------------------
  // The whole of it

  /** Every driver has an internal node in its parasitic. */
  ghost predicate DriversPresent(c: Circuit)
    requires c.Valid()
  {
    forall k {:trigger c.args[k]} :: 0 <= k < |c.args| ==>
      c.Internal(Node(c.args[k].parasitic, c.FindNode(c.args[k].parasitic, c.args[k].drvrPin)))
  }

  lemma DriverNumbered(c: Circuit, index: map<Node, nat>, pins: map<int, nat>, count: nat, k: nat)
    requires c.Valid() && DriversPresent(c) && Sound(c, index, pins, count) && k < |c.args|
    requires Complete(c, index)
    ensures DriverIndex(pins, c.args[k].drvrPin) < count
  {
    var d := Node(c.args[k].parasitic, c.FindNode(c.args[k].parasitic, c.args[k].drvrPin));
    assert c.Internal(d) && c.Used(d.par) && c.IsDriver(d);
    assert c.ReachedIn(d, 0);
    assert d in index;
    assert c.HasPin(d, c.args[k].drvrPin);
  }

  /** Numbers the network of a circuit and stamps its conductances. */
  method Assemble(c: Circuit) returns (nodes: PrimaNodes, m: PrimaMatrices)
    requires c.Valid() && DriversPresent(c)
    ensures fresh(nodes) && fresh(m) && nodes.c == c && nodes.SoundNow()
    ensures Complete(c, nodes.nodeIndex)
    ensures m.nodeCount == nodes.nodeCount && m.portCount == |c.args|
    ensures m.Holds(ArgStamps(c, nodes.nodeIndex, nodes.pinNode, |c.args|), Drivers(c, nodes.pinNode, |c.args|))
    ensures c.NonNegative() ==>
              OnlyZero(ArgStamps(c, nodes.nodeIndex, nodes.pinNode, |c.args|), Drivers(c, nodes.pinNode, |c.args|),
                  m.nodeCount)
  {
    nodes := new PrimaNodes(c);
    nodes.FindNodeCount();
    m := new PrimaMatrices(nodes.nodeCount, |c.args|);
    forall k | 0 <= k < |c.args|
      ensures DriverIndex(nodes.pinNode, c.args[k].drvrPin) < nodes.nodeCount
    {
      DriverNumbered(c, nodes.nodeIndex, nodes.pinNode, nodes.nodeCount, k);
    }
    m.StampEqns(c, nodes.nodeIndex, nodes.pinNode);
    AllSolutionsZero(c, nodes.nodeIndex, nodes.pinNode, nodes.nodeCount);
  }

  lemma AllSolutionsZero(c: Circuit, index: map<Node, nat>, pins: map<int, nat>, count: nat)
    requires c.Valid() && Sound(c, index, pins, count)
    requires forall i {:trigger c.args[i]} :: 0 <= i < |c.args| ==> DriverIndex(pins, c.args[i].drvrPin) < count
    ensures c.NonNegative() ==> OnlyZero(ArgStamps(c, index, pins, |c.args|), Drivers(c, pins, |c.args|), count)
  {
    if c.NonNegative() {
      forall x: int -> real | InKernel(ArgStamps(c, index, pins, |c.args|), Drivers(c, pins, |c.args|), count, x)
        ensures forall i {:trigger x(i)} :: 0 <= i < count + |c.args| ==> x(i) == 0.0
      {
        NotSingular(c, index, pins, count, x);
      }
    }
  }
}
