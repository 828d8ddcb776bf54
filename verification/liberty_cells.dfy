/** When two library cells are interchangeable, and the hash that keeps candidates together. */
module LibertyCells {
  import opened FiniteSets
  import opened FuncExpr

  datatype LibertyPort = LibertyPort(name: string, direction: nat, pwrGndType: int)

  type Func = Expr<LibertyPort>

  /** A port of a cell with its function and tristate enable, Missing where there is none. */
  datatype CellPort = CellPort(port: LibertyPort, func: Func, enable: Func)

  datatype Sequential = Sequential(isRegister: bool, clock: Func, data: Func, output: LibertyPort,
                                   outputInv: LibertyPort, clear: Func, preset: Func,
                                   clearPresetOutput: nat, clearPresetOutputInv: nat)

  datatype Row = Row(inputs: seq<nat>, current: seq<nat>, next: seq<nat>)

  datatype Statetable = NoTable | Statetable(inputs: seq<LibertyPort>, internals: seq<LibertyPort>, rows: seq<Row>)

  /** A set of timing arcs between two ports, known by their names, by what its lookup compares:
      role, condition, the conditions of its delay file, mode, and the edges of its arcs. */
  datatype ArcSet = ArcSet(from: string, to: string, role: nat, cond: Func, sdfCond: seq<string>, mode: seq<string>,
                           arcs: seq<(int, nat)>)

  datatype Cell = Cell(ports: seq<CellPort>, sequentials: seq<Sequential>, table: Statetable, arcSets: seq<ArcSet>,
                       dontUse: bool) {
    /** No two ports have the same name. */
    ghost predicate Valid() {
      forall i, j {:trigger ports[i], ports[j]} :: 0 <= i < j < |ports| ==> ports[i].port.name != ports[j].port.name
    }

    ghost function PortSet(): set<CellPort> { set p | p in ports }

    /** The arc sets as the lookup knows them, without repetitions. */
    ghost function ArcKeys(): set<ArcSet> { set a | a in arcSets }

    /** No arc set is there twice. */
    ghost predicate DistinctArcs() {
      forall i, j :: 0 <= i < j < |arcSets| ==> arcSets[i] != arcSets[j]
    }
  }

  // ---------------------------------------------------------------------------
  // Equivalence

  predicate EquivPort(p: LibertyPort, q: LibertyPort) {
    p.name == q.name && p.direction == q.direction && p.pwrGndType == q.pwrGndType
  }

  predicate EquivFunc(e: Func, f: Func) {
    if e.Missing? && f.Missing? then true
    else if e.Missing? || f.Missing? then false
    else
      match (e, f)
      case (Port(p), Port(q)) => EquivPort(p, q)
      case (Not(l), Not(m)) => EquivFunc(l, m)
      case (Or(l, r), Or(m, s)) => EquivFunc(l, m) && EquivFunc(r, s)
      case (And(l, r), And(m, s)) => EquivFunc(l, m) && EquivFunc(r, s)
      case (Xor(l, r), Xor(m, s)) => EquivFunc(l, m) && EquivFunc(r, s)
      case (One, One) => true
      case (Zero, Zero) => true
      case _ => false
  }

  /** Functions are compared by structure. */
  lemma {:induction false} EquivFuncIsEqual(e: Func, f: Func)
    ensures EquivFunc(e, f) <==> e == f
  {
    match (e, f)
    case (Not(l), Not(m)) => EquivFuncIsEqual(l, m);
    case (Or(l, r), Or(m, s)) =>
      EquivFuncIsEqual(l, m);
      EquivFuncIsEqual(r, s);
    case (And(l, r), And(m, s)) =>
      EquivFuncIsEqual(l, m);
      EquivFuncIsEqual(r, s);
    case (Xor(l, r), Xor(m, s)) =>
      EquivFuncIsEqual(l, m);
      EquivFuncIsEqual(r, s);
    case _ =>
  }

  /** The place of the port with a name, or the number of ports. */
  function FindPort(ports: seq<CellPort>, name: string): (k: nat)
    ensures k <= |ports| && (k < |ports| ==> ports[k].port.name == name)
    ensures forall i {:trigger ports[i]} :: 0 <= i < k ==> ports[i].port.name != name
  {
    if |ports| == 0 || ports[0].port.name == name then 0 else 1 + FindPort(ports[1..], name)
  }

  predicate EquivPorts(c: Cell, d: Cell) {
    |c.ports| == |d.ports| &&
    forall i {:trigger c.ports[i]} :: 0 <= i < |c.ports| ==>
      var k := FindPort(d.ports, c.ports[i].port.name);
      k < |d.ports| && EquivPort(c.ports[i].port, d.ports[k].port)
  }

  predicate EquivFuncs(c: Cell, d: Cell) {
    forall i {:trigger c.ports[i]} :: 0 <= i < |c.ports| ==>
      var k := FindPort(d.ports, c.ports[i].port.name);
      k < |d.ports| && EquivFunc(c.ports[i].func, d.ports[k].func) && EquivFunc(c.ports[i].enable, d.ports[k].enable)
  }

  predicate EquivSequential(s: Sequential, t: Sequential) {
    && EquivFunc(s.clock, t.clock) && EquivFunc(s.data, t.data)
    && EquivPort(s.output, t.output) && EquivPort(s.outputInv, t.outputInv)
    && EquivFunc(s.clear, t.clear) && EquivFunc(s.preset, t.preset)
  }

  predicate EquivSequentials(c: Cell, d: Cell) {
    |c.sequentials| == |d.sequentials| &&
    forall i {:trigger c.sequentials[i]} :: 0 <= i < |c.sequentials| ==>
         EquivSequential(c.sequentials[i], d.sequentials[i])
  }

  predicate EquivPortSeq(ps: seq<LibertyPort>, qs: seq<LibertyPort>) {
    |ps| == |qs| && forall i {:trigger ps[i]} :: 0 <= i < |ps| ==> EquivPort(ps[i], qs[i])
  }

  predicate EquivTables(c: Cell, d: Cell) {
    || (c.table.NoTable? && d.table.NoTable?)
    || (c.table.Statetable? && d.table.Statetable?
        && EquivPortSeq(c.table.inputs, d.table.inputs) && EquivPortSeq(c.table.internals, d.table.internals)
        && c.table.rows == d.table.rows)
  }

  predicate HasFuncs(c: Cell) {
    exists i :: 0 <= i < |c.ports| && !c.ports[i].func.Missing?
  }

  /** The cells have as many arc sets, and each of the first is found among those of the second. */
  predicate EquivArcSets(c: Cell, d: Cell) {
    |c.arcSets| == |d.arcSets| && forall i {:trigger c.arcSets[i]} :: 0 <= i < |c.arcSets| ==> c.arcSets[i] in d.arcSets
  }

  predicate EquivCells(c: Cell, d: Cell) {
    && EquivPorts(c, d) && EquivFuncs(c, d) && EquivSequentials(c, d) && EquivTables(c, d)
    && (HasFuncs(c) || EquivArcSets(c, d))
  }

  // ---------------------------------------------------------------------------
  // When equivalence is one

  /** A sequential without what the comparison leaves out. */
  function Compared(s: Sequential): Sequential {
    s.(isRegister := false, clearPresetOutput := 0, clearPresetOutputInv := 0)
  }

  ghost predicate SameSequentials(c: Cell, d: Cell) {
    && |c.sequentials| == |d.sequentials|
    && forall i {:trigger c.sequentials[i]} {:trigger d.sequentials[i]} :: 0 <= i < |c.sequentials| ==>
         SameConnections(c.sequentials[i], d.sequentials[i])
  }

  /** All functions and outputs are the same; the kind and the outputs under clear and preset
      need not be. */
  ghost predicate SameConnections(s: Sequential, t: Sequential) {
    && s.clock == t.clock && s.data == t.data && s.clear == t.clear && s.preset == t.preset
    && s.output == t.output && s.outputInv == t.outputInv
  }

  lemma SameConnectionsIs(s: Sequential, t: Sequential)
    ensures SameConnections(s, t) <==> Compared(s) == Compared(t)
  {
  }

  /** The same ports with the same functions in any order, the same sequentials up to their
      kind, and the same table. */
  ghost predicate SameLogic(c: Cell, d: Cell) {
    && c.PortSet() == d.PortSet()
    && SameSequentials(c, d)
    && c.table == d.table
  }

  /** As many arc sets, and no others than d has. */
  ghost predicate ArcsCovered(c: Cell, d: Cell) {
    |c.arcSets| == |d.arcSets| && c.ArcKeys() <= d.ArcKeys()
  }

  lemma PortsIncluded(c: Cell, d: Cell)
    requires c.Valid() && d.Valid()
    ensures EquivPorts(c, d) && EquivFuncs(c, d) <==> |c.ports| == |d.ports| && c.PortSet() <= d.PortSet()
  {
    if EquivPorts(c, d) && EquivFuncs(c, d) {
      forall p | p in c.PortSet()
        ensures p in d.PortSet()
      {
        var i :| 0 <= i < |c.ports| && c.ports[i] == p;
        var k := FindPort(d.ports, c.ports[i].port.name);
        EquivFuncIsEqual(p.func, d.ports[k].func);
        EquivFuncIsEqual(p.enable, d.ports[k].enable);
        assert d.ports[k] == p;
      }
    }
    if |c.ports| == |d.ports| && c.PortSet() <= d.PortSet() {
      forall i | 0 <= i < |c.ports|
        ensures var k := FindPort(d.ports, c.ports[i].port.name);
                k < |d.ports| && d.ports[k] == c.ports[i]
      {
        assert c.ports[i] in c.PortSet();
        var j :| 0 <= j < |d.ports| && d.ports[j] == c.ports[i];
        var k := FindPort(d.ports, c.ports[i].port.name);
        assert d.ports[j].port.name == c.ports[i].port.name;
        assert j < |d.ports| && d.ports[k].port.name == d.ports[j].port.name;
      }
      forall i | 0 <= i < |c.ports|
        ensures var k := FindPort(d.ports, c.ports[i].port.name);
                EquivFunc(c.ports[i].func, d.ports[k].func) && EquivFunc(c.ports[i].enable, d.ports[k].enable)
      {
        EquivFuncIsEqual(c.ports[i].func, c.ports[i].func);
        EquivFuncIsEqual(c.ports[i].enable, c.ports[i].enable);
      }
    }
  }

  lemma {:induction false} PortSetSize(ports: seq<CellPort>)
    requires forall i, j {:trigger ports[i], ports[j]} :: 0 <= i < j < |ports| ==>
              ports[i].port.name != ports[j].port.name
    ensures |set p | p in ports| == |ports|
  {
    if |ports| > 0 {
      var front, last := ports[..|ports| - 1], ports[|ports| - 1];
      PortSetSize(front);
      assert last !in front;
      assert (set p | p in ports) == (set p | p in front) + {last};
    }
  }

  lemma SequentialsCompared(c: Cell, d: Cell)
    ensures EquivSequentials(c, d) <==> SameSequentials(c, d)
  {
    forall i | 0 <= i < |c.sequentials| && i < |d.sequentials|
      ensures EquivSequential(c.sequentials[i], d.sequentials[i]) <==>
              SameConnections(c.sequentials[i], d.sequentials[i])
    {
      var s, t := c.sequentials[i], d.sequentials[i];
      EquivFuncIsEqual(s.clock, t.clock);
      EquivFuncIsEqual(s.data, t.data);
      EquivFuncIsEqual(s.clear, t.clear);
      EquivFuncIsEqual(s.preset, t.preset);
    }
  }

  lemma ArcsCompared(c: Cell, d: Cell)
    ensures EquivArcSets(c, d) <==> ArcsCovered(c, d)
  {
    if ArcsCovered(c, d) {
      forall i | 0 <= i < |c.arcSets|
        ensures c.arcSets[i] in d.arcSets
      {
        assert c.arcSets[i] in c.ArcKeys();
      }
    }
  }

  /** What the comparison finds. */
  lemma EquivCellsIs(c: Cell, d: Cell)
    requires c.Valid() && d.Valid()
    ensures EquivCells(c, d) <==> SameLogic(c, d) && (HasFuncs(c) || ArcsCovered(c, d))
  {
    ArcsCompared(c, d);
    PortsIncluded(c, d);
    PortSetSize(c.ports);
    PortSetSize(d.ports);
    if c.PortSet() <= d.PortSet() && |c.ports| == |d.ports| {
      SubsetSize(c.PortSet(), d.PortSet());
    }
    SequentialsCompared(c, d);
  }

  /** What decides whether arc sets are compared. */
  lemma HasFuncsIs(c: Cell)
    ensures HasFuncs(c) <==> exists p :: p in c.ports && p.func != Missing
  {
    if p :| p in c.ports && p.func != Missing {
      var i :| 0 <= i < |c.ports| && c.ports[i] == p;
    }
  }

  lemma SameFuncs(c: Cell, d: Cell)
    requires c.PortSet() == d.PortSet()
    ensures HasFuncs(c) <==> HasFuncs(d)
  {
    if i :| 0 <= i < |c.ports| && !c.ports[i].func.Missing? {
      assert c.ports[i] in d.PortSet();
    }
    if i :| 0 <= i < |d.ports| && !d.ports[i].func.Missing? {
      assert d.ports[i] in c.PortSet();
    }
  }

  lemma SequentialsPreorder(c: Cell, d: Cell, e: Cell)
    ensures SameSequentials(c, c)
    ensures SameSequentials(c, d) && SameSequentials(d, e) ==> SameSequentials(c, e)
  {
    if SameSequentials(c, d) && SameSequentials(d, e) {
      forall i | 0 <= i < |c.sequentials|
        ensures SameConnections(c.sequentials[i], e.sequentials[i])
      {
        assert SameConnections(c.sequentials[i], d.sequentials[i]);
        assert SameConnections(d.sequentials[i], e.sequentials[i]);
      }
    }
  }

  /** The comparison holds of a cell and itself, and leads on from cell to cell. */
  lemma EquivCellsPreorder(c: Cell, d: Cell, e: Cell)
    requires c.Valid() && d.Valid() && e.Valid()
    ensures EquivCells(c, c)
    ensures EquivCells(c, d) && EquivCells(d, e) ==> EquivCells(c, e)
  {
    hide EquivCells, SameSequentials, HasFuncs;
    SequentialsPreorder(c, d, e);
    EquivCellsIs(c, c);
    EquivCellsIs(c, d);
    EquivCellsIs(d, e);
    EquivCellsIs(c, e);
    if c.PortSet() == d.PortSet() {
      SameFuncs(c, d);
    }
  }

  /** It holds the other way round as well exactly when there are functions, or the arc sets are
      the same but for how often they are repeated. */
  lemma EquivCellsBack(c: Cell, d: Cell)
    requires c.Valid() && d.Valid() && EquivCells(c, d)
    ensures EquivCells(d, c) <==> HasFuncs(c) || c.ArcKeys() == d.ArcKeys()
  {
    EquivCellsIs(c, d);
    EquivCellsIs(d, c);
    SameFuncs(c, d);
  }

  /** Arc sets that are not repeated are the same if they are covered. */
  lemma DistinctCovered(c: Cell, d: Cell)
    requires c.DistinctArcs() && ArcsCovered(c, d)
    ensures c.ArcKeys() == d.ArcKeys()
  {
    MembersSize(c.arcSets);
    MembersSize(d.arcSets);
    SubsetSize(c.ArcKeys(), d.ArcKeys());
  }

  /** The cell has a function, or does not repeat an arc set. */
  ghost predicate Regular(c: Cell) {
    HasFuncs(c) || c.DistinctArcs()
  }

  /** Among such cells the comparison is an equivalence. */
  lemma EquivCellsRelation(c: Cell, d: Cell, e: Cell)
    requires c.Valid() && d.Valid() && e.Valid() && Regular(c)
    ensures EquivCells(c, c)
    ensures EquivCells(c, d) ==> EquivCells(d, c)
    ensures EquivCells(c, d) && EquivCells(d, e) ==> EquivCells(c, e)
  {
    EquivCellsPreorder(c, d, e);
    if EquivCells(c, d) {
      EquivCellsBack(c, d);
      EquivCellsIs(c, d);
      if !HasFuncs(c) {
        DistinctCovered(c, d);
      }
    }
  }

  /** A cell without functions whose two arc sets have these roles. */
  function TwoArcs(role1: nat, role2: nat): Cell {
    var p := LibertyPort("A", 0, 0);
    Cell([CellPort(p, Missing, Missing)], [], NoTable,
         [ArcSet("A", "A", role1, Missing, [], [], []), ArcSet("A", "A", role2, Missing, [], [], [])], false)
  }

  /** A cell that repeats an arc set compares equal to one with another besides, but not the
      other way round. */
  lemma RepeatedArcs()
    ensures TwoArcs(0, 0).Valid() && TwoArcs(0, 1).Valid() && Regular(TwoArcs(0, 1))
    ensures EquivCells(TwoArcs(0, 0), TwoArcs(0, 1)) && !EquivCells(TwoArcs(0, 1), TwoArcs(0, 0))
  {
    var c, d := TwoArcs(0, 0), TwoArcs(0, 1);
    assert forall i :: 0 <= i < |c.ports| ==> c.ports[i].func.Missing?;
    assert c.PortSet() == d.PortSet();
    EquivCellsIs(c, d);
    EquivCellsIs(d, c);
    assert forall i :: 0 <= i < 2 ==> c.arcSets[i] == d.arcSets[0];
    assert d.arcSets[1] !in c.arcSets;
    assert d.arcSets[1] in d.ArcKeys();
  }
}
