/** The 32-bit hash of a cell. */
module CellHash {
  import opened FuncExpr
  import opened LibertyCells

  const WORD: int := 0x1_0000_0000

  /** Unsigned 32-bit wrap-around. */
  function W(x: int): nat { x % WORD }

  lemma WAdd(a: int, b: int)
    ensures W(W(a) + W(b)) == W(a + b) && W(W(a) + b) == W(a + b)
  {
    var qa, qb := a / WORD, b / WORD;
    assert a + b == W(a) + W(b) + (qa + qb) * WORD;
    WShift(W(a) + W(b), qa + qb);
    assert a + b == W(a) + b + qa * WORD;
    WShift(W(a) + b, qa);
  }

  lemma {:induction false} WShift(x: int, q: int)
    ensures W(x + q * WORD) == W(x)
    decreases if q < 0 then -q else q
  {
    if q > 0 {
      WShift(x, q - 1);
      WOnce(x + (q - 1) * WORD);
    } else if q < 0 {
      WShift(x, q + 1);
      WOnce(x + q * WORD);
    }
  }

  lemma WOnce(x: int)
    ensures W(x + WORD) == W(x)
  {
  }

  /** Adding the same amount hides no difference. */
  lemma WCancel(a: int, x: int, y: int)
    ensures W(a + x) == W(a + y) <==> W(x) == W(y)
  {
    WAdd(x, a);
    WAdd(y, a);
    WAdd(a + x, -a);
    WAdd(a + y, -a);
  }

  // ---------------------------------------------------------------------------
  // What is added up.  str is the hash of strings.

  function PortHash(str: string -> nat, p: LibertyPort): nat {
    W(str(p.name) * 3 + p.direction * 5)
  }

  /** One less than two to the place of the operator. */
  function OpFactor(e: Func): nat {
    match e
    case Missing => 0
    case Port(_) => 0
    case Not(_) => 1
    case Or(_, _) => 3
    case And(_, _) => 7
    case Xor(_, _) => 15
    case One => 31
    case Zero => 63
  }

  function FuncHash(str: string -> nat, e: Func): nat {
    match e
    case Missing => 0
    case Port(p) => W(PortHash(str, p) * 17)
    case Not(l) => W(FuncHash(str, l) * 31)
    case Or(l, r) => W((FuncHash(str, l) + FuncHash(str, r)) * OpFactor(e))
    case And(l, r) => W((FuncHash(str, l) + FuncHash(str, r)) * OpFactor(e))
    case Xor(l, r) => W((FuncHash(str, l) + FuncHash(str, r)) * OpFactor(e))
    case One => 0
    case Zero => 0
  }

  function PortTerm(str: string -> nat, p: CellPort): int {
    PortHash(str, p.port) + FuncHash(str, p.func) * 3 + FuncHash(str, p.enable) * 5
  }

  function PortsTerm(str: string -> nat, ports: seq<CellPort>): int {
    if |ports| == 0 then 0 else PortsTerm(str, ports[..|ports| - 1]) + PortTerm(str, ports[|ports| - 1])
  }

  /** The part of a sequential's hash that the comparison of cells does not look at, ... */
  function KindTerm(s: Sequential): int {
    (if s.isRegister then 3 else 0) + s.clearPresetOutput * 19 + s.clearPresetOutputInv * 23
  }

  /** ... and the rest. */
  function ComparedTerm(str: string -> nat, s: Sequential): int {
    FuncHash(str, s.clock) * 5 + FuncHash(str, s.data) * 7 + PortHash(str, s.output) * 9
        + PortHash(str, s.outputInv) * 11
    + FuncHash(str, s.clear) * 13 + FuncHash(str, s.preset) * 17
  }

  function KindsTerm(seqs: seq<Sequential>): int {
    if |seqs| == 0 then 0 else KindsTerm(seqs[..|seqs| - 1]) + KindTerm(seqs[|seqs| - 1])
  }

  function ComparedTerms(str: string -> nat, seqs: seq<Sequential>): int {
    if |seqs| == 0 then 0 else ComparedTerms(str, seqs[..|seqs| - 1]) + ComparedTerm(str, seqs[|seqs| - 1])
  }

  function Total(values: seq<nat>): nat {
    if |values| == 0 then 0 else Total(values[..|values| - 1]) + values[|values| - 1]
  }

  function PortList(str: string -> nat, ports: seq<LibertyPort>): nat {
    if |ports| == 0 then 0 else PortList(str, ports[..|ports| - 1]) + PortHash(str, ports[|ports| - 1])
  }

  function RowTerm(r: Row): nat { Total(r.inputs) * 9 + Total(r.current) * 11 + Total(r.next) * 13 }

  function RowsTerm(rows: seq<Row>): nat {
    if |rows| == 0 then 0 else RowsTerm(rows[..|rows| - 1]) + RowTerm(rows[|rows| - 1])
  }

  function TableTerm(str: string -> nat, t: Statetable): int {
    if t.NoTable? then 0 else PortList(str, t.inputs) * 3 + PortList(str, t.internals) * 5 + RowsTerm(t.rows) * 7
  }

  function CellTerm(str: string -> nat, c: Cell): int {
    PortsTerm(str, c.ports) + (ComparedTerms(str, c.sequentials) + KindsTerm(c.sequentials) + TableTerm(str, c.table))
  }

  // ---------------------------------------------------------------------------
  // The hash as it is computed, wrapping around after every addition

  method HashCellPorts(str: string -> nat, c: Cell) returns (hash: nat)
    ensures hash == W(PortsTerm(str, c.ports))
  {
    hide W, PortHash, FuncHash;
    hash := W(0);
    for i := 0 to |c.ports|
      invariant hash == W(PortsTerm(str, c.ports[..i]))
    {
      var p := c.ports[i];
      assert c.ports[..i + 1][..i] == c.ports[..i];
      WAdd(PortsTerm(str, c.ports[..i]), PortHash(str, p.port));
      hash := W(hash + PortHash(str, p.port));
      WAdd(PortsTerm(str, c.ports[..i]) + PortHash(str, p.port), FuncHash(str, p.func) * 3);
      hash := W(hash + FuncHash(str, p.func) * 3);
      WAdd(PortsTerm(str, c.ports[..i]) + PortHash(str, p.port) + FuncHash(str, p.func) * 3,
          FuncHash(str, p.enable) * 5);
      hash := W(hash + FuncHash(str, p.enable) * 5);
    }
    assert c.ports[..|c.ports|] == c.ports;
  }

  method HashSequential(str: string -> nat, s: Sequential) returns (hash: nat)
    ensures hash == W(ComparedTerm(str, s) + KindTerm(s))
  {
    hash := if s.isRegister then 3 else 0;
    hash := hash + FuncHash(str, s.clock) * 5;
    hash := hash + FuncHash(str, s.data) * 7;
    hash := hash + PortHash(str, s.output) * 9;
    hash := hash + PortHash(str, s.outputInv) * 11;
    hash := hash + FuncHash(str, s.clear) * 13;
    hash := hash + FuncHash(str, s.preset) * 17;
    hash := hash + s.clearPresetOutput * 19;
    hash := W(hash + s.clearPresetOutputInv * 23);
  }

  method HashPorts(str: string -> nat, ports: seq<LibertyPort>) returns (hash: nat)
    ensures hash == W(PortList(str, ports))
  {
    hash := 0;
    for i := 0 to |ports|
      invariant hash == W(PortList(str, ports[..i]))
    {
      assert ports[..i + 1][..i] == ports[..i];
      WAdd(PortList(str, ports[..i]), PortHash(str, ports[i]));
      hash := W(hash + PortHash(str, ports[i]));
    }
    assert ports[..|ports|] == ports;
  }

  method HashValues(values: seq<nat>, factor: nat, hash0: nat, ghost before: int) returns (hash: nat)
    requires hash0 == W(before)
    ensures hash == W(before + Total(values) * factor)
  {
    hash := hash0;
    for i := 0 to |values|
      invariant hash == W(before + Total(values[..i]) * factor)
    {
      assert values[..i + 1][..i] == values[..i];
      WAdd(before + Total(values[..i]) * factor, values[i] * factor);
      AddTimes(Total(values[..i]), values[i], factor);
      hash := W(hash + values[i] * factor);
    }
    assert values[..|values|] == values;
  }

  lemma AddTimes(a: nat, b: nat, f: nat)
    ensures (a + b) * f == a * f + b * f
  {
  }

  method HashRow(r: Row) returns (hash: nat)
    ensures hash == W(RowTerm(r))
  {
    hash := HashValues(r.inputs, 9, 0, 0);
    hash := HashValues(r.current, 11, hash, Total(r.inputs) * 9);
    hash := HashValues(r.next, 13, hash, Total(r.inputs) * 9 + Total(r.current) * 11);
  }

  method HashStatetable(str: string -> nat, t: Statetable) returns (hash: nat)
    requires t.Statetable?
    ensures hash == W(TableTerm(str, t))
  {
    hide W, PortList, RowTerm;
    var ports := HashPorts(str, t.inputs);
    WTimes(PortList(str, t.inputs), 3);
    hash := W(ports * 3);
    ports := HashPorts(str, t.internals);
    WTimes(PortList(str, t.internals), 5);
    WAdd(PortList(str, t.inputs) * 3, PortList(str, t.internals) * 5);
    hash := W(hash + W(ports * 5));
    var rows := W(0);
    for i := 0 to |t.rows|
      invariant rows == W(RowsTerm(t.rows[..i]))
    {
      assert t.rows[..i + 1][..i] == t.rows[..i];
      var row := HashRow(t.rows[i]);
      WAdd(RowsTerm(t.rows[..i]), RowTerm(t.rows[i]));
      rows := W(rows + row);
    }
    assert t.rows[..|t.rows|] == t.rows;
    WTimes(RowsTerm(t.rows), 7);
    WAdd(PortList(str, t.inputs) * 3 + PortList(str, t.internals) * 5, RowsTerm(t.rows) * 7);
    hash := W(hash + W(rows * 7));
  }

  lemma WTimes(x: int, k: nat)
    ensures W(W(x) * k) == W(x * k)
  {
    var q := x / WORD;
    assert x == W(x) + q * WORD;
    Spread(W(x), q, WORD, k);
    WShift(W(x) * k, q * k);
  }

  lemma Spread(a: int, q: int, m: int, k: int)
    ensures (a + q * m) * k == a * k + (q * k) * m
  {
  }

  method HashCellSequentials(str: string -> nat, c: Cell) returns (hash: nat)
    ensures hash == W(ComparedTerms(str, c.sequentials) + KindsTerm(c.sequentials) + TableTerm(str, c.table))
  {
    hide W, ComparedTerm, KindTerm, TableTerm;
    hash := W(0);
    for i := 0 to |c.sequentials|
      invariant hash == W(ComparedTerms(str, c.sequentials[..i]) + KindsTerm(c.sequentials[..i]))
    {
      var before := c.sequentials[..i];
      assert c.sequentials[..i + 1][..i] == before;
      var one := HashSequential(str, c.sequentials[i]);
      WAdd(ComparedTerms(str, before) + KindsTerm(before),
           ComparedTerm(str, c.sequentials[i]) + KindTerm(c.sequentials[i]));
      hash := W(hash + one);
    }
    assert c.sequentials[..|c.sequentials|] == c.sequentials;
    if c.table.Statetable? {
      var table := HashStatetable(str, c.table);
      WAdd(ComparedTerms(str, c.sequentials) + KindsTerm(c.sequentials), TableTerm(str, c.table));
      hash := W(hash + table);
    } else {
      NoTableTerm(str, c.table);
    }
  }

  lemma NoTableTerm(str: string -> nat, t: Statetable)
    requires t.NoTable?
    ensures TableTerm(str, t) == 0
  {
  }

  function HashOfCell(str: string -> nat, c: Cell): nat { W(CellTerm(str, c)) }

  method HashCell(str: string -> nat, c: Cell) returns (hash: nat)
    ensures hash == HashOfCell(str, c)
  {
    hide PortsTerm, ComparedTerms, KindsTerm, TableTerm, W;
    var ports := HashCellPorts(str, c);
    var sequentials := HashCellSequentials(str, c);
    WAdd(PortsTerm(str, c.ports),
         ComparedTerms(str, c.sequentials) + KindsTerm(c.sequentials) + TableTerm(str, c.table));
    hash := W(ports + sequentials);
  }

  // ---------------------------------------------------------------------------
  // Equivalent cells have the same hash, up to the kinds of their sequentials

  lemma {:induction false} PortsTermWithout(str: string -> nat, ports: seq<CellPort>, k: nat)
    requires k < |ports|
    ensures PortsTerm(str, ports) == PortsTerm(str, ports[..k] + ports[k + 1..]) + PortTerm(str, ports[k])
  {
    var front, last := ports[..|ports| - 1], ports[|ports| - 1];
    if k == |ports| - 1 {
      assert ports[..k] + ports[k + 1..] == front;
    } else {
      PortsTermWithout(str, front, k);
      var rest := ports[..k] + ports[k + 1..];
      assert rest == front[..k] + front[k + 1..] + [last];
      assert rest[..|rest| - 1] == front[..k] + front[k + 1..];
      assert rest[|rest| - 1] == last;
    }
  }

  predicate NoRepeats(ports: seq<CellPort>) {
    forall i, j {:trigger ports[i], ports[j]} :: 0 <= i < j < |ports| ==> ports[i] != ports[j]
  }

  /** The sum over the ports does not depend on their order. */
  lemma {:induction false} PortOrder(str: string -> nat, ps: seq<CellPort>, qs: seq<CellPort>)
    requires NoRepeats(ps) && NoRepeats(qs) && forall p {:trigger p in ps} {:trigger p in qs} :: p in ps <==> p in qs
    ensures PortsTerm(str, ps) == PortsTerm(str, qs)
    decreases |ps|
  {
    if |ps| == 0 {
      FirstIn(qs);
    } else {
      var front, p := ps[..|ps| - 1], ps[|ps| - 1];
      assert p in ps && p !in front;
      var k :| 0 <= k < |qs| && qs[k] == p;
      var rest := qs[..k] + qs[k + 1..];
      RestMembers(qs, k);
      assert forall x :: x in front <==> x in ps && x != p;
      PortOrder(str, front, rest);
      PortsTermWithout(str, qs, k);
    }
  }

  lemma FirstIn(qs: seq<CellPort>)
    ensures |qs| > 0 ==> qs[0] in qs
  {
  }

  lemma RestMembers(qs: seq<CellPort>, k: nat)
    requires NoRepeats(qs) && k < |qs|
    ensures var rest := qs[..k] + qs[k + 1..];
            NoRepeats(rest) && forall x {:trigger x in rest} {:trigger x in qs} :: x in rest <==> x in qs && x != qs[k]
  {
    var rest := qs[..k] + qs[k + 1..];
    forall i, j | 0 <= i < j < |rest|
      ensures rest[i] != rest[j]
    {
      assert rest[i] == qs[if i < k then i else i + 1] && rest[j] == qs[if j < k then j else j + 1];
    }
    forall x
      ensures x in rest <==> x in qs && x != qs[k]
    {
      if x in rest {
        var i :| 0 <= i < |rest| && rest[i] == x;
        assert x == qs[if i < k then i else i + 1];
      }
      if x in qs && x != qs[k] {
        var j :| 0 <= j < |qs| && qs[j] == x;
        assert rest[if j < k then j else j - 1] == x;
      }
    }
  }

  lemma {:induction false} SameComparedTerms(str: string -> nat, ss: seq<Sequential>, ts: seq<Sequential>)
    requires |ss| == |ts| && forall i {:trigger ss[i]} {:trigger ts[i]} :: 0 <= i < |ss| ==>
              Compared(ss[i]) == Compared(ts[i])
    ensures ComparedTerms(str, ss) == ComparedTerms(str, ts)
  {
    if |ss| > 0 {
      var last := |ss| - 1;
      SameComparedTerms(str, ss[..last], ts[..last]);
      assert Compared(ss[last]) == Compared(ts[last]);
      assert ComparedTerm(str, ss[last]) == ComparedTerm(str, Compared(ss[last]));
      assert ComparedTerm(str, ts[last]) == ComparedTerm(str, Compared(ts[last]));
    }
  }

  lemma SamePorts(c: Cell, d: Cell)
    requires c.Valid() && d.Valid() && c.PortSet() == d.PortSet()
    ensures NoRepeats(c.ports) && NoRepeats(d.ports)
    ensures forall p {:trigger p in c.ports} {:trigger p in d.ports} :: p in c.ports <==> p in d.ports
  {
    forall p
      ensures p in c.ports <==> p in d.ports
    {
      assert p in c.ports <==> p in c.PortSet();
      assert p in d.ports <==> p in d.PortSet();
    }
  }

  /** Whatever the hash of strings and the order of the ports, cells that compare equal have
      the same hash exactly when the kinds of their sequentials add up to the same. */
  lemma EquivalentHash(str: string -> nat, c: Cell, d: Cell)
    requires c.Valid() && d.Valid() && EquivCells(c, d)
    ensures HashOfCell(str, c) == HashOfCell(str, d) <==> W(KindsTerm(c.sequentials)) == W(KindsTerm(d.sequentials))
  {
    hide W, EquivCells, PortsTerm, ComparedTerms, KindsTerm, TableTerm;
    EquivCellsIs(c, d);
    SamePorts(c, d);
    PortOrder(str, c.ports, d.ports);
    SameComparedTerms(str, c.sequentials, d.sequentials);
    var common := PortsTerm(str, c.ports) + ComparedTerms(str, c.sequentials) + TableTerm(str, c.table);
    WCancel(common, KindsTerm(c.sequentials), KindsTerm(d.sequentials));
  }

  /** What a cell with one port, one sequential and a table of one row hashes to: every part of it
      counts, with its own weight. */
  lemma HashWeights(str: string -> nat, p: CellPort, s: Sequential, a: LibertyPort, b: LibertyPort, x: nat, y: nat,
                    z: nat)
    ensures HashOfCell(str, Cell([p], [s], Statetable([a], [b], [Row([x], [y], [z])]), [], false))
            == (PortHash(str, p.port) + FuncHash(str, p.func) * 3 + FuncHash(str, p.enable) * 5
                + (if s.isRegister then 3 else 0)
                + FuncHash(str, s.clock) * 5 + FuncHash(str, s.data) * 7
                + PortHash(str, s.output) * 9 + PortHash(str, s.outputInv) * 11
                + FuncHash(str, s.clear) * 13 + FuncHash(str, s.preset) * 17
                + s.clearPresetOutput * 19 + s.clearPresetOutputInv * 23
                + PortHash(str, a) * 3 + PortHash(str, b) * 5
                + (x * 9 + y * 11 + z * 13) * 7) % 0x1_0000_0000
  {
    hide PortHash, FuncHash;
    assert [p][..0] == [] && [s][..0] == [] && [a][..0] == [] && [b][..0] == [];
    assert [x][..0] == [] && [y][..0] == [] && [z][..0] == [] && [Row([x], [y], [z])][..0] == [];
    assert PortsTerm(str, [p]) == PortTerm(str, p);
    assert ComparedTerms(str, [s]) == ComparedTerm(str, s) && KindsTerm([s]) == KindTerm(s);
    assert PortList(str, [a]) == PortHash(str, a) && PortList(str, [b]) == PortHash(str, b);
    assert Total([x]) == x && Total([y]) == y && Total([z]) == z;
    assert RowsTerm([Row([x], [y], [z])]) == x * 9 + y * 11 + z * 13;
  }

  lemma PortHashWeights(str: string -> nat, p: LibertyPort)
    ensures PortHash(str, p) == (str(p.name) * 3 + p.direction * 5) % 0x1_0000_0000
  {
  }

  /** The hash of a function, by its operator. */
  lemma FuncHashWeights(str: string -> nat, p: LibertyPort, l: Func, r: Func)
    ensures FuncHash(str, Port(p)) == (PortHash(str, p) * 17) % 0x1_0000_0000
    ensures FuncHash(str, Not(l)) == (FuncHash(str, l) * 31) % 0x1_0000_0000
    ensures FuncHash(str, Or(l, r)) == ((FuncHash(str, l) + FuncHash(str, r)) * 3) % 0x1_0000_0000
    ensures FuncHash(str, And(l, r)) == ((FuncHash(str, l) + FuncHash(str, r)) * 7) % 0x1_0000_0000
    ensures FuncHash(str, Xor(l, r)) == ((FuncHash(str, l) + FuncHash(str, r)) * 15) % 0x1_0000_0000
    ensures FuncHash(str, One) == FuncHash(str, Zero) == FuncHash(str, Missing) == 0
  {
    hide PortHash, W;
    PortAndNot(str, p, l);
    OperatorHash(str, l, r);
    hide FuncHash;
    var x := FuncHash(str, l) + FuncHash(str, r);
    WordOf(x * 3);
    WordOf(x * 7);
    WordOf(x * 15);
    WordOf(PortHash(str, p) * 17);
    WordOf(FuncHash(str, l) * 31);
  }

  lemma PortAndNot(str: string -> nat, p: LibertyPort, l: Func)
    ensures FuncHash(str, Port(p)) == W(PortHash(str, p) * 17) && FuncHash(str, Not(l)) == W(FuncHash(str, l) * 31)
    ensures FuncHash(str, One) == FuncHash(str, Zero) == FuncHash(str, Missing) == 0
  {
    hide PortHash, W;
  }

  lemma WordOf(x: int)
    ensures W(x) == x % 0x1_0000_0000
  {
  }

  lemma OperatorHash(str: string -> nat, l: Func, r: Func)
    ensures var x := FuncHash(str, l) + FuncHash(str, r);
            && FuncHash(str, Or(l, r)) == W(x * 3)
            && FuncHash(str, And(l, r)) == W(x * 7)
            && FuncHash(str, Xor(l, r)) == W(x * 15)
  {
    hide PortHash, W;
  }

  /** The terms of more sequentials add up. */
  lemma {:induction false} SequentialsAdd(str: string -> nat, ss: seq<Sequential>, ts: seq<Sequential>)
    ensures KindsTerm(ss + ts) == KindsTerm(ss) + KindsTerm(ts)
    ensures ComparedTerms(str, ss + ts) == ComparedTerms(str, ss) + ComparedTerms(str, ts)
  {
    if |ts| == 0 {
      assert ss + ts == ss;
    } else {
      var last := |ts| - 1;
      assert (ss + ts)[..|ss + ts| - 1] == ss + ts[..last];
      SequentialsAdd(str, ss, ts[..last]);
    }
  }

  /** Cells that compare equal and have one sequential each have the same hash exactly when the
      kinds of the two, with the outputs under clear and preset, weigh the same. */
  lemma LoneKinds(str: string -> nat, c: Cell, d: Cell, s: Sequential, t: Sequential)
    requires c.Valid() && d.Valid() && EquivCells(c, d) && c.sequentials == [s] && d.sequentials == [t]
    ensures HashOfCell(str, c) == HashOfCell(str, d) <==>
            ((if s.isRegister then 3 else 0) + s.clearPresetOutput * 19 + s.clearPresetOutputInv * 23) % 0x1_0000_0000
            == ((if t.isRegister then 3 else 0) + t.clearPresetOutput * 19 + t.clearPresetOutputInv * 23)
               % 0x1_0000_0000
  {
    hide EquivCells, HashOfCell;
    EquivalentHash(str, c, d);
    assert [s][..0] == [] && [t][..0] == [];
    assert KindsTerm([s]) == KindTerm(s) && KindsTerm([t]) == KindTerm(t);
  }

  /** A flip-flop and a latch that are otherwise the same. */
  function Lone(isRegister: bool): Cell {
    var q := LibertyPort("Q", 1, 0);
    Cell([CellPort(q, Port(q), Missing)], [Sequential(isRegister, Port(q), Port(q), q, q, Missing, Missing, 0, 0)],
        NoTable, [], false)
  }

  /** They compare equal, but their hashes differ. */
  lemma KindSplitsHash(str: string -> nat)
    ensures Lone(true).Valid() && Lone(false).Valid()
    ensures EquivCells(Lone(true), Lone(false)) && HashOfCell(str, Lone(true)) != HashOfCell(str, Lone(false))
  {
    var c, d := Lone(true), Lone(false);
    assert Compared(c.sequentials[0]) == Compared(d.sequentials[0]);
    assert c.ports[0].func.Port?;
    assert HasFuncs(c);
    EquivCellsIs(c, d);
    hide EquivCells, HashOfCell;
    LoneKinds(str, c, d, c.sequentials[0], d.sequentials[0]);
  }
}
