/** What the conductance matrix of a circuit means in terms of its resistors and drivers. */
module PrimaPower {
  import opened RealSums
  import opened PrimaNetwork
  import opened ConductanceStamps
  import opened PrimaStamping

  /** For resistor e of a parasitic: (va - vb) (va - vb) / R, if R is positive and its nodes are
      numbered differently. */
  function ResistorPower(c: Circuit, index: map<Node, nat>, par: nat, v: int -> real): int -> real
    requires par < |c.parasitics|
  {
    e =>
      if 0 <= e < |c.parasitics[par].resistors| then
        var r := c.parasitics[par].resistors[e];
        var x, y := Node(par, r.node1), Node(par, r.node2);
        if x in index && y in index && index[x] != index[y] && r.value > 0.0
        then Square(v(index[x]) - v(index[y])) / r.value else 0.0
      else 0.0
  }

  /** The value of the resistor under the same condition. */
  function ResistorValue(c: Circuit, index: map<Node, nat>, par: nat): int -> real
    requires par < |c.parasitics|
  {
    e =>
      if 0 <= e < |c.parasitics[par].resistors| then
        var r := c.parasitics[par].resistors[e];
        var x, y := Node(par, r.node1), Node(par, r.node2);
        if x in index && y in index && index[x] != index[y] && r.value > 0.0 then r.value else 0.0
      else 0.0
  }

  /** One of the first k drivers uses the parasitic. */
  predicate InUse(c: Circuit, par: int, k: nat)
    requires k <= |c.args|
  {
    exists i :: 0 <= i < k && c.args[i].parasitic == par
  }

  /** The value of f at the parasitics in use. */
  function Used(c: Circuit, f: int -> real, k: nat): int -> real
    requires k <= |c.args|
  {
    par => if InUse(c, par, k) then f(par) else 0.0
  }

  function ParasiticPower(c: Circuit, index: map<Node, nat>, v: int -> real): int -> real {
    par => if 0 <= par < |c.parasitics|
           then Sum(ResistorPower(c, index, par, v), |c.parasitics[par].resistors|) else 0.0
  }

  function ParasiticResistance(c: Circuit, index: map<Node, nat>): int -> real {
    par => if 0 <= par < |c.parasitics|
           then Sum(ResistorValue(c, index, par), |c.parasitics[par].resistors|) else 0.0
  }

  /** What the tie of driver k to ground dissipates. */
  function TiePower(c: Circuit, pins: map<int, nat>, v: int -> real): int -> real {
    k => if 0 <= k < |c.args|
         then 0.000001 * Square(v(if c.args[k].drvrPin in pins then pins[c.args[k].drvrPin] else 0)) else 0.0
  }

  // ---------------------------------------------------------------------------
  // The power of the stamps

  lemma OverResistance(r: real, s: real)
    requires r > 0.0
    ensures Mul(1.0 / r, s) == s / r
  {
    assert (1.0 / r) * s == s / r;
  }

  lemma {:induction false} ResistorsEnergy(c: Circuit, index: map<Node, nat>, par: nat, v: int -> real, m: nat)
    requires par < |c.parasitics| && m <= |c.parasitics[par].resistors|
    ensures Energy(ResistorStamps(c, index, par, m), v) == Sum(ResistorPower(c, index, par, v), m)
    ensures ResistorSum(c, index, par, m) == Sum(ResistorValue(c, index, par), m)
  {
    hide ResistorStamp, ResistorPower;
    if m > 0 {
      ResistorsEnergy(c, index, par, v, m - 1);
      var r := c.parasitics[par].resistors[m - 1];
      EnergyBoth(ResistorStamps(c, index, par, m - 1), ResistorStamp(c, index, par, r), v);
      ResistorEnergy(c, index, par, v, m - 1);
    }
  }

  lemma ResistorEnergy(c: Circuit, index: map<Node, nat>, par: nat, v: int -> real, e: nat)
    requires par < |c.parasitics| && e < |c.parasitics[par].resistors|
    ensures var r := c.parasitics[par].resistors[e];
            && Energy(ResistorStamp(c, index, par, r), v) == ResistorPower(c, index, par, v)(e)
            && ResistorValue(c, index, par)(e) == if ResistorStamp(c, index, par, r) == [] then 0.0 else r.value
  {
    hide Square, Mul;
    var r := c.parasitics[par].resistors[e];
    var x, y := Node(par, r.node1), Node(par, r.node2);
    if x in index && y in index && index[x] != index[y] && r.value > 0.0 {
      EnergyOne(Floating(index[x], index[y], 1.0 / r.value), v);
      OverResistance(r.value, Square(v(index[x]) - v(index[y])));
    }
  }

  /** The first driver that uses a parasitic brings it in. */
  lemma UsedNext(c: Circuit, f: int -> real, k: nat)
    requires c.Valid() && k < |c.args|
    ensures var par := c.args[k].parasitic;
            Sum(Used(c, f, k + 1), |c.parasitics|)
            == Sum(Used(c, f, k), |c.parasitics|) + if FirstUse(c, k) then f(par) else 0.0
  {
    var par, n := c.args[k].parasitic, |c.parasitics|;
    var x := if FirstUse(c, k) then f(par) else 0.0;
    forall p | 0 <= p < n
      ensures Used(c, f, k + 1)(p) == 1.0 * Used(c, f, k)(p) + 1.0 * Spike(par, x)(p)
    {
      UsedStep(c, p, k);
    }
    SumLinear(Used(c, f, k + 1), 1.0, Used(c, f, k), 1.0, Spike(par, x), n);
    SumSpike(par, x, n);
  }

  lemma UsedStep(c: Circuit, par: int, k: nat)
    requires k < |c.args|
    ensures InUse(c, par, k + 1) <==> InUse(c, par, k) || c.args[k].parasitic == par
    ensures FirstUse(c, k) <==> !InUse(c, c.args[k].parasitic, k)
  {
    if i :| 0 <= i < k && c.args[i].parasitic == par {
      assert InUse(c, par, k + 1);
    }
  }

  lemma {:induction false} ArgsEnergy(c: Circuit, index: map<Node, nat>, pins: map<int, nat>, v: int -> real, k: nat)
    requires c.Valid() && k <= |c.args|
    ensures Energy(ArgStamps(c, index, pins, k), v)
            == Sum(Used(c, ParasiticPower(c, index, v), k), |c.parasitics|) + Sum(TiePower(c, pins, v), k)
    ensures ArgSum(c, index, k) == Sum(Used(c, ParasiticResistance(c, index), k), |c.parasitics|)
  {
    hide Square, Circuit.Valid, Used, ResistorStamps, ResistorSum, ResistorPower, ResistorValue;
    if k == 0 {
      NothingUsed(c, ParasiticPower(c, index, v));
      NothingUsed(c, ParasiticResistance(c, index));
    } else {
      ArgsEnergy(c, index, pins, v, k - 1);
      UsedNext(c, ParasiticPower(c, index, v), k - 1);
      UsedNext(c, ParasiticResistance(c, index), k - 1);
      ArgEnergy(c, index, pins, v, k);
    }
  }

  lemma NothingUsed(c: Circuit, f: int -> real)
    ensures Sum(Used(c, f, 0), |c.parasitics|) == 0.0
  {
    forall par | 0 <= par < |c.parasitics|
      ensures Used(c, f, 0)(par) == 0.0
    {
      assert !InUse(c, par, 0);
    }
    SumZero(Used(c, f, 0), |c.parasitics|);
  }

  lemma ArgEnergy(c: Circuit, index: map<Node, nat>, pins: map<int, nat>, v: int -> real, k: nat)
    requires c.Valid() && 0 < k <= |c.args|
    ensures var par := c.args[k - 1].parasitic;
            Energy(ArgStamps(c, index, pins, k), v)
            == Energy(ArgStamps(c, index, pins, k - 1), v) + TiePower(c, pins, v)(k - 1)
               + if FirstUse(c, k - 1) then ParasiticPower(c, index, v)(par) else 0.0
    ensures var par := c.args[k - 1].parasitic;
            ArgSum(c, index, k)
            == ArgSum(c, index, k - 1) + if FirstUse(c, k - 1) then ParasiticResistance(c, index)(par) else 0.0
  {
    hide Square, ResistorPower, ResistorValue;
    var arg := c.args[k - 1];
    var par := arg.parasitic;
    var tie := Ground(DriverIndex(pins, arg.drvrPin), DRIVER_CONDUCTANCE);
    var before := ArgStamps(c, index, pins, k - 1);
    EnergyBoth(before, [tie], v);
    EnergyOne(tie, v);
    ResistorsEnergy(c, index, par, v, |c.parasitics[par].resistors|);
    var more := if FirstUse(c, k - 1) then ResistorStamps(c, index, par, |c.parasitics[par].resistors|) else [];
    assert ArgStamps(c, index, pins, k) == before + [tie] + more;
    EnergyBoth(before + [tie], more, v);
    EnergyOne(tie, v);
  }

  // ---------------------------------------------------------------------------
  // The matrix

  /** Voltages v at the nodes dissipate (va - vb) (va - vb) / R in every resistor R of the
      parasitics in use, each once, if R is positive and its nodes are numbered differently, and
      1e-6 va va at every driver.  The matrix is symmetric, so this says what every entry is. */
  lemma DissipatesResistors(m: PrimaMatrices, c: Circuit, index: map<Node, nat>, pins: map<int, nat>,
                            M: (int, int) -> real, v: int -> real)
    requires c.Valid() && m.Holds(ArgStamps(c, index, pins, |c.args|), Drivers(c, pins, |c.args|))
    requires InRange(index, m.nodeCount)
    requires forall k {:trigger c.args[k]} :: 0 <= k < |c.args| ==> DriverIndex(pins, c.args[k].drvrPin) < m.nodeCount
    requires forall i, j {:trigger M(i, j)} :: 0 <= i < m.nodeCount && 0 <= j < m.nodeCount ==> M(i, j) == m.G[i, j]
    ensures Form(M, v, m.nodeCount)
            == Sum(Used(c, ParasiticPower(c, index, v), |c.args|), |c.parasitics|) + Sum(TiePower(c, pins, v), |c.args|)
    ensures forall i, j {:trigger M(i, j)} :: 0 <= i < m.nodeCount && 0 <= j < m.nodeCount ==> M(i, j) == M(j, i)
  {
    hide Circuit.Valid, Energy, ArgStamps, Used, ParasiticPower, TiePower;
    var stamps, n := ArgStamps(c, index, pins, |c.args|), m.nodeCount;
    ArgStampsFit(c, index, pins, |c.args|, n);
    forall i, j | 0 <= i < n && 0 <= j < n
      ensures M(i, j) == Stamped(stamps, i, j) && M(i, j) == M(j, i)
    {
      assert M(i, j) == m.G[i, j] && M(j, i) == m.G[j, i];
      StampedSymmetric(stamps, i, j);
    }
    FormIsEnergy(stamps, M, v, n);
    ArgsEnergy(c, index, pins, v, |c.args|);
  }

  /** The recorded resistance is that of the resistors that conduct, each once. */
  lemma ResistanceIs(c: Circuit, index: map<Node, nat>)
    requires c.Valid()
    ensures ArgSum(c, index, |c.args|) == Sum(Used(c, ParasiticResistance(c, index), |c.args|), |c.parasitics|)
  {
    ArgsEnergy(c, index, map[], v => 0.0, |c.args|);
  }

  lemma {:induction false} DriversAre(c: Circuit, pins: map<int, nat>, m: nat, k: nat)
    requires k < m <= |c.args|
    ensures Drivers(c, pins, m)[k] == if c.args[k].drvrPin in pins then pins[c.args[k].drvrPin] else 0
  {
    if k < m - 1 {
      DriversAre(c, pins, m - 1, k);
    }
  }

  /** Row and column of a driver's port: its voltage is that of the driver's node, whose row its
      source current enters. */
  lemma PortOfDriver(m: PrimaMatrices, c: Circuit, index: map<Node, nat>, pins: map<int, nat>, k: nat, i: nat)
    requires c.Valid() && m.Holds(ArgStamps(c, index, pins, |c.args|), Drivers(c, pins, |c.args|))
    requires k < |c.args| && i < m.nodeCount + m.portCount
    ensures var node := if c.args[k].drvrPin in pins then pins[c.args[k].drvrPin] else 0;
            && m.B[i, k] == (if i == node then 1.0 else 0.0)
            && m.G[m.nodeCount + k, i] == (if i == node then 1.0 else if i == m.nodeCount + k then -1.0 else 0.0)
            && (i < m.nodeCount ==> m.G[i, m.nodeCount + k] == 0.0)
  {
    hide ArgStamps, Stamped;
    DriversAre(c, pins, |c.args|, k);
  }
}
