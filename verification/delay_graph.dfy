/** Delays over a levelized graph: what one visit computes and queues, and when a store of
    slews and delays is the one that a run from scratch computes. */
module DelayGraph {

  type Slew = seq<real>

  datatype Kind = RootDriver | RootLoad | Driver | Load

  /** What the delay calculator finds for one driver, or seeds at one root: its own slew, the
      slews of its loads in order, and its gate and wire delays. */
  datatype Outcome = Outcome(slew: Slew, loads: seq<Slew>, delays: seq<Slew>)

  /** An edge leads from u to v. */
  predicate Leads(wires: seq<seq<int>>, gates: seq<seq<int>>, u: int, v: int) {
    && 0 <= u < |wires| && 0 <= v < |gates|
    && (v in wires[u] || u in gates[v])
  }

  ghost predicate HasFanin(wires: seq<seq<int>>, gates: seq<seq<int>>, v: int) {
    exists u {:trigger Leads(wires, gates, u, v)} :: Leads(wires, gates, u, v)
  }

  /** Edges lead to higher levels; every load is on the net of one driver; roots have no
      edges into them and other vertices have. */
  ghost predicate Levelized(kind: seq<Kind>, level: seq<nat>, wires: seq<seq<int>>, gates: seq<seq<int>>)
    requires |level| == |wires| == |gates| == |kind|
  {
    && (forall v, i {:trigger wires[v][i]} :: 0 <= v < |kind| && 0 <= i < |wires[v]| ==>
          0 <= wires[v][i] < |kind| && kind[wires[v][i]] == Load && level[v] < level[wires[v][i]]
            && kind[v] in {RootDriver, Driver})
    && (forall v, i, j {:trigger wires[v][i], wires[v][j]} :: 0 <= v < |kind| && 0 <= i < j < |wires[v]| ==>
          wires[v][i] != wires[v][j])
    && (forall v, w, u {:trigger u in wires[v], u in wires[w]} ::
          0 <= v < |kind| && 0 <= w < |kind| && u in wires[v] && u in wires[w] ==> v == w)
    && (forall v, i {:trigger gates[v][i]} :: 0 <= v < |kind| && 0 <= i < |gates[v]| ==>
          0 <= gates[v][i] < |kind| && level[gates[v][i]] < level[v] && kind[v] == Driver)
    && (forall v {:trigger HasFanin(wires, gates, v)} :: 0 <= v < |kind| && kind[v] in {Driver, Load} ==>
          HasFanin(wires, gates, v))
  }

  /** Vertices with their levels, the loads that every driver's wires lead to, the vertices
      that every driver's gate edges come from, and the delay calculator: a function of the
      driver, the state of the design around it, and the slews its gate edges start with. */
  datatype Design = Design(kind: seq<Kind>, level: seq<nat>, wires: seq<seq<int>>, gates: seq<seq<int>>,
                           find: (int, int, seq<Slew>) -> Outcome)
  {
    predicate IsVertex(v: int) { 0 <= v < |kind| }

    ghost predicate Valid() {
      && |level| == |kind| && |wires| == |kind| && |gates| == |kind|
      && Levelized(kind, level, wires, gates)
      && forall v, e, f {:trigger FitsLoads(v, e, f)} :: IsVertex(v) ==> FitsLoads(v, e, f)
    }

    /** The calculator finds a slew for every load. */
    ghost predicate FitsLoads(v: int, e: int, f: seq<Slew>) {
      0 <= v < |wires| && |find(v, e, f).loads| == |wires[v]|
    }

    predicate Drives(u: int, v: int) { Leads(wires, gates, u, v) }

    /** The vertices whose slew is computed at v, other than v. */
    predicate Computes(v: int) { IsVertex(v) && kind[v] != Load }

    predicate IsRoot(v: int) { IsVertex(v) && kind[v] in {RootDriver, RootLoad} }
  }

  datatype Store = Store(slew: seq<Slew>, delays: seq<seq<Slew>>)

  /** A wire leads from a driver to a load at a higher level, ... */
  lemma WireAt(g: Design, v: int, i: nat)
    requires g.Valid() && g.IsVertex(v) && i < |g.wires[v]|
    ensures g.IsVertex(g.wires[v][i]) && g.kind[g.wires[v][i]] == Load && g.level[v] < g.level[g.wires[v][i]]
    ensures g.kind[v] in {RootDriver, Driver}
  {
  }

  lemma WireToLoad(g: Design, v: int, u: int)
    requires g.Valid() && g.IsVertex(v) && u in g.wires[v]
    ensures g.IsVertex(u) && g.kind[u] == Load && g.level[v] < g.level[u] && g.kind[v] in {RootDriver, Driver}
  {
    hide Levelized;
    var i :| 0 <= i < |g.wires[v]| && g.wires[v][i] == u;
    WireAt(g, v, i);
  }

  /** ... and no two of them to the same one; */
  lemma WiresApart(g: Design, v: int, i: nat, w: int, j: nat)
    requires g.Valid() && g.IsVertex(v) && i < |g.wires[v]| && g.IsVertex(w) && j < |g.wires[w]|
    requires g.wires[v][i] == g.wires[w][j]
    ensures v == w && i == j
  {
    assert g.wires[v][i] in g.wires[v] && g.wires[v][i] in g.wires[w];
  }

  /** a gate edge comes from a lower level; */
  lemma GateAt(g: Design, v: int, i: nat)
    requires g.Valid() && g.IsVertex(v) && i < |g.gates[v]|
    ensures g.IsVertex(g.gates[v][i]) && g.level[g.gates[v][i]] < g.level[v] && g.kind[v] == Driver
  {
  }

  lemma GateFrom(g: Design, v: int, u: int)
    requires g.Valid() && g.IsVertex(v) && u in g.gates[v]
    ensures g.IsVertex(u) && g.level[u] < g.level[v] && g.kind[v] == Driver
  {
    hide Levelized;
    var i :| 0 <= i < |g.gates[v]| && g.gates[v][i] == u;
    GateAt(g, v, i);
  }

  /** and an edge leads to every vertex but the roots. */
  lemma SomeFanin(g: Design, v: int) returns (u: int)
    requires g.Valid() && g.IsVertex(v) && !g.IsRoot(v)
    ensures g.IsVertex(u) && g.Drives(u, v)
  {
    assert g.kind[v] == Driver || g.kind[v] == Load;
    assert HasFanin(g.wires, g.gates, v);
    u :| Leads(g.wires, g.gates, u, v);
  }

  ghost predicate Sized(g: Design, env: seq<int>, s: Store) {
    |s.slew| == |g.kind| && |s.delays| == |g.kind| && |env| == |g.kind|
  }

  predicate InRange(from: seq<int>, n: nat) {
    forall i {:trigger from[i]} :: 0 <= i < |from| ==> 0 <= from[i] < n
  }

  /** The slews that the gate edges of a vertex start with. */
  function Fanin(slew: seq<Slew>, from: seq<int>): (f: seq<Slew>)
    requires InRange(from, |slew|)
    ensures |f| == |from|
  {
    seq(|from|, i requires 0 <= i < |from| => slew[from[i]])
  }

  lemma GatesInRange(g: Design, v: int)
    requires g.Valid() && g.IsVertex(v)
    ensures InRange(g.gates[v], |g.kind|)
  {
    hide Levelized;
    forall i | 0 <= i < |g.gates[v]|
      ensures 0 <= g.gates[v][i] < |g.kind|
    {
      GateAt(g, v, i);
    }
  }

  lemma WiresInRange(g: Design, v: int)
    requires g.Valid() && g.IsVertex(v)
    ensures InRange(g.wires[v], |g.kind|)
  {
    hide Levelized;
    forall i | 0 <= i < |g.wires[v]|
      ensures 0 <= g.wires[v][i] < |g.kind|
    {
      WireAt(g, v, i);
    }
  }

  /** What the calculator finds at v from the current slews. */
  ghost function Result(g: Design, env: seq<int>, s: Store, v: int): Outcome
    requires g.Valid() && Sized(g, env, s) && g.IsVertex(v)
  {
    GatesInRange(g, v);
    g.find(v, env[v], Fanin(s.slew, g.gates[v]))
  }

  /** The store holds what the calculator finds at v. */
  ghost predicate Settled(g: Design, env: seq<int>, s: Store, v: int)
    requires g.Valid() && Sized(g, env, s) && g.IsVertex(v)
  {
    var o := Result(g, env, s, v);
    WiresInRange(g, v);
    && |o.loads| == |g.wires[v]|
    && s.slew[v] == o.slew && s.delays[v] == o.delays
    && forall i {:trigger g.wires[v][i]} :: 0 <= i < |g.wires[v]| ==> s.slew[g.wires[v][i]] == o.loads[i]
  }

  /** Everything is settled. */
  ghost predicate AllSettled(g: Design, env: seq<int>, s: Store) {
    && g.Valid() && Sized(g, env, s)
    && forall v {:trigger g.Computes(v)} :: g.Computes(v) ==> Settled(g, env, s, v)
  }

  /** Two settled stores hold the same slews at every vertex up to a level, ... */
  lemma {:induction false} SameSlews(g: Design, env: seq<int>, s: Store, s': Store, v: int)
    requires AllSettled(g, env, s) && AllSettled(g, env, s') && g.IsVertex(v)
    ensures s.slew[v] == s'.slew[v]
    decreases g.level[v], 1
  {
    hide Levelized, Result;
    if g.kind[v] == Load {
      var u := SomeFanin(g, v);
      LoadOnWire(g, u, v);
      var i :| 0 <= i < |g.wires[u]| && g.wires[u][i] == v;
      SameResult(g, env, s, s', u);
      assert g.Computes(u);
    } else {
      SameResult(g, env, s, s', v);
      assert g.Computes(v);
    }
  }

  /** The edge that leads to a load is a wire. */
  lemma LoadOnWire(g: Design, u: int, v: int)
    requires g.Valid() && g.IsVertex(v) && g.kind[v] == Load && g.Drives(u, v)
    ensures g.IsVertex(u) && v in g.wires[u] && g.Computes(u) && g.level[u] < g.level[v]
  {
    hide Levelized;
    if u in g.gates[v] {
      GateFrom(g, v, u);
    } else {
      WireToLoad(g, u, v);
    }
  }

  lemma {:induction false} SameResult(g: Design, env: seq<int>, s: Store, s': Store, v: int)
    requires AllSettled(g, env, s) && AllSettled(g, env, s') && g.IsVertex(v)
    ensures Result(g, env, s, v) == Result(g, env, s', v)
    decreases g.level[v], 0
  {
    hide Levelized, Settled;
    GatesInRange(g, v);
    forall i | 0 <= i < |g.gates[v]|
      ensures s.slew[g.gates[v][i]] == s'.slew[g.gates[v][i]]
    {
      GateAt(g, v, i);
      SameSlews(g, env, s, s', g.gates[v][i]);
    }
    assert Fanin(s.slew, g.gates[v]) == Fanin(s'.slew, g.gates[v]);
  }

  /** ... so there is one settled store: slews and delays do not depend on how they were
      arrived at. */
  lemma SettledUnique(g: Design, env: seq<int>, s: Store, s': Store)
    requires AllSettled(g, env, s) && AllSettled(g, env, s')
    ensures s.slew == s'.slew
    ensures forall v {:trigger g.Computes(v)} :: g.Computes(v) ==> s.delays[v] == s'.delays[v]
  {
    hide Levelized, Result;
    forall v | 0 <= v < |s.slew|
      ensures s.slew[v] == s'.slew[v]
    {
      SameSlews(g, env, s, s', v);
    }
    forall v | g.Computes(v)
      ensures s.delays[v] == s'.delays[v]
    {
      SameResult(g, env, s, s', v);
    }
  }

  // ---------------------------------------------------------------------------
  // Visits

  function Position(list: seq<int>, x: int): (k: nat)
    ensures x in list ==> k < |list| && list[k] == x
  {
    if |list| == 0 || list[0] == x then 0 else 1 + Position(list[1..], x)
  }

  /** A load is found at its place. */
  lemma LoadPlace(g: Design, v: int, i: nat)
    requires g.Valid() && g.IsVertex(v) && i < |g.wires[v]|
    ensures Position(g.wires[v], g.wires[v][i]) == i && g.wires[v][i] != v && g.wires[v][i] !in g.wires[v][..i]
    ensures g.wires[v][..i + 1] == g.wires[v][..i] + [g.wires[v][i]]
  {
    hide Levelized;
    var u := g.wires[v][i];
    WireAt(g, v, i);
    var k := Position(g.wires[v], u);
    WiresApart(g, v, i, v, k);
    if u in g.wires[v][..i] {
      var j :| 0 <= j < i && g.wires[v][j] == u;
      WiresApart(g, v, i, v, j);
    }
  }
  /** The store with the outcome at v in place. */
  ghost function Placed(g: Design, s: Store, v: int, o: Outcome): Store
    requires 0 <= v < |g.wires| && |o.loads| == |g.wires[v]| && v < |s.delays|
  {
    Store(seq(|s.slew|, u requires 0 <= u < |s.slew| =>
                if u == v then o.slew else if u in g.wires[v] then o.loads[Position(g.wires[v], u)] else s.slew[u]),
          s.delays[v := o.delays])
  }

  /** What a visit to v leaves in the store: a load only passes the visit on. */
  ghost function Computed(g: Design, env: seq<int>, s: Store, v: int): Store
    requires g.Valid() && Sized(g, env, s) && g.IsVertex(v)
  {
    if g.kind[v] == Load then s else
      var o := Result(g, env, s, v);
      if |o.loads| == |g.wires[v]| then Placed(g, s, v, o) else s
  }

  lemma ResultFits(g: Design, env: seq<int>, s: Store, v: int)
    requires g.Valid() && Sized(g, env, s) && g.IsVertex(v)
    ensures |Result(g, env, s, v).loads| == |g.wires[v]|
  {
    hide Levelized;
    GatesInRange(g, v);
    var f := Fanin(s.slew, g.gates[v]);
    assert g.FitsLoads(v, env[v], f);
  }

  /** Whether a fanout u of driver v counts as changed: its slew is compared with the slew
      that the load in its place had before.  A fanout that is not a load of v is compared
      with the first load; a driver without loads changes all its fanouts. */
  ghost predicate Changed(g: Design, s: Store, s': Store, v: int, u: int)
    requires g.Valid() && g.IsVertex(v) && g.IsVertex(u) && |s.slew| == |s'.slew| == |g.kind|
  {
    WiresInRange(g, v);
    |g.wires[v]| == 0 || s'.slew[u] != s.slew[g.wires[v][if u in g.wires[v] then Position(g.wires[v], u) else 0]]
  }

  /** The vertices that a visit to v queues. */
  ghost function Queued(g: Design, exist: bool, s: Store, s': Store, v: int): set<int>
    requires g.Valid() && g.IsVertex(v) && |s.slew| == |s'.slew| == |g.kind|
  {
    set u | 0 <= u < |g.kind| && g.Drives(v, u) && (g.kind[v] != Driver || !exist || Changed(g, s, s', v, u))
  }

  /** Every place that the visit does not compute stays as it was. */
  lemma ComputedFrame(g: Design, env: seq<int>, s: Store, v: int, w: int)
    requires g.Valid() && Sized(g, env, s) && g.IsVertex(v) && g.IsVertex(w)
    ensures w != v && w !in g.wires[v] ==> Computed(g, env, s, v).slew[w] == s.slew[w]
    ensures w != v ==> Computed(g, env, s, v).delays[w] == s.delays[w]
    ensures Sized(g, env, Computed(g, env, s, v))
  {
    hide Levelized, Result;
  }

  /** A visit settles its vertex: what it starts from is not among what it computes. */
  lemma VisitSettles(g: Design, env: seq<int>, s: Store, v: int)
    requires g.Valid() && Sized(g, env, s) && g.Computes(v)
    ensures Sized(g, env, Computed(g, env, s, v)) && Settled(g, env, Computed(g, env, s, v), v)
  {
    hide Levelized;
    ResultFits(g, env, s, v);
    GatesInRange(g, v);
    WiresInRange(g, v);
    var s' := Computed(g, env, s, v);
    forall i | 0 <= i < |g.gates[v]|
      ensures s'.slew[g.gates[v][i]] == s.slew[g.gates[v][i]]
    {
      FaninApart(g, v, i);
    }
    assert Fanin(s'.slew, g.gates[v]) == Fanin(s.slew, g.gates[v]);
    var o := Result(g, env, s, v);
    forall i | 0 <= i < |g.wires[v]|
      ensures s'.slew[g.wires[v][i]] == o.loads[i]
    {
      LoadPlace(g, v, i);
    }
  }

  lemma FaninApart(g: Design, v: int, i: nat)
    requires g.Valid() && g.IsVertex(v) && i < |g.gates[v]|
    ensures g.gates[v][i] != v && g.gates[v][i] !in g.wires[v]
  {
    hide Levelized;
    var u := g.gates[v][i];
    GateAt(g, v, i);
    if u in g.wires[v] {
      WireToLoad(g, v, u);
    }
  }

  /** A load of w is not computed at another vertex. */
  lemma OtherLoad(g: Design, w: int, i: nat, v: int)
    requires g.Valid() && g.IsVertex(w) && i < |g.wires[w]| && g.Computes(v) && v != w
    ensures g.wires[w][i] != v && g.wires[w][i] !in g.wires[v]
  {
    hide Levelized;
    WireAt(g, w, i);
    if g.wires[w][i] in g.wires[v] {
      var j :| 0 <= j < |g.wires[v]| && g.wires[v][j] == g.wires[w][i];
      WiresApart(g, w, i, v, j);
    }
  }

  /** The gate edges of w start with the same slews. */
  ghost predicate SameStarts(g: Design, s: Store, s': Store, w: int)
    requires g.Valid() && g.IsVertex(w) && |s.slew| == |s'.slew| == |g.kind|
  {
    GatesInRange(g, w);
    forall i {:trigger g.gates[w][i]} :: 0 <= i < |g.gates[w]| ==> s'.slew[g.gates[w][i]] == s.slew[g.gates[w][i]]
  }

  /** A visit leaves another vertex settled, unless it changes a slew that that vertex
      starts from. */
  lemma VisitKeepsOther(g: Design, env: seq<int>, s: Store, v: int, w: int)
    requires g.Valid() && Sized(g, env, s) && g.IsVertex(v) && g.Computes(w) && v != w && Settled(g, env, s, w)
    requires SameStarts(g, s, Computed(g, env, s, v), w)
    ensures Sized(g, env, Computed(g, env, s, v)) && Settled(g, env, Computed(g, env, s, v), w)
  {
    hide Levelized;
    if g.kind[v] == Load {
      return;
    }
    ComputedFrame(g, env, s, v, w);
    hide Computed;
    var s' := Computed(g, env, s, v);
    GatesInRange(g, w);
    WiresInRange(g, w);
    assert Fanin(s'.slew, g.gates[w]) == Fanin(s.slew, g.gates[w]);
    if w in g.wires[v] {
      WireToLoad(g, v, w);
    }
    forall i | 0 <= i < |g.wires[w]|
      ensures s'.slew[g.wires[w][i]] == s.slew[g.wires[w][i]]
    {
      OtherLoad(g, w, i, v);
      ComputedFrame(g, env, s, v, g.wires[w][i]);
    }
  }
}
