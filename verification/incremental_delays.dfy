/** Why a worklist that only follows changed slews computes the same delays as a run from
    scratch, and for which graphs it does. */
module IncrementalDelays {
  import opened DelayGraph
  import FiniteSets

  /** v will be visited, or a vertex that its gate edges start from will be. */
  ghost predicate Pending(g: Design, queue: set<int>, v: int) {
    v in queue || (0 <= v < |g.gates| && exists u :: u in g.gates[v] && u in queue)
  }

  /** Whatever is not stale is settled or will be visited. */
  ghost predicate SettledOrPending(g: Design, env: seq<int>, s: Store, stale: set<int>, queue: set<int>) {
    && g.Valid() && Sized(g, env, s)
    && forall v {:trigger g.Computes(v)} :: g.Computes(v) && v !in stale ==>
         Settled(g, env, s, v) || Pending(g, queue, v)
  }

  /** A stale vertex is queued as soon as a vertex that drives it is not stale. */
  ghost predicate StaleReached(g: Design, stale: set<int>, queue: set<int>) {
    forall u, v {:trigger g.Drives(u, v)} :: g.IsVertex(u) && g.IsVertex(v) && g.Drives(u, v) && v in stale ==>
         u in stale || v in queue
  }

  /** No gate edge starts at a driver that also has wires to loads. */
  ghost predicate NoGateBesideWires(g: Design) {
    && |g.gates| == |g.kind| && |g.wires| == |g.kind|
    && forall v, w {:trigger v in g.gates[w]} ::
         g.IsVertex(v) && g.IsVertex(w) && g.kind[v] == Driver && v in g.gates[w] ==> |g.wires[v]| == 0
  }

  lemma DrivesUp(g: Design, u: int, v: int)
    requires g.Valid() && g.IsVertex(u) && g.IsVertex(v) && g.Drives(u, v)
    ensures g.level[u] < g.level[v] && !g.IsRoot(v)
  {
    hide Levelized;
    if v in g.wires[u] {
      WireToLoad(g, u, v);
    } else {
      GateFrom(g, v, u);
    }
  }

  /** A visit queues every vertex whose gate edges start at the visited vertex, ... */
  lemma GateFanoutQueued(g: Design, exist: bool, s: Store, s': Store, v: int, w: int)
    requires g.Valid() && g.IsVertex(v) && g.IsVertex(w) && |s.slew| == |s'.slew| == |g.kind|
    requires v in g.gates[w] && (exist ==> NoGateBesideWires(g))
    ensures w in Queued(g, exist, s, s', v)
  {
    hide Levelized;
  }

  /** ... and every load whose slew it changes. */
  lemma ChangedLoadQueued(g: Design, env: seq<int>, exist: bool, s: Store, v: int, u: int)
    requires g.Valid() && Sized(g, env, s) && g.IsVertex(v) && u in g.wires[v] && g.IsVertex(u)
    requires Sized(g, env, Computed(g, env, s, v)) && Computed(g, env, s, v).slew[u] != s.slew[u]
    ensures u in Queued(g, exist, s, Computed(g, env, s, v), v)
  {
    hide Levelized, Computed;
  }

  /** A visit keeps every other vertex settled or pending. */
  lemma OtherStays(g: Design, env: seq<int>, exist: bool, s: Store, queue: set<int>, v: int, w: int)
    requires g.Valid() && Sized(g, env, s) && g.IsVertex(v) && g.Computes(w) && w != v && (exist ==>
              NoGateBesideWires(g))
    requires Settled(g, env, s, w) || Pending(g, queue, w)
    requires Sized(g, env, Computed(g, env, s, v))
    ensures var s' := Computed(g, env, s, v);
            Settled(g, env, s', w) || Pending(g, queue - {v} + Queued(g, exist, s, s', v), w)
  {
    hide Levelized, Computed, Queued, Settled;
    GatesInRange(g, w);
    var s' := Computed(g, env, s, v);
    var queue' := queue - {v} + Queued(g, exist, s, s', v);
    if v in g.gates[w] {
      GateFanoutQueued(g, exist, s, s', v, w);
    } else if Pending(g, queue, w) {
      if w !in queue {
        var u :| u in g.gates[w] && u in queue;
        assert u in queue';
      }
    } else if !SameStarts(g, s, s', w) {
      var i :| 0 <= i < |g.gates[w]| && s'.slew[g.gates[w][i]] != s.slew[g.gates[w][i]];
      var u := g.gates[w][i];
      ComputedFrame(g, env, s, v, u);
      ChangedLoadQueued(g, env, exist, s, v, u);
      assert u in g.gates[w] && u in queue';
    } else {
      VisitKeepsOther(g, env, s, v, w);
    }
  }

  /** A visit to v, queued or not, keeps the invariant. */
  lemma VisitKeeps(g: Design, env: seq<int>, exist: bool, s: Store, stale: set<int>, queue: set<int>, v: int)
    requires SettledOrPending(g, env, s, stale, queue) && StaleReached(g, stale, queue) && g.IsVertex(v)
    requires exist ==> NoGateBesideWires(g) && stale == {}
    ensures Sized(g, env, Computed(g, env, s, v))
    ensures var s' := Computed(g, env, s, v); var queue' := queue - {v} + Queued(g, exist, s, s', v);
            SettledOrPending(g, env, s', stale - {v}, queue') && StaleReached(g, stale - {v}, queue')
  {
    hide Levelized, Computed, Settled;
    ComputedFrame(g, env, s, v, v);
    var s' := Computed(g, env, s, v);
    var queue' := queue - {v} + Queued(g, exist, s, s', v);
    forall w | g.Computes(w) && w !in stale - {v}
      ensures Settled(g, env, s', w) || Pending(g, queue', w)
    {
      if w == v {
        VisitSettles(g, env, s, v);
      } else {
        OtherStays(g, env, exist, s, queue, v, w);
      }
    }
  }

  /** With nothing queued, nothing is stale: staleness would go back to a root. */
  lemma {:induction false} NothingStale(g: Design, stale: set<int>, v: int)
    requires g.Valid() && StaleReached(g, stale, {}) && g.IsVertex(v)
    requires forall r {:trigger g.IsRoot(r)} :: g.IsRoot(r) ==> r !in stale
    ensures v !in stale
    decreases g.level[v]
  {
    hide Levelized;
    if v in stale {
      var u := SomeFanin(g, v);
      DrivesUp(g, u, v);
      NothingStale(g, stale, u);
    }
  }

  /** The run has ended. */
  lemma AllDone(g: Design, env: seq<int>, s: Store, stale: set<int>)
    requires SettledOrPending(g, env, s, stale, {}) && StaleReached(g, stale, {})
    requires forall r {:trigger g.IsRoot(r)} :: g.IsRoot(r) ==> r !in stale
    ensures AllSettled(g, env, s)
  {
    hide Levelized, Settled;
    forall v | g.Computes(v)
      ensures Settled(g, env, s, v)
    {
      NothingStale(g, stale, v);
    }
  }

  // ---------------------------------------------------------------------------
  // Order of visits

  /** The vertices visited so far in a run lie at or below the level of every queued one. */
  ghost predicate Below(g: Design, visited: set<int>, queue: set<int>) {
    && |g.level| == |g.kind|
    && (forall d {:trigger d in visited} :: d in visited ==> g.IsVertex(d))
    && (forall q {:trigger q in queue} :: q in queue ==> g.IsVertex(q) && q !in visited)
    && forall d, q {:trigger d in visited, q in queue} :: d in visited && q in queue ==> g.level[d] <= g.level[q]
  }

  lemma BelowNext(g: Design, exist: bool, s: Store, s': Store, visited: set<int>, queue: set<int>, v: int)
    requires g.Valid() && Below(g, visited, queue) && v in queue && |s.slew| == |s'.slew| == |g.kind|
    requires forall q {:trigger q in queue} :: q in queue ==> g.level[v] <= g.level[q]
    ensures Below(g, visited + {v}, queue - {v} + Queued(g, exist, s, s', v))
  {
    hide Levelized;
    forall q | q in Queued(g, exist, s, s', v)
      ensures g.level[v] < g.level[q]
    {
      DrivesUp(g, v, q);
    }
  }

  lemma VisitedBound(g: Design, visited: set<int>, queue: set<int>)
    requires Below(g, visited, queue)
    ensures |visited| <= |g.kind|
  {
    FiniteSets.SubsetSize(visited, FiniteSets.Below(|g.kind|));
  }

  // ---------------------------------------------------------------------------
  // Incremental runs, and the graphs for which they are right

  /** Visiting queued vertices one by one, in any order, k visits empty the queue and leave
      the store s'. */
  ghost predicate RunsIn(g: Design, env: seq<int>, s: Store, queue: set<int>, s': Store, k: nat)
    decreases k
  {
    && g.Valid() && Sized(g, env, s)
    && if k == 0 then queue == {} && s' == s
       else exists v :: v in queue && VisitThenRuns(g, env, s, queue, s', k, v)
  }

  ghost predicate VisitThenRuns(g: Design, env: seq<int>, s: Store, queue: set<int>, s': Store, k: nat, v: int)
    requires k > 0 && g.Valid() && Sized(g, env, s)
    decreases k, 0
  {
    && g.IsVertex(v) && Sized(g, env, Computed(g, env, s, v))
    && var s1 := Computed(g, env, s, v);
       RunsIn(g, env, s1, queue - {v} + Queued(g, true, s, s1, v), s', k - 1)
  }

  lemma {:induction false} RunSettles(g: Design, env: seq<int>, s: Store, queue: set<int>, s': Store, k: nat)
    requires NoGateBesideWires(g) && SettledOrPending(g, env, s, {}, queue) && RunsIn(g, env, s, queue, s', k)
    ensures AllSettled(g, env, s')
    decreases k
  {
    hide Levelized, Computed, Queued;
    if k > 0 {
      var v :| v in queue && VisitThenRuns(g, env, s, queue, s', k, v);
      VisitKeeps(g, env, true, s, {}, queue, v);
      var s1 := Computed(g, env, s, v);
      assert {} - {v} == {};
      RunSettles(g, env, s1, queue - {v} + Queued(g, true, s, s1, v), s', k - 1);
    }
  }

  function With(g: Design, find: (int, int, seq<Slew>) -> Outcome): Design {
    g.(find := find)
  }

  /** Whatever the calculator and the design around the graph, an incremental run ends with
      everything settled. */
  ghost predicate AlwaysSettles(g: Design) {
    forall find, env, s, queue, s', k {:trigger RunsIn(With(g, find), env, s, queue, s', k)} ::
      SettledOrPending(With(g, find), env, s, {}, queue) && RunsIn(With(g, find), env, s, queue, s', k) ==>
        AllSettled(With(g, find), env, s')
  }

  /** The calculator for which driver v's own slew follows the design while its loads' slews
      do not, and every gate's delays are the slews it starts from. */
  function OwnSlewOnly(g: Design, v: int): (int, int, seq<Slew>) -> Outcome {
    (x, e, f) => Outcome(if x == v then [e as real] else [0.0],
        seq(if 0 <= x < |g.wires| then |g.wires[x]| else 0, i => [0.0]), f)
  }

  function Resting(g: Design): Store
    requires |g.gates| == |g.kind|
  {
    Store(seq(|g.kind|, v => [0.0]), seq(|g.kind|, v requires 0 <= v < |g.kind| => seq(|g.gates[v]|, i => [0.0])))
  }

  /** Another calculator that fits the loads gives a valid design as well. */
  lemma WithValid(g: Design, find: (int, int, seq<Slew>) -> Outcome)
    requires g.Valid()
    requires forall v, e, f {:trigger find(v, e, f)} :: g.IsVertex(v) ==> |find(v, e, f).loads| == |g.wires[v]|
    ensures With(g, find).Valid()
  {
    hide Levelized;
    var g' := With(g, find);
    forall v, e, f | g'.IsVertex(v)
      ensures g'.FitsLoads(v, e, f)
    {
      assert |find(v, e, f).loads| == |g.wires[v]|;
    }
  }

  lemma OwnSlewValid(g: Design, v: int)
    requires g.Valid()
    ensures With(g, OwnSlewOnly(g, v)).Valid()
  {
    WithValid(g, OwnSlewOnly(g, v));
  }

  lemma RestingSettled(g: Design, v: int, w: int, env: seq<int>)
    requires g.Valid() && With(g, OwnSlewOnly(g, v)).Valid() && |env| == |g.kind|
    requires g.Computes(w) && (w == v ==> env[v] == 0)
    ensures Settled(With(g, OwnSlewOnly(g, v)), env, Resting(g), w)
  {
    var g', s := With(g, OwnSlewOnly(g, v)), Resting(g);
    GatesInRange(g, w);
    assert Fanin(s.slew, g.gates[w]) == s.delays[w];
  }

  /** After a change at v the run visits v and stops, although the delays of w start from
      v's slew. */
  lemma StopsShort(g: Design, v: int, w: int) returns (env: seq<int>)
    requires g.Valid() && g.IsVertex(v) && g.IsVertex(w) && g.kind[v] == Driver && v in g.gates[w] && |g.wires[v]| > 0
    requires With(g, OwnSlewOnly(g, v)).Valid()
    ensures var g' := With(g, OwnSlewOnly(g, v));
            && Sized(g', env, Resting(g)) && SettledOrPending(g', env, Resting(g), {}, {v})
            && RunsIn(g', env, Resting(g), {v}, Computed(g', env, Resting(g), v), 1)
            && !AllSettled(g', env, Computed(g', env, Resting(g), v))
  {
    var g', s := With(g, OwnSlewOnly(g, v)), Resting(g);
    hide Levelized, Computed, Queued, Settled;
    env := seq(|g.kind|, x => if x == v then 1 else 0);
    forall x | g'.Computes(x)
      ensures Settled(g', env, s, x) || Pending(g', {v}, x)
    {
      if x != v {
        RestingSettled(g, v, x, env);
      }
    }
    ComputedFrame(g', env, s, v, v);
    var s1 := Computed(g', env, s, v);
    NothingQueued(g, v, env);
    assert {v} - {v} + Queued(g', true, s, s1, v) == {};
    assert RunsIn(g', env, s1, {}, s1, 0);
    assert VisitThenRuns(g', env, s, {v}, s1, 1, v);
    NotSettled(g, v, w, env);
  }

  lemma ShortSlews(g: Design, v: int, env: seq<int>, u: int)
    requires g.Valid() && With(g, OwnSlewOnly(g, v)).Valid() && |env| == |g.kind| && g.IsVertex(v)
           && g.kind[v] == Driver && env[v] == 1
    requires g.IsVertex(u)
    ensures Computed(With(g, OwnSlewOnly(g, v)), env, Resting(g), v).slew[u] == if u == v then [1.0] else [0.0]
  {
    var g', s := With(g, OwnSlewOnly(g, v)), Resting(g);
    var o := Result(g', env, s, v);
    assert o.slew == [1.0] && |o.loads| == |g.wires[v]|;
    assert forall i :: 0 <= i < |o.loads| ==> o.loads[i] == [0.0];
  }

  lemma NothingQueued(g: Design, v: int, env: seq<int>)
    requires g.Valid() && With(g, OwnSlewOnly(g, v)).Valid() && |env| == |g.kind| && g.IsVertex(v)
           && g.kind[v] == Driver && env[v] == 1
    requires |g.wires[v]| > 0
    ensures var g' := With(g, OwnSlewOnly(g, v));
            Queued(g', true, Resting(g), Computed(g', env, Resting(g), v), v) == {}
  {
    var g', s := With(g, OwnSlewOnly(g, v)), Resting(g);
    var s1 := Computed(g', env, s, v);
    forall u | 0 <= u < |g.kind| && g'.Drives(v, u)
      ensures !Changed(g', s, s1, v, u)
    {
      DrivesUp(g', v, u);
      ShortSlews(g, v, env, u);
    }
  }

  lemma NotSettled(g: Design, v: int, w: int, env: seq<int>)
    requires g.Valid() && With(g, OwnSlewOnly(g, v)).Valid() && |env| == |g.kind| && g.IsVertex(v)
           && g.kind[v] == Driver && env[v] == 1
    requires g.IsVertex(w) && v in g.gates[w]
    ensures var g' := With(g, OwnSlewOnly(g, v)); !AllSettled(g', env, Computed(g', env, Resting(g), v))
  {
    var g', s := With(g, OwnSlewOnly(g, v)), Resting(g);
    var s1 := Computed(g', env, s, v);
    ComputedFrame(g', env, s, v, w);
    var i :| 0 <= i < |g.gates[w]| && g.gates[w][i] == v;
    GateAt(g, w, i);
    ShortSlews(g, v, env, v);
    GatesInRange(g', w);
    assert s1.delays[w][i] == [0.0] && Fanin(s1.slew, g.gates[w])[i] == [1.0];
    assert g'.Computes(w);
    assert !Settled(g', env, s1, w);
  }

  /** Incremental runs are right for every calculator exactly when no gate edge starts at a
      driver that also has wires to loads. */
  lemma IncrementalExactly(g: Design)
    requires g.Valid()
    ensures AlwaysSettles(g) <==> NoGateBesideWires(g)
  {
    if NoGateBesideWires(g) {
      forall find, env, s, queue, s', k |
        SettledOrPending(With(g, find), env, s, {}, queue) && RunsIn(With(g, find), env, s, queue, s', k)
        ensures AllSettled(With(g, find), env, s')
      {
        RunSettles(With(g, find), env, s, queue, s', k);
      }
    } else {
      var v, w :| g.IsVertex(v) && g.IsVertex(w) && g.kind[v] == Driver && v in g.gates[w] && |g.wires[v]| > 0;
      OwnSlewValid(g, v);
      var env := StopsShort(g, v, w);
    }
  }
}
