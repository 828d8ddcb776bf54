/** The delay calculation over the timing graph: a levelized worklist that recomputes what a
    change can reach. */
module GraphDelayCalculation {
  import opened DelayGraph
  import opened IncrementalDelays
  import FiniteSets

  /** env stands for the state of the design around every vertex that its delays depend on;
      slew and delays are what the graph stores. */
  class GraphDelayCalc {
    const g: Design
    var env: seq<int>
    var slew: seq<Slew>
    var delays: seq<seq<Slew>>
    var queue: set<int>
    var invalidDelays: set<int>
    var delaysExist: bool
    var delaysSeeded: bool

    ghost function Now(): Store
      reads this
    {
      Store(slew, delays)
    }

    ghost predicate Shaped()
      reads this
    {
      && g.Valid() && Sized(g, env, Now())
      && (forall v {:trigger v in invalidDelays} :: v in invalidDelays ==> g.IsVertex(v))
    }

    /** Between calls nothing is queued, and once delays exist everything is settled except
        what an invalid vertex will bring up to date. */
    ghost predicate Valid()
      reads this
    {
      && Shaped() && queue == {} && delaysSeeded == delaysExist && (!delaysExist ==> invalidDelays == {})
      && (delaysExist ==> SettledOrPending(g, env, Now(), {}, invalidDelays))
    }

    constructor (g: Design, env: seq<int>)
      requires g.Valid() && |env| == |g.kind|
      ensures Valid() && this.g == g && this.env == env && !delaysExist
    {
      this.g, this.env := g, env;
      slew := seq(|g.kind|, v => []);
      delays := seq(|g.kind|, v => []);
      queue, invalidDelays, delaysExist, delaysSeeded := {}, {}, false, false;
    }

    /** Forgets all delays. */
    method DelaysInvalid()
      requires Valid()
      modifies this
      ensures Valid() && !delaysExist && env == old(env) && Now() == old(Now())
    {
      delaysExist := false;
      delaysSeeded := false;
      queue := {};
      invalidDelays := {};
    }

    /** Marks v to be recomputed. */
    method DelayInvalid(v: int)
      requires Valid() && g.IsVertex(v)
      modifies this
      ensures Valid() && env == old(env) && Now() == old(Now()) && delaysExist == old(delaysExist)
      ensures invalidDelays == old(invalidDelays) + if delaysExist then {v} else {}
    {
      if delaysExist {
        ghost var before := invalidDelays;
        invalidDelays := invalidDelays + {v};
        MorePending(g, env, Now(), before, invalidDelays, v);
      }
    }

    /** The design around v changes, and v is marked. */
    method DesignChanged(v: int, e: int)
      requires Valid() && g.IsVertex(v)
      modifies this
      ensures Valid() && env == old(env)[v := e] && Now() == old(Now()) && delaysExist == old(delaysExist)
      ensures invalidDelays == old(invalidDelays) + if delaysExist then {v} else {}
    {
      ghost var before, old_env := invalidDelays, env;
      env := env[v := e];
      if delaysExist {
        invalidDelays := invalidDelays + {v};
        ChangePending(g, old_env, env, Now(), before, v);
      }
    }

    // -------------------------------------------------------------------------
    // One vertex

    /** Stores the outcome at v: its slew and delays, and the slews of its loads. */
    method Annotate(v: int)
      requires Shaped() && g.Computes(v)
      modifies `slew, `delays
      ensures Now() == Computed(g, env, old(Now()), v)
    {
      ghost var s := Now();
      ResultFits(g, env, s, v);
      var from := g.gates[v];
      GatesInRange(g, v);
      var o := g.find(v, env[v], Fanin(slew, from));
      slew := slew[v := o.slew];
      delays := delays[v := o.delays];
      for i := 0 to |g.wires[v]|
        modifies `slew
        invariant |slew| == |g.kind|
        invariant forall u {:trigger slew[u]} :: 0 <= u < |slew| ==>
          slew[u] == (if u == v then o.slew
                      else if u in g.wires[v][..i] then o.loads[Position(g.wires[v], u)]
                      else s.slew[u])
      {
        LoadPlace(g, v, i);
        slew := slew[g.wires[v][i] := o.loads[i]];
      }
      assert g.wires[v][..|g.wires[v]|] == g.wires[v];
      assert Now() == Placed(g, s, v, o);
    }

    /** The slews of the loads of v. */
    method LoadSlews(v: int) returns (slews: seq<Slew>)
      requires Shaped() && g.IsVertex(v)
      ensures |slews| == |g.wires[v]| && forall i {:trigger slews[i]} :: 0 <= i < |slews| ==>
                slews[i] == slew[g.wires[v][i]]
    {
      slews := [];
      for i := 0 to |g.wires[v]|
        invariant |slews| == i && forall j {:trigger slews[j]} :: 0 <= j < i ==> slews[j] == slew[g.wires[v][j]]
      {
        slews := slews + [slew[g.wires[v][i]]];
      }
    }

    /** The place of u among the loads of v, 0 if it is not one of them. */
    method LoadIndex(v: int, u: int) returns (k: nat)
      requires Shaped() && g.IsVertex(v)
      ensures k == if u in g.wires[v] then Position(g.wires[v], u) else 0
    {
      k := 0;
      while k < |g.wires[v]| && g.wires[v][k] != u
        invariant k <= |g.wires[v]| && u !in g.wires[v][..k]
      {
        k := k + 1;
      }
      if k == |g.wires[v]| {
        assert g.wires[v][..k] == g.wires[v];
        k := 0;
      } else {
        LoadPlace(g, v, k);
      }
    }

    method LoadSlewChanged(v: int, u: int, prev: seq<Slew>, ghost s: Store) returns (changed: bool)
      requires Shaped() && g.IsVertex(v) && g.IsVertex(u) && |s.slew| == |g.kind|
      requires |prev| == |g.wires[v]| && forall i {:trigger prev[i]} :: 0 <= i < |prev| ==>
                prev[i] == s.slew[g.wires[v][i]]
      ensures changed == Changed(g, s, Now(), v, u)
    {
      if |prev| == 0 {
        return true;
      }
      var k := LoadIndex(v, u);
      return slew[u] != prev[k];
    }

    /** Queues the fanouts of v: of a driver, while delays exist, only the changed ones. */
    method EnqueueFanouts(v: int, prev: seq<Slew>, ghost s: Store)
      requires Shaped() && g.IsVertex(v) && |s.slew| == |g.kind|
      requires g.kind[v] == Driver && delaysExist ==>
                 |prev| == |g.wires[v]| && forall i {:trigger prev[i]} :: 0 <= i < |prev| ==>
                     prev[i] == s.slew[g.wires[v][i]]
      modifies `queue
      ensures Shaped() && queue == old(queue) + Queued(g, delaysExist, s, Now(), v)
    {
      for u := 0 to |g.kind|
        modifies `queue
        invariant forall x {:trigger x in queue} :: x in queue <==>
                  x in old(queue) || (x in Queued(g, delaysExist, s, Now(), v) && x < u)
      {
        if g.Drives(v, u) {
          var changed := true;
          if g.kind[v] == Driver && delaysExist {
            changed := LoadSlewChanged(v, u, prev, s);
          }
          if changed {
            queue := queue + {u};
          }
        }
      }
    }

    /** Visits one vertex: seeds a root, finds the delays of a driver, passes through a load. */
    method FindVertexDelay(v: int)
      requires Shaped() && g.IsVertex(v)
      modifies `slew, `delays, `queue
      ensures Shaped() && Now() == Computed(g, env, old(Now()), v)
      ensures queue == old(queue) + Queued(g, delaysExist, old(Now()), Now(), v)
    {
      hide Levelized, Settled;
      ghost var s := Now();
      ComputedFrame(g, env, s, v, v);
      var prev := [];
      if g.kind[v] == Driver && delaysExist {
        prev := LoadSlews(v);
      }
      if g.kind[v] != Load {
        Annotate(v);
      }
      EnqueueFanouts(v, prev, s);
    }

    // -------------------------------------------------------------------------
    // Runs

    /** Seeds every root and queues what the roots drive.  Nothing but the roots is up to
        date afterwards. */
    method SeedRootSlews() returns (ghost stale: set<int>)
      requires Shaped() && !delaysExist && queue == {}
      modifies `slew, `delays, `queue
      ensures Shaped() && QueueInGraph(g, queue)
      ensures SettledOrPending(g, env, Now(), stale, queue) && StaleReached(g, stale, queue)
      ensures forall r {:trigger g.IsRoot(r)} :: g.IsRoot(r) ==> r !in stale
    {
      hide Levelized, Computed, Queued, Settled;
      stale := FiniteSets.Below(|g.kind|);
      for v := 0 to |g.kind|
        modifies `slew, `delays, `queue
        invariant Shaped() && QueueInGraph(g, queue) && NoRoots(g, queue)
        invariant SettledOrPending(g, env, Now(), stale, queue) && StaleReached(g, stale, queue)
        invariant forall r {:trigger g.IsRoot(r)} :: g.IsRoot(r) && r < v ==> r !in stale
      {
        if g.IsRoot(v) {
          SeedRootSlew(v, stale);
          stale := stale - {v};
        }
      }
    }

    method SeedRootSlew(v: int, ghost stale: set<int>)
      requires Shaped() && !delaysExist && g.IsRoot(v) && QueueInGraph(g, queue) && NoRoots(g, queue)
      requires SettledOrPending(g, env, Now(), stale, queue) && StaleReached(g, stale, queue)
      modifies `slew, `delays, `queue
      ensures Shaped() && QueueInGraph(g, queue) && NoRoots(g, queue)
      ensures SettledOrPending(g, env, Now(), stale - {v}, queue) && StaleReached(g, stale - {v}, queue)
    {
      hide Levelized, Computed, Queued, Settled;
      ghost var s, before := Now(), queue;
      VisitKeeps(g, env, false, s, stale, queue, v);
      FindVertexDelay(v);
      QueuedInGraph(g, false, s, Now(), v);
      assert before - {v} + Queued(g, false, s, Now(), v) == queue;
    }

    method SeedInvalidDelays()
      requires Shaped()
      modifies `queue, `invalidDelays
      ensures Shaped() && queue == old(queue) + old(invalidDelays) && invalidDelays == {}
    {
      queue := queue + invalidDelays;
      invalidDelays := {};
    }

    /** Visits the queued vertices from the lowest level up until none is left. */
    method VisitQueue(ghost stale0: set<int>)
      requires Shaped() && QueueInGraph(g, queue)
      requires SettledOrPending(g, env, Now(), stale0, queue) && StaleReached(g, stale0, queue)
      requires forall r {:trigger g.IsRoot(r)} :: g.IsRoot(r) ==> r !in stale0
      requires delaysExist ==> NoGateBesideWires(g) && stale0 == {}
      modifies `slew, `delays, `queue
      ensures Shaped() && queue == {} && AllSettled(g, env, Now())
    {
      hide Levelized, Computed, Queued, Settled, SettledOrPending, StaleReached;
      ghost var stale, visited := stale0, {};
      while queue != {}
        invariant Shaped() && Below(g, visited, queue) && |visited| <= |g.kind|
        invariant SettledOrPending(g, env, Now(), stale, queue) && StaleReached(g, stale, queue) && stale <= stale0
        decreases |g.kind| - |visited|
      {
        ghost var low := LowestExists(g, queue);
        var v :| v in queue && forall q :: q in queue ==> g.level[v] <= g.level[q];
        ghost var s, before := Now(), queue;
        VisitKeeps(g, env, delaysExist, s, stale, queue, v);
        queue := queue - {v};
        FindVertexDelay(v);
        BelowNext(g, delaysExist, s, Now(), visited, before, v);
        stale := stale - {v};
        visited := visited + {v};
        VisitedBound(g, visited, queue);
      }
      AllDone(g, env, Now(), stale);
    }

    /** Brings every slew and delay up to date. */
    method FindDelays()
      requires Valid() && (delaysExist ==> NoGateBesideWires(g))
      modifies this
      ensures Valid() && delaysExist && invalidDelays == {} && env == old(env)
      ensures AllSettled(g, env, Now())
    {
      ghost var stale := {};
      if !delaysSeeded {
        queue := {};
        stale := SeedRootSlews();
        delaysSeeded := true;
      }
      if delaysExist {
        SeedInvalidDelays();
      }
      VisitQueue(stale);
      delaysExist := true;
    }
  }

  /** However the delays were brought up to date, they are those of a new calculation. */
  method FindDelaysAfresh(c: GraphDelayCalc) returns (anew: GraphDelayCalc)
    requires c.Valid() && AllSettled(c.g, c.env, c.Now())
    ensures anew.g == c.g && anew.env == c.env && anew.slew == c.slew
    ensures forall v {:trigger c.g.Computes(v)} :: c.g.Computes(v) ==>
              0 <= v < |c.delays| && v < |anew.delays| && anew.delays[v] == c.delays[v]
  {
    anew := new GraphDelayCalc(c.g, c.env);
    anew.FindDelays();
    SettledUnique(c.g, c.env, anew.Now(), c.Now());
  }

  ghost predicate QueueInGraph(g: Design, queue: set<int>) {
    forall q {:trigger q in queue} :: q in queue ==> g.IsVertex(q)
  }

  ghost predicate NoRoots(g: Design, queue: set<int>) {
    forall q {:trigger q in queue} :: q in queue ==> !g.IsRoot(q)
  }

  lemma QueuedInGraph(g: Design, exist: bool, s: Store, s': Store, v: int)
    requires g.Valid() && g.IsVertex(v) && |s.slew| == |s'.slew| == |g.kind|
    ensures QueueInGraph(g, Queued(g, exist, s, s', v)) && NoRoots(g, Queued(g, exist, s, s', v))
  {
    hide Levelized;
    forall q | q in Queued(g, exist, s, s', v)
      ensures g.IsVertex(q) && !g.IsRoot(q)
    {
      DrivesUp(g, v, q);
    }
  }

  ghost predicate Lowest(g: Design, queue: set<int>, v: int)
    requires |g.level| == |g.kind| && QueueInGraph(g, queue) && g.IsVertex(v)
  {
    forall q {:trigger q in queue} :: q in queue ==> g.level[v] <= g.level[q]
  }

  lemma {:induction false} LowestExists(g: Design, queue: set<int>) returns (v: int)
    requires queue != {} && |g.level| == |g.kind| && QueueInGraph(g, queue)
    ensures v in queue && Lowest(g, queue, v)
  {
    var x := FiniteSets.SomeMember(queue);
    var rest := queue - {x};
    v := x;
    if rest != {} {
      var low := LowestExists(g, rest);
      if g.level[low] < g.level[x] {
        v := low;
      }
    }
    forall q | q in queue
      ensures g.level[v] <= g.level[q]
    {
      assert q == x || q in rest;
    }
  }

  lemma MorePending(g: Design, env: seq<int>, s: Store, queue: set<int>, queue': set<int>, v: int)
    requires SettledOrPending(g, env, s, {}, queue) && queue' == queue + {v}
    ensures SettledOrPending(g, env, s, {}, queue')
  {
    hide Levelized, Settled;
    forall w | g.Computes(w)
      ensures Settled(g, env, s, w) || Pending(g, queue', w)
    {
      if Pending(g, queue, w) && w !in queue {
        var u :| u in g.gates[w] && u in queue;
        assert u in queue';
      }
    }
  }

  lemma ChangePending(g: Design, env: seq<int>, env': seq<int>, s: Store, queue: set<int>, v: int)
    requires SettledOrPending(g, env, s, {}, queue) && g.IsVertex(v) && |env'| == |env|
    requires forall w :: 0 <= w < |env| && w != v ==> env'[w] == env[w]
    ensures SettledOrPending(g, env', s, {}, queue + {v})
  {
    hide Levelized;
    forall w | g.Computes(w)
      ensures Settled(g, env', s, w) || Pending(g, queue + {v}, w)
    {
      if w != v && Pending(g, queue, w) && w !in queue {
        var u :| u in g.gates[w] && u in queue;
        assert u in queue + {v};
      }
    }
  }
}
