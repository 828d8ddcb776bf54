/** The delay calculator that the worklist calls, made of the merged arcs of each driver. */
module DriverOutcomes {
  import opened DelayGraph
  import opened IncrementalDelays
  import opened SlewMerging

  /** What is found at a driver: the annotated values of its net, the results of its enabled
      arcs, and the gate delays, which every arc keeps for itself. */
  datatype Case = Case(ann: Annotated, given: Net, arcs: seq<ArcResult>, gateDelays: seq<Slew>)

  ghost predicate CaseFits(c: Case, n: nat) {
    && Shaped(c.given, n) && AnnotatedShaped(c.ann, n)
    && forall i {:trigger c.arcs[i]} :: 0 <= i < |c.arcs| ==> c.arcs[i].to < 2
  }

  /** Merging all the scene's arcs, most extreme first if max, from the initial slew. */
  datatype Rule = Rule(max: bool, init: real)

  ghost function FinalDrvr(c: Case, n: nat, r: Rule, rf: nat): real
    requires CaseFits(c, n) && rf < 2
  {
    if c.ann.drvr[rf] then c.given.drvr[rf] else Best(r.max, r.init, Values(c.arcs, rf, Gate))
  }

  ghost function FinalLoad(c: Case, n: nat, r: Rule, rf: nat, k: nat): real
    requires CaseFits(c, n) && rf < 2 && k < n
  {
    if HasArc(c.arcs, rf) then LoadMerged(c.given, c.ann, r.max, r.init, c.arcs, rf, k)
    else if c.ann.load[rf][k] then c.given.load[rf][k] else 0.0
  }

  ghost function FinalWire(c: Case, n: nat, r: Rule, rf: nat, k: nat): real
    requires CaseFits(c, n) && rf < 2 && k < n
  {
    if c.ann.wire[rf][k] then c.given.wire[rf][k]
    else if HasArc(c.arcs, rf) then Best(r.max, r.init, Values(c.arcs, rf, WireOf(k))) else 0.0
  }

  /** The net after all arcs are merged. */
  ghost function FinalNet(c: Case, n: nat, r: Rule): Net
    requires CaseFits(c, n)
  {
    Net([FinalDrvr(c, n, r, 0), FinalDrvr(c, n, r, 1)],
        [seq(n, k requires 0 <= k < n => FinalLoad(c, n, r, 0, k)),
         seq(n, k requires 0 <= k < n => FinalLoad(c, n, r, 1, k))],
        [seq(n, k requires 0 <= k < n => FinalWire(c, n, r, 0, k)),
         seq(n, k requires 0 <= k < n => FinalWire(c, n, r, 1, k))])
  }

  /** It is what merging them leaves, and nothing else is. */
  lemma FinalNetOnly(c: Case, n: nat, r: Rule, s: Net)
    requires CaseFits(c, n)
    ensures Final(c.given, s, c.ann, n, r.max, r.init, c.arcs) <==> s == FinalNet(c, n, r)
  {
    FinalNetFinal(c, n, r);
    if Final(c.given, s, c.ann, n, r.max, r.init, c.arcs) {
      OrderIndependent(c.given, s, FinalNet(c, n, r), c.ann, n, r.max, r.init, c.arcs, c.arcs);
    }
  }

  lemma FinalNetFinal(c: Case, n: nat, r: Rule)
    requires CaseFits(c, n)
    ensures Final(c.given, FinalNet(c, n, r), c.ann, n, r.max, r.init, c.arcs)
  {
    hide HasArc, Best, Values, LoadMerged;
    var s := FinalNet(c, n, r);
    forall rf | 0 <= rf < 2
      ensures if HasArc(c.arcs, rf) then EdgeMerged(c.given, s, c.ann, n, r.max, r.init, c.arcs, rf)
              else EdgeEmpty(c.given, s, c.ann, n, r.init, rf)
    {
      if !HasArc(c.arcs, rf) {
        NoArcNoValues(c.arcs, rf, Gate, r.max, r.init);
      }
    }
  }

  lemma NoArcNoValues(arcs: seq<ArcResult>, rf: nat, pick: ArcResult -> real, max: bool, init: real)
    requires !HasArc(arcs, rf)
    ensures Best(max, init, Values(arcs, rf, pick)) == init
  {
    var values := Values(arcs, rf, pick);
    if |values| > 0 {
      ValuesAre(arcs, rf, pick, values[0]);
    }
  }

  /** What the worklist stores: slews by edge, the gate delays and then the wire delays. */
  function OutcomeOf(s: Net, n: nat, gateDelays: seq<Slew>): (o: Outcome)
    requires |s.drvr| == 2 && |s.load| == 2 && |s.wire| == 2
    requires |s.load[0]| == n && |s.load[1]| == n && |s.wire[0]| == n && |s.wire[1]| == n
    ensures |o.loads| == n
  {
    Outcome(s.drvr, seq(n, k requires 0 <= k < n => [s.load[0][k], s.load[1][k]]),
            gateDelays + seq(n, k requires 0 <= k < n => [s.wire[0][k], s.wire[1][k]]))
  }

  ghost function CaseOutcome(c: Case, n: nat, r: Rule): (o: Outcome)
    requires CaseFits(c, n)
    ensures |o.loads| == n
  {
    OutcomeOf(FinalNet(c, n, r), n, c.gateDelays)
  }

  /** Merging the arcs in place finds that outcome, whatever the net held where it is not
      annotated. */
  method FindOutcome(c: Case, n: nat, r: Rule, before: Net) returns (o: Outcome)
    requires CaseFits(c, n) && Shaped(before, n) && SameAnnotated(c.ann, n, before, c.given)
    ensures o == CaseOutcome(c, n, r) && |o.loads| == n && |o.delays| == |c.gateDelays| + n
    ensures o.slew == [FinalDrvr(c, n, r, 0), FinalDrvr(c, n, r, 1)]
    ensures forall k {:trigger o.loads[k]} :: 0 <= k < n ==>
              o.loads[k] == [FinalLoad(c, n, r, 0, k), FinalLoad(c, n, r, 1, k)]
    ensures o.delays[..|c.gateDelays|] == c.gateDelays
    ensures forall k {:trigger o.delays[|c.gateDelays| + k]} :: 0 <= k < n ==>
              o.delays[|c.gateDelays| + k] == [FinalWire(c, n, r, 0, k), FinalWire(c, n, r, 1, k)]
  {
    var d := new DriverNet(n, r.max, r.init, c.ann, before);
    d.FindDriverDelays(c.arcs);
    AnnotatedOnly(c, n, r, before, d.Now());
    FinalNetOnly(c, n, r, d.Now());
    o := OutcomeOf(Net(d.drvr, d.load, d.wire), n, c.gateDelays);
  }

  /** Two nets agree where values are annotated. */
  ghost predicate SameAnnotated(ann: Annotated, n: nat, s: Net, t: Net)
    requires AnnotatedShaped(ann, n) && Shaped(s, n) && Shaped(t, n)
  {
    forall rf {:trigger s.drvr[rf]} {:trigger s.load[rf]} {:trigger s.wire[rf]} :: 0 <= rf < 2 ==>
      && (ann.drvr[rf] ==> s.drvr[rf] == t.drvr[rf])
      && (forall k {:trigger s.load[rf][k]} :: 0 <= k < n && ann.load[rf][k] ==> s.load[rf][k] == t.load[rf][k])
      && (forall k {:trigger s.wire[rf][k]} :: 0 <= k < n && ann.wire[rf][k] ==> s.wire[rf][k] == t.wire[rf][k])
  }

  /** Only annotated values of the net before make a difference. */
  lemma AnnotatedOnly(c: Case, n: nat, r: Rule, before: Net, s: Net)
    requires CaseFits(c, n) && Shaped(before, n) && SameAnnotated(c.ann, n, before, c.given)
    requires Final(before, s, c.ann, n, r.max, r.init, c.arcs)
    ensures Final(c.given, s, c.ann, n, r.max, r.init, c.arcs)
  {
    hide HasArc, Best, Values;
    forall rf | 0 <= rf < 2
      ensures if HasArc(c.arcs, rf) then EdgeMerged(c.given, s, c.ann, n, r.max, r.init, c.arcs, rf)
              else EdgeEmpty(c.given, s, c.ann, n, r.init, rf)
    {
      assert before.drvr[rf] == before.drvr[rf];
      if HasArc(c.arcs, rf) {
        AnnotatedOnlyEdge(c, n, r, before, s, rf);
      }
    }
  }

  lemma AnnotatedOnlyEdge(c: Case, n: nat, r: Rule, before: Net, s: Net, rf: nat)
    requires CaseFits(c, n) && Shaped(before, n) && Shaped(s, n) && SameAnnotated(c.ann, n, before, c.given) && rf < 2
    requires EdgeMerged(before, s, c.ann, n, r.max, r.init, c.arcs, rf)
    ensures EdgeMerged(c.given, s, c.ann, n, r.max, r.init, c.arcs, rf)
  {
    hide HasArc, Best, Values;
    assert before.drvr[rf] == before.drvr[rf];
    forall k | 0 <= k < n
      ensures LoadMerged(before, c.ann, r.max, r.init, c.arcs, rf, k)
              == LoadMerged(c.given, c.ann, r.max, r.init, c.arcs, rf, k)
    {
      assert before.load[rf][k] == before.load[rf][k];
    }
  }

  /** Cases that differ in the order of their arcs only. */
  ghost predicate SameCase(c: Case, d: Case) {
    c.ann == d.ann && c.given == d.given && c.gateDelays == d.gateDelays && multiset(c.arcs) == multiset(d.arcs)
  }

  lemma SameCaseOutcome(c: Case, d: Case, n: nat, r: Rule)
    requires SameCase(c, d) && CaseFits(c, n)
    ensures CaseFits(d, n) && CaseOutcome(c, n, r) == CaseOutcome(d, n, r)
  {
    forall a
      ensures a in c.arcs <==> a in d.arcs
    {
      assert a in multiset(c.arcs) <==> a in multiset(d.arcs);
    }
    forall i | 0 <= i < |d.arcs|
      ensures d.arcs[i].to < 2
    {
      assert d.arcs[i] in c.arcs;
      var j :| 0 <= j < |c.arcs| && c.arcs[j] == d.arcs[i];
    }
    FinalNetFinal(c, n, r);
    FinalNetFinal(d, n, r);
    OrderIndependent(c.given, FinalNet(c, n, r), FinalNet(d, n, r), c.ann, n, r.max, r.init, c.arcs, d.arcs);
  }

  // ---------------------------------------------------------------------------
  // As the calculator of the worklist

  /** The case at every driver that is not a root: the annotations and the arcs follow from the driver, the design
      around it and the slews that its gate edges start with. */
  type Cases = (int, int, seq<Slew>) -> Case

  ghost predicate CasesFit(g: Design, cases: Cases) {
    forall v, e, f {:trigger cases(v, e, f)} :: g.IsVertex(v) && v < |g.wires| && g.kind[v] == Driver ==>
      CaseFits(cases(v, e, f), |g.wires[v]|)
  }

  ghost function FindAt(g: Design, cases: Cases, r: Rule, v: int, e: int, f: seq<Slew>): Outcome {
    if g.IsVertex(v) && v < |g.wires| && g.kind[v] == Driver && CaseFits(cases(v, e, f), |g.wires[v]|)
    then CaseOutcome(cases(v, e, f), |g.wires[v]|, r)
    else g.find(v, e, f)
  }

  /** The graph with the calculator that merges the arcs of each driver; roots are seeded as
      before. */
  ghost function Merging(g: Design, cases: Cases, r: Rule): Design {
    With(g, (v, e, f) => FindAt(g, cases, r, v, e, f))
  }

  /** It is a calculator that the worklist can call. */
  lemma MergingValid(g: Design, cases: Cases, r: Rule)
    requires g.Valid() && CasesFit(g, cases)
    ensures Merging(g, cases, r).Valid()
  {
    hide Levelized, CaseFits, CaseOutcome;
    var find: (int, int, seq<Slew>) -> Outcome := (v, e, f) => FindAt(g, cases, r, v, e, f);
    forall v, e, f | g.IsVertex(v)
      ensures |find(v, e, f).loads| == |g.wires[v]|
    {
      assert g.kind[v] == Driver ==> CaseFits(cases(v, e, f), |g.wires[v]|);
      assert g.FitsLoads(v, e, f);
    }
    WithValid(g, find);
  }

  /** With it the slews and delays that are up to date do not depend on the order of the arcs
      of any driver. */
  lemma MergingUnordered(g: Design, cases: Cases, others: Cases, r: Rule, env: seq<int>, s: Store, t: Store)
    requires g.Valid() && CasesFit(g, cases)
    requires forall v, e, f {:trigger cases(v, e, f)} :: SameCase(cases(v, e, f), others(v, e, f))
    requires AllSettled(Merging(g, cases, r), env, s) && AllSettled(Merging(g, others, r), env, t)
    ensures s.slew == t.slew
    ensures forall v {:trigger g.Computes(v)} :: g.Computes(v) ==> s.delays[v] == t.delays[v]
  {
    hide Levelized, Settled, SameCase, CaseFits;
    var g1, g2 := Merging(g, cases, r), Merging(g, others, r);
    MergingValid(g, cases, r);
    forall v | g1.Computes(v)
      ensures Settled(g1, env, t, v)
    {
      assert g2.Computes(v);
      MergingSettled(g, cases, others, r, env, t, v);
    }
    SettledUnique(g1, env, s, t);
    forall v | g.Computes(v)
      ensures s.delays[v] == t.delays[v]
    {
      assert g1.Computes(v);
    }
  }

  lemma MergingSettled(g: Design, cases: Cases, others: Cases, r: Rule, env: seq<int>, t: Store, v: int)
    requires g.Valid() && CasesFit(g, cases) && g.Computes(v)
    requires forall x, e, f {:trigger cases(x, e, f)} :: SameCase(cases(x, e, f), others(x, e, f))
    requires Merging(g, cases, r).Valid() && Merging(g, others, r).Valid()
    requires Sized(Merging(g, cases, r), env, t) && Sized(Merging(g, others, r), env, t)
    requires Settled(Merging(g, others, r), env, t, v)
    ensures Settled(Merging(g, cases, r), env, t, v)
  {
    hide Levelized, SameCase, CaseFits, CaseOutcome;
    GatesInRange(g, v);
    var e, f := env[v], Fanin(t.slew, g.gates[v]);
    if g.kind[v] == Driver {
      assert CaseFits(cases(v, e, f), |g.wires[v]|);
      SameCaseOutcome(cases(v, e, f), others(v, e, f), |g.wires[v]|, r);
    }
    assert Result(Merging(g, cases, r), env, t, v) == Result(Merging(g, others, r), env, t, v);
  }
}
