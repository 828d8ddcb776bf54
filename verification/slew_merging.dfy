/** How the delays of the arcs into one driver are merged, for one scene and one of minimum
    and maximum: the driver's slew, and the slew and the wire delay of every load. */
module SlewMerging {

  /** Edges are 0 (rise) and 1 (fall).  What the delay calculator finds for an arc. */
  datatype ArcResult = ArcResult(to: nat, gateSlew: real, loadSlews: seq<real>, wireDelays: seq<real>)

  /** a is more extreme than b. */
  predicate Greater(max: bool, a: real, b: real) { if max then a > b else a < b }

  function Merge(max: bool, current: real, v: real): real { if Greater(max, v, current) then v else current }

  /** Merging values one after the other. */
  function Best(max: bool, init: real, values: seq<real>): real {
    if |values| == 0 then init else Merge(max, Best(max, init, values[..|values| - 1]), values[|values| - 1])
  }

  /** The merged value is the most extreme of the values and the start: the largest for a
      maximum, the smallest for a minimum. */
  lemma {:induction false} BestIsExtreme(max: bool, init: real, values: seq<real>)
    ensures if max then init <= Best(max, init, values) else Best(max, init, values) <= init
    ensures forall v {:trigger v in values} :: v in values ==>
              if max then v <= Best(max, init, values) else Best(max, init, values) <= v
    ensures Best(max, init, values) == init || Best(max, init, values) in values
  {
    if |values| > 0 {
      var front, last := values[..|values| - 1], values[|values| - 1];
      BestIsExtreme(max, init, front);
      assert values == front + [last];
      assert last in values && forall v :: v in front ==> v in values;
    }
  }

  /** So it does not depend on the order. */
  lemma BestUnordered(max: bool, init: real, values: seq<real>, others: seq<real>)
    requires forall v {:trigger v in values} {:trigger v in others} :: v in values <==> v in others
    ensures Best(max, init, values) == Best(max, init, others)
  {
    BestIsExtreme(max, init, values);
    BestIsExtreme(max, init, others);
  }

  /** What one kind of result the arcs to an edge have, in order. */
  function Values(arcs: seq<ArcResult>, rf: nat, pick: ArcResult -> real): seq<real> {
    if |arcs| == 0 then [] else
      Values(arcs[..|arcs| - 1], rf, pick) + if arcs[|arcs| - 1].to == rf then [pick(arcs[|arcs| - 1])] else []
  }

  lemma {:induction false} ValuesAre(arcs: seq<ArcResult>, rf: nat, pick: ArcResult -> real, x: real)
    ensures x in Values(arcs, rf, pick) <==> exists a :: a in arcs && a.to == rf && pick(a) == x
  {
    if |arcs| > 0 {
      var front, last := arcs[..|arcs| - 1], arcs[|arcs| - 1];
      ValuesAre(front, rf, pick, x);
      assert arcs == front + [last];
      assert last in arcs && forall a :: a in front ==> a in arcs;
    }
  }

  function Gate(a: ArcResult): real { a.gateSlew }

  function At(s: seq<real>, k: nat): real { if k < |s| then s[k] else 0.0 }

  function LoadOf(k: nat): ArcResult -> real { (a: ArcResult) => At(a.loadSlews, k) }

  function WireOf(k: nat): ArcResult -> real { (a: ArcResult) => At(a.wireDelays, k) }

  predicate HasArc(arcs: seq<ArcResult>, rf: nat) { exists i :: 0 <= i < |arcs| && arcs[i].to == rf }

  // ---------------------------------------------------------------------------
  // The driver and its loads

  /** Values by edge, then by load. */
  datatype Net = Net(drvr: seq<real>, load: seq<seq<real>>, wire: seq<seq<real>>)

  /** Which of them are annotated, and so are never changed. */
  datatype Annotated = Annotated(drvr: seq<bool>, load: seq<seq<bool>>, wire: seq<seq<bool>>)

  ghost predicate Shaped(s: Net, n: nat) {
    && |s.drvr| == 2 && |s.load| == 2 && |s.wire| == 2
    && |s.load[0]| == n && |s.load[1]| == n && |s.wire[0]| == n && |s.wire[1]| == n
  }

  ghost predicate AnnotatedShaped(a: Annotated, n: nat) {
    && |a.drvr| == 2 && |a.load| == 2 && |a.wire| == 2
    && |a.load[0]| == n && |a.load[1]| == n && |a.wire[0]| == n && |a.wire[1]| == n
  }

  /** What the arcs merged so far leave of the values before, where initial values stand in
      for what has no arc yet. */
  ghost predicate Merged(before: Net, s: Net, ann: Annotated, n: nat, max: bool, init: real, arcs: seq<ArcResult>) {
    && Shaped(before, n) && Shaped(s, n) && AnnotatedShaped(ann, n)
    && forall rf {:trigger EdgeMerged(before, s, ann, n, max, init, arcs, rf)} :: 0 <= rf < 2 ==>
         EdgeMerged(before, s, ann, n, max, init, arcs, rf)
  }

  ghost predicate EdgeMerged(before: Net, s: Net, ann: Annotated, n: nat, max: bool, init: real,
                             arcs: seq<ArcResult>, rf: nat)
    requires Shaped(before, n) && Shaped(s, n) && AnnotatedShaped(ann, n) && rf < 2
  {
    && s.drvr[rf] == (if ann.drvr[rf] then before.drvr[rf] else Best(max, init, Values(arcs, rf, Gate)))
    && (forall k {:trigger s.load[rf][k]} :: 0 <= k < n ==>
         s.load[rf][k] == LoadMerged(before, ann, max, init, arcs, rf, k))
    && (forall k {:trigger s.wire[rf][k]} :: 0 <= k < n ==>
          s.wire[rf][k] == if ann.wire[rf][k] then before.wire[rf][k] else Best(max, init, Values(arcs, rf, WireOf(k))))
  }

  /** The slew of a load: its own if annotated, that of an annotated driver, or the most
      extreme of the arcs. */
  function LoadMerged(before: Net, ann: Annotated, max: bool, init: real, arcs: seq<ArcResult>, rf: nat, k: nat): real
    requires rf < |ann.drvr| && rf < |ann.load| && k < |ann.load[rf]| && rf < |before.drvr|
           && rf < |before.load| && k < |before.load[rf]|
  {
    if ann.load[rf][k] then before.load[rf][k]
    else if ann.drvr[rf] then (if HasArc(arcs, rf) then before.drvr[rf] else init)
    else Best(max, init, Values(arcs, rf, LoadOf(k)))
  }

  /** The values at the end: a driver edge without arcs keeps the initial slew, and its loads
      get zeros. */
  ghost predicate Final(before: Net, s: Net, ann: Annotated, n: nat, max: bool, init: real, arcs: seq<ArcResult>) {
    && Shaped(before, n) && Shaped(s, n) && AnnotatedShaped(ann, n)
    && forall rf {:trigger HasArc(arcs, rf)} :: 0 <= rf < 2 ==>
         if HasArc(arcs, rf) then EdgeMerged(before, s, ann, n, max, init, arcs, rf)
         else EdgeEmpty(before, s, ann, n, init, rf)
  }

  ghost predicate EdgeEmpty(before: Net, s: Net, ann: Annotated, n: nat, init: real, rf: nat)
    requires Shaped(before, n) && Shaped(s, n) && AnnotatedShaped(ann, n) && rf < 2
  {
    && s.drvr[rf] == (if ann.drvr[rf] then before.drvr[rf] else init)
    && (forall k {:trigger s.load[rf][k]} :: 0 <= k < n ==>
         s.load[rf][k] == if ann.load[rf][k] then before.load[rf][k] else 0.0)
    && (forall k {:trigger s.wire[rf][k]} :: 0 <= k < n ==>
         s.wire[rf][k] == if ann.wire[rf][k] then before.wire[rf][k] else 0.0)
  }

  // ---------------------------------------------------------------------------
  // The calculation

  class DriverNet {
    const n: nat
    const max: bool
    const init: real
    const ann: Annotated
    var drvr: seq<real>
    var load: seq<seq<real>>
    var wire: seq<seq<real>>

    constructor (n: nat, max: bool, init: real, ann: Annotated, before: Net)
      requires Shaped(before, n) && AnnotatedShaped(ann, n)
      ensures this.n == n && this.max == max && this.init == init && this.ann == ann && Now() == before
    {
      this.n, this.max, this.init, this.ann := n, max, init, ann;
      drvr, load, wire := before.drvr, before.load, before.wire;
    }

    ghost function Now(): Net
      reads this
    {
      Net(drvr, load, wire)
    }

    ghost predicate Valid()
      reads this
    {
      Shaped(Now(), n) && AnnotatedShaped(ann, n)
    }

    /** The values of one edge set to given ones, except where they are annotated. */
    method SetEdge(rf: nat, drvrValue: real, loadValue: real, wireValue: real)
      requires Valid() && rf < 2
      modifies this
      ensures Valid() && OnlyEdge(old(Now()), Now(), rf)
      ensures drvr[rf] == if ann.drvr[rf] then old(drvr[rf]) else drvrValue
      ensures forall k {:trigger load[rf][k]} :: 0 <= k < n ==>
                load[rf][k] == if ann.load[rf][k] then old(load[rf][k]) else loadValue
      ensures forall k {:trigger wire[rf][k]} :: 0 <= k < n ==>
                wire[rf][k] == if ann.wire[rf][k] then old(wire[rf][k]) else wireValue
    {
      var loads, wires := load[rf], wire[rf];
      for k := 0 to n
        invariant |loads| == n && |wires| == n
        invariant forall j {:trigger loads[j]} :: 0 <= j < n ==>
                  loads[j] == if j < k && !ann.load[rf][j] then loadValue else load[rf][j]
        invariant forall j {:trigger wires[j]} :: 0 <= j < n ==>
                  wires[j] == if j < k && !ann.wire[rf][j] then wireValue else wire[rf][j]
      {
        if !ann.load[rf][k] {
          loads := loads[k := loadValue];
        }
        if !ann.wire[rf][k] {
          wires := wires[k := wireValue];
        }
      }
      if !ann.drvr[rf] {
        drvr := drvr[rf := drvrValue];
      }
      load := load[rf := loads];
      wire := wire[rf := wires];
    }

    /** Starts every edge at the initial value. */
    method InitSlews()
      requires Valid()
      modifies this
      ensures Merged(old(Now()), Now(), ann, n, max, init, [])
    {
      SetEdge(0, init, init, init);
      SetEdge(1, init, init, init);
    }

    /** Merges the result of one arc. */
    method AnnotateDelaysSlews(a: ArcResult, ghost before: Net, ghost arcs: seq<ArcResult>)
      requires Merged(before, Now(), ann, n, max, init, arcs) && a.to < 2
      modifies this
      ensures Merged(before, Now(), ann, n, max, init, arcs + [a])
    {
      var rf := a.to;
      ghost var was := Now();
      if Greater(max, a.gateSlew, drvr[rf]) && !ann.drvr[rf] {
        drvr := drvr[rf := a.gateSlew];
      }
      AnnotateLoads(a);
      MergedNext(before, was, Now(), ann, n, max, init, arcs, a);
    }

    method AnnotateLoads(a: ArcResult)
      requires Valid() && a.to < 2
      modifies `load, `wire
      ensures Valid() && OnlyEdge(old(Now()), Now(), a.to) && drvr == old(drvr)
      ensures forall k {:trigger load[a.to][k]} :: 0 <= k < n ==>
                load[a.to][k] == NextLoad(old(load[a.to][k]), ann.load[a.to][k], ann.drvr[a.to], drvr[a.to], max,
                    At(a.loadSlews, k))
      ensures forall k {:trigger wire[a.to][k]} :: 0 <= k < n ==>
                wire[a.to][k] == if ann.wire[a.to][k] then old(wire[a.to][k])
                    else Merge(max, old(wire[a.to][k]), At(a.wireDelays, k))
    {
      var rf := a.to;
      var loads, wires := load[rf], wire[rf];
      for k := 0 to n
        invariant |loads| == n && |wires| == n
        invariant forall j {:trigger loads[j]} :: 0 <= j < n ==>
                  loads[j] == if j < k then NextLoad(load[rf][j], ann.load[rf][j], ann.drvr[rf], drvr[rf], max,
                      At(a.loadSlews, j)) else load[rf][j]
        invariant forall j {:trigger wires[j]} :: 0 <= j < n ==>
                  wires[j] == if j < k && !ann.wire[rf][j] then Merge(max, wire[rf][j], At(a.wireDelays, j))
                      else wire[rf][j]
      {
        if !ann.load[rf][k] {
          if ann.drvr[rf] {
            loads := loads[k := drvr[rf]];
          } else if Greater(max, At(a.loadSlews, k), loads[k]) {
            loads := loads[k := At(a.loadSlews, k)];
          }
        }
        if !ann.wire[rf][k] && Greater(max, At(a.wireDelays, k), wires[k]) {
          wires := wires[k := At(a.wireDelays, k)];
        }
      }
      load := load[rf := loads];
      wire := wire[rf := wires];
    }

    /** The delays of a driver from the results of its arcs. */
    method FindDriverDelays(arcs: seq<ArcResult>)
      requires Valid() && forall i {:trigger arcs[i]} :: 0 <= i < |arcs| ==> arcs[i].to < 2
      modifies this
      ensures Final(old(Now()), Now(), ann, n, max, init, arcs)
    {
      ghost var before := Now();
      InitSlews();
      var exists0, exists1 := false, false;
      for i := 0 to |arcs|
        invariant Merged(before, Now(), ann, n, max, init, arcs[..i])
        invariant exists0 == HasArc(arcs[..i], 0) && exists1 == HasArc(arcs[..i], 1)
      {
        assert arcs[..i + 1] == arcs[..i] + [arcs[i]];
        HasNext(arcs[..i], arcs[i]);
        AnnotateDelaysSlews(arcs[i], before, arcs[..i]);
        exists0 := exists0 || arcs[i].to == 0;
        exists1 := exists1 || arcs[i].to == 1;
      }
      assert arcs[..|arcs|] == arcs;
      ZeroMissing(exists0, exists1, before, arcs);
    }

    method ZeroMissing(exists0: bool, exists1: bool, ghost before: Net, ghost arcs: seq<ArcResult>)
      requires Merged(before, Now(), ann, n, max, init, arcs)
      requires exists0 == HasArc(arcs, 0) && exists1 == HasArc(arcs, 1)
      modifies this
      ensures Final(before, Now(), ann, n, max, init, arcs)
    {
      hide HasArc, EdgeMerged, EdgeEmpty, OnlyEdge;
      assert EdgeMerged(before, Now(), ann, n, max, init, arcs, 0)
             && EdgeMerged(before, Now(), ann, n, max, init, arcs, 1);
      if !exists0 {
        ghost var was := Now();
        ZeroEdge(0, before, arcs);
        OtherEdgeKept(before, was, Now(), ann, n, max, init, arcs, 0, 1);
      }
      if !exists1 {
        ghost var was := Now();
        ZeroEdge(1, before, arcs);
        OtherEdgeKept(before, was, Now(), ann, n, max, init, arcs, 1, 0);
      }
    }

    method ZeroEdge(rf: nat, ghost before: Net, ghost arcs: seq<ArcResult>)
      requires Valid() && Shaped(before, n) && rf < 2 && !HasArc(arcs, rf)
      requires EdgeMerged(before, Now(), ann, n, max, init, arcs, rf)
      modifies this
      ensures Valid() && OnlyEdge(old(Now()), Now(), rf) && EdgeEmpty(before, Now(), ann, n, init, rf)
    {
      hide HasArc, Best, Values, OnlyEdge;
      SetEdge(rf, init, 0.0, 0.0);
    }
  }

  /** Only the given edge has changed. */
  ghost predicate OnlyEdge(before: Net, s: Net, rf: nat) {
    && |s.drvr| == |before.drvr| == 2 && |s.load| == |before.load| == 2 && |s.wire| == |before.wire| == 2
    && forall e {:trigger s.load[e]} {:trigger s.wire[e]} {:trigger s.drvr[e]} :: 0 <= e < 2 && e != rf ==>
         s.drvr[e] == before.drvr[e] && s.load[e] == before.load[e] && s.wire[e] == before.wire[e]
  }

  lemma OtherEdgeKept(before: Net, was: Net, s: Net, ann: Annotated, n: nat, max: bool, init: real,
                      arcs: seq<ArcResult>, rf: nat, other: nat)
    requires Shaped(before, n) && Shaped(was, n) && Shaped(s, n) && AnnotatedShaped(ann, n)
    requires OnlyEdge(was, s, rf) && other < 2 && other != rf
    ensures EdgeMerged(before, was, ann, n, max, init, arcs, other) ==>
              EdgeMerged(before, s, ann, n, max, init, arcs, other)
    ensures EdgeEmpty(before, was, ann, n, init, other) ==> EdgeEmpty(before, s, ann, n, init, other)
  {
    hide HasArc, Best, Values, LoadMerged;
    assert s.drvr[other] == was.drvr[other] && s.load[other] == was.load[other] && s.wire[other] == was.wire[other];
  }

  function NextLoad(current: real, annotated: bool, drvrAnnotated: bool, drvr: real, max: bool, v: real): real {
    if annotated then current else if drvrAnnotated then drvr else Merge(max, current, v)
  }

  lemma HasNext(arcs: seq<ArcResult>, a: ArcResult)
    ensures forall rf :: HasArc(arcs + [a], rf) <==> HasArc(arcs, rf) || a.to == rf
  {
    forall rf
      ensures HasArc(arcs + [a], rf) <==> HasArc(arcs, rf) || a.to == rf
    {
      if i :| 0 <= i < |arcs| && arcs[i].to == rf {
        assert (arcs + [a])[i].to == rf;
      }
      if a.to == rf {
        assert (arcs + [a])[|arcs|].to == rf;
      }
    }
  }

  lemma ValuesNext(arcs: seq<ArcResult>, a: ArcResult, rf: nat, pick: ArcResult -> real, max: bool, init: real)
    ensures Best(max, init, Values(arcs + [a], rf, pick)) ==
            if a.to == rf then Merge(max, Best(max, init, Values(arcs, rf, pick)), pick(a))
                else Best(max, init, Values(arcs, rf, pick))
  {
    assert (arcs + [a])[..|arcs|] == arcs;
    var values := Values(arcs, rf, pick);
    if a.to == rf {
      assert (values + [pick(a)])[..|values|] == values;
    } else {
      assert values + [] == values;
    }
  }

  /** One arc more, at the edge it goes to and at the other one. */
  ghost predicate Stepped(was: Net, s: Net, ann: Annotated, n: nat, max: bool, a: ArcResult, rf: nat)
    requires Shaped(was, n) && Shaped(s, n) && AnnotatedShaped(ann, n) && rf < 2
  {
    if a.to != rf then s.drvr[rf] == was.drvr[rf] && s.load[rf] == was.load[rf] && s.wire[rf] == was.wire[rf]
    else
      && s.drvr[rf] == (if ann.drvr[rf] then was.drvr[rf] else Merge(max, was.drvr[rf], a.gateSlew))
      && (forall k {:trigger s.load[rf][k]} :: 0 <= k < n ==>
            s.load[rf][k] == NextLoad(was.load[rf][k], ann.load[rf][k], ann.drvr[rf], s.drvr[rf], max,
                At(a.loadSlews, k)))
      && (forall k {:trigger s.wire[rf][k]} :: 0 <= k < n ==>
            s.wire[rf][k] == if ann.wire[rf][k] then was.wire[rf][k]
                else Merge(max, was.wire[rf][k], At(a.wireDelays, k)))
  }

  lemma EdgeNext(before: Net, was: Net, s: Net, ann: Annotated, n: nat, max: bool, init: real, arcs: seq<ArcResult>,
                 a: ArcResult, rf: nat)
    requires Shaped(before, n) && Shaped(was, n) && Shaped(s, n) && AnnotatedShaped(ann, n) && rf < 2
    requires EdgeMerged(before, was, ann, n, max, init, arcs, rf) && Stepped(was, s, ann, n, max, a, rf)
    ensures EdgeMerged(before, s, ann, n, max, init, arcs + [a], rf)
  {
    hide Best, Values, HasArc;
    HasNext(arcs, a);
    ValuesNext(arcs, a, rf, Gate, max, init);
    forall k | 0 <= k < n
      ensures s.load[rf][k] == LoadMerged(before, ann, max, init, arcs + [a], rf, k)
      ensures s.wire[rf][k] == if ann.wire[rf][k] then before.wire[rf][k]
              else Best(max, init, Values(arcs + [a], rf, WireOf(k)))
    {
      ValuesNext(arcs, a, rf, LoadOf(k), max, init);
      ValuesNext(arcs, a, rf, WireOf(k), max, init);
      assert was.load[rf][k] == LoadMerged(before, ann, max, init, arcs, rf, k);
      assert was.wire[rf][k] == if ann.wire[rf][k] then before.wire[rf][k]
             else Best(max, init, Values(arcs, rf, WireOf(k)));
    }
  }

  lemma MergedNext(before: Net, was: Net, s: Net, ann: Annotated, n: nat, max: bool, init: real,
                   arcs: seq<ArcResult>, a: ArcResult)
    requires Merged(before, was, ann, n, max, init, arcs) && Shaped(s, n)
    requires Stepped(was, s, ann, n, max, a, 0) && Stepped(was, s, ann, n, max, a, 1)
    ensures Merged(before, s, ann, n, max, init, arcs + [a])
  {
    hide EdgeMerged, Stepped;
    assert EdgeMerged(before, was, ann, n, max, init, arcs, 0) && EdgeMerged(before, was, ann, n, max, init, arcs, 1);
    EdgeNext(before, was, s, ann, n, max, init, arcs, a, 0);
    EdgeNext(before, was, s, ann, n, max, init, arcs, a, 1);
    forall rf | 0 <= rf < 2
      ensures EdgeMerged(before, s, ann, n, max, init, arcs + [a], rf)
    {
      assert rf == 0 || rf == 1;
    }
  }

  /** The order in which the arcs are merged makes no difference. */
  lemma OrderIndependent(before: Net, s: Net, t: Net, ann: Annotated, n: nat, max: bool, init: real,
                         arcs: seq<ArcResult>, others: seq<ArcResult>)
    requires Final(before, s, ann, n, max, init, arcs) && Final(before, t, ann, n, max, init, others)
    requires forall a {:trigger a in arcs} {:trigger a in others} :: a in arcs <==> a in others
    ensures s == t
  {
    forall rf | 0 <= rf < 2
      ensures s.drvr[rf] == t.drvr[rf] && s.load[rf] == t.load[rf] && s.wire[rf] == t.wire[rf]
    {
      SameEdge(before, s, t, ann, n, max, init, arcs, others, rf);
    }
  }

  lemma SameHas(arcs: seq<ArcResult>, others: seq<ArcResult>, rf: nat)
    requires forall a {:trigger a in arcs} {:trigger a in others} :: a in arcs <==> a in others
    ensures HasArc(arcs, rf) <==> HasArc(others, rf)
  {
    if i :| 0 <= i < |arcs| && arcs[i].to == rf {
      assert arcs[i] in others;
    }
    if i :| 0 <= i < |others| && others[i].to == rf {
      assert others[i] in arcs;
    }
  }

  lemma SameBest(max: bool, init: real, arcs: seq<ArcResult>, others: seq<ArcResult>, rf: nat, pick: ArcResult -> real)
    requires forall a {:trigger a in arcs} {:trigger a in others} :: a in arcs <==> a in others
    ensures Best(max, init, Values(arcs, rf, pick)) == Best(max, init, Values(others, rf, pick))
  {
    forall x
      ensures x in Values(arcs, rf, pick) <==> x in Values(others, rf, pick)
    {
      ValuesAre(arcs, rf, pick, x);
      ValuesAre(others, rf, pick, x);
    }
    BestUnordered(max, init, Values(arcs, rf, pick), Values(others, rf, pick));
  }

  lemma SameEdge(before: Net, s: Net, t: Net, ann: Annotated, n: nat, max: bool, init: real, arcs: seq<ArcResult>,
                 others: seq<ArcResult>, rf: nat)
    requires Final(before, s, ann, n, max, init, arcs) && Final(before, t, ann, n, max, init, others) && rf < 2
    requires forall a {:trigger a in arcs} {:trigger a in others} :: a in arcs <==> a in others
    ensures s.drvr[rf] == t.drvr[rf] && s.load[rf] == t.load[rf] && s.wire[rf] == t.wire[rf]
  {
    SameHas(arcs, others, rf);
    if HasArc(arcs, rf) {
      SameMerged(before, s, t, ann, n, max, init, arcs, others, rf);
    } else {
      forall k | 0 <= k < n
        ensures s.load[rf][k] == t.load[rf][k] && s.wire[rf][k] == t.wire[rf][k]
      {
      }
    }
  }

  lemma SameMerged(before: Net, s: Net, t: Net, ann: Annotated, n: nat, max: bool, init: real, arcs: seq<ArcResult>,
                   others: seq<ArcResult>, rf: nat)
    requires Shaped(before, n) && Shaped(s, n) && Shaped(t, n) && AnnotatedShaped(ann, n) && rf < 2
    requires EdgeMerged(before, s, ann, n, max, init, arcs, rf) && EdgeMerged(before, t, ann, n, max, init, others, rf)
    requires forall a {:trigger a in arcs} {:trigger a in others} :: a in arcs <==> a in others
    ensures s.drvr[rf] == t.drvr[rf] && s.load[rf] == t.load[rf] && s.wire[rf] == t.wire[rf]
  {
    hide Best, Values, HasArc;
    SameHas(arcs, others, rf);
    SameBest(max, init, arcs, others, rf, Gate);
    forall k | 0 <= k < n
      ensures s.load[rf][k] == t.load[rf][k] && s.wire[rf][k] == t.wire[rf][k]
    {
      SameBest(max, init, arcs, others, rf, LoadOf(k));
      SameBest(max, init, arcs, others, rf, WireOf(k));
      assert s.load[rf][k] == LoadMerged(before, ann, max, init, arcs, rf, k);
      assert t.load[rf][k] == LoadMerged(before, ann, max, init, others, rf, k);
    }
  }

  /** Where there are arcs and no annotation, the final values are the most extreme ones. */
  lemma FinalIsExtreme(before: Net, s: Net, ann: Annotated, n: nat, max: bool, init: real, arcs: seq<ArcResult>,
                       rf: nat, k: nat, a: ArcResult)
    requires Final(before, s, ann, n, max, init, arcs) && rf < 2 && k < n && a in arcs && a.to == rf
    ensures !ann.drvr[rf] ==> if max then a.gateSlew <= s.drvr[rf] else s.drvr[rf] <= a.gateSlew
    ensures !ann.drvr[rf] && !ann.load[rf][k] ==>
              if max then At(a.loadSlews, k) <= s.load[rf][k] else s.load[rf][k] <= At(a.loadSlews, k)
    ensures !ann.wire[rf][k] ==>
              if max then At(a.wireDelays, k) <= s.wire[rf][k] else s.wire[rf][k] <= At(a.wireDelays, k)
    ensures ann.drvr[rf] && !ann.load[rf][k] ==> s.load[rf][k] == s.drvr[rf] == before.drvr[rf]
  {
    var i :| 0 <= i < |arcs| && arcs[i] == a;
    assert HasArc(arcs, rf);
    ExtremeOf(max, init, arcs, rf, Gate, a);
    ExtremeOf(max, init, arcs, rf, LoadOf(k), a);
    ExtremeOf(max, init, arcs, rf, WireOf(k), a);
    assert s.load[rf][k] == LoadMerged(before, ann, max, init, arcs, rf, k);
    assert s.wire[rf][k] == if ann.wire[rf][k] then before.wire[rf][k]
           else Best(max, init, Values(arcs, rf, WireOf(k)));
  }

  lemma ExtremeOf(max: bool, init: real, arcs: seq<ArcResult>, rf: nat, pick: ArcResult -> real, a: ArcResult)
    requires a in arcs && a.to == rf
    ensures if max then pick(a) <= Best(max, init, Values(arcs, rf, pick))
            else Best(max, init, Values(arcs, rf, pick)) <= pick(a)
  {
    ValuesAre(arcs, rf, pick, pick(a));
    BestIsExtreme(max, init, Values(arcs, rf, pick));
  }
  /** They are values of arcs to that edge, or the initial value. */
  lemma FinalIsAttained(before: Net, s: Net, ann: Annotated, n: nat, max: bool, init: real, arcs: seq<ArcResult>,
                        rf: nat, k: nat)
    requires Final(before, s, ann, n, max, init, arcs) && rf < 2 && k < n && HasArc(arcs, rf)
    ensures !ann.drvr[rf] && s.drvr[rf] != init ==> exists a :: a in arcs && a.to == rf && a.gateSlew == s.drvr[rf]
    ensures !ann.drvr[rf] && !ann.load[rf][k] && s.load[rf][k] != init ==>
              exists a :: a in arcs && a.to == rf && At(a.loadSlews, k) == s.load[rf][k]
    ensures !ann.wire[rf][k] && s.wire[rf][k] != init ==>
              exists a :: a in arcs && a.to == rf && At(a.wireDelays, k) == s.wire[rf][k]
  {
    AttainedBy(max, init, arcs, rf, Gate);
    AttainedBy(max, init, arcs, rf, LoadOf(k));
    AttainedBy(max, init, arcs, rf, WireOf(k));
    assert s.load[rf][k] == LoadMerged(before, ann, max, init, arcs, rf, k);
    assert s.wire[rf][k] == if ann.wire[rf][k] then before.wire[rf][k]
           else Best(max, init, Values(arcs, rf, WireOf(k)));
  }

  lemma AttainedBy(max: bool, init: real, arcs: seq<ArcResult>, rf: nat, pick: ArcResult -> real)
    ensures var best := Best(max, init, Values(arcs, rf, pick));
            best != init ==> exists a :: a in arcs && a.to == rf && pick(a) == best
  {
    BestIsExtreme(max, init, Values(arcs, rf, pick));
    ValuesAre(arcs, rf, pick, Best(max, init, Values(arcs, rf, pick)));
  }

  /** Annotated values are as they were before, and an edge without arcs has the initial slew at
      the driver and zeros at the loads. */
  lemma FinalOtherwise(before: Net, s: Net, ann: Annotated, n: nat, max: bool, init: real, arcs: seq<ArcResult>,
                       rf: nat, k: nat)
    requires Final(before, s, ann, n, max, init, arcs) && rf < 2 && k < n
    ensures ann.drvr[rf] ==> s.drvr[rf] == before.drvr[rf]
    ensures ann.load[rf][k] ==> s.load[rf][k] == before.load[rf][k]
    ensures ann.wire[rf][k] ==> s.wire[rf][k] == before.wire[rf][k]
    ensures (forall a :: a in arcs ==> a.to != rf) ==>
              && (!ann.drvr[rf] ==> s.drvr[rf] == init)
              && (!ann.load[rf][k] ==> s.load[rf][k] == 0.0) && (!ann.wire[rf][k] ==> s.wire[rf][k] == 0.0)
  {
    hide Best, Values;
    if HasArc(arcs, rf) {
      assert s.load[rf][k] == LoadMerged(before, ann, max, init, arcs, rf, k);
      assert s.wire[rf][k] == s.wire[rf][k];
      var i :| 0 <= i < |arcs| && arcs[i].to == rf;
      assert arcs[i] in arcs;
    } else {
      assert s.load[rf][k] == s.load[rf][k] && s.wire[rf][k] == s.wire[rf][k];
    }
  }
}
