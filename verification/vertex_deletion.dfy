/** Deleting a vertex with all its edges, self loops among them: the state between the two
    loops that take the edges apart. */
module VertexDeletion {
  import opened EdgeLists
  import opened GraphTables

  /** The list without the edges that are gone, in the same order. */
  function Pruned(list: seq<nat>, gone: set<nat>): seq<nat> {
    if |list| == 0 then [] else (if list[0] in gone then [] else [list[0]]) + Pruned(list[1..], gone)
  }

  lemma FirstAndRest(list: seq<nat>, e: nat)
    requires |list| > 0
    ensures e in list <==> e == list[0] || e in list[1..]
    ensures Distinct(list) ==> Distinct(list[1..]) && list[0] !in list[1..]
  {
    assert list == [list[0]] + list[1..];
  }

  lemma {:induction false} PrunedNone(list: seq<nat>)
    ensures Pruned(list, {}) == list
  {
    if |list| > 0 {
      PrunedNone(list[1..]);
      assert list == [list[0]] + list[1..];
    }
  }

  lemma {:induction false} PrunedSame(list: seq<nat>, gone: set<nat>, e: nat)
    requires e !in list
    ensures Pruned(list, gone + {e}) == Pruned(list, gone)
  {
    if |list| > 0 {
      FirstAndRest(list, e);
      PrunedSame(list[1..], gone, e);
    }
  }

  lemma {:induction false} PrunedMember(list: seq<nat>, gone: set<nat>, e: nat)
    ensures e in Pruned(list, gone) <==> e in list && e !in gone
  {
    if |list| > 0 {
      FirstAndRest(list, e);
      PrunedMember(list[1..], gone, e);
    }
  }

  lemma RemovedStep(list: seq<nat>, e: nat)
    requires |list| > 0
    ensures e == list[0] ==> e in list && Removed(list, e) == list[1..]
    ensures e != list[0] && e in list[1..] ==> e in list && Removed(list, e) == [list[0]] + Removed(list[1..], e)
  {
    FirstAndRest(list, e);
    if e != list[0] && e in list[1..] {
      var k := Place(list[1..], e);
      assert Place(list, e) == k + 1;
      assert list[..k + 1] == [list[0]] + list[1..][..k];
      assert list[k + 2..] == list[1..][k + 1..];
    }
  }

  /** Losing one more edge is removing it. */
  lemma {:induction false} PrunedNext(list: seq<nat>, gone: set<nat>, e: nat)
    requires Distinct(list) && e in list && e !in gone
    ensures e in Pruned(list, gone) && Pruned(list, gone + {e}) == Removed(Pruned(list, gone), e)
  {
    hide Pruned, Place, Without;
    var x, p := list[0], Pruned(list[1..], gone);
    FirstAndRest(list, e);
    PrunedUnfold(list, gone);
    PrunedUnfold(list, gone + {e});
    assert ([x] + p)[0] == x && ([x] + p)[1..] == p;
    RemovedStep([x] + p, e);
    if x == e {
      PrunedSame(list[1..], gone, e);
    } else {
      PrunedNext(list[1..], gone, e);
    }
  }

  lemma PrunedUnfold(list: seq<nat>, gone: set<nat>)
    requires |list| > 0
    ensures Pruned(list, gone)
            == if list[0] in gone then Pruned(list[1..], gone) else [list[0]] + Pruned(list[1..], gone)
  {
  }

  // ---------------------------------------------------------------------------
  // The loop over the edges into v

  lemma SameBypassed(side: Side, edges: map<nat, Edge>, live: set<nat>, list: seq<nat>)
    requires |list| > 0 && live <= edges.Keys
    ensures Bypassed(side, edges, edges, live, list, 0) && Without(list, 0) == list[1..]
  {
  }

  lemma HeadOfList(side: Side, edges: map<nat, Edge>, heads: map<nat, nat>, lists: map<nat, seq<nat>>, v: nat)
    requires Threaded(side, edges, edges.Keys, heads, lists) && v in lists
    ensures v in heads && heads[v] == At(lists[v], 0)
    ensures |lists[v]| > 0 ==> lists[v][0] != 0 && lists[v][0] in edges && Owner(side, edges[lists[v][0]]) == v
                               && Next(side, edges[lists[v][0]]) == At(lists[v], 1)
  {
    assert v in lists.Keys;
    assert Chain(side, edges, heads[v], lists[v]) && Holds(side, edges, edges.Keys, v, lists[v]);
    if |lists[v]| > 0 {
      assert lists[v][0] in lists[v] && Follows(side, edges, lists[v], 0);
    }
  }

  /** The first edge into v is unlinked from the out list of the vertex it comes from and
      destroyed; v's own in list is only walked along. */
  lemma DropIn(t: Tables, outs: map<nat, seq<nat>>, heads: map<nat, nat>, ins: map<nat, seq<nat>>, v: nat)
    requires OutSound(t, t.edges.Keys, outs) && Threaded(In, t.edges, t.edges.Keys, heads, ins) && v in ins
           && |ins[v]| > 0
    ensures var e := ins[v][0];
            && e in t.edges && t.edges[e].to == v
            && var f := t.edges[e].from;
               && f in outs && e in outs[f] && f in t.vertices
               && var t' := Destroyed(UnlinkedOut(t, f, e), e);
                  && t'.edges.Keys == t.edges.Keys - {e} && t'.vertices.Keys == t.vertices.Keys
                  && InHeads(t'.vertices) == InHeads(t.vertices)
                  && OutSound(t', t'.edges.Keys, outs[f := Removed(outs[f], e)])
                  && Threaded(In, t'.edges, t'.edges.Keys, heads[v := At(ins[v], 1)], ins[v := ins[v][1..]])
  {
    hide OutSound, Threaded, InHeads, OutHeads;
    var e := ins[v][0];
    HeadOfList(In, t.edges, heads, ins, v);
    var f := t.edges[e].from;
    OutStage(t, outs, t.edges.Keys, heads, ins, e);
    UnlinkKeepsEnds(t, f, e, 0);
    var t1 := UnlinkedOut(t, f, e);
    SameBypassed(In, t1.edges, t.edges.Keys, ins[v]);
    TakeOut(In, t1.edges, t1.edges, t.edges.Keys, heads, ins, v, 0);
    DestroyedThreaded(In, t1.edges, t.edges.Keys - {e}, heads[v := At(ins[v], 1)], ins[v := ins[v][1..]], e);
    DestroyedOut(t1, t.edges.Keys - {e}, outs[f := Removed(outs[f], e)], e);
  }

  lemma DestroyedOut(t: Tables, live: set<nat>, outs: map<nat, seq<nat>>, e: nat)
    requires OutSound(t, live, outs) && e !in live
    ensures OutSound(Destroyed(t, e), live, outs)
  {
    DestroyedThreaded(Out, t.edges, live, OutHeads(t.vertices), outs, e);
    BackedFrame(t.edges, t.edges - {e}, outs);
  }

  // ---------------------------------------------------------------------------
  // The loop over the edges out of v

  /** The out lists while v's own is being walked along: its previous ids are not kept. */
  ghost predicate OutRest(t: Tables, heads: map<nat, nat>, outs: map<nat, seq<nat>>, v: nat) {
    Threaded(Out, t.edges, t.edges.Keys, heads, outs) && AllBacked(t.edges, outs[v := []])
  }

  /** The first edge out of v is unlinked from the in list of the vertex it leads to and
      destroyed. */
  lemma DropOut(t: Tables, heads: map<nat, nat>, outs: map<nat, seq<nat>>, inHeads: map<nat, nat>,
                ins: map<nat, seq<nat>>, v: nat)
    requires OutRest(t, heads, outs, v) && Threaded(In, t.edges, t.edges.Keys, inHeads, ins)
    requires v in outs && |outs[v]| > 0 && v in ins && ins[v] == []
    requires v in t.vertices && inHeads == InHeads(t.vertices)[v := 0]
    ensures var e := outs[v][0];
            && e in t.edges && t.edges[e].from == v
            && var w := t.edges[e].to;
               && w != v && w in ins && e in ins[w] && w in t.vertices
                    && Chain(In, t.edges, t.vertices[w].inEdges, ins[w])
               && var t' := Destroyed(UnlinkedIn(t, w, e, At(ins[w], Place(ins[w], e) as int - 1)), e);
                  && t'.edges.Keys == t.edges.Keys - {e} && t'.vertices.Keys == t.vertices.Keys
                  && OutHeads(t'.vertices) == OutHeads(t.vertices)
                  && OutRest(t', heads[v := At(outs[v], 1)], outs[v := outs[v][1..]], v)
                  && Threaded(In, t'.edges, t'.edges.Keys, InHeads(t'.vertices)[v := 0], ins[w := Removed(ins[w], e)])
  {
    hide Threaded, OutHeads, InHeads;
    var e := outs[v][0];
    DropOutReady(t, heads, outs, inHeads, ins, v);
    var w := t.edges[e].to;
    DropOutIns(t, inHeads, ins, v, w, e);
    DropOutOuts(t, heads, outs, inHeads, ins, v, w, e);
  }

  lemma DropOutReady(t: Tables, heads: map<nat, nat>, outs: map<nat, seq<nat>>, inHeads: map<nat, nat>,
                     ins: map<nat, seq<nat>>, v: nat)
    requires OutRest(t, heads, outs, v) && Threaded(In, t.edges, t.edges.Keys, inHeads, ins)
    requires v in outs && |outs[v]| > 0 && v in ins && ins[v] == []
    requires v in t.vertices && inHeads == InHeads(t.vertices)[v := 0]
    ensures var e := outs[v][0];
            && e in t.edges && t.edges[e].from == v && t.edges[e].outNext == At(outs[v], 1)
            && var w := t.edges[e].to;
               w != v && w in ins && e in ins[w] && w in t.vertices && Chain(In, t.edges, t.vertices[w].inEdges, ins[w])
  {
    var e := outs[v][0];
    HeadOfList(Out, t.edges, heads, outs, v);
    EdgePlaced(In, t.edges, t.edges.Keys, inHeads, ins, e);
    var w := t.edges[e].to;
    assert Chain(In, t.edges, inHeads[w], ins[w]);
  }

  lemma DropOutIns(t: Tables, inHeads: map<nat, nat>, ins: map<nat, seq<nat>>, v: nat, w: nat, e: nat)
    requires Threaded(In, t.edges, t.edges.Keys, inHeads, ins) && e in t.edges && w in ins && e in ins[w] && w != v
    requires w in t.vertices && inHeads == InHeads(t.vertices)[v := 0]
    ensures var t' := Destroyed(UnlinkedIn(t, w, e, At(ins[w], Place(ins[w], e) as int - 1)), e);
            && t'.edges.Keys == t.edges.Keys - {e} && t'.vertices.Keys == t.vertices.Keys
            && OutHeads(t'.vertices) == OutHeads(t.vertices)
            && Threaded(In, t'.edges, t.edges.Keys - {e}, InHeads(t'.vertices)[v := 0], ins[w := Removed(ins[w], e)])
  {
    hide Threaded;
    var k: int := Place(ins[w], e);
    InNeighbours(t.edges, t.edges.Keys, inHeads, ins, w, k);
    var t1 := UnlinkedIn(t, w, e, At(ins[w], k - 1));
    InUnlinked(t.edges, t.edges.Keys, inHeads, ins, w, k);
    TakeOut(In, t.edges, t1.edges, t.edges.Keys, inHeads, ins, w, k);
    var heads' := if k == 0 then inHeads[w := At(ins[w], 1)] else inHeads;
    HeadsAfterIn(t, v, w, e, k, At(ins[w], k - 1), At(ins[w], 1));
    DestroyedThreaded(In, t1.edges, t.edges.Keys - {e}, heads', ins[w := Removed(ins[w], e)], e);
  }

  lemma HeadsAfterIn(t: Tables, v: nat, w: nat, e: nat, k: nat, prev: nat, next: nat)
    requires w in t.vertices && e in t.edges && w != v && (prev == 0) == (k == 0) && (k == 0 ==>
              t.edges[e].inNext == next)
    ensures var t1 := UnlinkedIn(t, w, e, prev); var heads := InHeads(t.vertices)[v := 0];
            && InHeads(t1.vertices)[v := 0] == (if k == 0 then heads[w := next] else heads)
            && OutHeads(t1.vertices) == OutHeads(t.vertices) && t1.vertices.Keys == t.vertices.Keys
  {
    HeadsOfUpdate(t.vertices, w, t.vertices[w].(inEdges := t.edges[e].inNext));
    SameHead(OutHeads(t.vertices), w);
  }

  lemma DropOutOuts(t: Tables, heads: map<nat, nat>, outs: map<nat, seq<nat>>, inHeads: map<nat, nat>,
                    ins: map<nat, seq<nat>>, v: nat, w: nat, e: nat)
    requires OutRest(t, heads, outs, v) && Threaded(In, t.edges, t.edges.Keys, inHeads, ins)
    requires v in outs && |outs[v]| > 0 && e == outs[v][0] && e in t.edges && w in ins && e in ins[w] && w in t.vertices
    ensures var t' := Destroyed(UnlinkedIn(t, w, e, At(ins[w], Place(ins[w], e) as int - 1)), e);
            t'.edges.Keys == t.edges.Keys - {e} && OutRest(t', heads[v := At(outs[v], 1)], outs[v := outs[v][1..]], v)
  {
    hide Threaded, OutHeads, InHeads;
    var k: int := Place(ins[w], e);
    InNeighbours(t.edges, t.edges.Keys, inHeads, ins, w, k);
    var t1 := UnlinkedIn(t, w, e, At(ins[w], k - 1));
    InUnlinked(t.edges, t.edges.Keys, inHeads, ins, w, k);
    ThreadedFrame(Out, t.edges, t1.edges, t.edges.Keys, heads, outs);
    SameBypassed(Out, t1.edges, t.edges.Keys, outs[v]);
    TakeOut(Out, t1.edges, t1.edges, t.edges.Keys, heads, outs, v, 0);
    DestroyedThreaded(Out, t1.edges, t.edges.Keys - {e}, heads[v := At(outs[v], 1)], outs[v := outs[v][1..]], e);
    BackedFrame(t.edges, t1.edges - {e}, outs[v := []]);
    assert outs[v := outs[v][1..]][v := []] == outs[v := []];
  }

  /** Finally the vertex, with two empty lists, is destroyed. */
  lemma DropVertex(side: Side, edges: map<nat, Edge>, heads: map<nat, nat>, lists: map<nat, seq<nat>>, v: nat)
    requires Threaded(side, edges, edges.Keys, heads, lists) && v in lists && lists[v] == []
    ensures Threaded(side, edges, edges.Keys, heads - {v}, lists - {v})
  {
    hide Chain, Holds;
    assert Holds(side, edges, edges.Keys, v, lists[v]);
    forall w | w in lists - {v}
      ensures Chain(side, edges, (heads - {v})[w], (lists - {v})[w])
            && Holds(side, edges, edges.Keys, w, (lists - {v})[w])
    {
      assert Chain(side, edges, heads[w], lists[w]) && Holds(side, edges, edges.Keys, w, lists[w]);
    }
    forall e | e in edges
      ensures Owner(side, edges[e]) in lists - {v}
    {
      NothingOwned(side, edges, v, e);
    }
    assert (heads - {v}).Keys == (lists - {v}).Keys;
  }

  lemma NothingOwned(side: Side, edges: map<nat, Edge>, v: nat, e: nat)
    requires Holds(side, edges, edges.Keys, v, []) && e in edges
    ensures Owner(side, edges[e]) != v
  {
    assert e in edges.Keys;
  }

  // ---------------------------------------------------------------------------
  // The other lists

  /** Every list except v's is what is left of the original one. */
  ghost predicate AllPruned(lists0: map<nat, seq<nat>>, lists: map<nat, seq<nat>>, gone: set<nat>, v: nat) {
    && lists.Keys == lists0.Keys
    && forall w {:trigger lists[w]} {:trigger lists0[w]} :: w in lists0 && w != v ==>
         lists[w] == Pruned(lists0[w], gone)
  }

  lemma PrunedAtFirst(lists: map<nat, seq<nat>>, v: nat)
    ensures AllPruned(lists, lists, {}, v)
  {
    forall w | w in lists
      ensures lists[w] == Pruned(lists[w], {})
    {
      PrunedNone(lists[w]);
    }
  }

  /** One more edge is gone: an edge that v owns is in no other list, ... */
  lemma PrunedOwn(side: Side, edges: map<nat, Edge>, heads: map<nat, nat>, lists0: map<nat, seq<nat>>,
                  lists: map<nat, seq<nat>>, lists': map<nat, seq<nat>>,
                  gone: set<nat>, v: nat, e: nat)
    requires Threaded(side, edges, edges.Keys, heads, lists0) && AllPruned(lists0, lists, gone, v)
    requires e in edges && Owner(side, edges[e]) == v
    requires lists'.Keys == lists.Keys && forall w :: w in lists && w != v ==> lists'[w] == lists[w]
    ensures AllPruned(lists0, lists', gone + {e}, v)
  {
    hide Threaded, Pruned;
    forall w | w in lists0 && w != v
      ensures lists'[w] == Pruned(lists0[w], gone + {e})
    {
      assert w in lists;
      NotOwned(side, edges, heads, lists0, gone, w, e);
    }
  }

  lemma NotOwned(side: Side, edges: map<nat, Edge>, heads: map<nat, nat>, lists: map<nat, seq<nat>>, gone: set<nat>,
                 w: nat, e: nat)
    requires Threaded(side, edges, edges.Keys, heads, lists) && e in edges && w in lists && Owner(side, edges[e]) != w
    ensures Pruned(lists[w], gone + {e}) == Pruned(lists[w], gone)
  {
    assert Holds(side, edges, edges.Keys, w, lists[w]);
    PrunedSame(lists[w], gone, e);
  }

  lemma Owned(side: Side, edges: map<nat, Edge>, heads: map<nat, nat>, lists: map<nat, seq<nat>>, gone: set<nat>,
              e: nat)
    requires Threaded(side, edges, edges.Keys, heads, lists) && e in edges && e !in gone
    ensures var o := Owner(side, edges[e]);
            o in lists && e in Pruned(lists[o], gone)
                && Pruned(lists[o], gone + {e}) == Removed(Pruned(lists[o], gone), e)
  {
    var o := Owner(side, edges[e]);
    EdgePlaced(side, edges, edges.Keys, heads, lists, e);
    assert Chain(side, edges, heads[o], lists[o]);
    PrunedNext(lists[o], gone, e);
  }

  /** ... and any other edge leaves the list of its owner. */
  lemma PrunedOther(side: Side, edges: map<nat, Edge>, heads: map<nat, nat>, lists0: map<nat, seq<nat>>,
                    lists: map<nat, seq<nat>>, gone: set<nat>, v: nat, e: nat)
    requires Threaded(side, edges, edges.Keys, heads, lists0) && AllPruned(lists0, lists, gone, v)
    requires e in edges && Owner(side, edges[e]) != v && e !in gone
    ensures var o := Owner(side, edges[e]);
            o in lists && e in lists[o] && AllPruned(lists0, lists[o := Removed(lists[o], e)], gone + {e}, v)
  {
    hide Threaded, Pruned, Place, Without;
    var o := Owner(side, edges[e]);
    Owned(side, edges, heads, lists0, gone, e);
    assert o in lists.Keys;
    forall w | w in lists0 && w != v && w != o
      ensures lists[w] == Pruned(lists0[w], gone + {e})
    {
      assert w in lists;
      NotOwned(side, edges, heads, lists0, gone, w, e);
    }
  }

  /** The edge lists of a graph. */
  datatype Lists = Lists(outs: map<nat, seq<nat>>, ins: map<nat, seq<nat>>)

  ghost predicate Sound(t: Tables, l: Lists) {
    OutSound(t, t.edges.Keys, l.outs) && InSound(t, t.edges.Keys, l.ins)
  }

  /** Only edges at v are gone, and the lists of the other vertices are otherwise the same. */
  ghost predicate Gone(t0: Tables, l0: Lists, t: Tables, l: Lists, gone: set<nat>, v: nat) {
    && t.edges.Keys == t0.edges.Keys - gone && t.vertices.Keys == t0.vertices.Keys && SameEnds(t0, t)
    && AllPruned(l0.outs, l.outs, gone, v) && AllPruned(l0.ins, l.ins, gone, v)
    && forall e {:trigger e in gone} :: e in gone ==> e in t0.edges && (t0.edges[e].from == v || t0.edges[e].to == v)
  }

  lemma NothingGone(t: Tables, l: Lists, v: nat)
    ensures Gone(t, l, t, l, {}, v)
  {
    PrunedAtFirst(l.outs, v);
    PrunedAtFirst(l.ins, v);
  }

  /** An edge into v is dropped. */
  lemma GoneIn(t0: Tables, l0: Lists, t: Tables, l: Lists, gone: set<nat>, v: nat, e: nat, t': Tables)
    requires Sound(t0, l0) && Gone(t0, l0, t, l, gone, v) && e in t.edges && t.edges[e].to == v
    requires v in l.ins && |l.ins[v]| > 0
    requires var f := t.edges[e].from; f in l.outs && e in l.outs[f]
    requires t'.edges.Keys == t.edges.Keys - {e} && t'.vertices.Keys == t.vertices.Keys && SameEnds(t, t')
    ensures var f := t.edges[e].from;
            Gone(t0, l0, t', Lists(l.outs[f := Removed(l.outs[f], e)], l.ins[v := l.ins[v][1..]]), gone + {e}, v)
  {
    hide Threaded, AllPruned;
    var f := t.edges[e].from;
    assert t.edges[e].from == t0.edges[e].from;
    var l' := Lists(l.outs[f := Removed(l.outs[f], e)], l.ins[v := l.ins[v][1..]]);
    StepOuts(t0, l0, l, gone, v, e);
    OwnStep(In, t0, InHeads(t0.vertices), l0.ins, l.ins, l.ins[v][1..], gone, v, e);
    assert e !in gone;
  }

  /** An edge out of v is dropped. */
  lemma GoneOut(t0: Tables, l0: Lists, t: Tables, l: Lists, gone: set<nat>, v: nat, e: nat, t': Tables)
    requires Sound(t0, l0) && Gone(t0, l0, t, l, gone, v) && e in t.edges && t.edges[e].from == v && t.edges[e].to != v
    requires v in l.outs && |l.outs[v]| > 0
    requires var w := t.edges[e].to; w in l.ins && e in l.ins[w]
    requires t'.edges.Keys == t.edges.Keys - {e} && t'.vertices.Keys == t.vertices.Keys && SameEnds(t, t')
    ensures var w := t.edges[e].to;
            Gone(t0, l0, t', Lists(l.outs[v := l.outs[v][1..]], l.ins[w := Removed(l.ins[w], e)]), gone + {e}, v)
  {
    hide Threaded, AllPruned;
    assert t.edges[e].to == t0.edges[e].to;
    assert e !in gone;
    PrunedOther(In, t0.edges, InHeads(t0.vertices), l0.ins, l.ins, gone, v, e);
    OwnStep(Out, t0, OutHeads(t0.vertices), l0.outs, l.outs, l.outs[v][1..], gone, v, e);
  }

  lemma StepOuts(t0: Tables, l0: Lists, l: Lists, gone: set<nat>, v: nat, e: nat)
    requires Sound(t0, l0) && AllPruned(l0.outs, l.outs, gone, v) && e in t0.edges && e !in gone
    requires var f := t0.edges[e].from; f in l.outs && e in l.outs[f]
    ensures var f := t0.edges[e].from; AllPruned(l0.outs, l.outs[f := Removed(l.outs[f], e)], gone + {e}, v)
  {
    hide Threaded, AllPruned;
    var f := t0.edges[e].from;
    if f == v {
      OwnStep(Out, t0, OutHeads(t0.vertices), l0.outs, l.outs, Removed(l.outs[f], e), gone, v, e);
    } else {
      PrunedOther(Out, t0.edges, OutHeads(t0.vertices), l0.outs, l.outs, gone, v, e);
    }
  }

  lemma OwnStep(side: Side, t0: Tables, heads: map<nat, nat>, lists0: map<nat, seq<nat>>, lists: map<nat, seq<nat>>,
                list: seq<nat>, gone: set<nat>, v: nat, e: nat)
    requires Threaded(side, t0.edges, t0.edges.Keys, heads, lists0) && AllPruned(lists0, lists, gone, v)
    requires e in t0.edges && Owner(side, t0.edges[e]) == v && v in lists
    ensures AllPruned(lists0, lists[v := list], gone + {e}, v)
  {
    hide Threaded;
    assert lists[v := list].Keys == lists.Keys;
    PrunedOwn(side, t0.edges, heads, lists0, lists, lists[v := list], gone, v, e);
  }

  // ---------------------------------------------------------------------------
  // What is left

  /** Once v's lists are empty no edge touches v. */
  lemma NoneLeft(t: Tables, outHeads: map<nat, nat>, outs: map<nat, seq<nat>>, inHeads: map<nat, nat>,
                 ins: map<nat, seq<nat>>, v: nat, e: nat)
    requires Threaded(Out, t.edges, t.edges.Keys, outHeads, outs) && Threaded(In, t.edges, t.edges.Keys, inHeads, ins)
    requires v in outs && outs[v] == [] && v in ins && ins[v] == [] && e in t.edges
    ensures t.edges[e].from != v && t.edges[e].to != v
  {
    assert Holds(Out, t.edges, t.edges.Keys, v, outs[v]) && Holds(In, t.edges, t.edges.Keys, v, ins[v]);
    assert e !in outs[v] && e !in ins[v];
  }

  lemma HeadsWithout(vertices: map<nat, Vertex>, v: nat, x: nat)
    ensures OutHeads(vertices - {v}) == OutHeads(vertices)[v := x] - {v}
    ensures InHeads(vertices - {v}) == InHeads(vertices)[v := x] - {v}
  {
  }

  lemma DroppedSound(t: Tables, outs: map<nat, seq<nat>>, ins: map<nat, seq<nat>>, v: nat, x: nat)
    requires OutRest(t, OutHeads(t.vertices)[v := x], outs, v)
           && Threaded(In, t.edges, t.edges.Keys, InHeads(t.vertices)[v := 0], ins)
    requires v in outs && outs[v] == [] && v in ins && ins[v] == []
    ensures var t' := Tables(t.edges, t.vertices - {v});
            OutSound(t', t.edges.Keys, outs - {v}) && InSound(t', t.edges.Keys, ins - {v})
  {
    hide Threaded;
    DropVertex(Out, t.edges, OutHeads(t.vertices)[v := x], outs, v);
    DropVertex(In, t.edges, InHeads(t.vertices)[v := 0], ins, v);
    HeadsWithout(t.vertices, v, x);
    HeadsWithout(t.vertices, v, 0);
    forall w | w in outs - {v}
      ensures Backed(t.edges, (outs - {v})[w])
    {
      assert w in outs[v := []];
    }
  }
}
