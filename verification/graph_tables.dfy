/** The id tables of the timing graph, and what every operation on the edge lists makes of
    them. */
module GraphTables {
  import opened EdgeLists

  datatype Vertex = Vertex(inEdges: nat, outEdges: nat)

  ghost function InHeads(vertices: map<nat, Vertex>): map<nat, nat> {
    map v | v in vertices :: vertices[v].inEdges
  }

  ghost function OutHeads(vertices: map<nat, Vertex>): map<nat, nat> {
    map v | v in vertices :: vertices[v].outEdges
  }

  /** The place of e in a list. */
  function Place(list: seq<nat>, e: nat): (k: nat)
    requires e in list
    ensures k < |list| && list[k] == e
  {
    if list[0] == e then 0 else 1 + Place(list[1..], e)
  }

  function Removed(list: seq<nat>, e: nat): seq<nat>
    requires e in list
  {
    Without(list, Place(list, e))
  }

  // ---------------------------------------------------------------------------
  // Adding an edge

  /** The table after e became the front of its from vertex's list. */
  function Fronted(edges: map<nat, Edge>, id: nat, e: Edge): map<nat, Edge> {
    var next := e.outNext;
    if next != 0 && next in edges then edges[id := e][next := edges[next].(outPrev := id)] else edges[id := e]
  }

  lemma FrontBacked(edges: map<nat, Edge>, live: set<nat>, heads: map<nat, nat>, lists: map<nat, seq<nat>>, id: nat,
                    e: Edge)
    requires Threaded(Out, edges, live, heads, lists) && AllBacked(edges, lists)
    requires id !in edges && e.from in lists && e.outPrev == 0 && e.outNext == heads[e.from]
    ensures AllBacked(Fronted(edges, id, e), lists[e.from := [id] + lists[e.from]])
  {
    var edges', lists' := Fronted(edges, id, e), lists[e.from := [id] + lists[e.from]];
    forall v | v in lists'
      ensures Backed(edges', lists'[v])
    {
      assert Chain(Out, edges, heads[v], lists[v]) && Backed(edges, lists[v]);
      if v == e.from {
        FrontOwnBacked(edges, heads[v], lists[v], id, e);
      } else {
        FrontOtherBacked(edges, live, heads, lists, id, e, v);
      }
    }
  }

  lemma FrontOwnBacked(edges: map<nat, Edge>, head: nat, list: seq<nat>, id: nat, e: Edge)
    requires Chain(Out, edges, head, list) && Backed(edges, list)
    requires id !in edges && e.outPrev == 0 && e.outNext == head
    ensures Backed(Fronted(edges, id, e), [id] + list)
  {
    var edges', list' := Fronted(edges, id, e), [id] + list;
    forall i | 0 <= i < |list'| && list'[i] in edges'
      ensures Precedes(edges', list', i)
    {
      if i > 0 {
        assert list'[i] == list[i - 1] && At(list', i - 1) == (if i > 1 then list[i - 2] else id);
        assert Precedes(edges, list, i - 1);
      }
    }
  }

  lemma FrontOtherBacked(edges: map<nat, Edge>, live: set<nat>, heads: map<nat, nat>, lists: map<nat, seq<nat>>,
                         id: nat, e: Edge, v: nat)
    requires Threaded(Out, edges, live, heads, lists) && v in lists && Backed(edges, lists[v])
    requires id !in edges && e.from in lists && v != e.from && e.outNext == heads[e.from]
    ensures Backed(Fronted(edges, id, e), lists[v])
  {
    var edges' := Fronted(edges, id, e);
    assert Chain(Out, edges, heads[v], lists[v]) && Chain(Out, edges, heads[e.from], lists[e.from]);
    if |lists[e.from]| > 0 {
      assert lists[e.from][0] in lists[e.from];
      OneList(Out, edges, live, heads, lists, e.from, v, lists[e.from][0]);
    }
    forall i | 0 <= i < |lists[v]| && lists[v][i] in edges'
      ensures Precedes(edges', lists[v], i)
    {
      assert lists[v][i] in lists[v] && Precedes(edges, lists[v], i);
    }
  }

  // ---------------------------------------------------------------------------
  // Unlinking an edge

  /** The table after the edge at place k has been bypassed in its out list. */
  function OutBypassed(edges: map<nat, Edge>, prev: nat, next: nat): map<nat, Edge> {
    var edges1 := if prev != 0 && prev in edges then edges[prev := edges[prev].(outNext := next)] else edges;
    if next != 0 && next in edges1 then edges1[next := edges1[next].(outPrev := prev)] else edges1
  }

  /** What the unlinked edge knows about its neighbours. */
  lemma Neighbours(edges: map<nat, Edge>, live: set<nat>, heads: map<nat, nat>, lists: map<nat, seq<nat>>, v: nat,
                   k: nat)
    requires Threaded(Out, edges, live, heads, lists) && AllBacked(edges, lists) && v in lists && k < |lists[v]|
    ensures lists[v][k] in edges && edges[lists[v][k]].outNext == At(lists[v], k + 1)
          && edges[lists[v][k]].outPrev == At(lists[v], k - 1)
    ensures k > 0 ==> lists[v][k - 1] in edges && lists[v][k - 1] != 0
    ensures k + 1 < |lists[v]| ==> lists[v][k + 1] in edges && lists[v][k + 1] != 0
    ensures Distinct(lists[v])
  {
    assert Chain(Out, edges, heads[v], lists[v]) && Backed(edges, lists[v]);
    assert Follows(Out, edges, lists[v], k) && Precedes(edges, lists[v], k);
  }

  /** Bypassing changes one next id and one previous id. */
  lemma BypassEffect(edges: map<nat, Edge>, prev: nat, next: nat, e: nat)
    requires e in edges && (prev == 0 || prev in edges) && (next == 0 || next in edges)
    ensures var edges' := OutBypassed(edges, prev, next);
            && edges'.Keys == edges.Keys
            && edges'[e] == edges[e].(outNext := if prev != 0 && e == prev then next else edges[e].outNext,
                                      outPrev := if next != 0 && e == next then prev else edges[e].outPrev)
  {
  }

  lemma OutUnlinked(edges: map<nat, Edge>, live: set<nat>, heads: map<nat, nat>, lists: map<nat, seq<nat>>, v: nat,
                    k: nat)
    requires Threaded(Out, edges, live, heads, lists) && AllBacked(edges, lists) && v in lists && k < |lists[v]|
    ensures var list := lists[v]; var edges' := OutBypassed(edges, At(list, k - 1), At(list, k + 1));
            Bypassed(Out, edges, edges', live, list, k) && SameLinks(In, edges, edges', edges.Keys)
                && edges'.Keys == edges.Keys
  {
    Neighbours(edges, live, heads, lists, v, k);
    var prev, next := At(lists[v], k - 1), At(lists[v], k + 1);
    BypassEffect(edges, prev, next, lists[v][k]);
    forall e | e in edges
      ensures var edges' := OutBypassed(edges, prev, next);
              e in edges' && edges'[e] == edges[e].(
              outNext := if prev != 0 && e == prev then next else edges[e].outNext,
              outPrev := if next != 0 && e == next then prev else edges[e].outPrev)
    {
      BypassEffect(edges, prev, next, e);
    }
    assert live <= edges.Keys;
  }

  lemma OutUnlinkedBacked(edges: map<nat, Edge>, live: set<nat>, heads: map<nat, nat>, lists: map<nat, seq<nat>>,
                          v: nat, k: nat)
    requires Threaded(Out, edges, live, heads, lists) && AllBacked(edges, lists) && v in lists && k < |lists[v]|
    ensures var list := lists[v];
            AllBacked(OutBypassed(edges, At(list, k - 1), At(list, k + 1)), lists[v := Without(list, k)])
  {
    var list := lists[v];
    var edges', lists' := OutBypassed(edges, At(list, k - 1), At(list, k + 1)), lists[v := Without(list, k)];
    Neighbours(edges, live, heads, lists, v, k);
    forall w | w in lists'
      ensures Backed(edges', lists'[w])
    {
      assert Backed(edges, lists[w]) && Chain(Out, edges, heads[w], lists[w]);
      if w == v {
        ShorterBacked(edges, list, k);
      } else {
        if k + 1 < |list| {
          assert list[k + 1] in list;
          OneList(Out, edges, live, heads, lists, v, w, list[k + 1]);
        }
        forall i | 0 <= i < |lists[w]| && lists[w][i] in edges'
          ensures Precedes(edges', lists[w], i)
        {
          assert lists[w][i] in lists[w] && Precedes(edges, lists[w], i);
        }
      }
    }
  }

  lemma ShorterBacked(edges: map<nat, Edge>, list: seq<nat>, k: nat)
    requires Backed(edges, list) && Distinct(list) && k < |list|
    requires k > 0 ==> list[k - 1] in edges && list[k - 1] != 0
    requires k + 1 < |list| ==> list[k + 1] in edges && list[k + 1] != 0
    ensures Backed(OutBypassed(edges, At(list, k - 1), At(list, k + 1)), Without(list, k))
  {
    var edges', short := OutBypassed(edges, At(list, k - 1), At(list, k + 1)), Without(list, k);
    forall i | 0 <= i < |short| && short[i] in edges'
      ensures Precedes(edges', short, i)
    {
      var j := if i < k then i else i + 1;
      assert short[i] == list[j] && Precedes(edges, list, j);
      WithoutAt(list, k, i - 1);
      if k + 1 < |list| && j != k + 1 {
        assert list[j] != list[k + 1] by {
          if j < k + 1 {
            assert list[j] != list[k + 1];
          } else {
            assert list[k + 1] != list[j];
          }
        }
      }
    }
  }

  /** The table after the edge following prev in an in list has been bypassed. */
  function InBypassed(edges: map<nat, Edge>, prev: nat, next: nat): map<nat, Edge> {
    if prev != 0 && prev in edges then edges[prev := edges[prev].(inNext := next)] else edges
  }

  lemma InUnlinked(edges: map<nat, Edge>, live: set<nat>, heads: map<nat, nat>, lists: map<nat, seq<nat>>, v: nat,
                   k: nat)
    requires Threaded(In, edges, live, heads, lists) && v in lists && k < |lists[v]|
    ensures var list := lists[v]; var edges' := InBypassed(edges, At(list, k - 1), At(list, k + 1));
            && Bypassed(In, edges, edges', live, list, k)
            && SameLinks(Out, edges, edges', edges.Keys) && edges'.Keys == edges.Keys
            && forall e {:trigger edges'[e]} :: e in edges ==> edges'[e].outPrev == edges[e].outPrev
  {
    assert Chain(In, edges, heads[v], lists[v]);
    assert live <= edges.Keys;
  }

  lemma BackedFrame(edges: map<nat, Edge>, edges': map<nat, Edge>, lists: map<nat, seq<nat>>)
    requires AllBacked(edges, lists) && edges'.Keys <= edges.Keys
    requires forall e {:trigger edges'[e]} :: e in edges' ==> edges'[e].outPrev == edges[e].outPrev
    ensures AllBacked(edges', lists)
  {
    forall v | v in lists
      ensures Backed(edges', lists[v])
    {
      assert Backed(edges, lists[v]);
      forall i
        ensures Precedes(edges', lists[v], i)
      {
        assert Precedes(edges, lists[v], i);
      }
    }
  }

  lemma NewVertex(side: Side, edges: map<nat, Edge>, heads: map<nat, nat>, lists: map<nat, seq<nat>>, id: nat)
    requires Threaded(side, edges, edges.Keys, heads, lists) && id !in lists
    ensures Threaded(side, edges, edges.Keys, heads[id := 0], lists[id := []])
  {
    hide Chain, Holds;
    var heads', lists' := heads[id := 0], lists[id := []];
    forall v | v in lists'
      ensures Chain(side, edges, heads'[v], lists'[v]) && Holds(side, edges, edges.Keys, v, lists'[v])
    {
      if v != id {
        assert Chain(side, edges, heads[v], lists[v]) && Holds(side, edges, edges.Keys, v, lists[v]);
      } else {
        EmptyList(side, edges, lists, id);
      }
    }
  }

  lemma EmptyList(side: Side, edges: map<nat, Edge>, lists: map<nat, seq<nat>>, id: nat)
    requires id !in lists && forall e {:trigger edges[e]} :: e in edges ==> Owner(side, edges[e]) in lists
    ensures Chain(side, edges, 0, []) && Holds(side, edges, edges.Keys, id, [])
  {
  }

  lemma HeadsOfUpdate(vertices: map<nat, Vertex>, v: nat, x: Vertex)
    ensures OutHeads(vertices[v := x]) == OutHeads(vertices)[v := x.outEdges]
    ensures InHeads(vertices[v := x]) == InHeads(vertices)[v := x.inEdges]
  {
  }

  lemma SameHead(heads: map<nat, nat>, v: nat)
    requires v in heads
    ensures heads[v := heads[v]] == heads
  {
  }

  // ---------------------------------------------------------------------------
  // The tables, and what each operation makes of them

  datatype Tables = Tables(edges: map<nat, Edge>, vertices: map<nat, Vertex>)

  /** The out lists of the live edges. */
  ghost predicate OutSound(t: Tables, live: set<nat>, outs: map<nat, seq<nat>>) {
    Threaded(Out, t.edges, live, OutHeads(t.vertices), outs) && AllBacked(t.edges, outs)
  }

  ghost predicate InSound(t: Tables, live: set<nat>, ins: map<nat, seq<nat>>) {
    Threaded(In, t.edges, live, InHeads(t.vertices), ins)
  }

  /** The edge leaves from and comes first in its list; it is not in an in list yet. */
  function AddedOut(t: Tables, from: nat, to: nat, arcSet: int, id: nat): Tables
    requires from in t.vertices
  {
    Tables(Fronted(t.edges, id, Edge(from, to, arcSet, 0, t.vertices[from].outEdges, 0)),
           t.vertices[from := t.vertices[from].(outEdges := id)])
  }

  function AddedIn(t: Tables, to: nat, id: nat): Tables
    requires to in t.vertices && id in t.edges
  {
    Tables(t.edges[id := t.edges[id].(inNext := t.vertices[to].inEdges)],
        t.vertices[to := t.vertices[to].(inEdges := id)])
  }

  lemma AddedOutSound(t: Tables, outs: map<nat, seq<nat>>, ins: map<nat, seq<nat>>, from: nat, to: nat, arcSet: int,
                      id: nat)
    requires OutSound(t, t.edges.Keys, outs) && InSound(t, t.edges.Keys, ins)
    requires from in t.vertices && id !in t.edges && id != 0
    ensures var t' := AddedOut(t, from, to, arcSet, id);
            && t'.edges.Keys == t.edges.Keys + {id}
            && OutSound(t', t'.edges.Keys, outs[from := [id] + outs[from]]) && InSound(t', t.edges.Keys, ins)
  {
    hide Threaded, AllBacked, SameLinks;
    var t' := AddedOut(t, from, to, arcSet, id);
    var e := Edge(from, to, arcSet, 0, t.vertices[from].outEdges, 0);
    var heads := OutHeads(t.vertices);
    VertexListed(Out, t.edges, heads, outs, from);
    HeadInTable(Out, t.edges, heads, outs, from);
    FrontBacked(t.edges, t.edges.Keys, heads, outs, id, e);
    FrontedLinks(t.edges, id, e);
    AddFront(Out, t.edges, t'.edges, t.edges.Keys, heads, outs, id);
    ThreadedFrame(In, t.edges, t'.edges, t.edges.Keys, InHeads(t.vertices), ins);
    HeadsOfUpdate(t.vertices, from, t.vertices[from].(outEdges := id));
    SameHead(InHeads(t.vertices), from);
  }

  lemma FrontedLinks(edges: map<nat, Edge>, id: nat, e: Edge)
    requires id !in edges && (e.outNext != 0 ==> e.outNext in edges)
    ensures var edges' := Fronted(edges, id, e);
            && edges'.Keys == edges.Keys + {id} && edges'[id] == e
            && SameLinks(Out, edges, edges', edges.Keys) && SameLinks(In, edges, edges', edges.Keys)
  {
  }

  lemma AddedInSound(t: Tables, outs: map<nat, seq<nat>>, ins: map<nat, seq<nat>>, to: nat, id: nat)
    requires OutSound(t, t.edges.Keys, outs) && id in t.edges && InSound(t, t.edges.Keys - {id}, ins)
    requires id != 0 && t.edges[id].to == to && to in t.vertices
    ensures var t' := AddedIn(t, to, id);
            && t'.edges.Keys == t.edges.Keys
            && OutSound(t', t'.edges.Keys, outs) && InSound(t', t'.edges.Keys, ins[to := [id] + ins[to]])
  {
    var t' := AddedIn(t, to, id);
    InNextLinks(t.edges, id, t.vertices[to].inEdges);
    KeysBack(t.edges.Keys, id);
    AddFront(In, t.edges, t'.edges, t.edges.Keys - {id}, InHeads(t.vertices), ins, id);
    ThreadedFrame(Out, t.edges, t'.edges, t.edges.Keys, OutHeads(t.vertices), outs);
    BackedFrame(t.edges, t'.edges, outs);
    HeadsOfUpdate(t.vertices, to, t.vertices[to].(inEdges := id));
    SameHead(OutHeads(t.vertices), to);
  }

  lemma KeysBack(keys: set<nat>, id: nat)
    requires id in keys
    ensures keys - {id} + {id} == keys
  {
  }

  lemma InNextLinks(edges: map<nat, Edge>, id: nat, next: nat)
    requires id in edges
    ensures var edges' := edges[id := edges[id].(inNext := next)];
            && edges'.Keys == edges.Keys
            && SameLinks(Out, edges, edges', edges.Keys) && SameLinks(In, edges, edges', edges.Keys - {id})
            && forall e {:trigger edges'[e]} :: e in edges' ==> edges'[e].outPrev == edges[e].outPrev
  {
  }

  lemma HeadInTable(side: Side, edges: map<nat, Edge>, heads: map<nat, nat>, lists: map<nat, seq<nat>>, v: nat)
    requires Threaded(side, edges, edges.Keys, heads, lists) && v in lists
    ensures heads[v] != 0 ==> heads[v] in edges
  {
    assert Chain(side, edges, heads[v], lists[v]);
  }

  /** Edge e has left the out list of v. */
  function UnlinkedOut(t: Tables, v: nat, e: nat): Tables
    requires v in t.vertices && e in t.edges
  {
    var prev, next := t.edges[e].outPrev, t.edges[e].outNext;
    Tables(OutBypassed(t.edges, prev, next),
           if prev == 0 then t.vertices[v := t.vertices[v].(outEdges := next)] else t.vertices)
  }

  /** Edge e, which follows prev, has left the in list of v. */
  function UnlinkedIn(t: Tables, v: nat, e: nat, prev: nat): Tables
    requires v in t.vertices && e in t.edges
  {
    var next := t.edges[e].inNext;
    Tables(InBypassed(t.edges, prev, next),
           if prev == 0 then t.vertices[v := t.vertices[v].(inEdges := next)] else t.vertices)
  }

  function Destroyed(t: Tables, e: nat): Tables {
    t.(edges := t.edges - {e})
  }

  lemma UnlinkedOutSound(t: Tables, live: set<nat>, outs: map<nat, seq<nat>>, v: nat, k: nat)
    requires OutSound(t, live, outs) && v in outs && k < |outs[v]|
    ensures var e := outs[v][k];
            && e in t.edges && v in t.vertices
            && var t' := UnlinkedOut(t, v, e);
               && OutSound(t', live - {e}, outs[v := Without(outs[v], k)])
               && t'.edges.Keys == t.edges.Keys && SameLinks(In, t.edges, t'.edges, t.edges.Keys)
               && InHeads(t'.vertices) == InHeads(t.vertices)
  {
    var e, heads := outs[v][k], OutHeads(t.vertices);
    Neighbours(t.edges, live, heads, outs, v, k);
    var t' := UnlinkedOut(t, v, e);
    OutUnlinked(t.edges, live, heads, outs, v, k);
    OutUnlinkedBacked(t.edges, live, heads, outs, v, k);
    TakeOut(Out, t.edges, t'.edges, live, heads, outs, v, k);
    HeadsOfUpdate(t.vertices, v, t.vertices[v].(outEdges := t.edges[e].outNext));
    SameHead(InHeads(t.vertices), v);
  }

  lemma InNeighbours(edges: map<nat, Edge>, live: set<nat>, heads: map<nat, nat>, lists: map<nat, seq<nat>>, v: nat,
                     k: nat)
    requires Threaded(In, edges, live, heads, lists) && v in lists && k < |lists[v]|
    ensures lists[v][k] in edges && edges[lists[v][k]].inNext == At(lists[v], k + 1) && heads[v] == At(lists[v], 0)
    ensures lists[v][k] != 0 && lists[v][k] in live && edges[lists[v][k]].to == v && Distinct(lists[v])
    ensures (At(lists[v], k - 1) == 0) == (k == 0)
  {
    assert Chain(In, edges, heads[v], lists[v]) && Holds(In, edges, live, v, lists[v]);
    assert lists[v][k] in lists[v] && Follows(In, edges, lists[v], k);
  }

  lemma UnlinkedInSound(t: Tables, live: set<nat>, heads: map<nat, nat>, ins: map<nat, seq<nat>>, v: nat, k: nat)
    requires Threaded(In, t.edges, live, heads, ins) && v in ins && k < |ins[v]|
    requires v in t.vertices && heads == InHeads(t.vertices)
    ensures var e := ins[v][k];
            && e in t.edges
            && var t' := UnlinkedIn(t, v, e, At(ins[v], k - 1));
               && Threaded(In, t'.edges, live - {e}, InHeads(t'.vertices), ins[v := Without(ins[v], k)])
               && t'.edges.Keys == t.edges.Keys && SameLinks(Out, t.edges, t'.edges, t.edges.Keys)
               && (forall d {:trigger t'.edges[d]} :: d in t'.edges ==> t'.edges[d].outPrev == t.edges[d].outPrev)
               && OutHeads(t'.vertices) == OutHeads(t.vertices)
  {
    var e := ins[v][k];
    InNeighbours(t.edges, live, heads, ins, v, k);
    var t' := UnlinkedIn(t, v, e, At(ins[v], k - 1));
    InUnlinked(t.edges, live, heads, ins, v, k);
    TakeOut(In, t.edges, t'.edges, live, heads, ins, v, k);
    HeadsOfUpdate(t.vertices, v, t.vertices[v].(inEdges := t.edges[e].inNext));
    SameHead(OutHeads(t.vertices), v);
  }

  lemma DestroyedThreaded(side: Side, edges: map<nat, Edge>, live: set<nat>, heads: map<nat, nat>,
                          lists: map<nat, seq<nat>>, e: nat)
    requires Threaded(side, edges, live, heads, lists) && e !in live
    ensures Threaded(side, edges - {e}, live, heads, lists)
  {
    ThreadedFrame(side, edges, edges - {e}, live, heads, lists);
  }

  lemma EdgePlaced(side: Side, edges: map<nat, Edge>, live: set<nat>, heads: map<nat, nat>,
                   lists: map<nat, seq<nat>>, e: nat)
    requires Threaded(side, edges, live, heads, lists) && e in live
    ensures e in edges && Owner(side, edges[e]) in lists && Owner(side, edges[e]) in heads
          && e in lists[Owner(side, edges[e])]
  {
    var v := Owner(side, edges[e]);
    assert Holds(side, edges, live, v, lists[v]);
  }

  /** First a deleted edge leaves its out list. */
  lemma OutStage(t: Tables, outs: map<nat, seq<nat>>, live: set<nat>, heads: map<nat, nat>, ins: map<nat, seq<nat>>,
                 e: nat)
    requires OutSound(t, t.edges.Keys, outs) && Threaded(In, t.edges, live, heads, ins) && e in t.edges
           && live <= t.edges.Keys
    ensures var v := t.edges[e].from;
            && v in outs && e in outs[v] && v in t.vertices
            && var t1 := UnlinkedOut(t, v, e);
               && t1.edges.Keys == t.edges.Keys && InHeads(t1.vertices) == InHeads(t.vertices)
               && OutSound(t1, t.edges.Keys - {e}, outs[v := Removed(outs[v], e)])
               && Threaded(In, t1.edges, live, heads, ins)
  {
    var v := t.edges[e].from;
    EdgePlaced(Out, t.edges, t.edges.Keys, OutHeads(t.vertices), outs, e);
    UnlinkedOutSound(t, t.edges.Keys, outs, v, Place(outs[v], e));
    ThreadedFrame(In, t.edges, UnlinkedOut(t, v, e).edges, live, heads, ins);
  }

  /** Then it leaves its in list and the table. */
  function InLeft(t: Tables, ins: map<nat, seq<nat>>, e: nat): Tables
    requires e in t.edges && t.edges[e].to in ins && e in ins[t.edges[e].to] && t.edges[e].to in t.vertices
  {
    var w := t.edges[e].to;
    Destroyed(UnlinkedIn(t, w, e, At(ins[w], Place(ins[w], e) - 1)), e)
  }

  lemma InStage(t: Tables, outs: map<nat, seq<nat>>, ins: map<nat, seq<nat>>, e: nat)
    requires OutSound(t, t.edges.Keys - {e}, outs) && InSound(t, t.edges.Keys, ins) && e in t.edges
    ensures var w := t.edges[e].to;
            && w in ins && e in ins[w] && w in t.vertices
            && var t' := InLeft(t, ins, e);
               && t'.edges.Keys == t.edges.Keys - {e}
               && OutSound(t', t'.edges.Keys, outs)
               && InSound(t', t'.edges.Keys, ins[w := Removed(ins[w], e)])
  {
    EdgePlaced(In, t.edges, t.edges.Keys, InHeads(t.vertices), ins, e);
    InStageIns(t, ins, e);
    InStageOuts(t, outs, ins, e);
  }

  lemma InStageIns(t: Tables, ins: map<nat, seq<nat>>, e: nat)
    requires InSound(t, t.edges.Keys, ins) && e in t.edges
    requires t.edges[e].to in ins && e in ins[t.edges[e].to] && t.edges[e].to in t.vertices
    ensures var t' := InLeft(t, ins, e); var w := t.edges[e].to;
            t'.edges.Keys == t.edges.Keys - {e} && InSound(t', t.edges.Keys - {e}, ins[w := Removed(ins[w], e)])
  {
    hide Threaded, SameLinks;
    var w := t.edges[e].to;
    var j: int := Place(ins[w], e);
    UnlinkedInSound(t, t.edges.Keys, InHeads(t.vertices), ins, w, j);
    var t2 := UnlinkedIn(t, w, e, At(ins[w], j - 1));
    DestroyedThreaded(In, t2.edges, t.edges.Keys - {e}, InHeads(t2.vertices), ins[w := Removed(ins[w], e)], e);
  }

  lemma InStageOuts(t: Tables, outs: map<nat, seq<nat>>, ins: map<nat, seq<nat>>, e: nat)
    requires OutSound(t, t.edges.Keys - {e}, outs) && InSound(t, t.edges.Keys, ins) && e in t.edges
    requires t.edges[e].to in ins && e in ins[t.edges[e].to] && t.edges[e].to in t.vertices
    ensures OutSound(InLeft(t, ins, e), t.edges.Keys - {e}, outs)
  {
    hide Threaded, SameLinks;
    var w := t.edges[e].to;
    var j: int := Place(ins[w], e);
    UnlinkedInSound(t, t.edges.Keys, InHeads(t.vertices), ins, w, j);
    OutAfterIn(t, UnlinkedIn(t, w, e, At(ins[w], j - 1)), t.edges.Keys - {e}, outs, e);
  }

  /** The out lists are not touched when an edge they no longer hold leaves its in list and
      the table. */
  lemma OutAfterIn(t: Tables, t': Tables, live: set<nat>, outs: map<nat, seq<nat>>, e: nat)
    requires OutSound(t, live, outs) && e !in live && t'.edges.Keys == t.edges.Keys
    requires SameLinks(Out, t.edges, t'.edges, t.edges.Keys) && OutHeads(t'.vertices) == OutHeads(t.vertices)
    requires forall d {:trigger t'.edges[d]} :: d in t'.edges ==> t'.edges[d].outPrev == t.edges[d].outPrev
    ensures OutSound(Destroyed(t', e), live, outs)
  {
    assert live <= t.edges.Keys;
    ThreadedFrame(Out, t.edges, t'.edges, live, OutHeads(t.vertices), outs);
    DestroyedThreaded(Out, t'.edges, live, OutHeads(t'.vertices), outs, e);
    BackedFrame(t.edges, t'.edges - {e}, outs);
  }

  lemma NewVertexSound(t: Tables, outs: map<nat, seq<nat>>, ins: map<nat, seq<nat>>, id: nat)
    requires OutSound(t, t.edges.Keys, outs) && InSound(t, t.edges.Keys, ins) && id !in t.vertices
    ensures var t' := Tables(t.edges, t.vertices[id := Vertex(0, 0)]);
            OutSound(t', t.edges.Keys, outs[id := []]) && InSound(t', t.edges.Keys, ins[id := []])
  {
    hide Threaded;
    VertexUnlisted(Out, t.edges, OutHeads(t.vertices), outs, id);
    VertexUnlisted(In, t.edges, InHeads(t.vertices), ins, id);
    NewVertex(Out, t.edges, OutHeads(t.vertices), outs, id);
    NewVertex(In, t.edges, InHeads(t.vertices), ins, id);
    HeadsOfUpdate(t.vertices, id, Vertex(0, 0));
  }

  lemma VertexUnlisted(side: Side, edges: map<nat, Edge>, heads: map<nat, nat>, lists: map<nat, seq<nat>>, id: nat)
    requires Threaded(side, edges, edges.Keys, heads, lists) && id !in heads
    ensures id !in lists
  {
    assert id !in heads.Keys;
  }

  /** Making an edge. */
  lemma MadeEdgeSound(t: Tables, outs: map<nat, seq<nat>>, ins: map<nat, seq<nat>>, from: nat, to: nat, arcSet: int,
                      id: nat)
    requires OutSound(t, t.edges.Keys, outs) && InSound(t, t.edges.Keys, ins)
    requires from in t.vertices && to in t.vertices && id !in t.edges && id != 0
    ensures from in outs && to in ins && (t.vertices[from].outEdges != 0 ==> t.vertices[from].outEdges in t.edges)
    ensures var t1 := AddedOut(t, from, to, arcSet, id);
            && id in t1.edges && to in t1.vertices
            && var t' := AddedIn(t1, to, id);
               && t'.edges.Keys == t.edges.Keys + {id} && t'.vertices.Keys == t.vertices.Keys
               && OutSound(t', t'.edges.Keys, outs[from := [id] + outs[from]])
               && InSound(t', t'.edges.Keys, ins[to := [id] + ins[to]])
  {
    hide OutSound, InSound, SameLinks, Fronted;
    OutVertex(t, outs, from);
    InVertex(t, ins, to);
    AddedOutSound(t, outs, ins, from, to, arcSet, id);
    var t1 := AddedOut(t, from, to, arcSet, id);
    FrontedLinks(t.edges, id, Edge(from, to, arcSet, 0, t.vertices[from].outEdges, 0));
    KeysAdded(t.edges.Keys, id);
    AddedInSound(t1, outs[from := [id] + outs[from]], ins, to, id);
  }

  lemma OutVertex(t: Tables, outs: map<nat, seq<nat>>, v: nat)
    requires OutSound(t, t.edges.Keys, outs) && v in t.vertices
    ensures v in outs && (t.vertices[v].outEdges != 0 ==> t.vertices[v].outEdges in t.edges)
  {
    VertexListed(Out, t.edges, OutHeads(t.vertices), outs, v);
    HeadInTable(Out, t.edges, OutHeads(t.vertices), outs, v);
  }

  lemma InVertex(t: Tables, ins: map<nat, seq<nat>>, v: nat)
    requires InSound(t, t.edges.Keys, ins) && v in t.vertices
    ensures v in ins
  {
    VertexListed(In, t.edges, InHeads(t.vertices), ins, v);
  }

  lemma KeysAdded(keys: set<nat>, id: nat)
    requires id !in keys
    ensures keys + {id} - {id} == keys
  {
  }

  lemma VertexListed(side: Side, edges: map<nat, Edge>, heads: map<nat, nat>, lists: map<nat, seq<nat>>, v: nat)
    requires Threaded(side, edges, edges.Keys, heads, lists) && v in heads
    ensures v in lists
  {
    assert v in heads.Keys;
  }

  // ---------------------------------------------------------------------------
  // Deleting

  /** The edges of t' are edges of t, between the same vertices. */
  ghost predicate SameEnds(t: Tables, t': Tables) {
    forall e {:trigger t'.edges[e]} {:trigger e in t'.edges} :: e in t'.edges ==>
      e in t.edges && t'.edges[e].from == t.edges[e].from && t'.edges[e].to == t.edges[e].to
          && t'.edges[e].arcSet == t.edges[e].arcSet
  }

  /** The edges of t are still there, with the same ends and arcs. */
  ghost predicate KeepsEnds(t: Tables, t': Tables) {
    forall e {:trigger t'.edges[e]} {:trigger e in t.edges} :: e in t.edges ==>
      && e in t'.edges && t'.edges[e].from == t.edges[e].from && t'.edges[e].to == t.edges[e].to
      && t'.edges[e].arcSet == t.edges[e].arcSet
  }

  lemma UnlinkKeepsEnds(t: Tables, v: nat, e: nat, prev: nat)
    requires v in t.vertices && e in t.edges
    ensures SameEnds(t, UnlinkedOut(t, v, e)) && SameEnds(t, Destroyed(UnlinkedIn(t, v, e, prev), e))
    ensures UnlinkedOut(t, v, e).vertices.Keys == t.vertices.Keys
          && UnlinkedIn(t, v, e, prev).vertices.Keys == t.vertices.Keys
  {
  }

  /** Before an edge is unlinked from its out list. */
  lemma OutReady(t: Tables, live: set<nat>, outs: map<nat, seq<nat>>, e: nat)
    requires OutSound(t, live, outs) && e in live
    ensures e in t.edges
    ensures var v := t.edges[e].from; v in outs && e in outs[v] && v in t.vertices
    ensures t.edges[e].outPrev != 0 ==> t.edges[e].outPrev in t.edges
    ensures t.edges[e].outNext != 0 ==> t.edges[e].outNext in t.edges
  {
    EdgePlaced(Out, t.edges, live, OutHeads(t.vertices), outs, e);
    var v := t.edges[e].from;
    Neighbours(t.edges, live, OutHeads(t.vertices), outs, v, Place(outs[v], e));
  }

  /** Before an edge is searched for in its in list. */
  lemma InReady(t: Tables, live: set<nat>, ins: map<nat, seq<nat>>, e: nat)
    requires InSound(t, live, ins) && e in live
    ensures e in t.edges
    ensures var w := t.edges[e].to;
            w in ins && e in ins[w] && w in t.vertices && Chain(In, t.edges, t.vertices[w].inEdges, ins[w])
  {
    EdgePlaced(In, t.edges, live, InHeads(t.vertices), ins, e);
  }

  lemma OutStageSound(t: Tables, outs: map<nat, seq<nat>>, ins: map<nat, seq<nat>>, e: nat)
    requires OutSound(t, t.edges.Keys, outs) && InSound(t, t.edges.Keys, ins) && e in t.edges
    ensures var v := t.edges[e].from;
            && v in outs && e in outs[v] && v in t.vertices
            && var t1 := UnlinkedOut(t, v, e);
               && t1.edges.Keys == t.edges.Keys
               && OutSound(t1, t.edges.Keys - {e}, outs[v := Removed(outs[v], e)])
               && InSound(t1, t.edges.Keys, ins)
  {
    hide OutSound, Threaded;
    OutStage(t, outs, t.edges.Keys, InHeads(t.vertices), ins, e);
  }
}
