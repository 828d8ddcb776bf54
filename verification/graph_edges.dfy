/** The timing graph, edited in place. */
module GraphEdges {
  import opened FiniteSets
  import opened EdgeLists
  import opened GraphTables
  import opened VertexDeletion

  class Graph {
    var edges: map<nat, Edge>
    var vertices: map<nat, Vertex>
    ghost var outs: map<nat, seq<nat>>
    ghost var ins: map<nat, seq<nat>>

    ghost function Now(): Tables
      reads this
    {
      Tables(edges, vertices)
    }

    /** outs and ins list the live edges of every vertex, and the ids thread the lists. */
    ghost predicate Valid()
      reads this
    {
      OutSound(Now(), edges.Keys, outs) && InSound(Now(), edges.Keys, ins)
    }

    constructor ()
      ensures Valid() && edges == map[] && vertices == map[]
    {
      edges, vertices, outs, ins := map[], map[], map[], map[];
    }

    /** A vertex without edges, under an unused id. */
    method MakeVertex(id: nat)
      requires Valid() && id !in vertices && id != 0
      modifies this
      ensures Valid() && vertices == old(vertices)[id := Vertex(0, 0)] && edges == old(edges)
      ensures outs == old(outs)[id := []] && ins == old(ins)[id := []]
    {
      NewVertexSound(Now(), outs, ins, id);
      hide OutSound, InSound;
      vertices := vertices[id := Vertex(0, 0)];
      outs, ins := outs[id := []], ins[id := []];
    }

    /** A new edge, under an unused id, comes first in the out list of its from vertex and in
        the in list of its to vertex. */
    method MakeEdge(from: nat, to: nat, arcSet: int, id: nat)
      requires Valid() && from in vertices && to in vertices && id !in edges && id != 0
      modifies this
      ensures Valid() && vertices.Keys == old(vertices).Keys && edges.Keys == old(edges).Keys + {id}
      ensures edges[id].from == from && edges[id].to == to && edges[id].arcSet == arcSet
      ensures KeepsEnds(old(Now()), Now())
      ensures outs == old(outs)[from := [id] + old(outs)[from]] && ins == old(ins)[to := [id] + old(ins)[to]]
    {
      hide OutSound, InSound;
      MadeEdgeSound(Now(), outs, ins, from, to, arcSet, id);
      LinkEdge(from, to, arcSet, id);
      outs := outs[from := [id] + outs[from]];
      ins := ins[to := [id] + ins[to]];
    }

    method LinkEdge(from: nat, to: nat, arcSet: int, id: nat)
      requires from in vertices && to in vertices && id !in edges
      requires vertices[from].outEdges != 0 ==> vertices[from].outEdges in edges
      modifies `edges, `vertices
      ensures var t1 := AddedOut(old(Now()), from, to, arcSet, id);
              id in t1.edges && to in t1.vertices && Now() == AddedIn(t1, to, id)
      ensures edges[id].from == from && edges[id].to == to && edges[id].arcSet == arcSet
      ensures KeepsEnds(old(Now()), Now())
    {
      hide KeepsEnds;
      AddedKeeps(Now(), from, to, arcSet, id);
      edges := edges[id := Edge(from, to, arcSet, 0, 0, 0)];
      var next := vertices[from].outEdges;
      edges := edges[id := edges[id].(outNext := next, outPrev := 0)];
      if next != 0 {
        edges := edges[next := edges[next].(outPrev := id)];
      }
      vertices := vertices[from := vertices[from].(outEdges := id)];
      edges := edges[id := edges[id].(inNext := vertices[to].inEdges)];
      vertices := vertices[to := vertices[to].(inEdges := id)];
    }

    /** Takes the edge out of v's out list. */
    method DeleteOutEdge(v: nat, e: nat)
      requires v in vertices && e in edges
      requires (edges[e].outPrev != 0 ==> edges[e].outPrev in edges) && (edges[e].outNext != 0 ==>
                edges[e].outNext in edges)
      modifies `edges, `vertices
      ensures Now() == UnlinkedOut(old(Now()), v, e)
    {
      var next := edges[e].outNext;
      var prev := edges[e].outPrev;
      if prev != 0 {
        edges := edges[prev := edges[prev].(outNext := next)];
      } else {
        vertices := vertices[v := vertices[v].(outEdges := next)];
      }
      if next != 0 {
        edges := edges[next := edges[next].(outPrev := prev)];
      }
    }

    /** Takes the edge out of v's in list, which has to be searched for the edge before it. */
    method DeleteInEdge(v: nat, e: nat, ghost list: seq<nat>, ghost k: int)
      requires v in vertices && Chain(In, edges, vertices[v].inEdges, list) && 0 <= k < |list| && list[k] == e
      modifies `edges, `vertices
      ensures Now() == UnlinkedIn(old(Now()), v, e, At(list, k - 1))
    {
      var prev := 0;
      var i := vertices[v].inEdges;
      ghost var j := 0;
      while i != 0 && i != e
        invariant 0 <= j <= k && i == At(list, j) && prev == At(list, j - 1) && edges == old(edges)
                && vertices == old(vertices)
        decreases k - j
      {
        assert Follows(In, edges, list, j);
        prev := i;
        i := edges[i].inNext;
        j := j + 1;
      }
      assert j == k;
      if prev != 0 {
        edges := edges[prev := edges[prev].(inNext := edges[e].inNext)];
      } else {
        vertices := vertices[v := vertices[v].(inEdges := edges[e].inNext)];
      }
    }

    method DeleteEdge(e: nat)
      requires Valid() && e in edges
      modifies this
      ensures Valid() && edges.Keys == old(edges).Keys - {e} && vertices.Keys == old(vertices).Keys
            && SameEnds(old(Now()), Now())
      ensures var v := old(edges)[e].from;
              v in old(outs) && e in old(outs)[v] && outs == old(outs)[v := Removed(old(outs)[v], e)]
      ensures var w := old(edges)[e].to;
              w in old(ins) && e in old(ins)[w] && ins == old(ins)[w := Removed(old(ins)[w], e)]
    {
      hide OutSound, InSound;
      ghost var t := Now();
      var v, w := edges[e].from, edges[e].to;
      OutReady(t, t.edges.Keys, outs, e);
      OutStageSound(t, outs, ins, e);
      UnlinkKeepsEnds(t, v, e, 0);
      DeleteOutEdge(v, e);
      outs := outs[v := Removed(outs[v], e)];
      DeleteUnlinked(e, w);
    }

    /** The rest of deleting an edge that is in no out list any more. */
    method DeleteUnlinked(e: nat, w: nat)
      requires e in edges && edges[e].to == w && OutSound(Now(), edges.Keys - {e}, outs)
             && InSound(Now(), edges.Keys, ins)
      modifies this
      ensures Valid() && edges.Keys == old(edges).Keys - {e} && vertices.Keys == old(vertices).Keys
            && SameEnds(old(Now()), Now())
      ensures outs == old(outs)
      ensures w in old(ins) && e in old(ins)[w] && ins == old(ins)[w := Removed(old(ins)[w], e)]
    {
      hide OutSound, InSound;
      ghost var t := Now();
      InReady(t, t.edges.Keys, ins, e);
      InStage(t, outs, ins, e);
      ghost var k: int := Place(ins[w], e);
      UnlinkKeepsEnds(t, w, e, At(ins[w], k - 1));
      DeleteInEdge(w, e, ins[w], k);
      edges := edges - {e};
      ins := ins[w := Removed(ins[w], e)];
    }

    // -------------------------------------------------------------------------
    // Iterators

    /** The edges that a VertexOutEdgeIterator yields. */
    method OutEdges(v: nat) returns (list: seq<nat>)
      requires Valid() && v in vertices
      ensures v in outs && list == outs[v] && Distinct(list)
      ensures forall e {:trigger e in list} :: e in list <==> e in edges && edges[e].from == v
    {
      hide OutSound, InSound;
      ListsHold(Now(), outs, ins, v);
      OutChain(Now(), outs, v);
      ghost var all := outs[v];
      list := [];
      var next := vertices[v].outEdges;
      while next != 0
        invariant |list| <= |all| && list == all[..|list|] && next == At(all, |list|)
        decreases |all| - |list|
      {
        assert Follows(Out, edges, all, |list|);
        list := list + [next];
        next := edges[next].outNext;
      }
    }

    /** The edges that a VertexInEdgeIterator yields. */
    method InEdges(v: nat) returns (list: seq<nat>)
      requires Valid() && v in vertices
      ensures v in ins && list == ins[v] && Distinct(list)
      ensures forall e {:trigger e in list} :: e in list <==> e in edges && edges[e].to == v
    {
      hide OutSound, InSound;
      ListsHold(Now(), outs, ins, v);
      InChain(Now(), ins, v);
      ghost var all := ins[v];
      list := [];
      var next := vertices[v].inEdges;
      while next != 0
        invariant |list| <= |all| && list == all[..|list|] && next == At(all, |list|)
        decreases |all| - |list|
      {
        assert Follows(In, edges, all, |list|);
        list := list + [next];
        next := edges[next].inNext;
      }
    }

    ghost function Entering(v: nat): set<nat>
      reads this
    {
      set e | e in edges && edges[e].to == v
    }

    method HasFaninOne(v: nat) returns (one: bool)
      requires Valid() && v in vertices
      ensures one <==> |Entering(v)| == 1
    {
      hide OutSound, InSound;
      ListsHold(Now(), outs, ins, v);
      DistinctSize(ins[v], Entering(v));
      InChain(Now(), ins, v);
      assert |ins[v]| > 0 ==> Follows(In, edges, ins[v], 0);
      one := vertices[v].inEdges != 0 && edges[vertices[v].inEdges].inNext == 0;
    }

    // -------------------------------------------------------------------------
    // Deleting a vertex

    /** Deletes the first edge into v that is left, except that v's in list is only walked
        along; next is the edge after it. */
    method DropInEdge(v: nat, e: nat, ghost heads: map<nat, nat>) returns (next: nat)
      requires OutSound(Now(), edges.Keys, outs) && Threaded(In, edges, edges.Keys, heads, ins)
      requires v in ins && |ins[v]| > 0 && ins[v][0] == e
      modifies this
      ensures OutSound(Now(), edges.Keys, outs) && Threaded(In, edges, edges.Keys, heads[v := next], ins)
      ensures next == At(old(ins)[v], 1) && ins == old(ins)[v := old(ins)[v][1..]]
      ensures e in old(edges) && old(edges)[e].to == v && edges.Keys == old(edges).Keys - {e}
            && SameEnds(old(Now()), Now())
      ensures vertices.Keys == old(vertices).Keys && InHeads(vertices) == InHeads(old(vertices))
      ensures var f := old(edges)[e].from;
              f in old(outs) && e in old(outs)[f] && outs == old(outs)[f := Removed(old(outs)[f], e)]
    {
      hide OutSound, Threaded, InHeads;
      HeadOfList(In, edges, heads, ins, v);
      DropIn(Now(), outs, heads, ins, v);
      OutReady(Now(), edges.Keys, outs, e);
      var from := edges[e].from;
      next := edges[e].inNext;
      UnlinkKeepsEnds(Now(), from, e, 0);
      DeleteOutEdge(from, e);
      edges := edges - {e};
      outs := outs[from := Removed(outs[from], e)];
      ins := ins[v := ins[v][1..]];
    }

    /** Deletes the first edge out of v that is left, except that v's out list is only walked
        along. */
    method DropOutEdge(v: nat, e: nat, ghost heads: map<nat, nat>) returns (next: nat)
      requires OutRest(Now(), heads, outs, v) && Threaded(In, edges, edges.Keys, InHeads(vertices)[v := 0], ins)
      requires v in outs && |outs[v]| > 0 && outs[v][0] == e && v in ins && ins[v] == [] && v in vertices
      modifies this
      ensures OutRest(Now(), heads[v := next], outs, v)
            && Threaded(In, edges, edges.Keys, InHeads(vertices)[v := 0], ins)
      ensures next == At(old(outs)[v], 1) && outs == old(outs)[v := old(outs)[v][1..]]
      ensures e in old(edges) && old(edges)[e].from == v && edges.Keys == old(edges).Keys - {e}
            && SameEnds(old(Now()), Now())
      ensures vertices.Keys == old(vertices).Keys && OutHeads(vertices) == OutHeads(old(vertices))
      ensures var w := old(edges)[e].to;
              w != v && w in old(ins) && e in old(ins)[w] && ins == old(ins)[w := Removed(old(ins)[w], e)]
    {
      hide OutRest, Threaded, InHeads, OutHeads;
      DropOutReady(Now(), heads, outs, InHeads(vertices)[v := 0], ins, v);
      DropOut(Now(), heads, outs, InHeads(vertices)[v := 0], ins, v);
      var to := edges[e].to;
      next := edges[e].outNext;
      ghost var k: int := Place(ins[to], e);
      UnlinkKeepsEnds(Now(), to, e, At(ins[to], k - 1));
      DeleteInEdge(to, e, ins[to], k);
      edges := edges - {e};
      outs := outs[v := outs[v][1..]];
      ins := ins[to := Removed(ins[to], e)];
    }

    ghost function L(): Lists
      reads this
    {
      Lists(outs, ins)
    }

    /** Deletes every edge into v. */
    method TakeInEdges(v: nat) returns (ghost gone: set<nat>)
      requires Valid() && v in vertices
      modifies this
      ensures OutSound(Now(), edges.Keys, outs) && Threaded(In, edges, edges.Keys, InHeads(vertices)[v := 0], ins)
      ensures v in ins && ins[v] == [] && Gone(old(Now()), old(L()), Now(), L(), gone, v)
    {
      hide OutSound, Threaded, InHeads, Gone;
      InStart(Now(), ins, v);
      NothingGone(Now(), L(), v);
      gone := {};
      var e := vertices[v].inEdges;
      ghost var t0, l0, heads0 := Now(), L(), InHeads(vertices);
      while e != 0
        invariant OutSound(Now(), edges.Keys, outs) && Threaded(In, edges, edges.Keys, heads0[v := e], ins)
        invariant v in ins && e == At(ins[v], 0) && InHeads(vertices) == heads0
        invariant Gone(t0, l0, Now(), L(), gone, v)
        decreases edges.Keys
      {
        ghost var t, l := Now(), L();
        HeadOfList(In, edges, heads0[v := e], ins, v);
        var next := DropInEdge(v, e, heads0[v := e]);
        GoneIn(t0, l0, t, l, gone, v, e, Now());
        gone := gone + {e};
        LastHead(heads0, v, e, next);
        e := next;
      }
      HeadOfList(In, edges, heads0[v := e], ins, v);
    }

    /** Deletes every edge out of v; none leads back to v any more. */
    method TakeOutEdges(v: nat, ghost t0: Tables, ghost l0: Lists, ghost gone0: set<nat>) returns (ghost gone: set<nat>)
      requires OutSound(Now(), edges.Keys, outs) && Threaded(In, edges, edges.Keys, InHeads(vertices)[v := 0], ins)
      requires v in vertices && v in ins && ins[v] == []
      requires Sound(t0, l0) && Gone(t0, l0, Now(), L(), gone0, v)
      modifies this
      ensures OutRest(Now(), OutHeads(vertices)[v := 0], outs, v)
            && Threaded(In, edges, edges.Keys, InHeads(vertices)[v := 0], ins)
      ensures v in outs && outs[v] == [] && v in ins && ins[v] == [] && Gone(t0, l0, Now(), L(), gone, v)
    {
      hide OutSound, OutRest, Threaded, InHeads, OutHeads, Gone, Sound;
      OutStart(Now(), outs, v);
      gone := gone0;
      var e := vertices[v].outEdges;
      ghost var heads := OutHeads(vertices);
      while e != 0
        invariant OutRest(Now(), heads[v := e], outs, v)
                && Threaded(In, edges, edges.Keys, InHeads(vertices)[v := 0], ins)
        invariant v in outs && e == At(outs[v], 0) && OutHeads(vertices) == heads
        invariant v in ins && ins[v] == [] && v in vertices && Gone(t0, l0, Now(), L(), gone, v)
        decreases edges.Keys
      {
        ghost var t, l := Now(), L();
        RestHead(t, heads[v := e], outs, v);
        var next := DropOutEdge(v, e, heads[v := e]);
        GoneOut(t0, l0, t, l, gone, v, e, Now());
        gone := gone + {e};
        LastHead(heads, v, e, next);
        e := next;
      }
      RestHead(Now(), heads[v := e], outs, v);
    }

    /** Deletes v and every edge that touches it. */
    method DeleteVertex(v: nat)
      requires Valid() && v in vertices
      modifies this
      ensures Valid() && vertices.Keys == old(vertices).Keys - {v} && SameEnds(old(Now()), Now())
      ensures forall e {:trigger e in edges} :: e in edges <==>
              e in old(edges) && old(edges)[e].from != v && old(edges)[e].to != v
      ensures OthersPruned(old(outs), outs, old(edges).Keys - edges.Keys, v)
            && OthersPruned(old(ins), ins, old(edges).Keys - edges.Keys, v)
    {
      hide OutSound, InSound, OutRest, Threaded, InHeads, OutHeads, Gone;
      ghost var t0, l0 := Now(), L();
      ghost var gone := TakeInEdges(v);
      GoneVertex(t0, l0, Now(), L(), gone, v);
      gone := TakeOutEdges(v, t0, l0, gone);
      WhatIsGone(t0, l0, Now(), L(), gone, v, OutHeads(vertices)[v := 0], InHeads(vertices)[v := 0]);
      DroppedSound(Now(), outs, ins, v, 0);
      vertices := vertices - {v};
      outs, ins := outs - {v}, ins - {v};
    }
  }

  lemma OutChain(t: Tables, outs: map<nat, seq<nat>>, v: nat)
    requires OutSound(t, t.edges.Keys, outs) && v in t.vertices
    ensures v in outs && Chain(Out, t.edges, t.vertices[v].outEdges, outs[v])
  {
    OutVertex(t, outs, v);
  }

  lemma InChain(t: Tables, ins: map<nat, seq<nat>>, v: nat)
    requires InSound(t, t.edges.Keys, ins) && v in t.vertices
    ensures v in ins && Chain(In, t.edges, t.vertices[v].inEdges, ins[v])
  {
    InVertex(t, ins, v);
  }

  /** The lists yield every edge of the vertex once, and no other. */
  lemma ListsAreEdges(t: Tables, outs: map<nat, seq<nat>>, ins: map<nat, seq<nat>>, v: nat, e: nat)
    requires OutSound(t, t.edges.Keys, outs) && InSound(t, t.edges.Keys, ins) && v in t.vertices
    ensures v in outs && v in ins && Distinct(outs[v]) && Distinct(ins[v])
    ensures e in outs[v] <==> e in t.edges && t.edges[e].from == v
    ensures e in ins[v] <==> e in t.edges && t.edges[e].to == v
  {
    OutVertex(t, outs, v);
    InVertex(t, ins, v);
    assert Chain(Out, t.edges, OutHeads(t.vertices)[v], outs[v]) && Chain(In, t.edges, InHeads(t.vertices)[v], ins[v]);
    assert Holds(Out, t.edges, t.edges.Keys, v, outs[v]) && Holds(In, t.edges, t.edges.Keys, v, ins[v]);
  }

  lemma ListsHold(t: Tables, outs: map<nat, seq<nat>>, ins: map<nat, seq<nat>>, v: nat)
    requires OutSound(t, t.edges.Keys, outs) && InSound(t, t.edges.Keys, ins) && v in t.vertices
    ensures v in outs && v in ins && Distinct(outs[v]) && Distinct(ins[v])
    ensures forall e {:trigger e in outs[v]} :: e in outs[v] <==> e in t.edges && t.edges[e].from == v
    ensures forall e {:trigger e in ins[v]} :: e in ins[v] <==> e in t.edges && t.edges[e].to == v
  {
    hide OutSound, InSound, Distinct;
    ListsAreEdges(t, outs, ins, v, 0);
    forall e
      ensures e in outs[v] <==> e in t.edges && t.edges[e].from == v
      ensures e in ins[v] <==> e in t.edges && t.edges[e].to == v
    {
      ListsAreEdges(t, outs, ins, v, e);
    }
  }

  lemma DistinctSize(list: seq<nat>, members: set<nat>)
    requires Distinct(list) && forall e {:trigger e in list} {:trigger e in members} :: e in list <==> e in members
    ensures |members| == |list|
  {
    MembersSize<nat>(list);
    assert members == set x: nat | x in list;
  }

  lemma AddedKeeps(t: Tables, from: nat, to: nat, arcSet: int, id: nat)
    requires from in t.vertices && to in t.vertices && id !in t.edges
    ensures var t1 := AddedOut(t, from, to, arcSet, id);
            id in t1.edges && to in t1.vertices && KeepsEnds(t, AddedIn(t1, to, id))
  {
  }

  lemma LastHead(heads: map<nat, nat>, v: nat, x: nat, y: nat)
    ensures heads[v := x][v := y] == heads[v := y]
  {
  }

  lemma InStart(t: Tables, ins: map<nat, seq<nat>>, v: nat)
    requires InSound(t, t.edges.Keys, ins) && v in t.vertices
    ensures v in ins && t.vertices[v].inEdges == At(ins[v], 0)
    ensures Threaded(In, t.edges, t.edges.Keys, InHeads(t.vertices)[v := t.vertices[v].inEdges], ins)
  {
    InChain(t, ins, v);
    SameHead(InHeads(t.vertices), v);
  }

  lemma OutStart(t: Tables, outs: map<nat, seq<nat>>, v: nat)
    requires OutSound(t, t.edges.Keys, outs) && v in t.vertices
    ensures v in outs && t.vertices[v].outEdges == At(outs[v], 0)
    ensures OutRest(t, OutHeads(t.vertices)[v := t.vertices[v].outEdges], outs, v)
  {
    OutChain(t, outs, v);
    SameHead(OutHeads(t.vertices), v);
  }

  lemma RestHead(t: Tables, heads: map<nat, nat>, outs: map<nat, seq<nat>>, v: nat)
    requires OutRest(t, heads, outs, v) && v in outs
    ensures v in heads && heads[v] == At(outs[v], 0)
    ensures |outs[v]| > 0 ==> outs[v][0] != 0
  {
    HeadOfList(Out, t.edges, heads, outs, v);
  }

  lemma GoneVertex(t0: Tables, l0: Lists, t: Tables, l: Lists, gone: set<nat>, v: nat)
    requires Gone(t0, l0, t, l, gone, v) && v in t0.vertices
    ensures v in t.vertices && t.vertices.Keys == t0.vertices.Keys
  {
    assert v in t0.vertices.Keys;
  }

  /** The lists of every vertex but v, without the edges that are gone. */
  ghost predicate OthersPruned(before: map<nat, seq<nat>>, lists: map<nat, seq<nat>>, gone: set<nat>, v: nat) {
    && lists.Keys == before.Keys - {v}
    && forall w {:trigger lists[w]} :: w in lists ==> w in before && lists[w] == Pruned(before[w], gone)
  }

  /** Exactly the edges at v are gone. */
  lemma WhatIsGone(t0: Tables, l0: Lists, t: Tables, l: Lists, gone: set<nat>, v: nat, outHeads: map<nat, nat>,
                   inHeads: map<nat, nat>)
    requires Gone(t0, l0, t, l, gone, v)
    requires OutRest(t, outHeads, l.outs, v) && Threaded(In, t.edges, t.edges.Keys, inHeads, l.ins)
    requires v in l.outs && l.outs[v] == [] && v in l.ins && l.ins[v] == []
    ensures t.vertices.Keys == t0.vertices.Keys && SameEnds(t0, t)
    ensures forall e {:trigger e in t.edges} :: e in t.edges <==>
            e in t0.edges && t0.edges[e].from != v && t0.edges[e].to != v
    ensures t0.edges.Keys - t.edges.Keys == gone
    ensures OthersPruned(l0.outs, l.outs - {v}, gone, v) && OthersPruned(l0.ins, l.ins - {v}, gone, v)
  {
    hide OutRest, Threaded, AllPruned, OthersPruned, SameEnds;
    EdgesGone(t0, l0, t, l, gone, v, outHeads, inHeads);
    assert t0.edges.Keys - t.edges.Keys == gone by {
      assert forall e :: e in gone ==> e in t0.edges.Keys;
    }
    RestPruned(l0.outs, l.outs, gone, v);
    RestPruned(l0.ins, l.ins, gone, v);
  }

  lemma RestPruned(lists0: map<nat, seq<nat>>, lists: map<nat, seq<nat>>, gone: set<nat>, v: nat)
    requires AllPruned(lists0, lists, gone, v)
    ensures OthersPruned(lists0, lists - {v}, gone, v)
  {
    hide Pruned;
    assert (lists - {v}).Keys == lists0.Keys - {v};
    forall w | w in lists - {v}
      ensures w in lists0 && (lists - {v})[w] == Pruned(lists0[w], gone)
    {
      assert w in lists.Keys && w in lists0.Keys;
    }
  }

  lemma EdgesGone(t0: Tables, l0: Lists, t: Tables, l: Lists, gone: set<nat>, v: nat, outHeads: map<nat, nat>,
                  inHeads: map<nat, nat>)
    requires Gone(t0, l0, t, l, gone, v)
    requires OutRest(t, outHeads, l.outs, v) && Threaded(In, t.edges, t.edges.Keys, inHeads, l.ins)
    requires v in l.outs && l.outs[v] == [] && v in l.ins && l.ins[v] == []
    ensures forall e {:trigger e in t.edges} :: e in t.edges <==>
            e in t0.edges && t0.edges[e].from != v && t0.edges[e].to != v
  {
    hide Threaded, AllPruned, AllBacked;
    forall e
      ensures e in t.edges <==> e in t0.edges && t0.edges[e].from != v && t0.edges[e].to != v
    {
      if e in t.edges {
        NoneLeft(t, outHeads, l.outs, inHeads, l.ins, v, e);
        assert e in t.edges.Keys;
      } else if e in t0.edges {
        assert e in t0.edges.Keys && e !in t.edges.Keys;
        assert e in gone;
      }
    }
  }
}
