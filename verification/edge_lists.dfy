/** Lists of edges threaded through the edges themselves: for every vertex one list of the
    edges that leave it and one of the edges that enter it.  0 is the null id. */
module EdgeLists {

  datatype Edge = Edge(from: nat, to: nat, arcSet: int, inNext: nat, outNext: nat, outPrev: nat)

  /** The two kinds of list. */
  datatype Side = In | Out

  function Owner(side: Side, e: Edge): nat { if side.In? then e.to else e.from }

  function Next(side: Side, e: Edge): nat { if side.In? then e.inNext else e.outNext }

  /** Entry i of a list, null beyond either end. */
  function At(list: seq<nat>, i: int): nat { if 0 <= i < |list| then list[i] else 0 }

  function Without(list: seq<nat>, k: nat): seq<nat>
    requires k < |list|
  {
    list[..k] + list[k + 1..]
  }

  ghost predicate Distinct(list: seq<nat>) {
    forall i, j {:trigger list[i], list[j]} :: 0 <= i < j < |list| ==> list[i] != list[j]
  }

  /** The next id of entry i is the entry after it. */
  ghost predicate Follows(side: Side, edges: map<nat, Edge>, list: seq<nat>, i: int) {
    0 <= i < |list| && list[i] in edges && Next(side, edges[list[i]]) == At(list, i + 1)
  }

  /** The list starts at head and follows the next ids to null. */
  ghost predicate Chain(side: Side, edges: map<nat, Edge>, head: nat, list: seq<nat>) {
    && Distinct(list) && head == At(list, 0)
    && (forall i {:trigger list[i]} :: 0 <= i < |list| ==> list[i] != 0 && list[i] in edges)
    && forall i {:trigger Follows(side, edges, list, i)} :: 0 <= i < |list| ==> Follows(side, edges, list, i)
  }

  /** v's list holds exactly the live edges that v owns. */
  ghost predicate Holds(side: Side, edges: map<nat, Edge>, live: set<nat>, v: nat, list: seq<nat>) {
    forall e {:trigger e in list} {:trigger e in live} :: e in list <==>
        e in live && e in edges && Owner(side, edges[e]) == v
  }

  ghost predicate Keyed(side: Side, edges: map<nat, Edge>, live: set<nat>, heads: map<nat, nat>,
                        lists: map<nat, seq<nat>>) {
    && heads.Keys == lists.Keys && live <= edges.Keys
    && forall e {:trigger edges[e]} :: e in live ==> Owner(side, edges[e]) in lists
  }

  /** Every vertex's list is a chain of exactly the live edges it owns. */
  ghost predicate Threaded(side: Side, edges: map<nat, Edge>, live: set<nat>, heads: map<nat, nat>,
                           lists: map<nat, seq<nat>>) {
    && Keyed(side, edges, live, heads, lists)
    && (forall v {:trigger lists[v]} :: v in lists ==>
         Chain(side, edges, heads[v], lists[v]) && Holds(side, edges, live, v, lists[v]))
  }

  /** The previous id of entry i is the entry before it. */
  ghost predicate Precedes(edges: map<nat, Edge>, list: seq<nat>, i: int) {
    0 <= i < |list| && list[i] in edges ==> edges[list[i]].outPrev == At(list, i - 1)
  }

  /** The previous ids undo the next ids. */
  ghost predicate Backed(edges: map<nat, Edge>, list: seq<nat>) {
    forall i {:trigger Precedes(edges, list, i)} :: Precedes(edges, list, i)
  }

  ghost predicate AllBacked(edges: map<nat, Edge>, lists: map<nat, seq<nat>>) {
    forall v {:trigger lists[v]} :: v in lists ==> Backed(edges, lists[v])
  }

  // ---------------------------------------------------------------------------
  // Changes that leave a kind of list alone

  /** The two tables agree on who owns an edge and what comes after it. */
  ghost predicate SameLinks(side: Side, edges: map<nat, Edge>, edges': map<nat, Edge>, live: set<nat>) {
    forall e {:trigger edges'[e]} {:trigger e in live} :: e in live ==>
      e in edges && e in edges' && Owner(side, edges'[e]) == Owner(side, edges[e])
          && Next(side, edges'[e]) == Next(side, edges[e])
  }

  lemma ThreadedFrame(side: Side, edges: map<nat, Edge>, edges': map<nat, Edge>, live: set<nat>,
                      heads: map<nat, nat>, lists: map<nat, seq<nat>>)
    requires Threaded(side, edges, live, heads, lists) && SameLinks(side, edges, edges', live)
    ensures Threaded(side, edges', live, heads, lists)
  {
    forall v | v in lists
      ensures Chain(side, edges', heads[v], lists[v]) && Holds(side, edges', live, v, lists[v])
    {
      assert Chain(side, edges, heads[v], lists[v]) && Holds(side, edges, live, v, lists[v]);
      forall i | 0 <= i < |lists[v]|
        ensures lists[v][i] != 0 && lists[v][i] in edges' && Follows(side, edges', lists[v], i)
      {
        assert lists[v][i] in lists[v] && Follows(side, edges, lists[v], i);
      }
    }
  }

  /** An edge is in one list only. */
  lemma OneList(side: Side, edges: map<nat, Edge>, live: set<nat>, heads: map<nat, nat>, lists: map<nat, seq<nat>>,
                v: nat, w: nat, e: nat)
    requires Threaded(side, edges, live, heads, lists) && v in lists && w in lists && e in lists[v] && v != w
    ensures e !in lists[w]
  {
    assert Holds(side, edges, live, v, lists[v]) && Holds(side, edges, live, w, lists[w]);
  }

  // ---------------------------------------------------------------------------
  // Adding an edge at the front

  lemma AddFront(side: Side, edges: map<nat, Edge>, edges': map<nat, Edge>, live: set<nat>, heads: map<nat, nat>,
                 lists: map<nat, seq<nat>>, id: nat)
    requires Threaded(side, edges, live, heads, lists) && SameLinks(side, edges, edges', live)
    requires id != 0 && id !in live && id in edges' && Owner(side, edges'[id]) in lists
    requires Next(side, edges'[id]) == heads[Owner(side, edges'[id])]
    ensures var v := Owner(side, edges'[id]);
            Threaded(side, edges', live + {id}, heads[v := id], lists[v := [id] + lists[v]])
  {
    ThreadedFrame(side, edges, edges', live, heads, lists);
    var v := Owner(side, edges'[id]);
    var heads', lists' := heads[v := id], lists[v := [id] + lists[v]];
    forall w | w in lists'
      ensures Chain(side, edges', heads'[w], lists'[w]) && Holds(side, edges', live + {id}, w, lists'[w])
    {
      assert Chain(side, edges', heads[w], lists[w]) && Holds(side, edges', live, w, lists[w]);
      if w == v {
        FrontChain(side, edges', live, heads[v], lists[v], v, id);
      }
    }
  }

  lemma FrontChain(side: Side, edges: map<nat, Edge>, live: set<nat>, head: nat, list: seq<nat>, v: nat, id: nat)
    requires Chain(side, edges, head, list) && Holds(side, edges, live, v, list)
    requires id != 0 && id !in live && id in edges && Next(side, edges[id]) == head && Owner(side, edges[id]) == v
    ensures Chain(side, edges, id, [id] + list) && Holds(side, edges, live + {id}, v, [id] + list)
  {
    var list' := [id] + list;
    forall i, j | 0 <= i < j < |list'|
      ensures list'[i] != list'[j]
    {
      assert list'[j] == list[j - 1];
      assert list[j - 1] in list;
    }
    forall i | 0 <= i < |list'|
      ensures Follows(side, edges, list', i)
    {
      if i > 0 {
        assert list'[i] == list[i - 1] && At(list', i + 1) == At(list, i) && Follows(side, edges, list, i - 1);
      }
    }
    forall e
      ensures e in list' <==> e in live + {id} && e in edges && Owner(side, edges[e]) == v
    {
      assert e in list' <==> e == id || e in list;
    }
  }

  // ---------------------------------------------------------------------------
  // Taking an edge out

  /** After an edge at place k of v's list has been bypassed. */
  ghost predicate Bypassed(side: Side, edges: map<nat, Edge>, edges': map<nat, Edge>, live: set<nat>, list: seq<nat>,
                           k: nat)
    requires k < |list|
  {
    forall e {:trigger edges'[e]} {:trigger e in live} :: e in live ==>
      && e in edges && e in edges' && Owner(side, edges'[e]) == Owner(side, edges[e])
      && Next(side, edges'[e]) == (if k > 0 && e == list[k - 1] then At(list, k + 1) else Next(side, edges[e]))
  }

  lemma TakeOut(side: Side, edges: map<nat, Edge>, edges': map<nat, Edge>, live: set<nat>, heads: map<nat, nat>,
                lists: map<nat, seq<nat>>, v: nat, k: nat)
    requires Threaded(side, edges, live, heads, lists) && v in lists && k < |lists[v]|
    requires Bypassed(side, edges, edges', live, lists[v], k)
    ensures var heads' := if k == 0 then heads[v := At(lists[v], 1)] else heads;
            Threaded(side, edges', live - {lists[v][k]}, heads', lists[v := Without(lists[v], k)])
  {
    var id := lists[v][k];
    var heads' := if k == 0 then heads[v := At(lists[v], 1)] else heads;
    var lists' := lists[v := Without(lists[v], k)];
    forall w | w in lists'
      ensures Chain(side, edges', heads'[w], lists'[w]) && Holds(side, edges', live - {id}, w, lists'[w])
    {
      if w == v {
        OwnChain(side, edges, edges', live, heads, lists, v, k);
      } else {
        OtherChain(side, edges, edges', live, heads, lists, v, k, w);
      }
    }
    TakeOutKeys(side, edges, edges', live, heads, lists, v, k);
  }

  lemma TakeOutKeys(side: Side, edges: map<nat, Edge>, edges': map<nat, Edge>, live: set<nat>, heads: map<nat, nat>,
                    lists: map<nat, seq<nat>>, v: nat, k: nat)
    requires Keyed(side, edges, live, heads, lists) && v in lists && k < |lists[v]|
    requires Bypassed(side, edges, edges', live, lists[v], k)
    ensures Keyed(side, edges', live - {lists[v][k]},
                  if k == 0 then heads[v := At(lists[v], 1)] else heads, lists[v := Without(lists[v], k)])
  {
  }

  lemma OwnChain(side: Side, edges: map<nat, Edge>, edges': map<nat, Edge>, live: set<nat>, heads: map<nat, nat>,
                 lists: map<nat, seq<nat>>, v: nat, k: nat)
    requires Threaded(side, edges, live, heads, lists) && v in lists && k < |lists[v]|
    requires Bypassed(side, edges, edges', live, lists[v], k)
    ensures Chain(side, edges', if k == 0 then At(lists[v], 1) else heads[v], Without(lists[v], k))
    ensures Holds(side, edges', live - {lists[v][k]}, v, Without(lists[v], k))
  {
    assert Chain(side, edges, heads[v], lists[v]) && Holds(side, edges, live, v, lists[v]);
    assert forall i :: 0 <= i < |lists[v]| ==> lists[v][i] in lists[v];
    ShorterChain(side, edges, edges', live, heads[v], lists[v], k);
    ShorterHolds(side, edges, edges', live, v, lists[v], k);
  }

  lemma OtherChain(side: Side, edges: map<nat, Edge>, edges': map<nat, Edge>, live: set<nat>, heads: map<nat, nat>,
                   lists: map<nat, seq<nat>>, v: nat, k: nat, w: nat)
    requires Threaded(side, edges, live, heads, lists) && v in lists && k < |lists[v]| && w in lists && w != v
    requires Bypassed(side, edges, edges', live, lists[v], k)
    ensures Chain(side, edges', heads[w], lists[w]) && Holds(side, edges', live - {lists[v][k]}, w, lists[w])
  {
    assert Chain(side, edges, heads[w], lists[w]) && Holds(side, edges, live, w, lists[w]);
    assert lists[v][k] in lists[v];
    OneList(side, edges, live, heads, lists, v, w, lists[v][k]);
    forall i | 0 <= i < |lists[w]|
      ensures lists[w][i] != 0 && lists[w][i] in edges' && Follows(side, edges', lists[w], i)
    {
      assert lists[w][i] in lists[w] && Follows(side, edges, lists[w], i);
      if k > 0 {
        assert lists[v][k - 1] in lists[v];
        OneList(side, edges, live, heads, lists, v, w, lists[v][k - 1]);
      }
    }
  }

  lemma WithoutAt(list: seq<nat>, k: nat, i: int)
    requires k < |list|
    ensures At(Without(list, k), i) == At(list, if i < k then i else i + 1)
  {
  }

  lemma ShorterLink(side: Side, edges: map<nat, Edge>, edges': map<nat, Edge>, live: set<nat>, head: nat,
                    list: seq<nat>, k: nat, j: nat)
    requires Chain(side, edges, head, list) && k < |list| && j < |list| && j != k && list[j] in live
    requires Bypassed(side, edges, edges', live, list, k)
    ensures list[j] != 0 && list[j] in edges'
            && Next(side, edges'[list[j]]) == At(list, if j + 1 == k then k + 1 else j + 1)
  {
    assert edges'[list[j]] == edges'[list[j]] && Follows(side, edges, list, j) && Follows(side, edges, list, k);
    if k > 0 && j < k - 1 {
      assert list[j] != list[k - 1];
    } else if k > 0 && j > k - 1 {
      assert list[k - 1] != list[j];
    }
  }

  lemma ShorterChain(side: Side, edges: map<nat, Edge>, edges': map<nat, Edge>, live: set<nat>, head: nat,
                     list: seq<nat>, k: nat)
    requires Chain(side, edges, head, list) && k < |list| && forall i {:trigger list[i]} :: 0 <= i < |list| ==>
              list[i] in live
    requires Bypassed(side, edges, edges', live, list, k)
    ensures Chain(side, edges', if k == 0 then At(list, 1) else head, Without(list, k))
  {
    var short := Without(list, k);
    forall i | 0 <= i < |short|
      ensures short[i] != 0 && short[i] in edges' && Follows(side, edges', short, i)
    {
      var j := if i < k then i else i + 1;
      assert short[i] == list[j] && list[j] in live;
      ShorterLink(side, edges, edges', live, head, list, k, j);
      WithoutAt(list, k, i + 1);
    }
    ShorterDistinct(list, k);
    WithoutAt(list, k, 0);
  }

  lemma ShorterDistinct(list: seq<nat>, k: nat)
    requires Distinct(list) && k < |list|
    ensures Distinct(Without(list, k))
  {
    var short := Without(list, k);
    forall i, j | 0 <= i < j < |short|
      ensures short[i] != short[j]
    {
      assert short[i] == list[if i < k then i else i + 1] && short[j] == list[if j < k then j else j + 1];
    }
  }

  lemma ShorterHolds(side: Side, edges: map<nat, Edge>, edges': map<nat, Edge>, live: set<nat>, v: nat,
                     list: seq<nat>, k: nat)
    requires Holds(side, edges, live, v, list) && Distinct(list) && k < |list|
           && Bypassed(side, edges, edges', live, list, k)
    ensures Holds(side, edges', live - {list[k]}, v, Without(list, k))
  {
    var short := Without(list, k);
    forall e
      ensures e in short <==> e in live - {list[k]} && e in edges' && Owner(side, edges'[e]) == v
    {
      if e in short {
        var i :| 0 <= i < |short| && short[i] == e;
        assert e == list[if i < k then i else i + 1];
        assert e in list && e != list[k];
      }
      if e in live - {list[k]} && e in edges' && Owner(side, edges'[e]) == v {
        assert e in list;
        var j :| 0 <= j < |list| && list[j] == e;
        assert short[if j < k then j else j - 1] == e;
      }
    }
  }
}
