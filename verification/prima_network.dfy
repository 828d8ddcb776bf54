/** Which parasitic nodes enter the simulated network, and under which index: the walk out
    from the drivers through resistors, which merges a node into the one it is first reached
    from if it is reached through a zero resistor. */
module PrimaNetwork {

  /** The ends of a resistor are node ids; a negative id stands for a missing node. */
  datatype Resistor = Resistor(node1: int, node2: int, value: real)
  datatype Parasitic = Parasitic(resistors: seq<Resistor>, external: set<int>, pinOf: map<int, int>,
      pinNode: map<int, int>)
  datatype Arg = Arg(parasitic: nat, drvrPin: int)
  datatype Node = Node(par: nat, id: int)

  datatype Circuit = Circuit(parasitics: seq<Parasitic>, args: seq<Arg>) {
    /** Every argument has a parasitic, pins and their nodes correspond, and no two nodes of
        the network have the same pin. */
    ghost predicate Valid() {
      && (forall k {:trigger args[k]} :: 0 <= k < |args| ==> args[k].parasitic < |parasitics|)
      && (forall x: Node, pin {:trigger FindNode(x.par, pin), HasPin(x, pin)} :: Internal(x) && HasPin(x, pin) ==>
           FindNode(x.par, pin) == x.id)
      && (forall par: nat, pin {:trigger FindNode(par, pin)} :: par < |parasitics| && FindNode(par, pin) >= 0 ==>
           HasPin(Node(par, FindNode(par, pin)), pin))
      && (forall x: Node, y: Node, pin {:trigger HasPin(x, pin), HasPin(y, pin)} ::
            Internal(x) && Internal(y) && HasPin(x, pin) && HasPin(y, pin) ==> x == y)
    }

    predicate Internal(x: Node) {
      x.par < |parasitics| && x.id >= 0 && x.id !in parasitics[x.par].external
    }

    predicate HasPin(x: Node, pin: int) {
      x.par < |parasitics| && x.id in parasitics[x.par].pinOf && parasitics[x.par].pinOf[x.id] == pin
    }

    /** The node of a pin in a parasitic, -1 if there is none. */
    function FindNode(par: nat, pin: int): int {
      if par < |parasitics| && pin in parasitics[par].pinNode then parasitics[par].pinNode[pin] else -1
    }

    /** Resistor e of x's parasitic joins x to y. */
    predicate Joins(e: int, x: Node, y: Node) {
      && x.par == y.par < |parasitics| && 0 <= e < |parasitics[x.par].resistors|
      && var r := parasitics[x.par].resistors[e];
         (r.node1 == x.id && r.node2 == y.id) || (r.node1 == y.id && r.node2 == x.id)
    }

    /** Resistor e joins x to y and is zero. */
    predicate Shorts(e: int, x: Node, y: Node) {
      Joins(e, x, y) && parasitics[x.par].resistors[e].value == 0.0
    }

    /** A chain of k zero resistors between nodes of the network leads from x to y. */
    ghost predicate ShortedIn(x: Node, y: Node, k: nat)
      decreases k
    {
      if k == 0 then x == y else Internal(y) && exists w, e :: ShortedIn(x, w, k - 1) && Shorts(e, w, y)
    }

    ghost predicate Shorted(x: Node, y: Node) {
      exists k: nat :: ShortedIn(x, y, k)
    }

    predicate Used(par: nat) {
      exists k :: 0 <= k < |args| && args[k].parasitic == par
    }

    /** x is the node of some driver in one of the parasitics in use. */
    predicate IsDriver(x: Node) {
      Internal(x) && Used(x.par) && exists k :: 0 <= k < |args| && FindNode(x.par, args[k].drvrPin) == x.id
    }

    /** x is joined to a driver by a chain of k resistors between nodes of the network. */
    ghost predicate ReachedIn(x: Node, k: nat)
      decreases k
    {
      if k == 0 then IsDriver(x) else Internal(x) && exists y, e :: ReachedIn(y, k - 1) && Joins(e, y, x)
    }

    ghost predicate Reached(x: Node) {
      exists k: nat :: ReachedIn(x, k)
    }

    ghost predicate NonNegative() {
      forall par, e {:trigger parasitics[par].resistors[e]} ::
        0 <= par < |parasitics| && 0 <= e < |parasitics[par].resistors| ==>
        parasitics[par].resistors[e].value >= 0.0
    }
  }

  lemma ReachedNext(c: Circuit, x: Node, y: Node, e: int)
    requires c.Reached(x) && c.Joins(e, x, y) && c.Internal(y)
    ensures c.Reached(y)
  {
    var k: nat :| c.ReachedIn(x, k);
    assert c.ReachedIn(y, k + 1);
  }

  /** A chain with one more zero resistor at its end, or at its start. */
  lemma ShortedNext(c: Circuit, x: Node, y: Node, z: Node, e: int)
    requires c.Shorted(x, y) && c.Shorts(e, y, z) && c.Internal(z)
    ensures c.Shorted(x, z)
  {
    var k: nat :| c.ShortedIn(x, y, k);
    assert c.ShortedIn(x, z, k + 1);
  }

  lemma {:induction false} ShortedFirst(c: Circuit, x: Node, y: Node, z: Node, e: int, k: nat)
    requires c.Shorts(e, x, y) && c.Internal(y) && c.ShortedIn(y, z, k)
    ensures c.ShortedIn(x, z, k + 1)
    decreases k
  {
    if k == 0 {
      assert c.ShortedIn(x, x, 0);
    } else {
      var w, d :| c.ShortedIn(y, w, k - 1) && c.Shorts(d, w, z);
      ShortedFirst(c, x, y, w, e, k - 1);
    }
  }

  lemma {:induction false} ShortedBack(c: Circuit, x: Node, y: Node, k: nat)
    requires c.ShortedIn(x, y, k) && c.Internal(x)
    ensures c.ShortedIn(y, x, k)
    decreases k
  {
    if k > 0 {
      var w, e :| c.ShortedIn(x, w, k - 1) && c.Shorts(e, w, y);
      ShortedBack(c, x, w, k - 1);
      assert c.Shorts(e, y, w);
      if k > 1 {
        ShortedInside(c, x, w, k - 1);
      }
      ShortedFirst(c, y, w, x, e, k - 1);
    }
  }

  lemma ShortedInside(c: Circuit, x: Node, y: Node, k: nat)
    requires c.ShortedIn(x, y, k) && c.Internal(x)
    ensures c.Internal(y)
  {
  }

  // ---------------------------------------------------------------------------
  // What the walk keeps

  /** Index i belongs to a driver, or to a node that a resistor of value other than zero joins
      to a node with a smaller index. */
  ghost predicate Based(c: Circuit, index: map<Node, nat>, i: nat) {
    || (exists d :: OwnIndex(c, index, i, d))
    || (exists x, y, e :: StepsUp(c, index, i, x, y, e))
  }

  ghost predicate OwnIndex(c: Circuit, index: map<Node, nat>, i: nat, d: Node) {
    d in index && index[d] == i && c.IsDriver(d)
  }

  ghost predicate StepsUp(c: Circuit, index: map<Node, nat>, i: nat, x: Node, y: Node, e: int) {
    && x in index && y in index && index[x] == i && index[y] < i
    && c.Joins(e, y, x) && c.parasitics[y.par].resistors[e].value != 0.0
  }

  /** The indices in use are 0 .. count-1, every one of them with a reason, and only nodes
      reached from a driver have one. */
  ghost predicate Numbered(c: Circuit, index: map<Node, nat>, count: nat) {
    && (forall x {:trigger index[x]} :: x in index ==> c.Internal(x) && c.Reached(x) && index[x] < count)
    && (forall i {:trigger Based(c, index, i)} :: 0 <= i < count ==> Based(c, index, i))
  }

  ghost predicate InRange(index: map<Node, nat>, count: nat) {
    forall x {:trigger index[x]} :: x in index ==> index[x] < count
  }

  /** Nodes that share an index are joined by a chain of zero resistors. */
  ghost predicate Merged(c: Circuit, index: map<Node, nat>) {
    forall x, y {:trigger index[x], index[y]} :: x in index && y in index && index[x] == index[y] ==> c.Shorted(x, y)
  }

  /** A node merged into its neighbour, or under an index of its own. */
  lemma MergedNext(c: Circuit, index: map<Node, nat>, x: Node, j: nat, w: Node, e: int)
    requires Merged(c, index) && x !in index && c.Internal(x)
    requires forall y {:trigger index[y]} :: y in index ==> c.Internal(y)
    requires (w in index && index[w] == j && c.Shorts(e, w, x))
             || forall y {:trigger index[y]} :: y in index ==> index[y] != j
    ensures Merged(c, index[x := j])
  {
    var index' := index[x := j];
    forall y, z | y in index' && z in index' && index'[y] == index'[z]
      ensures c.Shorted(y, z)
    {
      if y == z {
        assert c.ShortedIn(y, z, 0);
      } else if z == x {
        assert index[y] == index[w];
        ShortedNext(c, y, w, x, e);
      } else if y == x {
        assert index[w] == index[z];
        var k: nat :| c.ShortedIn(w, z, k);
        assert c.Shorts(e, x, w);
        ShortedFirst(c, x, w, z, e, k);
      } else {
        assert index[y] == index[z];
      }
    }
  }

  // ---------------------------------------------------------------------------
  // Who numbered whom

  /** e is the first resistor that joins x and y. */
  ghost predicate FirstJoin(c: Circuit, e: int, x: Node, y: Node) {
    c.Joins(e, x, y) && forall d {:trigger c.Joins(d, x, y)} :: 0 <= d < e ==> !c.Joins(d, x, y)
  }

  /** Nodes taken off the queue before place i have no resistor to y. */
  ghost predicate NoneBefore(c: Circuit, taken: seq<Node>, i: int, y: Node) {
    forall j, e {:trigger c.Joins(e, taken[j], y)} :: 0 <= j < i <= |taken| ==> !c.Joins(e, taken[j], y)
  }

  /** y was numbered from taken[i], through resistor e: nothing taken earlier has a resistor to
      it, and e is the first between them.  If e is zero, y is merged; otherwise it is entered
      under an index of its own. */
  ghost predicate ClaimedBy(c: Circuit, index: map<Node, nat>, entered: set<Node>, taken: seq<Node>, y: Node, i: int,
                            e: int) {
    && 0 <= i < |taken| && NoneBefore(c, taken, i, y) && FirstJoin(c, e, taken[i], y)
    && y in index && taken[i] in index
    && if c.Shorts(e, taken[i], y) then index[y] == index[taken[i]] && y !in entered else y in entered
  }

  /** Drivers are entered, and every other node was numbered from a node taken before place n. */
  ghost predicate Accounted(c: Circuit, index: map<Node, nat>, entered: set<Node>, taken: seq<Node>, y: Node, n: int) {
    if c.IsDriver(y) then y in entered else exists i, e :: i < n && ClaimedBy(c, index, entered, taken, y, i, e)
  }

  /** Some entered node has index i. */
  ghost predicate EntryOf(index: map<Node, nat>, entered: set<Node>, i: nat) {
    exists x :: x in entered && x in index && index[x] == i
  }

  /** How the nodes got their indices: one entered node for every index, and an account of
      every node, in the order in which the nodes were taken off the queue. */
  ghost predicate Story(c: Circuit, index: map<Node, nat>, count: nat, entered: set<Node>, taken: seq<Node>) {
    && (forall x {:trigger x in entered} :: x in entered ==> x in index)
    && (forall x, y {:trigger index[x], index[y]} :: x in entered && y in entered && index[x] == index[y] ==> x == y)
    && (forall i {:trigger EntryOf(index, entered, i)} :: 0 <= i < count ==> EntryOf(index, entered, i))
    && (forall y {:trigger index[y]} :: y in index ==> Accounted(c, index, entered, taken, y, |taken|))
    && (forall p {:trigger taken[p]} :: 0 <= p < |taken| ==>
         taken[p] in index && Accounted(c, index, entered, taken, taken[p], p))
  }

  lemma ClaimStays(c: Circuit, index: map<Node, nat>, entered: set<Node>, taken: seq<Node>, y: Node, n: int,
                   index': map<Node, nat>, entered': set<Node>, taken': seq<Node>)
    requires Accounted(c, index, entered, taken, y, n) && y in index && n <= |taken| <= |taken'|
    requires forall j :: 0 <= j < |taken| ==> taken'[j] == taken[j]
    requires forall x {:trigger index'[x]} {:trigger x in index} :: x in index ==>
               x in index' && index'[x] == index[x] && (x in entered' <==> x in entered)
    ensures Accounted(c, index', entered', taken', y, n)
  {
    if !c.IsDriver(y) {
      var i, e :| i < n && ClaimedBy(c, index, entered, taken, y, i, e);
      assert index'[y] == index[y] && index'[taken[i]] == index[taken[i]];
      assert NoneBefore(c, taken', i, y);
      assert ClaimedBy(c, index', entered', taken', y, i, e);
    }
  }

  /** The next node off the queue. */
  lemma TakeNext(c: Circuit, index: map<Node, nat>, count: nat, entered: set<Node>, taken: seq<Node>, x: Node)
    requires Story(c, index, count, entered, taken) && x in index
    ensures Story(c, index, count, entered, taken + [x])
  {
    hide Accounted, EntryOf;
    var taken' := taken + [x];
    forall y | y in index
      ensures Accounted(c, index, entered, taken', y, |taken|) && Accounted(c, index, entered, taken', y, |taken'|)
    {
      assert Accounted(c, index, entered, taken, y, |taken|);
      ClaimStays(c, index, entered, taken, y, |taken|, index, entered, taken');
      LaterAccount(c, index, entered, taken', y, |taken|);
    }
    forall p | 0 <= p < |taken'|
      ensures Accounted(c, index, entered, taken', taken'[p], p)
    {
      if p < |taken| {
        assert Accounted(c, index, entered, taken, taken[p], p);
        ClaimStays(c, index, entered, taken, taken[p], p, index, entered, taken');
      }
    }
  }

  lemma LaterAccount(c: Circuit, index: map<Node, nat>, entered: set<Node>, taken: seq<Node>, y: Node, n: int)
    requires Accounted(c, index, entered, taken, y, n) && n < |taken|
    ensures Accounted(c, index, entered, taken, y, |taken|)
  {
    if !c.IsDriver(y) {
      var i, e :| i < n && ClaimedBy(c, index, entered, taken, y, i, e);
      assert i < |taken|;
    }
  }

  /** One more node: entered under the next index, or merged. */
  lemma StoryNext(c: Circuit, index: map<Node, nat>, count: nat, entered: set<Node>, taken: seq<Node>, x: Node, j: nat,
                  isNew: bool)
    requires Story(c, index, count, entered, taken) && x !in index
    requires if isNew then j == count && (forall y {:trigger index[y]} :: y in index ==> index[y] < count)
             else j < count
    requires Accounted(c, index[x := j], if isNew then entered + {x} else entered, taken, x, |taken|)
    ensures Story(c, index[x := j], if isNew then count + 1 else count, if isNew then entered + {x} else entered, taken)
  {
    hide Accounted, EntryOf;
    var index', entered' := index[x := j], if isNew then entered + {x} else entered;
    assert x !in entered;
    forall y | y in index
      ensures Accounted(c, index', entered', taken, y, |taken|)
    {
      assert Accounted(c, index, entered, taken, y, |taken|);
      ClaimStays(c, index, entered, taken, y, |taken|, index', entered', taken);
    }
    forall p | 0 <= p < |taken|
      ensures Accounted(c, index', entered', taken, taken[p], p)
    {
      assert Accounted(c, index, entered, taken, taken[p], p);
      ClaimStays(c, index, entered, taken, taken[p], p, index', entered', taken);
    }
    forall i | 0 <= i < if isNew then count + 1 else count
      ensures EntryOf(index', entered', i)
    {
      if i < count {
        assert EntryOf(index, entered, i);
      }
      EntryStays(index, entered, x, j, isNew, i);
    }
  }

  lemma EntryStays(index: map<Node, nat>, entered: set<Node>, x: Node, j: nat, isNew: bool, i: nat)
    requires x !in index && (EntryOf(index, entered, i) || (isNew && i == j))
    ensures EntryOf(index[x := j], if isNew then entered + {x} else entered, i)
  {
    var index', entered' := index[x := j], if isNew then entered + {x} else entered;
    if EntryOf(index, entered, i) {
      var y :| y in entered && y in index && index[y] == i;
      assert y in entered' && index'[y] == i;
    } else {
      assert x in entered' && index'[x] == i;
    }
  }

  /** Every pin of a numbered node has the index of its node. */
  ghost predicate PinsKept(c: Circuit, index: map<Node, nat>, pins: map<int, nat>) {
    forall x, pin {:trigger c.HasPin(x, pin)} :: x in index && c.HasPin(x, pin) ==> pin in pins && pins[pin] == index[x]
  }

  lemma BasedStays(c: Circuit, index: map<Node, nat>, x: Node, j: nat, i: nat)
    requires Based(c, index, i) && x !in index
    ensures Based(c, index[x := j], i)
  {
    if d :| OwnIndex(c, index, i, d) {
      assert OwnIndex(c, index[x := j], i, d);
    } else {
      var w, y, e :| StepsUp(c, index, i, w, y, e);
      assert StepsUp(c, index[x := j], i, w, y, e);
    }
  }

  lemma NumberedNodes(c: Circuit, index: map<Node, nat>, count: nat)
    requires Numbered(c, index, count)
    ensures forall x {:trigger index[x]} {:trigger x in index} :: x in index ==> c.Internal(x) && index[x] < count
  {
  }

  /** Numbering one more node. */
  lemma PlaceKeeps(c: Circuit, index: map<Node, nat>, count: nat, x: Node, j: nat, count': nat)
    requires Numbered(c, index, count) && x !in index && c.Internal(x) && c.Reached(x)
    requires (count' == count && j < count) || (count' == count + 1 && j == count && Based(c, index[x := j], j))
    ensures Numbered(c, index[x := j], count')
  {
    var index' := index[x := j];
    forall i | 0 <= i < count'
      ensures Based(c, index', i)
    {
      if i < count {
        BasedStays(c, index, x, j, i);
      }
    }
  }

  lemma PlacePins(c: Circuit, index: map<Node, nat>, pins: map<int, nat>, pins': map<int, nat>, x: Node, j: nat)
    requires c.Valid() && PinsKept(c, index, pins) && c.Internal(x) && forall y :: y in index ==> c.Internal(y)
    requires if x.id in c.parasitics[x.par].pinOf then pins' == pins[c.parasitics[x.par].pinOf[x.id] := j]
             else pins' == pins
    ensures PinsKept(c, index[x := j], pins')
  {
    forall y, pin | y in index[x := j] && c.HasPin(y, pin)
      ensures pin in pins' && pins'[pin] == index[x := j][y]
    {
      if c.HasPin(x, pin) {
        assert x == y;
      }
    }
  }

  // ---------------------------------------------------------------------------
  // Closure under resistors

  /** Whatever a resistor of its parasitic joins to x is numbered. */
  ghost predicate Expanded(c: Circuit, index: map<Node, nat>, x: Node) {
    forall y, e {:trigger c.Joins(e, x, y)} :: c.Joins(e, x, y) && c.Internal(y) ==> y in index
  }

  /** Every numbered node of the parasitic is expanded or waiting in the queue. */
  ghost predicate Pending(c: Circuit, index: map<Node, nat>, queue: seq<Node>, par: nat) {
    forall y {:trigger index[y]} {:trigger y in index} :: y in index && y.par == par && y !in queue ==>
         Expanded(c, index, y)
  }

  /** Following resistors of the parasitic numbers nodes of that parasitic only, and queues
      every new one. */
  ghost predicate Grown(before: map<Node, nat>, queue: seq<Node>, index: map<Node, nat>, queue': seq<Node>, par: nat) {
    && Kept(before, index, par)
    && (forall x {:trigger x in index} :: x in index && x !in before ==> x in queue')
    && (forall x {:trigger x in queue} :: x in queue ==> x in queue')
    && (forall x {:trigger x in queue'} :: x in queue' ==> x in queue || (x in index && x.par == par))
  }

  lemma GrownNone(index: map<Node, nat>, queue: seq<Node>, par: nat)
    ensures Grown(index, queue, index, queue, par)
  {
  }

  lemma GrownTwice(i0: map<Node, nat>, q0: seq<Node>, i1: map<Node, nat>, q1: seq<Node>, i2: map<Node, nat>,
                   q2: seq<Node>, par: nat)
    requires Grown(i0, q0, i1, q1, par) && Grown(i1, q1, i2, q2, par)
    ensures Grown(i0, q0, i2, q2, par)
  {
  }

  lemma PopPending(c: Circuit, before: map<Node, nat>, queue: seq<Node>, index: map<Node, nat>, queue': seq<Node>,
                   par: nat)
    requires |queue| > 0 && Pending(c, before, queue, par)
    requires Grown(before, queue[..|queue| - 1], index, queue', par) && Expanded(c, index, queue[|queue| - 1])
    requires AreNumbered(before, queue, par)
    ensures Pending(c, index, queue', par) && AreNumbered(index, queue', par)
  {
    forall x | x in queue'
      ensures x in index && x.par == par
    {
      if x in queue[..|queue| - 1] {
        assert x in queue;
        assert x in before;
      }
    }
    var node := queue[|queue| - 1];
    forall y | y in index && y.par == par && y !in queue'
      ensures Expanded(c, index, y)
    {
      if y != node {
        assert y !in queue[..|queue| - 1];
        assert y !in queue;
        assert Expanded(c, before, y);
      }
    }
  }

  /** Every node of every parasitic already walked is expanded. */
  ghost predicate Walked(c: Circuit, index: map<Node, nat>, visited: set<nat>) {
    && (forall x {:trigger index[x]} :: x in index ==> x.par in visited && Expanded(c, index, x))
    && (forall d {:trigger c.IsDriver(d)} :: c.IsDriver(d) && d.par in visited ==> d in index)
  }

  lemma {:induction false} WalkedReached(c: Circuit, index: map<Node, nat>, visited: set<nat>, x: Node, k: nat)
    requires Walked(c, index, visited) && (forall par {:trigger c.Used(par)} :: c.Used(par) ==> par in visited)
    requires c.ReachedIn(x, k)
    ensures x in index
    decreases k
  {
    if k == 0 {
      assert c.Used(x.par);
    } else {
      var y, e :| c.ReachedIn(y, k - 1) && c.Joins(e, y, x);
      WalkedReached(c, index, visited, y, k - 1);
      assert Expanded(c, index, y);
    }
  }

  // ---------------------------------------------------------------------------
  // Nodes left to number

  function Ends(resistors: seq<Resistor>, par: nat, m: nat): (u: set<Node>)
    requires m <= |resistors|
    ensures forall e :: 0 <= e < m ==> Node(par, resistors[e].node1) in u && Node(par, resistors[e].node2) in u
  {
    if m == 0 then {} else
      Ends(resistors, par, m - 1) + {Node(par, resistors[m - 1].node1), Node(par, resistors[m - 1].node2)}
  }

  ghost function Unnumbered(c: Circuit, par: nat, index: map<Node, nat>): nat
    requires par < |c.parasitics|
  {
    |Ends(c.parasitics[par].resistors, par, |c.parasitics[par].resistors|) - index.Keys|
  }

  lemma PlaceShrinks(c: Circuit, par: nat, index: map<Node, nat>, x: Node, y: Node, e: int, j: nat)
    requires x.par == par < |c.parasitics| && c.Joins(e, x, y) && y !in index
    ensures Unnumbered(c, par, index[y := j]) < Unnumbered(c, par, index)
  {
    var all := Ends(c.parasitics[par].resistors, par, |c.parasitics[par].resistors|);
    var r := c.parasitics[par].resistors[e];
    assert y == Node(par, r.node1) || y == Node(par, r.node2);
    assert all - index[y := j].Keys == (all - index.Keys) - {y};
  }

  // ---------------------------------------------------------------------------
  // The walk

  /** The resistors at every node id, in order. */
  ghost predicate MapsResistors(resistors: seq<Resistor>, m: map<int, seq<int>>, k: nat) {
    MapsTo(resistors, m, k) && InOrder(m, k)
  }

  ghost predicate MapsTo(resistors: seq<Resistor>, m: map<int, seq<int>>, k: nat) {
    && k <= |resistors|
    && (forall id, i {:trigger m[id][i]} :: id in m && 0 <= i < |m[id]| ==>
         0 <= m[id][i] < k && Touches(resistors, m[id][i], id))
    && (forall e, id {:trigger Touches(resistors, e, id)} :: 0 <= e < k && Touches(resistors, e, id) ==>
         id in m && e in m[id])
  }

  /** Every list is sorted, with entries below k. */
  ghost predicate InOrder(m: map<int, seq<int>>, k: nat) {
    && (forall id, i {:trigger m[id][i]} :: id in m && 0 <= i < |m[id]| ==> m[id][i] < k)
    && (forall id, i, j {:trigger m[id][i], m[id][j]} :: id in m && 0 <= i < j < |m[id]| ==> m[id][i] <= m[id][j])
  }

  lemma PushInOrder(m: map<int, seq<int>>, id: int, e: nat)
    requires InOrder(m, e + 1)
    ensures InOrder(Push(m, id, e), e + 1)
  {
  }

  predicate Touches(resistors: seq<Resistor>, e: int, id: int) {
    0 <= e < |resistors| && (resistors[e].node1 == id || resistors[e].node2 == id)
  }

  function Push(m: map<int, seq<int>>, id: int, e: int): map<int, seq<int>> {
    m[id := (if id in m then m[id] else []) + [e]]
  }

  method ResistorMap(resistors: seq<Resistor>) returns (m: map<int, seq<int>>)
    ensures MapsResistors(resistors, m, |resistors|)
  {
    m := map[];
    for e := 0 to |resistors|
      invariant MapsResistors(resistors, m, e)
    {
      m := PushBoth(resistors, m, e);
    }
  }

  lemma MoreInOrder(m: map<int, seq<int>>, e: nat)
    requires InOrder(m, e)
    ensures InOrder(m, e + 1)
  {
  }

  method PushBoth(resistors: seq<Resistor>, m: map<int, seq<int>>, e: int) returns (m': map<int, seq<int>>)
    requires 0 <= e < |resistors| && MapsResistors(resistors, m, e)
    ensures MapsResistors(resistors, m', e + 1)
  {
    hide MapsTo, InOrder;
    MoreInOrder(m, e);
    PushInOrder(m, resistors[e].node1, e);
    PushInOrder(Push(m, resistors[e].node1, e), resistors[e].node2, e);
    PushMaps(resistors, m, e);
    m' := Push(Push(m, resistors[e].node1, e), resistors[e].node2, e);
  }

  lemma PushMaps(resistors: seq<Resistor>, m: map<int, seq<int>>, e: int)
    requires 0 <= e < |resistors| && MapsTo(resistors, m, e)
    ensures MapsTo(resistors, Push(Push(m, resistors[e].node1, e), resistors[e].node2, e), e + 1)
  {
    hide Push;
    var m1 := Push(m, resistors[e].node1, e);
    var m' := Push(m1, resistors[e].node2, e);
    forall d, id | 0 <= d < e + 1 && Touches(resistors, d, id)
      ensures id in m' && d in m'[id]
    {
      PushKeeps(m, resistors[e].node1, e, id, d);
      PushKeeps(m1, resistors[e].node2, e, id, d);
    }
    forall id, i | id in m' && 0 <= i < |m'[id]|
      ensures 0 <= m'[id][i] < e + 1 && Touches(resistors, m'[id][i], id)
    {
      PushAdds(m, resistors[e].node1, e, id, m'[id][i]);
      PushAdds(m1, resistors[e].node2, e, id, m'[id][i]);
      if id in m && m'[id][i] in m[id] {
        var j :| 0 <= j < |m[id]| && m[id][j] == m'[id][i];
      }
    }
  }

  lemma PushKeeps(m: map<int, seq<int>>, id: int, e: int, at: int, d: int)
    ensures at in m && d in m[at] ==> at in Push(m, id, e) && d in Push(m, id, e)[at]
    ensures id in Push(m, id, e) && e in Push(m, id, e)[id]
  {
  }

  lemma PushAdds(m: map<int, seq<int>>, id: int, e: int, at: int, d: int)
    ensures at in Push(m, id, e) && d in Push(m, id, e)[at] ==> (at in m && d in m[at]) || (at == id && d == e)
  {
  }

  /** The other end of a resistor, missing if id is not one of its ends. */
  function OtherNode(r: Resistor, id: int): int {
    if r.node1 == id then r.node2 else if r.node2 == id then r.node1 else -1
  }

  /** What the walk has established: nodes, pins and count. */
  ghost predicate Sound(c: Circuit, index: map<Node, nat>, pins: map<int, nat>, count: nat) {
    Numbered(c, index, count) && PinsKept(c, index, pins) && Merged(c, index)
  }

  /** Exactly the nodes that resistors join to a driver are numbered. */
  ghost predicate Complete(c: Circuit, index: map<Node, nat>) {
    forall x {:trigger x in index} :: x in index <==> c.Reached(x)
  }

  /** Every driver of the parasitic is numbered. */
  ghost predicate DriversIn(c: Circuit, index: map<Node, nat>, par: nat) {
    forall d {:trigger c.IsDriver(d)} :: c.IsDriver(d) && d.par == par ==> d in index
  }

  /** Nothing next to the nodes taken before place n is left to number. */
  ghost predicate TakenExpanded(c: Circuit, index: map<Node, nat>, taken: seq<Node>, n: nat) {
    forall j {:trigger taken[j]} :: 0 <= j < n <= |taken| ==> Expanded(c, index, taken[j])
  }

  lemma ExpandedStays(c: Circuit, index: map<Node, nat>, index': map<Node, nat>, taken: seq<Node>, n: nat)
    requires TakenExpanded(c, index, taken, n) && index.Keys <= index'.Keys
    ensures TakenExpanded(c, index', taken, n)
  {
    forall j | 0 <= j < n <= |taken|
      ensures Expanded(c, index', taken[j])
    {
      assert Expanded(c, index, taken[j]);
    }
  }

  class PrimaNodes {
    const c: Circuit
    var nodeIndex: map<Node, nat>
    var pinNode: map<int, nat>
    var nodeCount: nat
    ghost var entered: set<Node>      // the nodes that were not merged
    ghost var taken: seq<Node>        // the nodes taken off the queue, in order

    constructor (c: Circuit)
      ensures this.c == c
    {
      this.c := c;
      nodeIndex, pinNode, nodeCount := map[], map[], 0;
      entered, taken := {}, [];
    }

    ghost predicate SoundNow()
      reads this
    {
      Sound(c, nodeIndex, pinNode, nodeCount) && Story(c, nodeIndex, nodeCount, entered, taken)
    }

    /** Gives x index j, which is a new one or, for a node merged into w, that of w. */
    method PlaceNode(x: Node, j: nat, isNew: bool, ghost w: Node, ghost e: int)
      requires c.Valid() && SoundNow() && x !in nodeIndex && c.Internal(x) && c.Reached(x)
      requires if isNew then j == nodeCount && Based(c, nodeIndex[x := j], j)
               else j < nodeCount && w in nodeIndex && nodeIndex[w] == j && c.Shorts(e, w, x)
      requires Accounted(c, nodeIndex[x := j], if isNew then entered + {x} else entered, taken, x, |taken|)
      modifies this
      ensures SoundNow() && nodeIndex == old(nodeIndex)[x := j] && taken == old(taken)
      ensures nodeCount == old(nodeCount) + (if isNew then 1 else 0)
      ensures entered == if isNew then old(entered) + {x} else old(entered)
    {
      hide Numbered, PinsKept, Merged, Story, Based, Accounted;
      NumberedNodes(c, nodeIndex, nodeCount);
      MergedNext(c, nodeIndex, x, j, w, e);
      StoryNext(c, nodeIndex, nodeCount, entered, taken, x, j, isNew);
      PlaceKeeps(c, nodeIndex, nodeCount, x, j, if isNew then nodeCount + 1 else nodeCount);
      ghost var pins := pinNode;
      if x.id in c.parasitics[x.par].pinOf {
        pinNode := pinNode[c.parasitics[x.par].pinOf[x.id] := j];
      }
      PlacePins(c, nodeIndex, pins, pinNode, x, j);
      nodeIndex := nodeIndex[x := j];
      if isNew {
        nodeCount := nodeCount + 1;
        entered := entered + {x};
      }
    }

    /** Numbers the drivers of a parasitic, and queues them. */
    method PlaceDrivers(par: nat) returns (queue: seq<Node>)
      requires c.Valid() && SoundNow() && c.Used(par) && par < |c.parasitics|
      requires NoneOf(nodeIndex, par)
      modifies this
      ensures SoundNow() && Kept(old(nodeIndex), nodeIndex, par) && Queued(nodeIndex, queue, par) && taken == old(taken)
      ensures DriversIn(c, nodeIndex, par)
    {
      hide Numbered, PinsKept, Merged, Story;
      queue := [];
      for k := 0 to |c.args|
        invariant SoundNow() && Kept(old(nodeIndex), nodeIndex, par) && Queued(nodeIndex, queue, par)
                  && taken == old(taken)
        invariant forall i {:trigger c.args[i]} :: 0 <= i < k ==> DriverPlaced(c, nodeIndex, par, i)
      {
        ghost var before := nodeIndex;
        var id := c.FindNode(par, c.args[k].drvrPin);
        var drvr := Node(par, id);
        if id >= 0 && c.Internal(drvr) && drvr !in nodeIndex {
          assert c.IsDriver(drvr);
          assert c.ReachedIn(drvr, 0);
          assert OwnIndex(c, nodeIndex[drvr := nodeCount], nodeCount, drvr);
          QueueNext(nodeIndex, queue, par, drvr, nodeCount);
          assert Accounted(c, nodeIndex[drvr := nodeCount], entered + {drvr}, taken, drvr, |taken|);
          PlaceNode(drvr, nodeCount, true, drvr, 0);
          queue := queue + [drvr];
        }
        assert DriverPlaced(c, nodeIndex, par, k);
        forall i | 0 <= i < k
          ensures DriverPlaced(c, nodeIndex, par, i)
        {
          assert DriverPlaced(c, before, par, i);
        }
      }
    }

    /** Follows resistor e of node, which has just been taken off the queue: the node at its
        other end, if it is not numbered yet, gets node's index when the resistor is zero and
        an index of its own otherwise. */
    method Follow(e: int, node: Node, queue: seq<Node>) returns (queue': seq<Node>)
      requires c.Valid() && SoundNow() && node in nodeIndex && node.par < |c.parasitics|
      requires Touches(c.parasitics[node.par].resistors, e, node.id)
      requires |taken| > 0 && taken[|taken| - 1] == node && TakenExpanded(c, nodeIndex, taken, |taken| - 1)
      requires DriversIn(c, nodeIndex, node.par)
      requires forall d {:trigger Followed(c, nodeIndex, node, d)} :: 0 <= d < e ==> Followed(c, nodeIndex, node, d)
      modifies this
      ensures SoundNow() && Grown(old(nodeIndex), queue, nodeIndex, queue', node.par) && taken == old(taken)
      ensures var r := c.parasitics[node.par].resistors[e]; var next := Node(node.par, OtherNode(r, node.id));
              if next.id >= 0 && c.Internal(next) && next !in old(nodeIndex) then
                if r.value == 0.0 then
                  nodeIndex == old(nodeIndex)[next := old(nodeIndex)[node]] && nodeCount == old(nodeCount)
                      && entered == old(entered)
                else
                  nodeIndex == old(nodeIndex)[next := old(nodeCount)] && nodeCount == old(nodeCount) + 1
                      && entered == old(entered) + {next}
              else nodeIndex == old(nodeIndex) && nodeCount == old(nodeCount) && entered == old(entered)
      ensures Followed(c, nodeIndex, node, e)
      ensures (nodeIndex == old(nodeIndex) && queue' == queue)
              || Unnumbered(c, node.par, nodeIndex) < Unnumbered(c, node.par, old(nodeIndex))
    {
      hide Numbered, PinsKept, Merged, Story, Based, Unnumbered, Accounted;
      var r := c.parasitics[node.par].resistors[e];
      var next := Node(node.par, OtherNode(r, node.id));
      queue' := queue;
      if next.id >= 0 && c.Internal(next) && next !in nodeIndex {
        FollowIsBased(c, nodeIndex, nodeCount, node, next, e);
        var shorted := r.value == 0.0;
        var j := if shorted then nodeIndex[node] else nodeCount;
        PlaceShrinks(c, node.par, nodeIndex, node, next, e, j);
        NotEntered(c, nodeIndex, nodeCount, entered, taken, next);
        FollowAccount(c, nodeIndex, entered, taken, node, next, e, j);
        PlaceNode(next, j, !shorted, node, e);
        queue' := queue' + [next];
      }
    }

    /** Follows every resistor of node. */
    method Expand(node: Node, m: map<int, seq<int>>, queue: seq<Node>) returns (queue': seq<Node>)
      requires c.Valid() && SoundNow() && node in nodeIndex && node.par < |c.parasitics|
      requires MapsResistors(c.parasitics[node.par].resistors, m, |c.parasitics[node.par].resistors|)
      requires |taken| > 0 && taken[|taken| - 1] == node && TakenExpanded(c, nodeIndex, taken, |taken| - 1)
      requires DriversIn(c, nodeIndex, node.par)
      modifies this
      ensures SoundNow() && Grown(old(nodeIndex), queue, nodeIndex, queue', node.par) && Expanded(c, nodeIndex, node)
      ensures taken == old(taken) && TakenExpanded(c, nodeIndex, taken, |taken|)
      ensures (nodeIndex == old(nodeIndex) && queue' == queue)
              || Unnumbered(c, node.par, nodeIndex) < Unnumbered(c, node.par, old(nodeIndex))
    {
      hide Sound, Story, Unnumbered, TakenExpanded, Expanded, DriversIn, Grown, MapsResistors;
      queue' := queue;
      GrownNone(nodeIndex, queue, node.par);
      var list := if node.id in m then m[node.id] else [];
      for k := 0 to |list|
        invariant SoundNow() && node in nodeIndex && DriversIn(c, nodeIndex, node.par)
                  && Grown(old(nodeIndex), queue, nodeIndex, queue', node.par)
        invariant taken == old(taken) && TakenExpanded(c, nodeIndex, taken, |taken| - 1)
        invariant forall i {:trigger list[i]} :: 0 <= i < k ==> Followed(c, nodeIndex, node, list[i])
        invariant (nodeIndex == old(nodeIndex) && queue' == queue)
                  || Unnumbered(c, node.par, nodeIndex) < Unnumbered(c, node.par, old(nodeIndex))
      {
        ghost var before, q := nodeIndex, queue';
        ListTouches(c, node, m, list, k);
        EarlierFollowed(c, nodeIndex, node, m, list, k);
        queue' := Follow(list[k], node, queue');
        GrownTwice(old(nodeIndex), queue, before, q, nodeIndex, queue', node.par);
        GrownKeeps(c, before, q, nodeIndex, queue', node.par, taken);
        forall i | 0 <= i < k
          ensures Followed(c, nodeIndex, node, list[i])
        {
          assert Followed(c, before, node, list[i]);
        }
      }
      AllFollowed(c, nodeIndex, node, m, list);
      AllExpanded(c, nodeIndex, taken);
    }

    /** Takes the last node off the queue and follows its resistors. */
    method Next(par: nat, m: map<int, seq<int>>, queue: seq<Node>) returns (queue': seq<Node>)
      requires c.Valid() && SoundNow() && par < |c.parasitics| && |queue| > 0
      requires MapsResistors(c.parasitics[par].resistors, m, |c.parasitics[par].resistors|)
      requires Pending(c, nodeIndex, queue, par) && AreNumbered(nodeIndex, queue, par)
      requires TakenExpanded(c, nodeIndex, taken, |taken|) && DriversIn(c, nodeIndex, par)
      modifies this
      ensures SoundNow() && Kept(old(nodeIndex), nodeIndex, par) && TakenExpanded(c, nodeIndex, taken, |taken|)
      ensures taken == old(taken) + [queue[|queue| - 1]]
      ensures Pending(c, nodeIndex, queue', par) && AreNumbered(nodeIndex, queue', par)
      ensures Unnumbered(c, par, nodeIndex) < Unnumbered(c, par, old(nodeIndex))
              || (nodeIndex == old(nodeIndex) && |queue'| < |queue|)
    {
      hide Sound, Story, Unnumbered, Expanded, MapsResistors, TakenExpanded, Pending;
      var node := queue[|queue| - 1];
      assert node in queue;
      TakeNext(c, nodeIndex, nodeCount, entered, taken, node);
      TakenTail(c, nodeIndex, taken, node);
      taken := taken + [node];
      queue' := Expand(node, m, queue[..|queue| - 1]);
      PopPending(c, old(nodeIndex), queue, nodeIndex, queue', par);
    }

    /** Walks out from the queued nodes. */
    method Walk(par: nat, queue0: seq<Node>)
      requires c.Valid() && SoundNow() && par < |c.parasitics| && Queued(nodeIndex, queue0, par)
      requires TakenExpanded(c, nodeIndex, taken, |taken|) && DriversIn(c, nodeIndex, par)
      modifies this
      ensures SoundNow() && Kept(old(nodeIndex), nodeIndex, par) && TakenExpanded(c, nodeIndex, taken, |taken|)
      ensures forall x {:trigger x in nodeIndex} :: x in nodeIndex && x.par == par ==> Expanded(c, nodeIndex, x)
    {
      hide Sound, Story, MapsResistors, TakenExpanded, Unnumbered;
      var m := ResistorMap(c.parasitics[par].resistors);
      var queue := queue0;
      while |queue| > 0
        invariant SoundNow() && Kept(old(nodeIndex), nodeIndex, par) && TakenExpanded(c, nodeIndex, taken, |taken|)
        invariant DriversIn(c, nodeIndex, par)
        invariant Pending(c, nodeIndex, queue, par) && AreNumbered(nodeIndex, queue, par)
        decreases Unnumbered(c, par, nodeIndex), |queue|
      {
        queue := Next(par, m, queue);
      }
    }

    /** Numbers the nodes of one more parasitic. */
    method WalkParasitic(par: nat, ghost visited: set<nat>)
      requires c.Valid() && SoundNow() && c.Used(par) && par < |c.parasitics| && par !in visited
      requires Walked(c, nodeIndex, visited) && TakenExpanded(c, nodeIndex, taken, |taken|)
      modifies this
      ensures SoundNow() && Walked(c, nodeIndex, visited + {par}) && TakenExpanded(c, nodeIndex, taken, |taken|)
    {
      hide Sound, Story, TakenExpanded;
      ghost var before := nodeIndex;
      var queue := PlaceDrivers(par);
      ghost var placed := nodeIndex;
      ExpandedStays(c, before, placed, taken, |taken|);
      Walk(par, queue);
      WalkedNext(c, before, placed, nodeIndex, visited, par);
    }

    /** Numbers the network: exactly the nodes that resistors join to a driver. Nodes that share
        an index are joined by zero resistors, and SoundNow tells how every node got its own. */
    method FindNodeCount()
      requires c.Valid()
      modifies this
      ensures SoundNow() && Complete(c, nodeIndex)
    {
      hide Sound, Story, TakenExpanded, Walked;
      nodeIndex, pinNode, nodeCount := map[], map[], 0;
      entered, taken := {}, [];
      NothingYet(c);
      var visited := {};
      for k := 0 to |c.args|
        invariant SoundNow() && Walked(c, nodeIndex, visited) && TakenExpanded(c, nodeIndex, taken, |taken|)
        invariant forall i {:trigger c.args[i]} :: 0 <= i < k ==> c.args[i].parasitic in visited
      {
        var par := c.args[k].parasitic;
        if par !in visited {
          assert c.Used(par);
          WalkParasitic(par, visited);
          visited := visited + {par};
        }
      }
      AllReached(c, nodeIndex, pinNode, nodeCount, visited);
    }
  }

  lemma AllReached(c: Circuit, index: map<Node, nat>, pins: map<int, nat>, count: nat, visited: set<nat>)
    requires Sound(c, index, pins, count) && Walked(c, index, visited)
    requires forall i {:trigger c.args[i]} :: 0 <= i < |c.args| ==> c.args[i].parasitic in visited
    ensures Complete(c, index)
  {
    OnlyReached(c, index, pins, count);
    forall x
      ensures x in index <==> c.Reached(x)
    {
      if c.Reached(x) {
        var k: nat :| c.ReachedIn(x, k);
        WalkedReached(c, index, visited, x, k);
      }
    }
  }

  lemma NothingYet(c: Circuit)
    ensures Sound(c, map[], map[], 0) && Story(c, map[], 0, {}, []) && TakenExpanded(c, map[], [], 0)
            && Walked(c, map[], {})
  {
  }

  lemma OnlyReached(c: Circuit, index: map<Node, nat>, pins: map<int, nat>, count: nat)
    requires Sound(c, index, pins, count)
    ensures forall x {:trigger x in index} :: x in index ==> c.Reached(x)
  {
    NumberedNodes(c, index, count);
    forall x | x in index
      ensures c.Reached(x)
    {
      var j := index[x];
    }
  }

  lemma WalkedNext(c: Circuit, before: map<Node, nat>, placed: map<Node, nat>, index: map<Node, nat>,
                   visited: set<nat>, par: nat)
    requires Walked(c, before, visited) && Kept(before, placed, par) && Kept(placed, index, par)
    requires DriversIn(c, placed, par)
    requires forall x {:trigger x in index} :: x in index && x.par == par ==> Expanded(c, index, x)
    ensures Walked(c, index, visited + {par})
  {
    forall x | x in index
      ensures x.par in visited + {par} && Expanded(c, index, x)
    {
      if x.par != par {
        assert x in placed && x in before;
        assert Expanded(c, before, x);
      }
    }
  }

  ghost predicate Followed(c: Circuit, index: map<Node, nat>, node: Node, e: int) {
    forall y {:trigger c.Joins(e, node, y)} :: c.Joins(e, node, y) && c.Internal(y) ==> y in index
  }

  lemma AllFollowed(c: Circuit, index: map<Node, nat>, node: Node, m: map<int, seq<int>>, list: seq<int>)
    requires node.par < |c.parasitics|
    requires MapsResistors(c.parasitics[node.par].resistors, m, |c.parasitics[node.par].resistors|)
    requires list == (if node.id in m then m[node.id] else [])
    requires forall i {:trigger list[i]} :: 0 <= i < |list| ==> Followed(c, index, node, list[i])
    ensures Expanded(c, index, node)
  {
    forall y, e | c.Joins(e, node, y) && c.Internal(y)
      ensures y in index
    {
      assert Touches(c.parasitics[node.par].resistors, e, node.id);
      var i :| 0 <= i < |list| && list[i] == e;
      assert Followed(c, index, node, list[i]);
    }
  }

  lemma ListTouches(c: Circuit, node: Node, m: map<int, seq<int>>, list: seq<int>, k: nat)
    requires node.par < |c.parasitics|
    requires MapsResistors(c.parasitics[node.par].resistors, m, |c.parasitics[node.par].resistors|)
    requires list == (if node.id in m then m[node.id] else []) && k < |list|
    ensures Touches(c.parasitics[node.par].resistors, list[k], node.id)
  {
  }

  /** What stays as the walk numbers more nodes. */
  lemma GrownKeeps(c: Circuit, before: map<Node, nat>, queue: seq<Node>, index: map<Node, nat>, queue': seq<Node>,
                   par: nat, taken: seq<Node>)
    requires Grown(before, queue, index, queue', par)
    ensures before.Keys <= index.Keys
    ensures DriversIn(c, before, par) ==> DriversIn(c, index, par)
    ensures |taken| > 0 && TakenExpanded(c, before, taken, |taken| - 1) ==> TakenExpanded(c, index, taken, |taken| - 1)
  {
    assert forall x :: x in before ==> x in index;
    if |taken| > 0 && TakenExpanded(c, before, taken, |taken| - 1) {
      ExpandedStays(c, before, index, taken, |taken| - 1);
    }
  }

  /** What was followed before resistor list[k] covers every resistor before it. */
  lemma EarlierFollowed(c: Circuit, index: map<Node, nat>, node: Node, m: map<int, seq<int>>, list: seq<int>, k: nat)
    requires node.par < |c.parasitics|
    requires MapsResistors(c.parasitics[node.par].resistors, m, |c.parasitics[node.par].resistors|)
    requires list == (if node.id in m then m[node.id] else []) && k < |list|
    requires forall i {:trigger list[i]} :: 0 <= i < k ==> Followed(c, index, node, list[i])
    ensures forall d {:trigger Followed(c, index, node, d)} :: 0 <= d < list[k] ==> Followed(c, index, node, d)
  {
    forall d | 0 <= d < list[k]
      ensures Followed(c, index, node, d)
    {
      if y :| c.Joins(d, node, y) && c.Internal(y) {
        assert Touches(c.parasitics[node.par].resistors, d, node.id);
        var i :| 0 <= i < |list| && list[i] == d;
        SortedPlace(m, node.id, i, k, |c.parasitics[node.par].resistors|);
        assert Followed(c, index, node, list[i]);
      }
    }
  }

  lemma SortedPlace(m: map<int, seq<int>>, id: int, i: nat, k: nat, n: nat)
    requires InOrder(m, n) && id in m && i < |m[id]| && k < |m[id]| && m[id][i] < m[id][k]
    ensures i < k
  {
    if k < i {
      assert false;
    }
  }

  lemma TakenTail(c: Circuit, index: map<Node, nat>, taken: seq<Node>, node: Node)
    requires TakenExpanded(c, index, taken, |taken|)
    ensures TakenExpanded(c, index, taken + [node], |taken|)
  {
    forall j | 0 <= j < |taken|
      ensures Expanded(c, index, (taken + [node])[j])
    {
      assert Expanded(c, index, taken[j]);
    }
  }

  lemma AllExpanded(c: Circuit, index: map<Node, nat>, taken: seq<Node>)
    requires |taken| > 0 && TakenExpanded(c, index, taken, |taken| - 1) && Expanded(c, index, taken[|taken| - 1])
    ensures TakenExpanded(c, index, taken, |taken|)
  {
  }

  lemma NotEntered(c: Circuit, index: map<Node, nat>, count: nat, entered: set<Node>, taken: seq<Node>, x: Node)
    requires Story(c, index, count, entered, taken) && x !in index
    ensures x !in entered
  {
  }

  /** The account of a node that has just been found from the last node taken. */
  lemma FollowAccount(c: Circuit, index: map<Node, nat>, entered: set<Node>, taken: seq<Node>, node: Node, next: Node,
                      e: int, j: nat)
    requires |taken| > 0 && taken[|taken| - 1] == node && TakenExpanded(c, index, taken, |taken| - 1)
    requires forall d {:trigger Followed(c, index, node, d)} :: 0 <= d < e ==> Followed(c, index, node, d)
    requires node in index && next !in index && c.Internal(next) && c.Joins(e, node, next) && !c.IsDriver(next)
    requires next !in entered && (c.Shorts(e, node, next) ==> j == index[node])
    ensures Accounted(c, index[next := j],
                      if c.Shorts(e, node, next) then entered else entered + {next}, taken, next, |taken|)
  {
    var i := |taken| - 1;
    var entered' := if c.Shorts(e, node, next) then entered else entered + {next};
    forall k, d | 0 <= k < i
      ensures !c.Joins(d, taken[k], next)
    {
      assert Expanded(c, index, taken[k]);
    }
    forall d | 0 <= d < e
      ensures !c.Joins(d, node, next)
    {
      assert Followed(c, index, node, d);
    }
    assert ClaimedBy(c, index[next := j], entered', taken, next, i, e);
  }

  lemma FollowIsBased(c: Circuit, index: map<Node, nat>, count: nat, node: Node, next: Node, e: int)
    requires Numbered(c, index, count) && node in index && next !in index && c.Internal(next) && c.Joins(e, node, next)
    ensures c.Reached(next) && index[node] < count
    ensures c.parasitics[node.par].resistors[e].value != 0.0 ==> Based(c, index[next := count], count)
  {
    assert index[node] < count && c.Reached(node);
    ReachedNext(c, node, next, e);
    if c.parasitics[node.par].resistors[e].value != 0.0 {
      assert StepsUp(c, index[next := count], count, next, node, e);
    }
  }

  ghost predicate AreNumbered(index: map<Node, nat>, queue: seq<Node>, par: nat) {
    forall x {:trigger x in queue} :: x in queue ==> x in index && x.par == par
  }

  ghost predicate NoneOf(index: map<Node, nat>, par: nat) {
    forall x {:trigger x in index} :: x in index ==> x.par != par
  }

  /** Nodes of other parasitics are as they were. */
  ghost predicate Kept(before: map<Node, nat>, index: map<Node, nat>, par: nat) {
    && (forall x {:trigger x in before} {:trigger x in index} :: x in before ==> x in index && index[x] == before[x])
    && (forall x {:trigger x in index} :: x in index && x.par != par ==> x in before)
  }

  /** The queue holds numbered nodes of the parasitic, and all of them so far. */
  ghost predicate Queued(index: map<Node, nat>, queue: seq<Node>, par: nat) {
    && (forall x {:trigger x in queue} :: x in queue ==> x in index && x.par == par)
    && (forall x {:trigger x in index} :: x in index && x.par == par ==> x in queue)
  }

  lemma QueueNext(index: map<Node, nat>, queue: seq<Node>, par: nat, x: Node, j: nat)
    requires Queued(index, queue, par) && x.par == par && x !in index
    ensures Queued(index[x := j], queue + [x], par)
  {
    forall y | y in index[x := j] && y.par == par
      ensures y in queue + [x]
    {
      if y != x {
        assert y in queue;
      }
    }
  }

  ghost predicate DriverPlaced(c: Circuit, index: map<Node, nat>, par: nat, k: nat)
    requires k < |c.args|
  {
    var d := Node(par, c.FindNode(par, c.args[k].drvrPin));
    c.Internal(d) ==> d in index
  }

  // ---------------------------------------------------------------------------
  // Which zero resistors are merged

  /** The ends of every zero resistor of the network share an index. */
  ghost predicate AllShortsMerged(c: Circuit, index: map<Node, nat>) {
    forall x, y, e {:trigger c.Shorts(e, x, y)} :: x in index && y in index && c.Shorts(e, x, y) ==>
        index[x] == index[y]
  }

  /** No chain of zero resistors leads from one of the nodes to another. */
  ghost predicate Apart(c: Circuit, nodes: set<Node>) {
    forall x, y {:trigger c.Shorted(x, y)} :: x in nodes && y in nodes && x != y ==> !c.Shorted(x, y)
  }

  lemma {:induction false} ChainShares(c: Circuit, index: map<Node, nat>, x: Node, y: Node, k: nat)
    requires Complete(c, index) && AllShortsMerged(c, index) && x in index && c.ShortedIn(x, y, k)
    ensures y in index && index[y] == index[x]
    decreases k
  {
    if k > 0 {
      var w, e :| c.ShortedIn(x, w, k - 1) && c.Shorts(e, w, y);
      ChainShares(c, index, x, w, k - 1);
      ReachedNext(c, w, y, e);
    }
  }

  /** Every zero resistor is merged exactly when no two nodes that were entered on their own, as
      drivers or through a resistor that is not zero, are joined by zero resistors. */
  lemma ShortsMerged(c: Circuit, index: map<Node, nat>, count: nat, entered: set<Node>, taken: seq<Node>)
    requires Numbered(c, index, count) && Merged(c, index) && Complete(c, index)
    requires Story(c, index, count, entered, taken)
    ensures AllShortsMerged(c, index) <==> Apart(c, entered)
  {
    if AllShortsMerged(c, index) {
      forall x, y | x in entered && y in entered && x != y
        ensures !c.Shorted(x, y)
      {
        if k: nat :| c.ShortedIn(x, y, k) {
          ChainShares(c, index, x, y, k);
        }
      }
    }
    if Apart(c, entered) {
      forall x, y, e | x in index && y in index && c.Shorts(e, x, y)
        ensures index[x] == index[y]
      {
        ShortedEntries(c, index, count, entered, taken, x, y, e);
      }
    }
  }

  /** The entered nodes under the two indices of a zero resistor's ends are joined by zero
      resistors. */
  lemma ShortedEntries(c: Circuit, index: map<Node, nat>, count: nat, entered: set<Node>, taken: seq<Node>,
                       x: Node, y: Node, e: int)
    requires Numbered(c, index, count) && Merged(c, index) && Story(c, index, count, entered, taken)
    requires x in index && y in index && c.Shorts(e, x, y) && Apart(c, entered)
    ensures index[x] == index[y]
  {
    hide Accounted;
    var a := EntryNode(c, index, count, entered, taken, x);
    var b := EntryNode(c, index, count, entered, taken, y);
    assert c.Shorted(a, x) && c.Shorted(y, b);
    ShortedNext(c, a, x, y, e);
    ShortedTwice(c, a, y, b);
    assert c.Shorted(a, b);
  }

  lemma ShortedTwice(c: Circuit, x: Node, y: Node, z: Node)
    requires c.Shorted(x, y) && c.Shorted(y, z)
    ensures c.Shorted(x, z)
  {
    var k: nat :| c.ShortedIn(y, z, k);
    ShortedChain(c, x, y, z, k);
  }

  lemma {:induction false} ShortedChain(c: Circuit, x: Node, y: Node, z: Node, k: nat)
    requires c.Shorted(x, y) && c.ShortedIn(y, z, k)
    ensures c.Shorted(x, z)
    decreases k
  {
    if k > 0 {
      var w, e :| c.ShortedIn(y, w, k - 1) && c.Shorts(e, w, z);
      ShortedChain(c, x, y, w, k - 1);
      ShortedNext(c, x, w, z, e);
    }
  }

  lemma {:induction false} ChainNumbered(c: Circuit, index: map<Node, nat>, x: Node, y: Node, k: nat)
    requires Complete(c, index) && x in index && c.ShortedIn(x, y, k)
    ensures y in index
    decreases k
  {
    if k > 0 {
      var w, e :| c.ShortedIn(x, w, k - 1) && c.Shorts(e, w, y);
      ChainNumbered(c, index, x, w, k - 1);
      ReachedNext(c, w, y, e);
    }
  }

  /** The nodes that zero resistors join to x all have its index exactly when only one of them
      was entered on its own. */
  lemma GroupMerged(c: Circuit, index: map<Node, nat>, count: nat, entered: set<Node>, taken: seq<Node>, x: Node)
    requires Numbered(c, index, count) && Merged(c, index) && Complete(c, index)
    requires Story(c, index, count, entered, taken) && x in index
    ensures (forall y {:trigger c.Shorted(x, y)} :: c.Shorted(x, y) ==> y in index && index[y] == index[x]) <==>
            (forall a, b {:trigger c.Shorted(x, a), c.Shorted(x, b)} ::
               a in entered && b in entered && c.Shorted(x, a) && c.Shorted(x, b) ==> a == b)
  {
    hide Accounted;
    if forall a, b {:trigger c.Shorted(x, a), c.Shorted(x, b)} ::
         a in entered && b in entered && c.Shorted(x, a) && c.Shorted(x, b) ==> a == b {
      forall y | c.Shorted(x, y)
        ensures y in index && index[y] == index[x]
      {
        var k: nat :| c.ShortedIn(x, y, k);
        ChainNumbered(c, index, x, y, k);
        var a := EntryNode(c, index, count, entered, taken, x);
        var b := EntryNode(c, index, count, entered, taken, y);
        ShortedTwice(c, x, y, b);
        assert a == b;
      }
    }
  }

  /** The entered node under y's index, which zero resistors join to y. */
  lemma EntryNode(c: Circuit, index: map<Node, nat>, count: nat, entered: set<Node>, taken: seq<Node>, y: Node)
    returns (b: Node)
    requires Numbered(c, index, count) && Merged(c, index) && Story(c, index, count, entered, taken) && y in index
    ensures b in entered && b in index && index[b] == index[y] && c.Shorted(y, b)
  {
    assert EntryOf(index, entered, index[y]);
    b :| b in entered && b in index && index[b] == index[y];
  }

  /** A node through which its zero resistors can be entered: a driver, or the end of a resistor
      that is not zero. */
  ghost predicate Door(c: Circuit, x: Node) {
    c.IsDriver(x) || exists y, e :: c.Reached(y) && c.Joins(e, y, x) && !c.Shorts(e, y, x)
  }

  /** No two of them are joined by zero resistors. */
  ghost predicate DoorsApart(c: Circuit) {
    forall x, y {:trigger c.Shorted(x, y)} :: Door(c, x) && Door(c, y) && x != y ==> !c.Shorted(x, y)
  }

  lemma AccountOf(c: Circuit, index: map<Node, nat>, count: nat, entered: set<Node>, taken: seq<Node>, x: Node)
    requires Story(c, index, count, entered, taken) && x in index
    ensures Accounted(c, index, entered, taken, x, |taken|)
  {
    hide Accounted, EntryOf;
    var j := index[x];
  }

  lemma EnteredDoor(c: Circuit, index: map<Node, nat>, count: nat, entered: set<Node>, taken: seq<Node>, x: Node)
    requires Numbered(c, index, count) && Story(c, index, count, entered, taken) && x in entered && x in index
    ensures Door(c, x)
  {
    hide Story;
    AccountOf(c, index, count, entered, taken, x);
    if !c.IsDriver(x) {
      var i, e :| i < |taken| && ClaimedBy(c, index, entered, taken, x, i, e);
      var j := index[taken[i]];
      assert c.Reached(taken[i]) && c.Joins(e, taken[i], x) && !c.Shorts(e, taken[i], x);
    }
  }

  /** A circuit in which every group of nodes that zero resistors join can be entered at one
      node only has them all merged, in whatever order its resistors are listed. */
  lemma DoorsMerge(c: Circuit, index: map<Node, nat>, count: nat, entered: set<Node>, taken: seq<Node>)
    requires Numbered(c, index, count) && Merged(c, index) && Complete(c, index)
    requires Story(c, index, count, entered, taken) && DoorsApart(c)
    ensures AllShortsMerged(c, index)
  {
    forall x | x in entered
      ensures Door(c, x)
    {
      EnteredDoor(c, index, count, entered, taken, x);
    }
    ShortsMerged(c, index, count, entered, taken);
  }

  /** Two drivers never share an index, whatever joins them. */
  lemma DriversDiffer(c: Circuit, index: map<Node, nat>, count: nat, entered: set<Node>, taken: seq<Node>, x: Node,
                      y: Node)
    requires Story(c, index, count, entered, taken) && x in index && y in index
    requires c.IsDriver(x) && c.IsDriver(y) && x != y
    ensures index[x] != index[y]
  {
    AccountOf(c, index, count, entered, taken, x);
    AccountOf(c, index, count, entered, taken, y);
    var j := index[x];
  }

  /** A driver 0 with a resistor to each of 1 and 2, which a zero resistor joins. */
  function Triangle(): Circuit {
    Circuit([Parasitic([Resistor(0, 1, 1.0), Resistor(0, 2, 1.0), Resistor(1, 2, 0.0)], {}, map[0 := 7], map[7 := 0])],
            [Arg(0, 7)])
  }

  lemma TriangleReached()
    ensures var c := Triangle();
            && c.Valid() && c.IsDriver(Node(0, 0)) && !c.IsDriver(Node(0, 1)) && !c.IsDriver(Node(0, 2))
            && c.Reached(Node(0, 1)) && c.Reached(Node(0, 2))
  {
    var c := Triangle();
    var d, x, y := Node(0, 0), Node(0, 1), Node(0, 2);
    assert c.args[0].parasitic == 0 && c.FindNode(0, c.args[0].drvrPin) == 0;
    assert c.ReachedIn(d, 0);
    assert c.Joins(0, d, x) && c.Joins(1, d, y);
    ReachedNext(c, d, x, 0);
    ReachedNext(c, d, y, 1);
  }

  /** Whatever the order of the walk, the ends of its zero resistor have different indices. */
  lemma TriangleLost(index: map<Node, nat>, count: nat, entered: set<Node>, taken: seq<Node>)
    requires Complete(Triangle(), index) && Story(Triangle(), index, count, entered, taken)
    ensures Node(0, 1) in index && Node(0, 2) in index && index[Node(0, 1)] != index[Node(0, 2)]
    ensures Triangle().Shorts(2, Node(0, 1), Node(0, 2))
  {
    TriangleReached();
    TriangleEntered(index, count, entered, taken, 1);
    TriangleEntered(index, count, entered, taken, 2);
  }

  lemma TriangleEntered(index: map<Node, nat>, count: nat, entered: set<Node>, taken: seq<Node>, id: int)
    requires Complete(Triangle(), index) && Story(Triangle(), index, count, entered, taken) && (id == 1 || id == 2)
    ensures Node(0, id) in index && Node(0, id) in entered
  {
    hide Story;
    var c, d, x := Triangle(), Node(0, 0), Node(0, id);
    TriangleReached();
    AccountOf(c, index, count, entered, taken, x);
    var i, e :| i < |taken| && ClaimedBy(c, index, entered, taken, x, i, e);
    DriverTakenFirst(c, index, count, entered, taken);
    OnlyDriver(taken[0]);
    assert c.Joins(id - 1, taken[0], x);
    assert i == 0;
    assert !c.Shorts(e, d, x);
  }

  lemma DriverTakenFirst(c: Circuit, index: map<Node, nat>, count: nat, entered: set<Node>, taken: seq<Node>)
    requires Story(c, index, count, entered, taken) && |taken| > 0
    ensures c.IsDriver(taken[0])
  {
    assert Accounted(c, index, entered, taken, taken[0], 0);
  }

  lemma OnlyDriver(x: Node)
    requires Triangle().IsDriver(x)
    ensures x == Node(0, 0)
  {
    var c := Triangle();
    var k :| 0 <= k < |c.args| && c.FindNode(x.par, c.args[k].drvrPin) == x.id;
    assert c.args[k].drvrPin == 7;
  }
}
