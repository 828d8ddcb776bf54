/** Groups of interchangeable cells. */
module EquivCellGroups {
  import opened LibertyCells
  import opened CellHash

  /** The cells of all libraries, known by their place, and a hash of strings. */
  datatype Libraries = Libraries(cells: seq<Cell>, str: string -> nat) {
    ghost predicate Valid() {
      forall a {:trigger cells[a]} :: 0 <= a < |cells| ==> cells[a].Valid()
    }

    predicate Has(a: int) { 0 <= a < |cells| }

    function HashOf(a: int): nat
      requires Has(a)
    {
      HashOfCell(str, cells[a])
    }

    /** The relation that the groups are the classes of. */
    predicate Same(a: int, b: int)
      requires Has(a) && Has(b)
    {
      EquivCells(cells[a], cells[b]) && HashOf(a) == HashOf(b)
    }

    /** The comparison holds both ways where it holds at all. */
    ghost predicate Symmetric() {
      forall a, b {:trigger Same(a, b)} :: Has(a) && Has(b) && Same(a, b) ==> Same(b, a)
    }

    ghost predicate Classes() { Valid() && Symmetric() }
  }

  /** That is so exactly when cells without functions that compare equal have the same arc sets,
      but for how often they are repeated. */
  lemma SymmetricIs(l: Libraries)
    requires l.Valid()
    ensures l.Symmetric() <==> forall a, b {:trigger l.Same(a, b)} :: l.Has(a) && l.Has(b) && l.Same(a, b) ==>
              HasFuncs(l.cells[a]) || l.cells[a].ArcKeys() == l.cells[b].ArcKeys()
  {
    hide EquivCells, HashOfCell, HasFuncs;
    forall a, b | l.Has(a) && l.Has(b) && l.Same(a, b)
      ensures l.Same(b, a) <==> HasFuncs(l.cells[a]) || l.cells[a].ArcKeys() == l.cells[b].ArcKeys()
    {
      EquivCellsBack(l.cells[a], l.cells[b]);
    }
  }

  /** It is so if no cell without functions repeats an arc set. */
  lemma RegularSymmetric(l: Libraries)
    requires l.Valid() && forall a {:trigger l.cells[a]} :: l.Has(a) ==> Regular(l.cells[a])
    ensures l.Symmetric()
  {
    hide EquivCells, HashOfCell, Regular;
    forall a, b | l.Has(a) && l.Has(b) && l.Same(a, b)
      ensures l.Same(b, a)
    {
      EquivCellsRelation(l.cells[a], l.cells[b], l.cells[a]);
    }
  }

  lemma SameRelation(l: Libraries, a: int, b: int, c: int)
    requires l.Classes() && l.Has(a) && l.Has(b) && l.Has(c)
    ensures l.Same(a, a) && (l.Same(a, b) ==> l.Same(b, a)) && (l.Same(a, b) && l.Same(b, c) ==> l.Same(a, c))
  {
    EquivCellsPreorder(l.cells[a], l.cells[b], l.cells[c]);
  }

  /** Cells that compare equal are in the same group exactly when their sequentials' kinds add
      up to the same. */
  lemma SameIs(l: Libraries, a: int, b: int)
    requires l.Valid() && l.Has(a) && l.Has(b)
    ensures l.Same(a, b) <==>
            EquivCells(l.cells[a], l.cells[b])
            && W(KindsTerm(l.cells[a].sequentials)) == W(KindsTerm(l.cells[b].sequentials))
  {
    if EquivCells(l.cells[a], l.cells[b]) {
      EquivalentHash(l.str, l.cells[a], l.cells[b]);
    }
  }

  // ---------------------------------------------------------------------------
  // What the tables say about the cells done so far

  /** The cells done so far, by hash. */
  ghost predicate Bucketed(l: Libraries, done: set<int>, matches: map<nat, seq<int>>) {
    && (forall a {:trigger a in done} :: a in done ==> l.Has(a) && l.HashOf(a) in matches && a in matches[l.HashOf(a)])
    && (forall h, i {:trigger matches[h][i]} :: h in matches && 0 <= i < |matches[h]| ==>
         matches[h][i] in done && l.Has(matches[h][i]) && l.HashOf(matches[h][i]) == h)
  }

  /** Some other cell is the same. */
  ghost predicate HasTwin(l: Libraries, done: set<int>, a: int)
    requires l.Has(a)
  {
    exists b :: b in done && b != a && l.Has(b) && l.Same(a, b)
  }

  /** A cell has a group exactly when it has a twin, twins have the same group, and the groups
      hold exactly their cells, each once, under the name of the first. */
  ghost predicate Grouped(l: Libraries, done: set<int>, groupOf: map<int, nat>, groups: seq<seq<int>>,
                          unique: seq<int>) {
    && (forall a {:trigger a in done} :: a in done ==> l.Has(a))
    && (forall a {:trigger a in groupOf} :: a in groupOf <==> a in done && l.Has(a) && HasTwin(l, done, a))
    && (forall a, b {:trigger groupOf[a], groupOf[b]} :: a in groupOf && b in groupOf && l.Has(a) && l.Has(b) ==>
         (groupOf[a] == groupOf[b] <==> l.Same(a, b)))
    && Listed(groupOf, groups, unique)
  }

  ghost predicate Listed(groupOf: map<int, nat>, groups: seq<seq<int>>, unique: seq<int>) {
    && |unique| == |groups|
    && (forall g {:trigger groups[g]} :: 0 <= g < |groups| ==> |groups[g]| > 0 && unique[g] == groups[g][0])
    && (forall a {:trigger groupOf[a]} :: a in groupOf ==> groupOf[a] < |groups| && a in groups[groupOf[a]])
    && (forall g, i {:trigger groups[g][i]} :: 0 <= g < |groups| && 0 <= i < |groups[g]| ==>
         groups[g][i] in groupOf && groupOf[groups[g][i]] == g)
    && (forall g, i, j {:trigger groups[g][i], groups[g][j]} :: 0 <= g < |groups| && 0 <= i < j < |groups[g]| ==>
         groups[g][i] != groups[g][j])
  }

  /** A cell without a twin changes no group. */
  lemma GroupedAlone(l: Libraries, done: set<int>, groupOf: map<int, nat>, groups: seq<seq<int>>, unique: seq<int>,
                     c: int)
    requires l.Classes() && Grouped(l, done, groupOf, groups, unique) && l.Has(c) && c !in done
    requires forall a {:trigger a in done} :: a in done && l.Has(a) ==> !l.Same(a, c)
    ensures Grouped(l, done + {c}, groupOf, groups, unique)
  {
    hide Libraries.Same, Libraries.Classes, Listed, HasTwin;
    forall a | l.Has(a)
      ensures a in groupOf <==> a in done + {c} && HasTwin(l, done + {c}, a)
    {
      TwinsAlone(l, done, a, c);
    }
  }

  lemma TwinsAlone(l: Libraries, done: set<int>, a: int, c: int)
    requires l.Classes() && l.Has(a) && l.Has(c) && c !in done
    requires forall b {:trigger b in done} :: b in done && l.Has(b) ==> !l.Same(b, c)
    ensures a in done + {c} && HasTwin(l, done + {c}, a) <==> a in done && HasTwin(l, done, a)
  {
    hide Libraries.Same, Libraries.Classes;
    if a in done && HasTwin(l, done, a) {
      var b :| b in done && b != a && l.Has(b) && l.Same(a, b);
      assert b in done + {c};
    }
    if a in done + {c} && HasTwin(l, done + {c}, a) {
      var b :| b in done + {c} && b != a && l.Has(b) && l.Same(a, b);
      SameRelation(l, a, b, a);
      assert a != c && b != c;
    }
  }

  /** A cell whose twin has a group joins that group. */
  lemma GroupedJoins(l: Libraries, done: set<int>, groupOf: map<int, nat>, groups: seq<seq<int>>, unique: seq<int>,
                     m: int, c: int)
    requires l.Classes() && Grouped(l, done, groupOf, groups, unique) && l.Has(c) && c !in done
    requires m in groupOf && l.Has(m) && l.Same(m, c)
    ensures groupOf[m] < |groups|
    ensures Grouped(l, done + {c}, groupOf[c := groupOf[m]], groups[groupOf[m] := groups[groupOf[m]] + [c]], unique)
  {
    hide EquivCells, HashOfCell, Listed, HasTwin, Libraries.Same, Libraries.Classes;
    assert c !in groupOf;
    JoinListed(groupOf, groups, unique, m, c);
    var g := groupOf[m];
    var groupOf' := groupOf[c := g];
    JoinTwins(l, done, groupOf, m, c);
    forall a, b | a in groupOf' && b in groupOf' && l.Has(a) && l.Has(b)
      ensures groupOf'[a] == groupOf'[b] <==> l.Same(a, b)
    {
      JoinSame(l, groupOf, m, c, a, b);
    }
  }

  lemma JoinListed(groupOf: map<int, nat>, groups: seq<seq<int>>, unique: seq<int>, m: int, c: int)
    requires Listed(groupOf, groups, unique) && m in groupOf && c !in groupOf
    ensures groupOf[m] < |groups|
    ensures Listed(groupOf[c := groupOf[m]], groups[groupOf[m] := groups[groupOf[m]] + [c]], unique)
  {
    var g := groupOf[m];
    var groupOf', groups' := groupOf[c := g], groups[g := groups[g] + [c]];
    forall h, i | 0 <= h < |groups'| && 0 <= i < |groups'[h]|
      ensures groups'[h][i] in groupOf' && groupOf'[groups'[h][i]] == h
    {
      if i < |groups[h]| {
        assert groups'[h][i] == groups[h][i];
      }
    }
    forall h, i, j | 0 <= h < |groups'| && 0 <= i < j < |groups'[h]|
      ensures groups'[h][i] != groups'[h][j]
    {
      assert groups'[h][i] == groups[h][i];
      if j < |groups[h]| {
        assert groups'[h][j] == groups[h][j];
      }
    }
    forall a | a in groupOf'
      ensures groupOf'[a] < |groups'| && a in groups'[groupOf'[a]]
    {
      if a != c {
        assert a in groups[groupOf[a]];
      }
    }
  }

  lemma JoinTwins(l: Libraries, done: set<int>, groupOf: map<int, nat>, m: int, c: int)
    requires l.Classes() && l.Has(c) && c !in done && m in done && l.Has(m) && l.Same(m, c) && m in groupOf
    requires forall a {:trigger a in done} :: a in done ==> l.Has(a)
    requires forall a {:trigger a in groupOf} :: a in groupOf <==> a in done && l.Has(a) && HasTwin(l, done, a)
    ensures forall a {:trigger a in groupOf} :: a in groupOf[c := groupOf[m]] <==>
            a in done + {c} && l.Has(a) && HasTwin(l, done + {c}, a)
  {
    hide EquivCells, HashOfCell;
    forall a | l.Has(a)
      ensures a in groupOf[c := groupOf[m]] <==> a in done + {c} && HasTwin(l, done + {c}, a)
    {
      SameRelation(l, m, c, m);
      if a == c {
        assert m in done + {c};
      } else if a in groupOf {
        var b :| b in done && b != a && l.Has(b) && l.Same(a, b);
        assert b in done + {c};
      } else if a in done && HasTwin(l, done + {c}, a) {
        var b :| b in done + {c} && b != a && l.Has(b) && l.Same(a, b);
        SameRelation(l, a, b, m);
        SameRelation(l, m, c, a);
        SameRelation(l, c, a, m);
      }
    }
  }

  lemma JoinSame(l: Libraries, groupOf: map<int, nat>, m: int, c: int, a: int, b: int)
    requires l.Classes() && l.Has(c) && m in groupOf && l.Has(m) && l.Same(m, c) && c !in groupOf
    requires forall x, y {:trigger groupOf[x], groupOf[y]} ::
               x in groupOf && y in groupOf && l.Has(x) && l.Has(y) ==> (groupOf[x] == groupOf[y] <==> l.Same(x, y))
    requires a in groupOf[c := groupOf[m]] && b in groupOf[c := groupOf[m]] && l.Has(a) && l.Has(b)
    ensures groupOf[c := groupOf[m]][a] == groupOf[c := groupOf[m]][b] <==> l.Same(a, b)
  {
    hide EquivCells, HashOfCell;
    SameRelation(l, m, c, a);
    SameRelation(l, m, c, b);
    SameRelation(l, a, b, a);
    SameRelation(l, c, m, b);
    SameRelation(l, c, m, a);
    SameRelation(l, a, c, m);
    SameRelation(l, a, m, c);
    SameRelation(l, b, c, m);
    if a == c && b != c {
      assert groupOf[m] == groupOf[b] <==> l.Same(m, b);
    } else if a != c && b == c {
      assert groupOf[a] == groupOf[m] <==> l.Same(a, m);
    }
  }

  /** A cell whose twin has no group yet starts one with it. */
  lemma GroupedStarts(l: Libraries, done: set<int>, groupOf: map<int, nat>, groups: seq<seq<int>>, unique: seq<int>,
                      m: int, c: int, groupOf': map<int, nat>)
    requires groupOf' == groupOf[m := |groups|][c := |groups|]
    requires l.Has(m) && l.Has(c) && l.Same(m, c) && m in done && m !in groupOf && c !in done
    requires l.Classes() && Grouped(l, done, groupOf, groups, unique)
    ensures Grouped(l, done + {c}, groupOf', groups + [[m, c]], unique + [m])
  {
    hide EquivCells, HashOfCell, Listed;
    assert c !in groupOf;
    StartListed(groupOf, groups, unique, m, c);
    StartTwins(l, done, groupOf, m, c);
    StartTwinsMap(l, done, groupOf, groupOf', m, c, |groups|);
    forall a, b | a in groupOf' && b in groupOf' && l.Has(a) && l.Has(b)
      ensures groupOf'[a] == groupOf'[b] <==> l.Same(a, b)
    {
      StartSame(l, done, groupOf, groups, unique, m, c, a, b);
    }
  }

  lemma StartListed(groupOf: map<int, nat>, groups: seq<seq<int>>, unique: seq<int>, m: int, c: int)
    requires Listed(groupOf, groups, unique) && m !in groupOf && c !in groupOf && m != c
    ensures Listed(groupOf[m := |groups|][c := |groups|], groups + [[m, c]], unique + [m])
  {
    var n := |groups|;
    var groupOf', groups' := groupOf[m := n][c := n], groups + [[m, c]];
    forall a | a in groupOf'
      ensures groupOf'[a] < |groups'| && a in groups'[groupOf'[a]]
    {
      if a == m {
        assert groups'[n][0] == m;
      } else if a == c {
        assert groups'[n][1] == c;
      } else {
        assert a in groups[groupOf[a]];
      }
    }
    forall h, i | 0 <= h < |groups'| && 0 <= i < |groups'[h]|
      ensures groups'[h][i] in groupOf' && groupOf'[groups'[h][i]] == h
    {
      if h < n {
        assert groups'[h][i] == groups[h][i];
      }
    }
    forall h, i, j | 0 <= h < |groups'| && 0 <= i < j < |groups'[h]|
      ensures groups'[h][i] != groups'[h][j]
    {
      if h < n {
        assert groups'[h][i] == groups[h][i] && groups'[h][j] == groups[h][j];
      }
    }
  }

  /** Who has a twin once c is there: those who had one, m and c. */
  lemma StartTwins(l: Libraries, done: set<int>, groupOf: map<int, nat>, m: int, c: int)
    requires l.Classes() && l.Has(c) && c !in done && m in done && l.Has(m) && l.Same(m, c) && m !in groupOf
    requires forall a {:trigger a in done} :: a in done ==> l.Has(a)
    requires forall a {:trigger a in groupOf} :: a in groupOf <==> a in done && l.Has(a) && HasTwin(l, done, a)
    ensures forall a {:trigger HasTwin(l, done + {c}, a)} :: a in done + {c} && l.Has(a) ==>
              (HasTwin(l, done + {c}, a) <==> a in groupOf || a == m || a == c)
  {
    hide EquivCells, HashOfCell;
    forall a | a in done + {c} && l.Has(a)
      ensures HasTwin(l, done + {c}, a) <==> a in groupOf || a == m || a == c
    {
      SameRelation(l, m, c, m);
      assert m in done + {c} && c in done + {c};
      if a in groupOf {
        var b :| b in done && b != a && l.Has(b) && l.Same(a, b);
        assert b in done + {c};
      } else if HasTwin(l, done + {c}, a) && a != m && a != c {
        var b :| b in done + {c} && b != a && l.Has(b) && l.Same(a, b);
        SameRelation(l, a, c, m);
        SameRelation(l, c, m, a);
        SameRelation(l, m, a, c);
      }
    }
  }

  lemma StartTwinsMap(l: Libraries, done: set<int>, groupOf: map<int, nat>, groupOf': map<int, nat>, m: int, c: int,
                      n: nat)
    requires groupOf' == groupOf[m := n][c := n] && l.Has(c) && m in done && l.Has(m)
    requires forall a {:trigger a in done} :: a in done ==> l.Has(a)
    requires forall a {:trigger a in groupOf} :: a in groupOf ==> a in done
    requires forall a {:trigger HasTwin(l, done + {c}, a)} :: a in done + {c} && l.Has(a) ==>
              (HasTwin(l, done + {c}, a) <==> a in groupOf || a == m || a == c)
    ensures forall a {:trigger a in groupOf'} :: a in groupOf' <==>
            a in done + {c} && l.Has(a) && HasTwin(l, done + {c}, a)
  {
    hide HasTwin;
    forall a
      ensures a in groupOf' <==> a in done + {c} && l.Has(a) && HasTwin(l, done + {c}, a)
    {
      if a in done + {c} && l.Has(a) {
        assert HasTwin(l, done + {c}, a) <==> a in groupOf || a == m || a == c;
      }
    }
  }

  lemma StartSame(l: Libraries, done: set<int>, groupOf: map<int, nat>, groups: seq<seq<int>>, unique: seq<int>,
                  m: int, c: int, a: int, b: int)
    requires l.Classes() && Grouped(l, done, groupOf, groups, unique) && l.Has(c) && c !in done
    requires m in done && m !in groupOf && l.Has(m) && l.Same(m, c)
    requires a in groupOf[m := |groups|][c := |groups|] && b in groupOf[m := |groups|][c := |groups|]
           && l.Has(a) && l.Has(b)
    ensures groupOf[m := |groups|][c := |groups|][a] == groupOf[m := |groups|][c := |groups|][b] <==> l.Same(a, b)
  {
    hide EquivCells, HashOfCell;
    SameRelation(l, m, c, a);
    SameRelation(l, m, c, b);
    SameRelation(l, c, m, a);
    SameRelation(l, c, m, b);
    SameRelation(l, a, b, a);
    SameRelation(l, a, c, m);
    SameRelation(l, b, c, m);
    SameRelation(l, a, m, c);
    SameRelation(l, b, m, c);
    if a in groupOf {
      OldApart(l, done, groupOf, groups, unique, m, a);
    }
    if b in groupOf {
      OldApart(l, done, groupOf, groups, unique, m, b);
    }
  }

  /** A cell with a group is not the same as one without. */
  lemma OldApart(l: Libraries, done: set<int>, groupOf: map<int, nat>, groups: seq<seq<int>>, unique: seq<int>,
                 m: int, a: int)
    requires l.Classes() && Grouped(l, done, groupOf, groups, unique) && m in done && m !in groupOf && l.Has(m)
           && a in groupOf && l.Has(a)
    ensures !l.Same(a, m) && !l.Same(m, a) && groupOf[a] < |groups|
  {
    hide Libraries.Same, Libraries.Classes;
    SameRelation(l, a, m, a);
    SameRelation(l, m, a, m);
    TwinOf(l, done, m, a);
  }

  lemma TwinOf(l: Libraries, done: set<int>, a: int, b: int)
    requires l.Has(a) && l.Has(b) && a != b && b in done
    ensures l.Same(a, b) ==> HasTwin(l, done, a)
  {
  }

  // ---------------------------------------------------------------------------
  // The tables

  /** The lists of groups are right for the cells done, whatever the comparison is. */
  ghost predicate Loose(l: Libraries, done: set<int>, groupOf: map<int, nat>, groups: seq<seq<int>>, unique: seq<int>) {
    Listed(groupOf, groups, unique) && forall a {:trigger a in groupOf} :: a in groupOf ==> a in done && l.Has(a)
  }

  datatype Tables = Tables(matches: map<nat, seq<int>>, groupOf: map<int, nat>, groups: seq<seq<int>>,
      unique: seq<int>) {
    function Bucket(hash: nat): seq<int> { if hash in matches then matches[hash] else [] }
  }

  const EMPTY := Tables(map[], map[], [], [])

  /** The first cell of the bucket that compares equal to c, -1 if there is none. */
  function FirstMatch(l: Libraries, bucket: seq<int>, c: int): int
    requires l.Has(c)
  {
    if |bucket| == 0 then -1
    else if l.Has(bucket[0]) && EquivCells(l.cells[bucket[0]], l.cells[c]) then bucket[0]
    else FirstMatch(l, bucket[1..], c)
  }

  /** The tables with one more cell: it joins the group of its first match, or starts one. */
  function Added(l: Libraries, t: Tables, c: int): Tables
    requires l.Has(c)
  {
    var bucket := t.Bucket(l.HashOf(c));
    var m := FirstMatch(l, bucket, c);
    Together(t, m, c).(matches := t.matches[l.HashOf(c) := bucket + [c]])
  }

  function Together(t: Tables, m: int, c: int): Tables {
    var n := |t.groups|;
    if m == -1 then t
    else if m !in t.groupOf then
      t.(groupOf := t.groupOf[m := n][c := n], groups := t.groups + [[m, c]], unique := t.unique + [m])
    else
      var g := t.groupOf[m];
      t.(groupOf := t.groupOf[c := g], groups := if g < n then t.groups[g := t.groups[g] + [c]] else t.groups)
  }

  /** The cells of a library one after the other, without those that are not to be used. */
  function AddedAll(l: Libraries, t: Tables, library: seq<int>): Tables
    requires forall i {:trigger library[i]} :: 0 <= i < |library| ==> l.Has(library[i])
  {
    if |library| == 0 then t else
      assert l.Has(library[|library| - 1]);
      var front, c := AddedAll(l, t, library[..|library| - 1]), library[|library| - 1];
      if l.cells[c].dontUse then front else Added(l, front, c)
  }

  /** Two cells form a group exactly when the first compares equal to the second, with the same
      hash. */
  lemma TwoCells(l: Libraries, a: int, b: int)
    requires l.Has(a) && l.Has(b) && a != b
    ensures Added(l, Added(l, EMPTY, a), b).groups == if l.Same(a, b) then [[a, b]] else []
  {
    hide EquivCells, HashOfCell;
    var t := Added(l, EMPTY, a);
    assert EMPTY.Bucket(l.HashOf(a)) == [];
    assert t.Bucket(l.HashOf(a)) == [a] && t.groups == [] && t.groupOf == map[];
    assert [a][1..] == [] && FirstMatch(l, [], b) == -1;
    assert FirstMatch(l, [a], b) == if EquivCells(l.cells[a], l.cells[b]) then a else -1;
    if l.HashOf(a) == l.HashOf(b) {
      assert t.Bucket(l.HashOf(b)) == [a];
    } else {
      assert t.Bucket(l.HashOf(b)) == [];
    }
  }

  /** So the order of the cells makes no difference to any two of them exactly when the
      comparison holds both ways where it holds at all. */
  lemma OrderMatters(l: Libraries)
    ensures l.Symmetric() <==> forall a, b {:trigger l.Same(a, b)} :: l.Has(a) && l.Has(b) && a != b ==>
              (Added(l, Added(l, EMPTY, a), b).groups == [] <==> Added(l, Added(l, EMPTY, b), a).groups == [])
  {
    hide EquivCells, HashOfCell, Added;
    forall a, b | l.Has(a) && l.Has(b) && a != b
      ensures Added(l, Added(l, EMPTY, a), b).groups == [] <==> !l.Same(a, b)
      ensures Added(l, Added(l, EMPTY, b), a).groups == [] <==> !l.Same(b, a)
    {
      TwoCells(l, a, b);
      TwoCells(l, b, a);
    }
    if forall a, b {:trigger l.Same(a, b)} :: l.Has(a) && l.Has(b) && a != b ==>
         (Added(l, Added(l, EMPTY, a), b).groups == [] <==> Added(l, Added(l, EMPTY, b), a).groups == []) {
      forall a, b | l.Has(a) && l.Has(b) && l.Same(a, b)
        ensures l.Same(b, a)
      {
        if a != b {
          assert Added(l, Added(l, EMPTY, a), b).groups == [] <==> Added(l, Added(l, EMPTY, b), a).groups == [];
        }
      }
    }
  }

  class EquivCellTable {
    const l: Libraries
    var hashMatches: map<nat, seq<int>>
    var groupOf: map<int, nat>
    var groups: seq<seq<int>>
    var uniqueEquivCells: seq<int>
    ghost var done: set<int>

    ghost predicate Valid()
      reads this
    {
      && l.Valid() && Bucketed(l, done, hashMatches) && Loose(l, done, groupOf, groups, uniqueEquivCells)
      && (l.Symmetric() ==> Grouped(l, done, groupOf, groups, uniqueEquivCells))
    }

    function Now(): Tables
      reads this
    {
      Tables(hashMatches, groupOf, groups, uniqueEquivCells)
    }

    constructor (l: Libraries)
      requires l.Valid()
      ensures Valid() && this.l == l && done == {} && Now() == EMPTY
    {
      this.l := l;
      hashMatches, groupOf, groups, uniqueEquivCells, done := map[], map[], [], [], {};
    }

    /** The first cell in the bucket that compares equal to c. */
    method FindMatch(c: int, bucket: seq<int>) returns (m: int)
      requires l.Has(c) && forall i {:trigger bucket[i]} :: 0 <= i < |bucket| ==> l.Has(bucket[i])
      ensures m == FirstMatch(l, bucket, c)
      ensures m == -1 ==> forall i {:trigger bucket[i]} :: 0 <= i < |bucket| && l.Has(bucket[i]) ==>
                !EquivCells(l.cells[bucket[i]], l.cells[c])
      ensures m != -1 ==> m in bucket && l.Has(m) && EquivCells(l.cells[m], l.cells[c])
    {
      hide EquivCells;
      for i := 0 to |bucket|
        invariant FirstMatch(l, bucket, c) == FirstMatch(l, bucket[i..], c)
        invariant forall j {:trigger bucket[j]} :: 0 <= j < i && l.Has(bucket[j]) ==>
                  !EquivCells(l.cells[bucket[j]], l.cells[c])
      {
        assert bucket[i..][0] == bucket[i] && bucket[i..][1..] == bucket[i + 1..];
        if EquivCells(l.cells[bucket[i]], l.cells[c]) {
          return bucket[i];
        }
      }
      return -1;
    }

    /** Puts c with the cells that match it. */
    method AddToGroup(c: int, m: int)
      requires Valid() && l.Has(c) && c !in done && m in done && l.Has(m) && l.Same(m, c)
      modifies `groupOf, `groups, `uniqueEquivCells
      ensures Now() == Together(old(Now()), m, c)
      ensures Loose(l, done + {c}, groupOf, groups, uniqueEquivCells)
      ensures l.Symmetric() ==> Grouped(l, done + {c}, groupOf, groups, uniqueEquivCells)
    {
      hide EquivCells, HashOfCell, Grouped, Listed;
      if m !in groupOf {
        StartListed(groupOf, groups, uniqueEquivCells, m, c);
        if l.Symmetric() {
          GroupedStarts(l, done, groupOf, groups, uniqueEquivCells, m, c,
                        groupOf[m := |groups|][c := |groups|]);
        }
        groups := groups + [[m, c]];
        uniqueEquivCells := uniqueEquivCells + [m];
        groupOf := groupOf[m := |groups| - 1];
        groupOf := groupOf[c := |groups| - 1];
      } else {
        JoinListed(groupOf, groups, uniqueEquivCells, m, c);
        if l.Symmetric() {
          GroupedJoins(l, done, groupOf, groups, uniqueEquivCells, m, c);
        }
        var g := groupOf[m];
        groups := groups[g := groups[g] + [c]];
        groupOf := groupOf[c := g];
      }
    }

    /** Takes in one cell. */
    method AddCell(c: int)
      requires Valid() && l.Has(c) && c !in done
      modifies this
      ensures Valid() && done == old(done) + {c} && Now() == Added(l, old(Now()), c)
    {
      hide EquivCells, HashOfCell, Grouped, Listed;
      var hash := HashCell(l.str, l.cells[c]);
      var bucket := if hash in hashMatches then hashMatches[hash] else [];
      BucketHas(l, done, hashMatches, hash, bucket);
      var m := FindMatch(c, bucket);
      if m != -1 {
        AddToGroup(c, m);
      } else {
        NoTwin(l, done, hashMatches, bucket, c);
        if l.Symmetric() {
          GroupedAlone(l, done, groupOf, groups, uniqueEquivCells, c);
        }
      }
      BucketAdd(l, done, hashMatches, c, bucket);
      hashMatches := hashMatches[hash := bucket + [c]];
      done := done + {c};
    }

    /** Groups the cells of a library, except those that are not to be used. */
    method FindEquivCells(library: seq<int>)
      requires Valid() && forall i {:trigger library[i]} :: 0 <= i < |library| ==>
                l.Has(library[i]) && library[i] !in done
      requires forall i, j {:trigger library[i], library[j]} :: 0 <= i < j < |library| ==> library[i] != library[j]
      modifies this
      ensures Valid() && done == old(done) + UsedCells(l, library) && Now() == AddedAll(l, old(Now()), library)
    {
      hide EquivCells, HashOfCell, Grouped, Listed, Added;
      assert done == done + UsedCells(l, []);
      for k := 0 to |library|
        invariant Valid() && done == old(done) + UsedCells(l, library[..k])
        invariant Now() == AddedAll(l, old(Now()), library[..k])
      {
        var c := library[k];
        assert library[..k + 1][..k] == library[..k];
        UsedNext(l, library, k);
        if !l.cells[c].dontUse {
          assert c !in UsedCells(l, library[..k]);
          AddCell(c);
        }
      }
      assert library[..|library|] == library;
    }

    /** The group that cell c, of a library that is only mapped, goes with: -1 if the cells
        that match it have no group, None if no cell matches it. */
    method MapCell(c: int) returns (found: bool, group: int)
      requires Valid() && l.Has(c)
      ensures found <==> exists a :: a in done && l.Has(a) && l.Same(a, c)
      ensures found ==> group == GroupOfMatch(l, Now(), c)
      ensures found && l.Symmetric() ==> MappedRight(l, done, groupOf, |groups|, c, group)
    {
      hide EquivCells, HashOfCell, MappedRight, Grouped, Listed;
      var hash := HashCell(l.str, l.cells[c]);
      found, group := false, -1;
      if hash in hashMatches {
        var bucket := hashMatches[hash];
        BucketHas(l, done, hashMatches, hash, bucket);
        var m := FindMatch(c, bucket);
        if m != -1 {
          found := true;
          if m in groupOf {
            group := groupOf[m];
          }
          if l.Symmetric() {
            MatchDecides(l, done, groupOf, groups, uniqueEquivCells, m, c);
          }
        } else {
          NoTwin(l, done, hashMatches, bucket, c);
        }
      } else {
        NoTwin(l, done, hashMatches, [], c);
      }
    }

    /** Maps the cells of a library to the groups. */
    method MapEquivCells(library: seq<int>) returns (mapped: map<int, int>)
      requires Valid() && forall i {:trigger library[i]} :: 0 <= i < |library| ==> l.Has(library[i])
      ensures forall c {:trigger c in mapped} :: c in mapped <==>
              c in UsedCells(l, library) && exists a :: a in done && l.Has(a) && l.Same(a, c)
      ensures forall c {:trigger mapped[c]} :: c in mapped && l.Has(c) ==> mapped[c] == GroupOfMatch(l, Now(), c)
      ensures forall c {:trigger mapped[c]} :: c in mapped && l.Has(c) && l.Symmetric() ==>
                MappedRight(l, done, groupOf, |groups|, c, mapped[c])
    {
      hide EquivCells, HashOfCell, MappedRight, GroupOfMatch;
      mapped := map[];
      for k := 0 to |library|
        invariant forall c {:trigger c in mapped} :: c in mapped <==>
                  c in UsedCells(l, library[..k]) && exists a :: a in done && l.Has(a) && l.Same(a, c)
        invariant forall c {:trigger mapped[c]} :: c in mapped && l.Has(c) ==> mapped[c] == GroupOfMatch(l, Now(), c)
        invariant forall c {:trigger mapped[c]} :: c in mapped && l.Has(c) && l.Symmetric() ==>
                  MappedRight(l, done, groupOf, |groups|, c, mapped[c])
      {
        var c := library[k];
        assert library[..k + 1] == library[..k] + [c];
        if !l.cells[c].dontUse {
          var found, group := MapCell(c);
          if found {
            mapped := mapped[c := group];
          }
        }
      }
      assert library[..|library|] == library;
    }
  }

  /** The group of c's first match, -1 if it has none. */
  function GroupOfMatch(l: Libraries, t: Tables, c: int): int
    requires l.Has(c)
  {
    var m := FirstMatch(l, t.Bucket(l.HashOf(c)), c);
    if m in t.groupOf then t.groupOf[m] else -1
  }

  /** Mapping a cell that is in the tables already leaves its group as it is. */
  lemma MappingKeeps(l: Libraries, done: set<int>, groupOf: map<int, nat>, n: nat, c: int, group: int)
    requires l.Classes() && c in done && l.Has(c) && MappedRight(l, done, groupOf, n, c, group)
    ensures if group >= 0 then c in groupOf && groupOf[c] == group else c !in groupOf
  {
    SameRelation(l, c, c, c);
  }

  /** The mapped group is that of every matching cell, or no matching cell has one. */
  ghost predicate MappedRight(l: Libraries, done: set<int>, groupOf: map<int, nat>, n: nat, c: int, group: int)
    requires l.Has(c)
  {
    && group < n
    && forall a {:trigger a in done} :: a in done && l.Has(a) && l.Same(a, c) ==>
         if group >= 0 then a in groupOf && groupOf[a] == group else a !in groupOf
  }

  /** Any match decides the group of c. */
  lemma MatchDecides(l: Libraries, done: set<int>, groupOf: map<int, nat>, groups: seq<seq<int>>, unique: seq<int>,
                     m: int, c: int)
    requires l.Classes() && Grouped(l, done, groupOf, groups, unique) && m in done && l.Has(m) && l.Has(c)
             && l.Same(m, c)
    ensures MappedRight(l, done, groupOf, |groups|, c, if m in groupOf then groupOf[m] else -1)
  {
    hide EquivCells, HashOfCell;
    forall a | a in done && l.Has(a) && l.Same(a, c)
      ensures (a in groupOf <==> m in groupOf) && (m in groupOf ==> groupOf[a] == groupOf[m])
    {
      SameRelation(l, m, c, a);
      SameRelation(l, a, c, m);
      SameRelation(l, c, a, m);
      SameRelation(l, c, m, a);
      if a != m {
        assert HasTwin(l, done, a) && HasTwin(l, done, m);
      }
    }
  }

  ghost function UsedCells(l: Libraries, library: seq<int>): set<int> {
    set c | c in library && l.Has(c) && !l.cells[c].dontUse
  }

  lemma UsedNext(l: Libraries, library: seq<int>, k: nat)
    requires k < |library| && l.Has(library[k])
    requires forall i, j {:trigger library[i], library[j]} :: 0 <= i < j < |library| ==> library[i] != library[j]
    ensures library[k] !in UsedCells(l, library[..k])
    ensures UsedCells(l, library[..k + 1])
            == UsedCells(l, library[..k]) + if l.cells[library[k]].dontUse then {} else {library[k]}
  {
    assert library[..k + 1] == library[..k] + [library[k]];
  }

  lemma BucketHas(l: Libraries, done: set<int>, matches: map<nat, seq<int>>, hash: nat, bucket: seq<int>)
    requires Bucketed(l, done, matches) && bucket == (if hash in matches then matches[hash] else [])
    ensures forall i {:trigger bucket[i]} :: 0 <= i < |bucket| ==>
              l.Has(bucket[i]) && bucket[i] in done && l.HashOf(bucket[i]) == hash
  {
    hide HashOfCell;
    forall i | 0 <= i < |bucket|
      ensures l.Has(bucket[i]) && bucket[i] in done && l.HashOf(bucket[i]) == hash
    {
      assert matches[hash][i] == bucket[i];
    }
  }

  lemma NoTwin(l: Libraries, done: set<int>, matches: map<nat, seq<int>>, bucket: seq<int>, c: int)
    requires Bucketed(l, done, matches) && l.Has(c)
           && bucket == (if l.HashOf(c) in matches then matches[l.HashOf(c)] else [])
    requires forall i {:trigger bucket[i]} :: 0 <= i < |bucket| && l.Has(bucket[i]) ==>
              !EquivCells(l.cells[bucket[i]], l.cells[c])
    ensures forall a {:trigger a in done} :: a in done && l.Has(a) ==> !l.Same(a, c)
  {
    hide EquivCells, HashOfCell;
    forall a | a in done && l.Has(a) && l.HashOf(a) == l.HashOf(c)
      ensures !EquivCells(l.cells[a], l.cells[c])
    {
      assert a in bucket;
      var i :| 0 <= i < |bucket| && bucket[i] == a;
    }
  }

  lemma BucketAdd(l: Libraries, done: set<int>, matches: map<nat, seq<int>>, c: int, bucket: seq<int>)
    requires Bucketed(l, done, matches) && l.Has(c)
           && bucket == (if l.HashOf(c) in matches then matches[l.HashOf(c)] else [])
    ensures Bucketed(l, done + {c}, matches[l.HashOf(c) := bucket + [c]])
  {
    hide HashOfCell;
    var matches' := matches[l.HashOf(c) := bucket + [c]];
    forall h, i | h in matches' && 0 <= i < |matches'[h]|
      ensures matches'[h][i] in done + {c} && l.Has(matches'[h][i]) && l.HashOf(matches'[h][i]) == h
    {
      if h != l.HashOf(c) {
        assert matches'[h][i] == matches[h][i];
      } else if i < |bucket| {
        assert matches'[h][i] == matches[h][i];
      }
    }
    forall a | a in done + {c}
      ensures l.Has(a) && l.HashOf(a) in matches' && a in matches'[l.HashOf(a)]
    {
      if a == c {
        assert (bucket + [c])[|bucket|] == c;
      } else {
        assert a in matches[l.HashOf(a)];
      }
    }
  }

  /** The groups are exactly the classes with two cells or more: two used cells are in one
      group exactly when they compare equal and the kinds of their sequentials agree. */
  lemma GroupsAreClasses(l: Libraries, done: set<int>, groupOf: map<int, nat>, groups: seq<seq<int>>,
                         unique: seq<int>, a: int, b: int)
    requires l.Classes() && Grouped(l, done, groupOf, groups, unique) && a in done && b in done && a != b
           && l.Has(a) && l.Has(b)
    ensures a in groupOf && b in groupOf && groupOf[a] == groupOf[b] <==>
              EquivCells(l.cells[a], l.cells[b])
                && W(KindsTerm(l.cells[a].sequentials)) == W(KindsTerm(l.cells[b].sequentials))
    ensures a in groupOf ==> groupOf[a] < |groups| && |groups[groupOf[a]]| >= 2
  {
    hide EquivCells, HashOfCell;
    SameIs(l, a, b);
    SameRelation(l, a, b, a);
    if l.Same(a, b) {
      assert HasTwin(l, done, a) && HasTwin(l, done, b);
    }
    if a in groupOf {
      var t :| t in done && t != a && l.Has(t) && l.Same(a, t);
      SameRelation(l, a, t, a);
      assert HasTwin(l, done, t);
      assert t in groupOf && groupOf[t] == groupOf[a];
      var i :| 0 <= i < |groups[groupOf[a]]| && groups[groupOf[a]][i] == a;
      var j :| 0 <= j < |groups[groupOf[t]]| && groups[groupOf[t]][j] == t;
    }
  }
}
