/** Sizes of finite sets. */
module FiniteSets {

  /** The numbers 0 .. m-1. */
  function Below(m: nat): (b: set<int>)
    ensures |b| == m && forall x :: x in b <==> 0 <= x < m
  {
    if m == 0 then {} else Below(m - 1) + {m - 1}
  }

  lemma {:induction false} SubsetSize<T>(a: set<T>, b: set<T>)
    requires a <= b
    ensures |a| <= |b| && (|a| == |b| ==> a == b)
  {
    if a == {} {
      assert |b| == 0 ==> b == {};
    } else {
      var x :| x in a;
      SubsetSize(a - {x}, b - {x});
    }
  }

  /** A sequence has at most as many members as entries, and exactly as many if no two entries
      are the same. */
  lemma {:induction false} MembersSize<T>(s: seq<T>)
    ensures |set x | x in s| <= |s|
    ensures (forall i, j :: 0 <= i < j < |s| ==> s[i] != s[j]) ==> |set x | x in s| == |s|
  {
    if |s| > 0 {
      var front, last := s[..|s| - 1], s[|s| - 1];
      MembersSize(front);
      assert (set x | x in s) == (set x | x in front) + {last};
      if forall i, j :: 0 <= i < j < |s| ==> s[i] != s[j] {
        assert last !in front;
      }
    }
  }

  lemma SomeMember<T>(s: set<T>) returns (x: T)
    requires s != {}
    ensures x in s
  {
    x :| x in s;
  }
}
