/** Counting arguments: subsets, and lists without repetition drawn from a finite set. */
module Finite {

  lemma {:induction false} SubsetSize<T>(a: set<T>, b: set<T>)
    requires a <= b
    ensures |a| <= |b|
  {
    if a != {} {
      var x :| x in a;
      SubsetSize(a - {x}, b - {x});
    }
  }

  ghost predicate NoRepeats<T>(s: seq<T>) {
    forall i, j :: 0 <= i < j < |s| ==> s[i] != s[j]
  }

  lemma {:induction false} NoRepeatsFits<T>(s: seq<T>, all: set<T>)
    requires NoRepeats(s) && forall x :: x in s ==> x in all
    ensures |s| <= |all|
  {
    if s != [] {
      var front, last := s[..|s| - 1], s[|s| - 1];
      forall x | x in front ensures x in all - {last} {
        var i :| 0 <= i < |front| && front[i] == x;
        assert s[i] == x;
      }
      NoRepeatsFits(front, all - {last});
    }
  }
}
