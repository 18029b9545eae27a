/** Stable sorting of a sequence by a total preorder: the contract of Python's
    `list.sort`, and the law that lets several passes be read as one comparison. */
module StableSorting {

  ghost predicate TotalPreorder<T(!new)>(le: (T, T) -> bool) {
    && (forall x, y :: le(x, y) || le(y, x))
    && (forall x, y, z :: le(x, y) && le(y, z) ==> le(x, z))
  }

  ghost predicate Sorted<T>(s: seq<T>, le: (T, T) -> bool) {
    forall i, j :: 0 <= i < j < |s| ==> le(s[i], s[j])
  }

  /** Puts x before the first element that is not strictly smaller. */
  function Insert<T>(x: T, s: seq<T>, le: (T, T) -> bool): seq<T> {
    if s == [] then [x]
    else if le(x, s[0]) then [x] + s
    else [s[0]] + Insert(x, s[1..], le)
  }

  function StableSort<T>(s: seq<T>, le: (T, T) -> bool): seq<T> {
    if s == [] then [] else Insert(s[0], StableSort(s[1..], le), le)
  }

  /** The elements of s that tie with x, in the order in which s holds them. */
  function Ties<T>(s: seq<T>, le: (T, T) -> bool, x: T): seq<T> {
    if s == [] then []
    else (if le(x, s[0]) && le(s[0], x) then [s[0]] else []) + Ties(s[1..], le, x)
  }

  /** What `sort` promises: ordered, and ties keep the order they had. */
  ghost predicate IsStableSortOf<T(!new)>(r: seq<T>, s: seq<T>, le: (T, T) -> bool) {
    && Sorted(r, le)
    && forall x :: Ties(r, le, x) == Ties(s, le, x)
  }

  /** The first order decides, the second one orders what the first leaves tied. */
  function Lex<T>(first: (T, T) -> bool, second: (T, T) -> bool): (T, T) -> bool {
    (x, y) => first(x, y) && (first(y, x) ==> second(x, y))
  }

  // ----- StableSort meets its promise

  lemma {:induction false} InsertMultiset<T>(x: T, s: seq<T>, le: (T, T) -> bool)
    ensures multiset(Insert(x, s, le)) == multiset{x} + multiset(s)
  {
    if s == [] || le(x, s[0]) {
    } else {
      InsertMultiset(x, s[1..], le);
      assert s == [s[0]] + s[1..];
    }
  }

  lemma {:induction false} SortIsPermutation<T>(s: seq<T>, le: (T, T) -> bool)
    ensures multiset(StableSort(s, le)) == multiset(s)
    ensures |StableSort(s, le)| == |s|
  {
    if s != [] {
      SortIsPermutation(s[1..], le);
      InsertMultiset(s[0], StableSort(s[1..], le), le);
      assert s == [s[0]] + s[1..];
    }
    assert |multiset(StableSort(s, le))| == |multiset(s)|;
  }

  lemma {:induction false} InsertSorted<T(!new)>(x: T, s: seq<T>, le: (T, T) -> bool)
    requires TotalPreorder(le) && Sorted(s, le)
    ensures Sorted(Insert(x, s, le), le)
  {
    if s == [] || le(x, s[0]) {
    } else {
      var rest := Insert(x, s[1..], le);
      InsertSorted(x, s[1..], le);
      InsertMultiset(x, s[1..], le);
      forall j | 0 <= j < |rest| ensures le(s[0], rest[j]) {
        assert rest[j] in multiset(rest);
        assert rest[j] == x || rest[j] in s[1..];
      }
    }
  }

  lemma {:induction false} InsertTies<T>(x: T, s: seq<T>, le: (T, T) -> bool, z: T)
    requires forall y, w :: le(y, z) && le(z, w) ==> le(y, w)
    ensures Ties(Insert(x, s, le), le, z) == Ties([x] + s, le, z)
  {
    assert ([x] + s)[1..] == s;
    if s == [] || le(x, s[0]) {
    } else {
      InsertTies(x, s[1..], le, z);
      var moved := [s[0]] + Insert(x, s[1..], le);
      assert moved[1..] == Insert(x, s[1..], le);
      assert ([x] + s[1..])[1..] == s[1..];
    }
  }

  lemma {:induction false} SortIsStable<T(!new)>(s: seq<T>, le: (T, T) -> bool)
    requires TotalPreorder(le)
    ensures IsStableSortOf(StableSort(s, le), s, le)
  {
    if s != [] {
      SortIsStable(s[1..], le);
      var rest := StableSort(s[1..], le);
      InsertSorted(s[0], rest, le);
      forall z ensures Ties(StableSort(s, le), le, z) == Ties(s, le, z) {
        InsertTies(s[0], rest, le, z);
        assert ([s[0]] + rest)[1..] == rest;
      }
    }
  }

  // ----- and is the only list that does

  lemma {:induction false} TiesMembers<T>(s: seq<T>, le: (T, T) -> bool, x: T, y: T)
    ensures y in Ties(s, le, x) <==> y in s && le(x, y) && le(y, x)
  {
    if s != [] {
      TiesMembers(s[1..], le, x, y);
      assert y in s <==> y == s[0] || y in s[1..];
    }
  }

  lemma {:induction false} SameTiesSameMembers<T(!new)>(a: seq<T>, b: seq<T>, le: (T, T) -> bool, x: T)
    requires TotalPreorder(le)
    requires forall z :: Ties(a, le, z) == Ties(b, le, z)
    requires x in a
    ensures x in b
  {
    TiesMembers(a, le, x, x);
    TiesMembers(b, le, x, x);
  }

  lemma {:induction false} StableSortUnique<T(!new)>(a: seq<T>, b: seq<T>, le: (T, T) -> bool)
    requires TotalPreorder(le) && Sorted(a, le) && Sorted(b, le)
    requires forall x :: Ties(a, le, x) == Ties(b, le, x)
    ensures a == b
  {
    if a == [] {
      if b != [] { SameTiesSameMembers(b, a, le, b[0]); }
    } else {
      SameTiesSameMembers(a, b, le, a[0]);
      SameTiesSameMembers(b, a, le, b[0]);
      assert le(a[0], b[0]) && le(b[0], a[0]);
      assert Ties(a, le, a[0])[0] == a[0] && Ties(b, le, a[0])[0] == b[0];
      forall x ensures Ties(a[1..], le, x) == Ties(b[1..], le, x) {
        assert Ties(a, le, x) == Ties(b, le, x);
        var pre := if le(x, a[0]) && le(a[0], x) then [a[0]] else [];
        assert Ties(a, le, x)[|pre|..] == Ties(a[1..], le, x);
        assert Ties(b, le, x)[|pre|..] == Ties(b[1..], le, x);
      }
      StableSortUnique(a[1..], b[1..], le);
      assert a == [a[0]] + a[1..] && b == [b[0]] + b[1..];
    }
  }

  lemma SortedBy<T(!new)>(r: seq<T>, s: seq<T>, le: (T, T) -> bool)
    requires TotalPreorder(le) && IsStableSortOf(r, s, le)
    ensures r == StableSort(s, le)
  {
    SortIsStable(s, le);
    forall x ensures Ties(r, le, x) == Ties(StableSort(s, le), le, x) {
      assert Ties(r, le, x) == Ties(s, le, x);
    }
    StableSortUnique(r, StableSort(s, le), le);
  }

  lemma SortedStays<T(!new)>(s: seq<T>, le: (T, T) -> bool)
    requires TotalPreorder(le) && Sorted(s, le)
    ensures StableSort(s, le) == s
  {
    SortedBy(s, s, le);
  }

  /** Orders that agree on every pair sort alike. */
  lemma {:induction false} SortCongruence<T(!new)>(s: seq<T>, le: (T, T) -> bool, other: (T, T) -> bool)
    requires forall x, y :: le(x, y) == other(x, y)
    ensures StableSort(s, le) == StableSort(s, other)
  {
    if s != [] {
      SortCongruence(s[1..], le, other);
      InsertCongruence(s[0], StableSort(s[1..], le), le, other);
    }
  }

  lemma {:induction false} InsertCongruence<T(!new)>(x: T, s: seq<T>, le: (T, T) -> bool, other: (T, T) -> bool)
    requires forall a, b :: le(a, b) == other(a, b)
    ensures Insert(x, s, le) == Insert(x, s, other)
  {
    if s != [] && !le(x, s[0]) { InsertCongruence(x, s[1..], le, other); }
  }

  // ----- two passes, least significant first, are one pass by Lex

  lemma {:induction false} TiesOfLex<T>(s: seq<T>, first: (T, T) -> bool, second: (T, T) -> bool, x: T)
    ensures Ties(s, Lex(first, second), x) == Ties(Ties(s, first, x), second, x)
    ensures Ties(s, Lex(first, second), x) == Ties(Ties(s, second, x), first, x)
  {
    if s != [] {
      TiesOfLex(s[1..], first, second, x);
      var a, b := Ties(s[1..], first, x), Ties(s[1..], second, x);
      assert ([s[0]] + a)[1..] == a && ([s[0]] + b)[1..] == b;
      assert [] + a == a && [] + b == b;
    }
  }

  /** Within a run of ties of the first order, a stable pass keeps the second order. */
  lemma {:induction false} TiesSorted<T(!new)>(s: seq<T>, le: (T, T) -> bool, second: (T, T) -> bool, x: T)
    requires Sorted(s, second)
    ensures Sorted(Ties(s, le, x), second)
  {
    if s != [] {
      TiesSorted(s[1..], le, second, x);
      forall y | y in Ties(s[1..], le, x) ensures second(s[0], y) { TiesMembers(s[1..], le, x, y); }
    }
  }

  lemma {:induction false} SortedTiesPair<T>(
    s: seq<T>, le: (T, T) -> bool, second: (T, T) -> bool, x: T, i: nat, j: nat)
    requires i < j < |s| && Sorted(Ties(s, le, x), second)
    requires le(x, s[i]) && le(s[i], x) && le(x, s[j]) && le(s[j], x)
    ensures second(s[i], s[j])
  {
    var t := Ties(s[1..], le, x);
    if i == 0 {
      assert Ties(s, le, x) == [s[0]] + t;
      TiesMembers(s[1..], le, x, s[j]);
      assert s[j] == s[1..][j - 1];
      var k :| 0 <= k < |t| && t[k] == s[j];
      var all := Ties(s, le, x);
      assert all[0] == s[i] && all[k + 1] == s[j];
    } else {
      forall a, b | 0 <= a < b < |t| ensures second(t[a], t[b]) {
        var pre := if le(x, s[0]) && le(s[0], x) then 1 else 0;
        assert Ties(s, le, x)[a + pre] == t[a] && Ties(s, le, x)[b + pre] == t[b];
      }
      SortedTiesPair(s[1..], le, second, x, i - 1, j - 1);
    }
  }

  lemma LexIsTotalPreorder<T(!new)>(first: (T, T) -> bool, second: (T, T) -> bool)
    requires TotalPreorder(first) && TotalPreorder(second)
    ensures TotalPreorder(Lex(first, second))
  {
    var lex := Lex(first, second);
    forall x, y ensures lex(x, y) || lex(y, x) {}
    forall x, y, z | lex(x, y) && lex(y, z) ensures lex(x, z) {
      assert first(x, z);
    }
  }

  lemma TwoPassesAreLex<T(!new)>(s: seq<T>, first: (T, T) -> bool, second: (T, T) -> bool)
    requires TotalPreorder(first) && TotalPreorder(second)
    ensures StableSort(StableSort(s, second), first) == StableSort(s, Lex(first, second))
  {
    var t := StableSort(s, second);
    var r := StableSort(t, first);
    var lex := Lex(first, second);
    SortIsStable(s, second);
    SortIsStable(t, first);
    forall x ensures Ties(r, lex, x) == Ties(s, lex, x) {
      TiesOfLex(r, first, second, x);
      TiesOfLex(t, first, second, x);
      TiesOfLex(s, first, second, x);
    }
    forall i, j | 0 <= i < j < |r| ensures lex(r[i], r[j]) {
      if first(r[j], r[i]) {
        var x := r[i];
        TiesSorted(t, first, second, x);
        assert Ties(r, first, x) == Ties(t, first, x);
        SortedTiesPair(r, first, second, x, i, j);
      }
    }
    LexIsTotalPreorder(first, second);
    SortedBy(r, s, lex);
  }

  // ----- with no ties left, the result depends only on which elements there are

  ghost predicate NoTies<T>(s: seq<T>, le: (T, T) -> bool) {
    forall x, y :: x in s && y in s && le(x, y) && le(y, x) ==> x == y
  }

  lemma TailMultiset<T>(a: seq<T>)
    requires a != []
    ensures multiset(a[1..]) == multiset(a) - multiset{a[0]}
  {
    assert a == [a[0]] + a[1..];
  }

  lemma TailKeeps<T>(a: seq<T>, le: (T, T) -> bool)
    requires a != [] && NoTies(a, le)
    ensures NoTies(a[1..], le)
  {
    assert forall x :: x in a[1..] ==> x in a;
  }

  lemma SameHead<T>(a: seq<T>, b: seq<T>, le: (T, T) -> bool)
    requires NoTies(a, le) && Sorted(a, le) && Sorted(b, le)
    requires a != [] && b != [] && multiset(a) == multiset(b)
    ensures a[0] == b[0]
  {
    assert a[0] in multiset(b) && b[0] in multiset(a);
  }

  lemma SameLength<T>(a: seq<T>, b: seq<T>)
    requires multiset(a) == multiset(b)
    ensures |a| == |b|
  {
    assert |a| == |multiset(a)| && |b| == |multiset(b)|;
  }

  lemma TailsMatch<T>(a: seq<T>, b: seq<T>)
    requires a != [] && b != [] && a[0] == b[0] && multiset(a) == multiset(b)
    ensures multiset(a[1..]) == multiset(b[1..])
  {
    TailMultiset(a);
    TailMultiset(b);
  }

  lemma TailSorted<T>(a: seq<T>, le: (T, T) -> bool)
    requires a != [] && Sorted(a, le)
    ensures Sorted(a[1..], le)
  {
  }

  lemma SameHeadAndTail<T>(a: seq<T>, b: seq<T>)
    requires a != [] && b != [] && a[0] == b[0] && a[1..] == b[1..]
    ensures a == b
  {
    assert a == [a[0]] + a[1..] && b == [b[0]] + b[1..];
  }

  lemma {:induction false} SortedPermutationUnique<T>(a: seq<T>, b: seq<T>, le: (T, T) -> bool)
    requires NoTies(a, le) && Sorted(a, le) && Sorted(b, le) && multiset(a) == multiset(b)
    ensures a == b
  {
    SameLength(a, b);
    if a != [] {
      SameHead(a, b, le);
      TailsMatch(a, b);
      TailKeeps(a, le);
      TailSorted(a, le);
      TailSorted(b, le);
      SortedPermutationUnique(a[1..], b[1..], le);
      SameHeadAndTail(a, b);
    }
  }

  lemma SortIgnoresOrder<T(!new)>(s: seq<T>, t: seq<T>, le: (T, T) -> bool)
    requires TotalPreorder(le) && NoTies(s, le) && multiset(s) == multiset(t)
    ensures StableSort(s, le) == StableSort(t, le)
  {
    SortIsStable(s, le);
    SortIsStable(t, le);
    SortIsPermutation(s, le);
    SortIsPermutation(t, le);
    forall x | x in StableSort(s, le) ensures x in s {
      assert x in multiset(StableSort(s, le));
    }
    SortedPermutationUnique(StableSort(s, le), StableSort(t, le), le);
  }

  // ----- sorting by a number

  ghost predicate ComparesRank<T(!new)>(le: (T, T) -> bool, rank: T -> int) {
    forall x, y :: le(x, y) <==> rank(x) <= rank(y)
  }

  /** The elements of one rank, as they come. */
  ghost function AtRank<T>(s: seq<T>, rank: T -> int, q: int): seq<T> {
    if s == [] then [] else (if rank(s[0]) == q then [s[0]] else []) + AtRank(s[1..], rank, q)
  }

  ghost predicate AscendingBy<T>(s: seq<T>, rank: T -> int) {
    forall i, j :: 0 <= i < j < |s| ==> rank(s[i]) <= rank(s[j])
  }

  lemma {:induction false} TiesAreRank<T(!new)>(s: seq<T>, le: (T, T) -> bool, rank: T -> int, x: T)
    requires ComparesRank(le, rank)
    ensures Ties(s, le, x) == AtRank(s, rank, rank(x))
  {
    if s != [] { TiesAreRank(s[1..], le, rank, x); }
  }

  lemma {:induction false} NoneAtRank<T(!new)>(s: seq<T>, rank: T -> int, q: int)
    ensures AtRank(s, rank, q) == [] <==> forall x :: x in s ==> rank(x) != q
  {
    if s != [] { NoneAtRank(s[1..], rank, q); }
  }

  /** Ascending, the same elements, and elements of one rank in the order they came in. */
  lemma SortsByRank<T(!new)>(s: seq<T>, le: (T, T) -> bool, rank: T -> int, q: int)
    requires ComparesRank(le, rank)
    ensures var r := StableSort(s, le);
            multiset(r) == multiset(s) && AscendingBy(r, rank) && AtRank(r, rank, q) == AtRank(s, rank, q)
  {
    var r := StableSort(s, le);
    SortIsPermutation(s, le);
    SortIsStable(s, le);
    NoneAtRank(s, rank, q);
    NoneAtRank(r, rank, q);
    if x :| x in s && rank(x) == q {
      TiesAreRank(s, le, rank, x);
      TiesAreRank(r, le, rank, x);
    } else {
      forall x | x in r ensures x in s { assert x in multiset(r); }
    }
  }
}
