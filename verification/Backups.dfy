/** The backup list of `backend/app/api/backups.py`: filter, sort, one page. */
module Backups {
  import opened Text
  import opened StableSorting
  import opened SortParsing
  import opened Sorting

  function Filter<T(!new)>(s: seq<T>, matches: T -> bool): (r: seq<T>)
    ensures forall x :: x in r <==> x in s && matches(x)
  {
    if s == [] then [] else (if matches(s[0]) then [s[0]] else []) + Filter(s[1..], matches)
  }

  /** `items[offset : offset + limit]`. */
  function Page<T>(s: seq<T>, offset: nat, limit: nat): seq<T> {
    var from := if offset < |s| then offset else |s|;
    s[from..if from + limit < |s| then from + limit else |s|]
  }

  /** A page starts at its offset and holds `limit` items, or as many as there are. */
  lemma PageIs<T>(s: seq<T>, offset: nat, limit: nat)
    ensures offset >= |s| ==> Page(s, offset, limit) == []
    ensures offset < |s| && offset + limit <= |s| ==> |Page(s, offset, limit)| == limit
    ensures offset < |s| < offset + limit ==> |Page(s, offset, limit)| == |s| - offset
    ensures forall k :: 0 <= k < |Page(s, offset, limit)| ==>
              offset + k < |s| && Page(s, offset, limit)[k] == s[offset + k]
  {
  }

  datatype Listing<T> = Listing(page: seq<T>, total: nat)

  /** The whole sorted list that the pages are cut from. */
  ghost function SortedList<T(!new), K(!new)>(
    directory: seq<T>, matches: T -> bool, sort: Option<string>, default: SortClause, env: SortEnv<T, K>)
    : Result<seq<T>, SortError>
  {
    match Clauses(sort, default)
    case Failure(e) => Failure(e)
    case Success(cs) => SortOutcome(Filter(directory, matches), cs, env)
  }

  /** The sort parameter is read before the directory is, so a bad one is reported even for an empty list. */
  method ListBackups<T(!new), K(!new)>(
    directory: seq<T>, matches: T -> bool, sort: Option<string>, default: SortClause, env: SortEnv<T, K>,
    offset: nat, limit: nat)
    returns (r: Result<Listing<T>, SortError>)
    requires ValidEnv(env)
    ensures r == match SortedList(directory, matches, sort, default, env)
                 case Failure(e) => Failure(e)
                 case Success(all) => Success(Listing(Page(all, offset, limit), |all|))
  {
    var clauses := ParseSort(sort, default);
    if clauses.Failure? { return Failure(clauses.error); }
    var sorted := SortItems(Filter(directory, matches), clauses.value, env);
    if sorted.Failure? { return Failure(sorted.error); }
    return Success(Listing(Page(sorted.value, offset, limit), |sorted.value|));
  }

  // ----- the order of the directory does not matter

  /** The tiebreaker tells any two items of the list apart: file names are unique. */
  ghost predicate UniqueTiebreaker<T(!new), K(!new)>(items: seq<T>, env: SortEnv<T, K>) {
    && env.tiebreaker.Some?
    && forall x, y :: x in items && y in items && TieOrder(env)(x, y) && TieOrder(env)(y, x) ==> x == y
  }

  lemma {:induction false} TiesReachTheTiebreaker<T(!new), K(!new)>(
    env: SortEnv<T, K>, clauses: seq<SortClause>, x: T, y: T)
    requires OrderBy(env, clauses)(x, y) && OrderBy(env, clauses)(y, x)
    ensures TieOrder(env)(x, y) && TieOrder(env)(y, x)
  {
    if clauses != [] { TiesReachTheTiebreaker(env, clauses[1..], x, y); }
  }

  lemma {:induction false} FilterMultiset<T(!new)>(s: seq<T>, matches: T -> bool, x: T)
    ensures multiset(Filter(s, matches))[x] == if matches(x) then multiset(s)[x] else 0
  {
    if s != [] {
      FilterMultiset(s[1..], matches, x);
      assert s == [s[0]] + s[1..];
    }
  }

  lemma FilterPermutation<T(!new)>(s: seq<T>, t: seq<T>, matches: T -> bool)
    requires multiset(s) == multiset(t)
    ensures multiset(Filter(s, matches)) == multiset(Filter(t, matches))
  {
    forall x ensures multiset(Filter(s, matches))[x] == multiset(Filter(t, matches))[x] {
      FilterMultiset(s, matches, x);
      FilterMultiset(t, matches, x);
    }
  }

  lemma DirectoryOrderIsIrrelevant<T(!new), K(!new)>(
    one: seq<T>, other: seq<T>, matches: T -> bool, sort: Option<string>, default: SortClause, env: SortEnv<T, K>)
    requires ValidEnv(env) && UniqueTiebreaker(one, env) && multiset(one) == multiset(other)
    ensures SortedList(one, matches, sort, default, env) == SortedList(other, matches, sort, default, env)
  {
    if Clauses(sort, default).Success? {
      var cs, a, b := Clauses(sort, default).value, Filter(one, matches), Filter(other, matches);
      FilterPermutation(one, other, matches);
      SameMembers(a, b);
      forall x, y | x in a && y in a && OrderBy(env, cs)(x, y) && OrderBy(env, cs)(y, x) ensures x == y {
        TiesReachTheTiebreaker(env, cs, x, y);
      }
      OrderByIsTotalPreorder(env, cs);
      SortIgnoresOrder(a, b, OrderBy(env, cs));
      assert ComparesNone(env, cs, a) <==> ComparesNone(env, cs, b);
    }
  }

  // ----- the pages together are the list

  /** Pages 0 .. n-1, each cut from the list that its own request saw. */
  function Pages<T>(lists: seq<seq<T>>, limit: nat, n: nat): seq<T>
    requires n <= |lists|
  {
    if n == 0 then [] else Pages(lists, limit, n - 1) + Page(lists[n - 1], (n - 1) * limit, limit)
  }

  /** The first n pages, or everything if there is no more. */
  function UpTo<T>(all: seq<T>, n: nat): seq<T> {
    all[..if n < |all| then n else |all|]
  }

  lemma OnePageMore<T>(all: seq<T>, from: nat, limit: nat)
    ensures UpTo(all, from) + Page(all, from, limit) == UpTo(all, from + limit)
  {
  }

  lemma NextOffset(n: nat, limit: nat)
    requires n > 0
    ensures n * limit == (n - 1) * limit + limit
  {
  }

  lemma {:induction false} PagesArePrefix<T>(lists: seq<seq<T>>, all: seq<T>, limit: nat, n: nat)
    requires n <= |lists| && forall k :: 0 <= k < |lists| ==> lists[k] == all
    ensures Pages(lists, limit, n) == UpTo(all, n * limit)
  {
    if n > 0 {
      PagesArePrefix(lists, all, limit, n - 1);
      NextOffset(n, limit);
      OnePageMore(all, (n - 1) * limit, limit);
    }
  }

  /** Requests for offsets 0, L, 2L, ... may each see the directory in a different order; together they
      return every matching backup exactly once, in the order of the whole list. */
  lemma PagesCoverEachOnce<T(!new), K(!new)>(
    directories: seq<seq<T>>, matches: T -> bool, sort: Option<string>, default: SortClause, env: SortEnv<T, K>,
    limit: nat, lists: seq<seq<T>>)
    requires ValidEnv(env) && limit >= 1 && |directories| >= 1
    requires forall k :: 0 <= k < |directories| ==> multiset(directories[k]) == multiset(directories[0])
    requires UniqueTiebreaker(directories[0], env)
    requires |lists| == |directories|
    requires forall k :: 0 <= k < |directories| ==>
               SortedList(directories[k], matches, sort, default, env) == Success(lists[k])
    requires |directories| * limit >= |lists[0]|
    ensures Pages(lists, limit, |lists|) == lists[0]
    ensures multiset(Pages(lists, limit, |lists|)) == multiset(Filter(directories[0], matches))
  {
    forall k | 0 <= k < |directories| ensures lists[k] == lists[0] {
      DirectoryOrderIsIrrelevant(directories[0], directories[k], matches, sort, default, env);
    }
    PagesArePrefix(lists, lists[0], limit, |lists|);
    SortItemsContract(Filter(directories[0], matches), Clauses(sort, default).value, env);
  }
}
