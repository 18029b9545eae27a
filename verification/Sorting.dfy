/** `sort_items` of `backend/app/core/sorting.py`: stable passes that make one lexicographic order. */
module Sorting {
  import opened Text
  import opened StableSorting
  import opened SortParsing

  // ----- sort_items

  /** What `sort_items` is given besides the items and the clauses. `leq` orders the key values. */
  datatype SortEnv<!T(!new), !K(!new)> = SortEnv(
    keys: map<Field, T -> Option<K>>,
    leq: (K, K) -> bool,
    nullsLast: set<Field>,
    tiebreaker: Option<T -> K>)

  ghost predicate ValidEnv<T(!new), K(!new)>(env: SortEnv<T, K>) {
    TotalPreorder(env.leq)
  }

  function KeyOf<T(!new), K(!new)>(env: SortEnv<T, K>, field: Field, x: T): Option<K> {
    if field in env.keys then env.keys[field](x) else None
  }

  /** The order one clause asks for: present keys in the clause's direction, missing keys last. */
  function ClauseOrder<T(!new), K(!new)>(env: SortEnv<T, K>, c: SortClause): (T, T) -> bool {
    (x, y) => KeysInOrder(env, c.IsDesc(), KeyOf(env, c.field, x), KeyOf(env, c.field, y))
  }

  predicate KeysInOrder<T(!new), K(!new)>(env: SortEnv<T, K>, desc: bool, a: Option<K>, b: Option<K>) {
    if b.None? then true
    else if a.None? then false
    else if desc then env.leq(b.value, a.value)
    else env.leq(a.value, b.value)
  }

  function TieOrder<T(!new), K(!new)>(env: SortEnv<T, K>): (T, T) -> bool {
    (x, y) => env.tiebreaker.Some? ==> env.leq(env.tiebreaker.value(x), env.tiebreaker.value(y))
  }

  /** `ORDER BY a, b, ..., tiebreaker` read left to right as one comparison. */
  function OrderBy<T(!new), K(!new)>(env: SortEnv<T, K>, clauses: seq<SortClause>): (T, T) -> bool {
    if clauses == [] then TieOrder(env) else Lex(ClauseOrder(env, clauses[0]), OrderBy(env, clauses[1..]))
  }

  function FirstUnknown<T(!new), K(!new)>(env: SortEnv<T, K>, clauses: seq<SortClause>): Option<Field> {
    if clauses == [] then None
    else if clauses[0].field !in env.keys then Some(clauses[0].field)
    else FirstUnknown(env, clauses[1..])
  }

  /** Sorting two or more items by a field that may be missing but is not nulls-last compares None. */
  ghost predicate ComparesNone<T(!new), K(!new)>(env: SortEnv<T, K>, clauses: seq<SortClause>, items: seq<T>) {
    && |items| >= 2
    && exists c, x ::
         c in clauses && x in items && c.field !in env.nullsLast && KeyOf(env, c.field, x).None?
  }

  ghost function SortOutcome<T(!new), K(!new)>(
    items: seq<T>, clauses: seq<SortClause>, env: SortEnv<T, K>)
    : Result<seq<T>, SortError>
  {
    if FirstUnknown(env, clauses).Some? then Failure(InvalidField(FirstUnknown(env, clauses).value))
    else if ComparesNone(env, clauses, items) then Failure(Incomparable)
    else Success(StableSort(items, OrderBy(env, clauses)))
  }

  function Present<T(!new), K(!new)>(env: SortEnv<T, K>, field: Field, s: seq<T>): seq<T> {
    if s == [] then [] else (if KeyOf(env, field, s[0]).Some? then [s[0]] else []) + Present(env, field, s[1..])
  }

  function Missing<T(!new), K(!new)>(env: SortEnv<T, K>, field: Field, s: seq<T>): seq<T> {
    if s == [] then [] else (if KeyOf(env, field, s[0]).None? then [s[0]] else []) + Missing(env, field, s[1..])
  }

  lemma ClauseOrderIsTotalPreorder<T(!new), K(!new)>(env: SortEnv<T, K>, c: SortClause)
    requires ValidEnv(env)
    ensures TotalPreorder(ClauseOrder(env, c))
  {
    var le := ClauseOrder(env, c);
    forall x, y ensures le(x, y) || le(y, x) {
      KeysAreOrdered(env, c.IsDesc(), KeyOf(env, c.field, x), KeyOf(env, c.field, y), None);
    }
    forall x, y, z | le(x, y) && le(y, z) ensures le(x, z) {
      KeysAreOrdered(env, c.IsDesc(), KeyOf(env, c.field, x), KeyOf(env, c.field, y), KeyOf(env, c.field, z));
    }
  }

  lemma KeysAreOrdered<T(!new), K(!new)>(env: SortEnv<T, K>, desc: bool, a: Option<K>, b: Option<K>, c: Option<K>)
    requires ValidEnv(env)
    ensures KeysInOrder(env, desc, a, b) || KeysInOrder(env, desc, b, a)
    ensures KeysInOrder(env, desc, a, b) && KeysInOrder(env, desc, b, c) ==> KeysInOrder(env, desc, a, c)
  {
  }

  lemma {:induction false} OrderByIsTotalPreorder<T(!new), K(!new)>(env: SortEnv<T, K>, clauses: seq<SortClause>)
    requires ValidEnv(env)
    ensures TotalPreorder(OrderBy(env, clauses))
  {
    if clauses != [] {
      ClauseOrderIsTotalPreorder(env, clauses[0]);
      OrderByIsTotalPreorder(env, clauses[1..]);
      LexIsTotalPreorder(ClauseOrder(env, clauses[0]), OrderBy(env, clauses[1..]));
    } else {
      TieOrderIsTotalPreorder(env);
    }
  }

  lemma TieOrderIsTotalPreorder<T(!new), K(!new)>(env: SortEnv<T, K>)
    requires ValidEnv(env)
    ensures TotalPreorder(TieOrder(env))
  {
    var le := TieOrder(env);
    if env.tiebreaker.Some? {
      var key := env.tiebreaker.value;
      forall x, y ensures le(x, y) || le(y, x) { assert env.leq(key(x), key(y)) || env.leq(key(y), key(x)); }
      forall x, y, z | le(x, y) && le(y, z) ensures le(x, z) {
        assert env.leq(key(x), key(y)) && env.leq(key(y), key(z));
      }
    } else {
      forall x, y ensures le(x, y) {}
    }
  }

  // ----- nulls last: sorting the present keys and appending the rest is one stable pass

  lemma {:induction false} PresentMembers<T(!new), K(!new)>(env: SortEnv<T, K>, field: Field, s: seq<T>)
    ensures forall x :: x in Present(env, field, s) <==> x in s && KeyOf(env, field, x).Some?
    ensures forall x :: x in Missing(env, field, s) <==> x in s && KeyOf(env, field, x).None?
  {
    if s != [] {
      PresentMembers(env, field, s[1..]);
      assert forall x :: x in s <==> x == s[0] || x in s[1..];
    }
  }

  lemma {:induction false} TiesOfConcat<T>(a: seq<T>, b: seq<T>, le: (T, T) -> bool, x: T)
    ensures Ties(a + b, le, x) == Ties(a, le, x) + Ties(b, le, x)
  {
    if a == [] {
      assert a + b == b;
    } else {
      TiesOfConcat(a[1..], b, le, x);
      var head := if le(x, a[0]) && le(a[0], x) then [a[0]] else [];
      var ta, tb := Ties(a[1..], le, x), Ties(b, le, x);
      assert (a + b)[1..] == a[1..] + b;
      assert head + (ta + tb) == (head + ta) + tb;
    }
  }

  lemma TiesOfCons<T>(y: T, s: seq<T>, le: (T, T) -> bool, x: T)
    ensures Ties([y] + s, le, x) == (if le(x, y) && le(y, x) then [y] else []) + Ties(s, le, x)
  {
    assert ([y] + s)[1..] == s;
  }

  /** An item with a present key ties only with present keys, an item without one only with missing keys. */
  lemma {:induction false} TiesSplit<T(!new), K(!new)>(env: SortEnv<T, K>, c: SortClause, s: seq<T>, x: T)
    ensures var le := ClauseOrder(env, c);
            if KeyOf(env, c.field, x).Some?
            then Ties(s, le, x) == Ties(Present(env, c.field, s), le, x) && Ties(Missing(env, c.field, s), le, x) == []
            else Ties(s, le, x) == Ties(Missing(env, c.field, s), le, x) && Ties(Present(env, c.field, s), le, x) == []
  {
    if s != [] {
      var le, y := ClauseOrder(env, c), s[0];
      TiesSplit(env, c, s[1..], x);
      var p, m := Present(env, c.field, s[1..]), Missing(env, c.field, s[1..]);
      TieNeedsSamePresence(env, c, x, y);
      if KeyOf(env, c.field, y).Some? {
        TiesOfCons(y, p, le, x);
        assert Missing(env, c.field, s) == m;
      } else {
        TiesOfCons(y, m, le, x);
        assert Present(env, c.field, s) == p;
      }
    }
  }

  lemma TieNeedsSamePresence<T(!new), K(!new)>(env: SortEnv<T, K>, c: SortClause, x: T, y: T)
    ensures var le := ClauseOrder(env, c);
            le(x, y) && le(y, x) ==> (KeyOf(env, c.field, x).Some? <==> KeyOf(env, c.field, y).Some?)
  {
  }

  lemma NullsLastIsOnePass<T(!new), K(!new)>(env: SortEnv<T, K>, c: SortClause, s: seq<T>)
    requires ValidEnv(env)
    ensures var le := ClauseOrder(env, c);
            StableSort(Present(env, c.field, s), le) + Missing(env, c.field, s) == StableSort(s, le)
  {
    var le := ClauseOrder(env, c);
    var present, missing := Present(env, c.field, s), Missing(env, c.field, s);
    var front := StableSort(present, le);
    var r := front + missing;
    ClauseOrderIsTotalPreorder(env, c);
    SortIsStable(present, le);
    SortIsPermutation(present, le);
    PresentMembers(env, c.field, s);
    forall i, j | 0 <= i < j < |r| ensures le(r[i], r[j]) {
      if |front| <= j { assert r[j] in missing; }
    }
    forall x ensures Ties(r, le, x) == Ties(s, le, x) {
      TiesOfConcat(front, missing, le, x);
      TiesSplit(env, c, s, x);
    }
    SortedBy(r, s, le);
  }

  lemma {:induction false} NoTiebreakerKeepsOrder<T(!new), K(!new)>(env: SortEnv<T, K>, s: seq<T>)
    requires env.tiebreaker.None?
    ensures StableSort(s, TieOrder(env)) == s
  {
    if s != [] {
      NoTiebreakerKeepsOrder(env, s[1..]);
      assert s == [s[0]] + s[1..];
    }
  }

  /** Stable passes from the least significant clause to the most significant one: one comparison. */
  method SortItems<T(!new), K(!new)>(items: seq<T>, clauses: seq<SortClause>, env: SortEnv<T, K>)
    returns (r: Result<seq<T>, SortError>)
    requires ValidEnv(env)
    ensures r == SortOutcome(items, clauses, env)
  {
    var k := 0;
    while k < |clauses|
      invariant 0 <= k <= |clauses|
      invariant FirstUnknown(env, clauses) == FirstUnknown(env, clauses[k..])
    {
      assert clauses[k..][1..] == clauses[k + 1..];
      if clauses[k].field !in env.keys {
        return Failure(InvalidField(clauses[k].field));
      }
      k := k + 1;
    }
    assert clauses[k..] == [];

    var ordered := items;
    if env.tiebreaker.Some? {
      ordered := StableSort(ordered, TieOrder(env));
    } else {
      NoTiebreakerKeepsOrder(env, items);
    }
    SortIsPermutation(items, TieOrder(env));
    var i := |clauses|;
    while i > 0
      invariant 0 <= i <= |clauses|
      invariant ordered == StableSort(items, OrderBy(env, clauses[i..]))
      invariant !ComparesNone(env, clauses[i..], items)
    {
      i := i - 1;
      var c := clauses[i];
      var le := ClauseOrder(env, c);
      OnePassMore(items, clauses, env, i);
      NoneFoundInOnePass(items, ordered, clauses, env, i);
      if c.field in env.nullsLast {
        NullsLastIsOnePass(env, c, ordered);
        ordered := StableSort(Present(env, c.field, ordered), le) + Missing(env, c.field, ordered);
      } else {
        if |ordered| >= 2 && |Missing(env, c.field, ordered)| > 0 {
          return Failure(Incomparable);
        }
        ordered := StableSort(ordered, le);
      }
    }
    assert clauses[0..] == clauses;
    return Success(ordered);
  }

  /** One more pass, by clause i, over a list already sorted by the clauses after it. */
  lemma OnePassMore<T(!new), K(!new)>(items: seq<T>, clauses: seq<SortClause>, env: SortEnv<T, K>, i: nat)
    requires ValidEnv(env) && i < |clauses|
    ensures var ordered := StableSort(items, OrderBy(env, clauses[i + 1..]));
            && StableSort(ordered, ClauseOrder(env, clauses[i])) == StableSort(items, OrderBy(env, clauses[i..]))
            && |ordered| == |items|
            && (forall x :: x in ordered <==> x in items)
  {
    var later := OrderBy(env, clauses[i + 1..]);
    SortIsPermutation(items, later);
    SameMembers(StableSort(items, later), items);
    ClauseOrderIsTotalPreorder(env, clauses[i]);
    OrderByIsTotalPreorder(env, clauses[i + 1..]);
    TwoPassesAreLex(items, ClauseOrder(env, clauses[i]), later);
    assert clauses[i..][1..] == clauses[i + 1..];
  }

  lemma NoneFoundInOnePass<T(!new), K(!new)>(
    items: seq<T>, ordered: seq<T>, clauses: seq<SortClause>, env: SortEnv<T, K>, i: nat)
    requires i < |clauses| && |ordered| == |items| && forall x :: x in ordered <==> x in items
    requires !ComparesNone(env, clauses[i + 1..], items)
    ensures var c := clauses[i];
            var none := c.field !in env.nullsLast && |ordered| >= 2 && |Missing(env, c.field, ordered)| > 0;
            && (ComparesNone(env, clauses[i..], items) <==> none)
            && (none ==> ComparesNone(env, clauses, items))
  {
    var c := clauses[i];
    PresentMembers(env, c.field, ordered);
    var missing := Missing(env, c.field, ordered);
    assert clauses[i..] == [c] + clauses[i + 1..];
    if |missing| > 0 { assert missing[0] in missing; }
    if ComparesNone(env, clauses[i..], items) {
      var d, x :| d in clauses[i..] && x in items && d.field !in env.nullsLast && KeyOf(env, d.field, x).None?;
      assert d !in clauses[i + 1..];
      assert x in missing;
    }
  }

  lemma SameMembers<T>(a: seq<T>, b: seq<T>)
    requires multiset(a) == multiset(b)
    ensures |a| == |b|
    ensures forall x :: x in a <==> x in b
  {
    assert |a| == |multiset(a)| == |multiset(b)| == |b|;
    forall x ensures x in a <==> x in b {
      assert x in a <==> x in multiset(a);
      assert x in b <==> x in multiset(b);
    }
  }

  /** The promise of `sort_items`: a permutation, in the lexicographic order of the clauses,
      in which rows that tie on everything keep the order they came in. */
  lemma SortItemsContract<T(!new), K(!new)>(items: seq<T>, clauses: seq<SortClause>, env: SortEnv<T, K>)
    requires ValidEnv(env) && SortOutcome(items, clauses, env).Success?
    ensures var out := SortOutcome(items, clauses, env).value;
            && multiset(out) == multiset(items)
            && IsStableSortOf(out, items, OrderBy(env, clauses))
  {
    OrderByIsTotalPreorder(env, clauses);
    SortIsStable(items, OrderBy(env, clauses));
    SortIsPermutation(items, OrderBy(env, clauses));
  }

  /** Which clause decides a pair: the first one on which the two rows do not tie. */
  lemma {:induction false} FirstDifferenceDecides<T(!new), K(!new)>(
    env: SortEnv<T, K>, clauses: seq<SortClause>, x: T, y: T)
    ensures (forall i :: 0 <= i < |clauses| ==> Tied(env, clauses[i].field, x, y)) ==>
              (OrderBy(env, clauses)(x, y) <==> TieOrder(env)(x, y))
    ensures forall i :: 0 <= i < |clauses| && FirstDifference(env, clauses, i, x, y) ==>
              (OrderBy(env, clauses)(x, y) <==> ClauseOrder(env, clauses[i])(x, y))
  {
    if clauses != [] {
      FirstDifferenceDecides(env, clauses[1..], x, y);
      forall i | 0 < i < |clauses| && FirstDifference(env, clauses, i, x, y)
        ensures FirstDifference(env, clauses[1..], i - 1, x, y)
      {
        assert forall j :: 0 <= j < i - 1 ==> clauses[1..][j] == clauses[j + 1];
      }
      assert Tied(env, clauses[0].field, x, y) ==>
          ClauseOrder(env, clauses[0])(x, y) && ClauseOrder(env, clauses[0])(y, x);
    }
  }

  ghost predicate FirstDifference<T(!new), K(!new)>(env: SortEnv<T, K>, clauses: seq<SortClause>, i: nat, x: T, y: T)
    requires i < |clauses|
  {
    && !Tied(env, clauses[i].field, x, y)
    && forall j :: 0 <= j < i ==> Tied(env, clauses[j].field, x, y)
  }

  predicate Tied<T(!new), K(!new)>(env: SortEnv<T, K>, field: Field, x: T, y: T) {
    var le := ClauseOrder(env, SortClause(field, Asc));
    le(x, y) && le(y, x)
  }

  // ----- the order, in terms of the key functions

  ghost predicate KnownFields<T(!new), K(!new)>(env: SortEnv<T, K>, clauses: seq<SortClause>) {
    forall k :: 0 <= k < |clauses| ==> clauses[k].field in env.keys
  }

  /** Two keys of equal rank, or none on either side. */
  ghost predicate EqualKeys<T(!new), K(!new)>(env: SortEnv<T, K>, field: Field, x: T, y: T)
    requires field in env.keys
  {
    match (env.keys[field](x), env.keys[field](y))
    case (None, None) => true
    case (Some(a), Some(b)) => env.leq(a, b) && env.leq(b, a)
    case _ => false
  }

  ghost predicate EqualUpTo<T(!new), K(!new)>(env: SortEnv<T, K>, clauses: seq<SortClause>, n: nat, x: T, y: T)
    requires KnownFields(env, clauses) && n <= |clauses|
  {
    forall k :: 0 <= k < n ==> EqualKeys(env, clauses[k].field, x, y)
  }

  /** A missing key never stands before a present one; present keys stand in the order that was asked for. */
  ghost predicate KeysStandRight<T(!new), K(!new)>(env: SortEnv<T, K>, c: SortClause, x: T, y: T)
    requires c.field in env.keys
  {
    match (env.keys[c.field](x), env.keys[c.field](y))
    case (_, None) => true
    case (None, Some(_)) => false
    case (Some(a), Some(b)) => match c.order case Asc => env.leq(a, b) case Desc => env.leq(b, a)
  }

  lemma TiedIsEqual<T(!new), K(!new)>(env: SortEnv<T, K>, field: Field, x: T, y: T)
    requires field in env.keys
    ensures Tied(env, field, x, y) <==> EqualKeys(env, field, x, y)
  {
  }

  lemma ClauseOrderIsAsked<T(!new), K(!new)>(env: SortEnv<T, K>, c: SortClause, x: T, y: T)
    requires c.field in env.keys
    ensures ClauseOrder(env, c)(x, y) <==> KeysStandRight(env, c, x, y)
  {
  }

  lemma {:induction false} NoUnknownField<T(!new), K(!new)>(env: SortEnv<T, K>, clauses: seq<SortClause>)
    ensures FirstUnknown(env, clauses).None? <==> KnownFields(env, clauses)
  {
    if clauses != [] {
      NoUnknownField(env, clauses[1..]);
      if KnownFields(env, clauses[1..]) && clauses[0].field in env.keys {
        assert forall k :: 0 < k < |clauses| ==> clauses[k] == clauses[1..][k - 1];
      }
      if KnownFields(env, clauses) {
        assert forall k :: 0 <= k < |clauses| - 1 ==> clauses[1..][k] == clauses[k + 1];
      }
    }
  }

  /** Two rows of the result: at the first clause on which their keys differ they stand as that clause asks,
      with missing keys last in both directions; if there is none, as the tiebreaker asks. */
  lemma RowsStandAsAsked<T(!new), K(!new)>(
    items: seq<T>, clauses: seq<SortClause>, env: SortEnv<T, K>, out: seq<T>, i: nat, j: nat, k: nat)
    requires ValidEnv(env) && SortOutcome(items, clauses, env) == Success(out) && i < j < |out|
    ensures KnownFields(env, clauses)
    ensures k < |clauses| && EqualUpTo(env, clauses, k, out[i], out[j]) &&
            !EqualKeys(env, clauses[k].field, out[i], out[j]) ==>
              KeysStandRight(env, clauses[k], out[i], out[j])
    ensures EqualUpTo(env, clauses, |clauses|, out[i], out[j]) && env.tiebreaker.Some? ==>
              env.leq(env.tiebreaker.value(out[i]), env.tiebreaker.value(out[j]))
  {
    var x, y := out[i], out[j];
    NoUnknownField(env, clauses);
    SortItemsContract(items, clauses, env);
    assert OrderBy(env, clauses)(x, y);
    FirstDifferenceDecides(env, clauses, x, y);
    forall n | 0 <= n < |clauses|
      ensures Tied(env, clauses[n].field, x, y) <==> EqualKeys(env, clauses[n].field, x, y)
    {
      TiedIsEqual(env, clauses[n].field, x, y);
    }
    if k < |clauses| && EqualUpTo(env, clauses, k, x, y) && !EqualKeys(env, clauses[k].field, x, y) {
      assert FirstDifference(env, clauses, k, x, y);
      ClauseOrderIsAsked(env, clauses[k], x, y);
    }
  }

  ghost predicate EqualRows<T(!new), K(!new)>(env: SortEnv<T, K>, clauses: seq<SortClause>, x: T, y: T)
    requires KnownFields(env, clauses)
  {
    && EqualUpTo(env, clauses, |clauses|, x, y)
    && (env.tiebreaker.Some? ==>
          && env.leq(env.tiebreaker.value(x), env.tiebreaker.value(y))
          && env.leq(env.tiebreaker.value(y), env.tiebreaker.value(x)))
  }

  /** The rows that equal x in every key and in the tiebreaker, as they come. */
  ghost function EqualTo<T(!new), K(!new)>(env: SortEnv<T, K>, clauses: seq<SortClause>, s: seq<T>, x: T): seq<T>
    requires KnownFields(env, clauses)
  {
    if s == [] then []
    else (if EqualRows(env, clauses, x, s[0]) then [s[0]] else []) + EqualTo(env, clauses, s[1..], x)
  }

  lemma {:induction false} OrderTiesAreEqual<T(!new), K(!new)>(env: SortEnv<T, K>, clauses: seq<SortClause>, x: T, y: T)
    requires KnownFields(env, clauses)
    ensures OrderBy(env, clauses)(x, y) && OrderBy(env, clauses)(y, x) <==> EqualRows(env, clauses, x, y)
  {
    if clauses != [] {
      var rest := clauses[1..];
      OrderTiesAreEqual(env, rest, x, y);
      TiedIsEqual(env, clauses[0].field, x, y);
      EqualInAllOrInRest(env, clauses, x, y);
    }
  }

  lemma EqualInAllOrInRest<T(!new), K(!new)>(env: SortEnv<T, K>, clauses: seq<SortClause>, x: T, y: T)
    requires KnownFields(env, clauses) && clauses != []
    ensures EqualUpTo(env, clauses, |clauses|, x, y) <==>
              EqualKeys(env, clauses[0].field, x, y) && EqualUpTo(env, clauses[1..], |clauses| - 1, x, y)
  {
    var rest := clauses[1..];
    assert forall k :: 0 <= k < |rest| ==> rest[k] == clauses[k + 1];
    assert forall k :: 0 < k < |clauses| ==> clauses[k] == rest[k - 1];
  }

  lemma {:induction false} TiesAreEqual<T(!new), K(!new)>(env: SortEnv<T, K>, clauses: seq<SortClause>, s: seq<T>, x: T)
    requires KnownFields(env, clauses)
    ensures Ties(s, OrderBy(env, clauses), x) == EqualTo(env, clauses, s, x)
  {
    if s != [] {
      TiesAreEqual(env, clauses, s[1..], x);
      OrderTiesAreEqual(env, clauses, x, s[0]);
    }
  }

  /** Rows that are equal in all of that keep the order they came in. */
  lemma EqualRowsKeepOrder<T(!new), K(!new)>(
    items: seq<T>, clauses: seq<SortClause>, env: SortEnv<T, K>, out: seq<T>, x: T)
    requires ValidEnv(env) && SortOutcome(items, clauses, env) == Success(out)
    ensures KnownFields(env, clauses) && EqualTo(env, clauses, out, x) == EqualTo(env, clauses, items, x)
  {
    NoUnknownField(env, clauses);
    SortItemsContract(items, clauses, env);
    TiesAreEqual(env, clauses, out, x);
    TiesAreEqual(env, clauses, items, x);
  }

  ghost predicate FirstUnknownAt<T(!new), K(!new)>(env: SortEnv<T, K>, clauses: seq<SortClause>, k: int) {
    && 0 <= k < |clauses| && clauses[k].field !in env.keys
    && forall j :: 0 <= j < k ==> clauses[j].field in env.keys
  }

  lemma {:induction false} FirstUnknownIs<T(!new), K(!new)>(env: SortEnv<T, K>, clauses: seq<SortClause>, k: nat)
    requires FirstUnknownAt(env, clauses, k)
    ensures FirstUnknown(env, clauses) == Some(clauses[k].field)
  {
    if k > 0 {
      assert forall j :: 0 <= j < |clauses| - 1 ==> clauses[1..][j] == clauses[j + 1];
      FirstUnknownIs(env, clauses[1..], k - 1);
    }
  }

  /** A missing key in a field that is not nulls-last. */
  ghost predicate MissesKey<T(!new), K(!new)>(env: SortEnv<T, K>, c: SortClause, x: T) {
    c.field in env.keys && c.field !in env.nullsLast && env.keys[c.field](x).None?
  }

  /** When the sort fails: with the first unknown field, or on two or more items of which one misses a key of a
      field that is not nulls-last. */
  lemma SortFailsIff<T(!new), K(!new)>(items: seq<T>, clauses: seq<SortClause>, env: SortEnv<T, K>)
    ensures forall k :: FirstUnknownAt(env, clauses, k) ==>
              SortOutcome(items, clauses, env) == Failure(InvalidField(clauses[k].field))
    ensures KnownFields(env, clauses) ==>
              (SortOutcome(items, clauses, env).Failure? <==>
                 |items| >= 2 && exists c, x :: c in clauses && x in items && MissesKey(env, c, x))
    ensures KnownFields(env, clauses) && SortOutcome(items, clauses, env).Failure? ==>
              SortOutcome(items, clauses, env) == Failure(Incomparable)
  {
    NoUnknownField(env, clauses);
    forall k | FirstUnknownAt(env, clauses, k) ensures FirstUnknown(env, clauses) == Some(clauses[k].field) {
      FirstUnknownIs(env, clauses, k);
    }
    if KnownFields(env, clauses) {
      forall c, x | c in clauses && x in items
        ensures MissesKey(env, c, x) <==> c.field !in env.nullsLast && KeyOf(env, c.field, x).None?
      {
        var k :| 0 <= k < |clauses| && clauses[k] == c;
      }
    }
  }

  // ----- a repeated field

  lemma {:induction false} RepeatsDecideNothing<T(!new), K(!new)>(
    env: SortEnv<T, K>, cs: seq<SortClause>, seen: set<Field>, x: T, y: T)
    requires forall f :: f in seen ==> Tied(env, f, x, y)
    ensures OrderBy(env, DropRepeats(cs, seen))(x, y) == OrderBy(env, cs)(x, y)
  {
    if cs != [] {
      var c := cs[0];
      if c.field in seen {
        assert Tied(env, c.field, x, y);
        RepeatsDecideNothing(env, cs[1..], seen, x, y);
      } else {
        var kept := DropRepeats(cs, seen);
        assert kept[1..] == DropRepeats(cs[1..], seen + {c.field});
        if Tied(env, c.field, x, y) { RepeatsDecideNothing(env, cs[1..], seen + {c.field}, x, y); }
      }
    }
  }

  lemma {:induction false} RepeatsKeepErrors<T(!new), K(!new)>(
    env: SortEnv<T, K>, cs: seq<SortClause>, seen: set<Field>)
    requires forall f :: f in seen ==> f in env.keys
    ensures FirstUnknown(env, DropRepeats(cs, seen)) == FirstUnknown(env, cs)
  {
    if cs != [] {
      if cs[0].field in seen {
        RepeatsKeepErrors(env, cs[1..], seen);
      } else {
        assert DropRepeats(cs, seen)[1..] == DropRepeats(cs[1..], seen + {cs[0].field});
        if cs[0].field in env.keys { RepeatsKeepErrors(env, cs[1..], seen + {cs[0].field}); }
      }
    }
  }

  ghost predicate Names(cs: seq<SortClause>, f: Field) {
    exists c :: c in cs && c.field == f
  }

  lemma {:induction false} RepeatsKeepFields(cs: seq<SortClause>, seen: set<Field>, f: Field)
    requires f !in seen
    ensures Names(DropRepeats(cs, seen), f) <==> Names(cs, f)
  {
    if cs != [] {
      var c := cs[0];
      assert forall d :: d in cs <==> d == c || d in cs[1..];
      if c.field in seen {
        RepeatsKeepFields(cs[1..], seen, f);
      } else {
        if c.field == f { assert c in cs && c in DropRepeats(cs, seen); }
        else { RepeatsKeepFields(cs[1..], seen + {c.field}, f); }
      }
    }
  }

  /** Keeping a repeated field, even in the opposite direction, would give the same answer. */
  lemma RepeatedFieldsChangeNothing<T(!new), K(!new)>(items: seq<T>, cs: seq<SortClause>, env: SortEnv<T, K>)
    ensures SortOutcome(items, DropRepeats(cs, {}), env) == SortOutcome(items, cs, env)
  {
    var kept := DropRepeats(cs, {});
    RepeatsKeepErrors(env, cs, {});
    forall f ensures Names(kept, f) <==> Names(cs, f) {
      RepeatsKeepFields(cs, {}, f);
    }
    if ComparesNone(env, kept, items) { SameFieldsCompareAlike(items, kept, cs, env); }
    if ComparesNone(env, cs, items) { SameFieldsCompareAlike(items, cs, kept, env); }
    forall x, y ensures OrderBy(env, kept)(x, y) == OrderBy(env, cs)(x, y) {
      RepeatsDecideNothing(env, cs, {}, x, y);
    }
    SortCongruence(items, OrderBy(env, kept), OrderBy(env, cs));
  }

  lemma SameFieldsCompareAlike<T(!new), K(!new)>(
    items: seq<T>, a: seq<SortClause>, b: seq<SortClause>, env: SortEnv<T, K>)
    requires forall f :: Names(a, f) ==> Names(b, f)
    requires ComparesNone(env, a, items)
    ensures ComparesNone(env, b, items)
  {
    var c, x :| c in a && x in items && c.field !in env.nullsLast && KeyOf(env, c.field, x).None?;
    assert Names(a, c.field);
    var d :| d in b && d.field == c.field;
  }
}
