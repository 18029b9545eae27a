/** `backend/alembic/versions/067_hanger_norm_key_normalization.py`: norm keys written for a raw
    length move to the normal length, a report keeps track, and the downgrade undoes it. */
module HangerKeys {
  import opened Text
  import opened Finite
  import opened Values

  type Norms = map<Key, Json>

  /** `float(key)`: not a number at all, a finite number, or `inf` / `nan`. */
  datatype Parsed = NotANumber | Finite(value: Mm) | NonFinite

  /** How lengths are read from keys and written as keys. */
  datatype Codec = Codec(parse: Key -> Parsed, write: Mm -> Key)

  datatype Reason = NotInRegistry | AmbiguousRaw | TargetTaken

  datatype Entry = Rewritten(newKey: Key) | Unresolved(reason: Reason)

  // ----- the registry of lengths of one product

  datatype LengthRow = LengthRow(length: Mm, raw: Option<Mm>)

  datatype Registry = Registry(normal: set<Mm>, raw: map<Mm, set<Mm>>)

  /** Some row of the first n gives this raw length to this normal length. */
  ghost predicate Gives(rows: seq<LengthRow>, n: nat, v: Mm, x: Mm)
    requires n <= |rows|
  {
    exists i :: 0 <= i < n && rows[i] == LengthRow(x, Some(v))
  }

  ghost predicate Holds(reg: Registry, v: Mm, x: Mm) {
    v in reg.raw && x in reg.raw[v]
  }

  ghost predicate IsRegistryOf(reg: Registry, rows: seq<LengthRow>, n: nat)
    requires n <= |rows|
  {
    && (forall x :: x in reg.normal <==> exists i :: 0 <= i < n && rows[i].length == x)
    && (forall v, x :: Holds(reg, v, x) <==> Gives(rows, n, v, x))
    && (forall v :: v in reg.raw ==> reg.raw[v] != {})
  }

  method LoadRegistry(rows: seq<LengthRow>) returns (reg: Registry)
    ensures IsRegistryOf(reg, rows, |rows|)
  {
    reg := Registry({}, map[]);
    for i := 0 to |rows|
      invariant IsRegistryOf(reg, rows, i)
    {
      var row, before := rows[i], reg;
      reg := reg.(normal := reg.normal + {row.length});
      if row.raw.Some? {
        var known := if row.raw.value in reg.raw then reg.raw[row.raw.value] else {};
        reg := reg.(raw := reg.raw[row.raw.value := known + {row.length}]);
      }
      forall v, x ensures Holds(reg, v, x) <==> Gives(rows, i + 1, v, x) {
        assert Gives(rows, i + 1, v, x) <==> Gives(rows, i, v, x) || row == LengthRow(x, Some(v));
        assert Holds(reg, v, x) <==> Holds(before, v, x) || row == LengthRow(x, Some(v));
      }
    }
  }

  /** What the loaded registry always satisfies, and the one law about keys the migration relies on:
      the key written for a normal length reads back as that length. */
  ghost predicate Lawful(codec: Codec, reg: Registry) {
    && (forall v :: v in reg.raw ==> reg.raw[v] != {} && reg.raw[v] <= reg.normal)
    && (forall x :: x in reg.normal ==> codec.parse(codec.write(x)) == Finite(x))
  }

  lemma LoadedRegistryIsLawful(codec: Codec, reg: Registry, rows: seq<LengthRow>)
    requires IsRegistryOf(reg, rows, |rows|)
    requires forall i :: 0 <= i < |rows| ==> codec.parse(codec.write(rows[i].length)) == Finite(rows[i].length)
    ensures Lawful(codec, reg)
  {
    forall v | v in reg.raw ensures reg.raw[v] <= reg.normal {
      forall x | x in reg.raw[v] ensures x in reg.normal { assert Holds(reg, v, x) && Gives(rows, |rows|, v, x); }
    }
  }

  // ----- _plan

  /** What a key asks for, before looking at the other keys. */
  datatype Verdict = Keep | Report(reason: Reason) | MoveTo(key: Key)

  lemma OneElement<T>(s: set<T>, x: T, y: T)
    requires |s| <= 1 && x in s && y in s
    ensures x == y
  {
    if x != y { assert |{x, y}| <= |s| by { SubsetSize({x, y}, s); } }
  }

  lemma SameElement<T>(s: set<T>)
    requires |s| == 1
    ensures exists a :: a in s
    ensures forall a, b :: a in s && b in s ==> a == b
  {
    var x :| x in s;
    forall a, b | a in s && b in s ensures a == b { OneElement(s, a, b); }
  }

  function Only(s: set<Mm>): (x: Mm)
    requires |s| == 1
    ensures x in s
  {
    SameElement(s);
    var x :| x in s;
    x
  }

  function Judge(codec: Codec, reg: Registry, key: Key): Verdict {
    match codec.parse(key)
    case NotANumber => Keep
    case NonFinite => Report(NotInRegistry)
    case Finite(v) =>
      if v in reg.normal then Keep
      else
        var targets := if v in reg.raw then reg.raw[v] else {};
        if targets == {} then Report(NotInRegistry)
        else if |targets| > 1 then Report(AmbiguousRaw)
        else MoveTo(codec.write(Only(targets)))
  }

  datatype Plan = Plan(norms: Norms, report: map<Key, Entry>)

  /** The effect of the loop body on one key of the original dictionary. */
  function PlanKey(codec: Codec, reg: Registry, norms: Norms, key: Key, st: Plan): Plan
    requires key in norms
  {
    match Judge(codec, reg, key)
    case Keep => st
    case Report(reason) => st.(report := st.report[key := Unresolved(reason)])
    case MoveTo(newKey) =>
      if newKey in st.norms then st.(report := st.report[key := Unresolved(TargetTaken)])
      else Plan(st.norms[newKey := norms[key]] - {key}, st.report[key := Rewritten(newKey)])
  }

  function PlanUpTo(codec: Codec, reg: Registry, norms: Norms, order: seq<Key>, n: nat): Plan
    requires n <= |order| && forall k :: k in order ==> k in norms
  {
    if n == 0 then Plan(norms, map[])
    else PlanKey(codec, reg, norms, order[n - 1], PlanUpTo(codec, reg, norms, order, n - 1))
  }

  /** The keys of a dictionary in some order, each once: the order in which Python iterates it. */
  ghost predicate Lists(order: seq<Key>, keys: set<Key>) {
    && (forall k :: k in order <==> k in keys)
    && (forall i, j :: 0 <= i < j < |order| ==> order[i] != order[j])
  }

  method PlanNorms(codec: Codec, reg: Registry, norms: Norms, order: seq<Key>) returns (plan: Plan)
    requires Lists(order, norms.Keys)
    ensures plan == PlanUpTo(codec, reg, norms, order, |order|)
  {
    var planned, report := norms, map[];
    for i := 0 to |order|
      invariant Plan(planned, report) == PlanUpTo(codec, reg, norms, order, i)
    {
      var key := order[i];
      match Judge(codec, reg, key)
      case Keep =>
      case Report(reason) =>
        report := report[key := Unresolved(reason)];
      case MoveTo(newKey) =>
        if newKey in planned {
          report := report[key := Unresolved(TargetTaken)];
        } else {
          planned := planned[newKey := norms[key]];
          planned := planned - {key};
          report := report[key := Rewritten(newKey)];
        }
    }
    plan := Plan(planned, report);
  }

  // ----- what a plan does to a dictionary

  /** Where each original key is now, according to the report. */
  function NewName(report: map<Key, Entry>, k: Key): Key {
    if k in report && report[k].Rewritten? then report[k].newKey else k
  }

  ghost function Names(norms: Norms, report: map<Key, Entry>): map<Key, Key> {
    map k | k in norms :: NewName(report, k)
  }

  /** `moved` is `norms` under a one-to-one renaming of keys: `now` gives the present name of every
      original key, `origin` goes back, each value is kept, and there is nothing else. */
  ghost predicate Matched(norms: Norms, now: map<Key, Key>, origin: map<Key, Key>, moved: Norms) {
    && now.Keys == norms.Keys && origin.Keys == moved.Keys
    && (forall k :: k in norms ==> now[k] in moved && origin[now[k]] == k && moved[now[k]] == norms[k])
    && (forall q :: q in moved ==> origin[q] in norms && now[origin[q]] == q)
  }

  /** A key that was renamed got a name that no original key had. */
  ghost predicate FreshNames(norms: Norms, now: map<Key, Key>)
    requires now.Keys == norms.Keys
  {
    forall k :: k in norms ==> now[k] == k || now[k] !in norms
  }

  ghost predicate Renamed(norms: Norms, now: map<Key, Key>, origin: map<Key, Key>, moved: Norms) {
    Matched(norms, now, origin, moved) && FreshNames(norms, now)
  }

  lemma MoveKeyForward(
    norms: Norms, now: map<Key, Key>, origin: map<Key, Key>, moved: Norms, from: Key, to: Key, k: Key)
    requires Matched(norms, now, origin, moved) && from in moved && to !in moved && k in norms
    ensures var there, back, after :=
              now[origin[from] := to], (origin - {from})[to := origin[from]], (moved - {from})[to := moved[from]];
            k in there && there[k] in after && back[there[k]] == k && after[there[k]] == norms[k]
  {
    assert now[origin[from]] == from;
    assert k != origin[from] ==> now[k] in moved && now[k] != from && now[k] != to;
  }

  lemma MoveKeyBack(norms: Norms, now: map<Key, Key>, origin: map<Key, Key>, moved: Norms, from: Key, to: Key, q: Key)
    requires Matched(norms, now, origin, moved) && from in moved && to !in moved
        && (q == to || (q in moved && q != from))
    ensures var there, back := now[origin[from] := to], (origin - {from})[to := origin[from]];
            q in back && back[q] in norms && there[back[q]] == q
  {
    assert q != to ==> now[origin[q]] == q;
  }

  /** One key moves to a free name. */
  lemma MoveKey(norms: Norms, now: map<Key, Key>, origin: map<Key, Key>, moved: Norms, from: Key, to: Key)
    requires Matched(norms, now, origin, moved) && from in moved && to !in moved
    ensures Matched(norms, now[origin[from] := to], (origin - {from})[to := origin[from]],
        (moved - {from})[to := moved[from]])
  {
    forall k | k in norms { MoveKeyForward(norms, now, origin, moved, from, to, k); }
    forall q | q == to || (q in moved && q != from) { MoveKeyBack(norms, now, origin, moved, from, to, q); }
  }

  lemma RenameOneMore(norms: Norms, now: map<Key, Key>, origin: map<Key, Key>, moved: Norms, key: Key, newKey: Key)
    requires Renamed(norms, now, origin, moved) && key in norms && now[key] == key
    requires newKey !in norms && newKey !in moved
    ensures Renamed(norms, now[key := newKey], origin[newKey := key] - {key}, moved[newKey := norms[key]] - {key})
  {
    MoveKey(norms, now, origin, moved, key, newKey);
    assert origin[newKey := key] - {key} == (origin - {key})[newKey := key];
    assert moved[newKey := norms[key]] - {key} == (moved - {key})[newKey := moved[key]];
  }

  lemma OwnNameIsFree(norms: Norms, now: map<Key, Key>, origin: map<Key, Key>, moved: Norms, key: Key)
    requires Renamed(norms, now, origin, moved) && key in norms && now[key] != key
    ensures now[key] in moved && key !in moved && origin[now[key]] == key
  {
  }

  lemma UndoOne(norms: Norms, now: map<Key, Key>, origin: map<Key, Key>, moved: Norms, key: Key)
    requires Renamed(norms, now, origin, moved) && key in norms && now[key] != key
    ensures Renamed(norms, now[key := key], (origin - {now[key]})[key := key], Undo(moved, key, now[key]))
  {
    OwnNameIsFree(norms, now, origin, moved, key);
    MoveKey(norms, now, origin, moved, now[key], key);
  }

  /** The key reads as a normal length of the product. */
  ghost predicate Target(codec: Codec, reg: Registry, key: Key) {
    codec.parse(key).Finite? && codec.parse(key).value in reg.normal
  }

  lemma JudgeMoves(codec: Codec, reg: Registry, key: Key)
    requires Lawful(codec, reg) && Judge(codec, reg, key).MoveTo?
    ensures Target(codec, reg, Judge(codec, reg, key).key) && !Target(codec, reg, key)
  {
    var v := codec.parse(key).value;
    assert Only(reg.raw[v]) in reg.normal;
  }

  /** The loop keeps: the dictionary is the original with the reported keys renamed, each onto a free
      key that names a normal length; no key that names a normal length is ever moved. */
  ghost predicate SoundPlan(codec: Codec, reg: Registry, norms: Norms, origin: map<Key, Key>, st: Plan) {
    Renamed(norms, Names(norms, st.report), origin, st.norms) && ReportsMoves(codec, reg, norms, st.report)
  }

  /** The report speaks of keys that name no normal length, and of moves to keys that do. */
  ghost predicate ReportsMoves(codec: Codec, reg: Registry, norms: Norms, report: map<Key, Entry>) {
    && (forall k :: k in report ==> k in norms && !Target(codec, reg, k))
    && (forall k :: k in report && report[k].Rewritten? ==> Target(codec, reg, report[k].newKey))
  }

  lemma TargetsStay(codec: Codec, reg: Registry, norms: Norms, origin: map<Key, Key>, st: Plan, k: Key)
    requires SoundPlan(codec, reg, norms, origin, st) && Target(codec, reg, k)
    ensures k in norms ==> k in st.norms
  {
    assert k in norms ==> Names(norms, st.report)[k] == k;
  }

  lemma NameNewlyMoved(norms: Norms, report: map<Key, Entry>, key: Key, newKey: Key)
    requires key in norms && key !in report
    ensures Names(norms, report)[key] == key
    ensures Names(norms, report[key := Rewritten(newKey)]) == Names(norms, report)[key := newKey]
  {
  }

  lemma OneMoveIsSound(
    codec: Codec, reg: Registry, norms: Norms, origin: map<Key, Key>, key: Key, newKey: Key, st: Plan)
    requires key in norms && key !in st.report && SoundPlan(codec, reg, norms, origin, st)
    requires Target(codec, reg, newKey) && !Target(codec, reg, key) && newKey !in st.norms
    ensures SoundPlan(codec, reg, norms, origin[newKey := key] - {key},
                      Plan(st.norms[newKey := norms[key]] - {key}, st.report[key := Rewritten(newKey)]))
  {
    TargetsStay(codec, reg, norms, origin, st, newKey);
    NameNewlyMoved(norms, st.report, key, newKey);
    RenameOneMore(norms, Names(norms, st.report), origin, st.norms, key, newKey);
  }

  lemma OneReportIsSound(
    codec: Codec, reg: Registry, norms: Norms, origin: map<Key, Key>, key: Key, reason: Reason, st: Plan)
    requires key in norms && key !in st.report && SoundPlan(codec, reg, norms, origin, st) && !Target(codec, reg, key)
    ensures SoundPlan(codec, reg, norms, origin, st.(report := st.report[key := Unresolved(reason)]))
  {
    assert Names(norms, st.report[key := Unresolved(reason)]) == Names(norms, st.report);
  }

  /** Which original key each present key comes from, after one more key. */
  ghost function OriginStep(
    codec: Codec, reg: Registry, norms: Norms, origin: map<Key, Key>, key: Key, st: Plan): map<Key, Key>
  {
    match Judge(codec, reg, key)
    case MoveTo(newKey) => if newKey in st.norms then origin else origin[newKey := key] - {key}
    case _ => origin
  }

  ghost function Origins(codec: Codec, reg: Registry, norms: Norms, order: seq<Key>, n: nat): map<Key, Key>
    requires n <= |order| && forall k :: k in order ==> k in norms
  {
    if n == 0 then map k | k in norms :: k
    else
      OriginStep(codec, reg, norms, Origins(codec, reg, norms, order, n - 1), order[n - 1],
                 PlanUpTo(codec, reg, norms, order, n - 1))
  }

  lemma OneKeyIsSound(codec: Codec, reg: Registry, norms: Norms, origin: map<Key, Key>, key: Key, st: Plan)
    requires Lawful(codec, reg) && key in norms && key !in st.report && SoundPlan(codec, reg, norms, origin, st)
    ensures SoundPlan(codec, reg, norms, OriginStep(codec, reg, norms, origin, key, st),
        PlanKey(codec, reg, norms, key, st))
  {
    match Judge(codec, reg, key)
    case Keep =>
    case Report(reason) => OneReportIsSound(codec, reg, norms, origin, key, reason, st);
    case MoveTo(newKey) =>
      JudgeMoves(codec, reg, key);
      if newKey in st.norms {
        OneReportIsSound(codec, reg, norms, origin, key, TargetTaken, st);
      } else {
        OneMoveIsSound(codec, reg, norms, origin, key, newKey, st);
      }
  }

  lemma {:induction false} NotReportedYet(codec: Codec, reg: Registry, norms: Norms, order: seq<Key>, n: nat, i: nat)
    requires Lists(order, norms.Keys) && n <= i < |order|
    ensures order[i] !in PlanUpTo(codec, reg, norms, order, n).report
  {
    if n > 0 { NotReportedYet(codec, reg, norms, order, n - 1, i); }
  }

  lemma {:induction false} PlanIsSound(codec: Codec, reg: Registry, norms: Norms, order: seq<Key>, n: nat)
    requires Lawful(codec, reg) && Lists(order, norms.Keys) && n <= |order|
    ensures SoundPlan(codec, reg, norms, Origins(codec, reg, norms, order, n), PlanUpTo(codec, reg, norms, order, n))
  {
    if n == 0 {
      assert Names(norms, map[]) == map k | k in norms :: k;
    } else {
      PlanIsSound(codec, reg, norms, order, n - 1);
      NotReportedYet(codec, reg, norms, order, n - 1, n - 1);
      OneKeyIsSound(codec, reg, norms, Origins(codec, reg, norms, order, n - 1), order[n - 1],
                    PlanUpTo(codec, reg, norms, order, n - 1));
    }
  }

  ghost function Planned(codec: Codec, reg: Registry, norms: Norms, order: seq<Key>): Plan
    requires Lists(order, norms.Keys)
  {
    PlanUpTo(codec, reg, norms, order, |order|)
  }

  /** Main property of `_plan`: values are neither lost nor overwritten, moved keys land on free keys
      that name normal lengths, and keys that name normal lengths stay. */
  lemma PlanRenames(codec: Codec, reg: Registry, norms: Norms, order: seq<Key>)
    requires Lawful(codec, reg) && Lists(order, norms.Keys)
    ensures var plan := Planned(codec, reg, norms, order);
            SoundPlan(codec, reg, norms, Origins(codec, reg, norms, order, |order|), plan)
  {
    PlanIsSound(codec, reg, norms, order, |order|);
  }

  // ----- what becomes of each key, in terms of the registry

  /** Not a number, or the number of a normal length. */
  ghost predicate StandsAsItIs(codec: Codec, reg: Registry, k: Key) {
    codec.parse(k).NotANumber? || (codec.parse(k).Finite? && codec.parse(k).value in reg.normal)
  }

  /** An infinite number, or a length that is neither normal nor raw. */
  ghost predicate IsUnknown(codec: Codec, reg: Registry, k: Key) {
    match codec.parse(k)
    case NotANumber => false
    case NonFinite => true
    case Finite(v) => v !in reg.normal && (v !in reg.raw || reg.raw[v] == {})
  }

  /** A raw length of several normal lengths. */
  ghost predicate IsRawOfSeveral(codec: Codec, reg: Registry, k: Key) {
    && codec.parse(k).Finite? && codec.parse(k).value !in reg.normal && codec.parse(k).value in reg.raw
    && exists x, y :: x in reg.raw[codec.parse(k).value] && y in reg.raw[codec.parse(k).value] && x != y
  }

  /** A raw length of one normal length. */
  ghost predicate IsRawOf(codec: Codec, reg: Registry, k: Key, x: Mm) {
    && codec.parse(k).Finite? && codec.parse(k).value !in reg.normal && codec.parse(k).value in reg.raw
    && reg.raw[codec.parse(k).value] == {x}
  }

  lemma SeveralElements<T>(s: set<T>, x: T, y: T)
    requires x in s && y in s && x != y
    ensures |s| > 1
  {
    SubsetSize({x, y}, s);
  }

  lemma SecondElement<T>(s: set<T>) returns (x: T, y: T)
    requires |s| > 1
    ensures x in s && y in s && x != y
  {
    x :| x in s;
    assert |s - {x}| > 0;
    y :| y in s - {x};
  }

  lemma JudgeIs(codec: Codec, reg: Registry, k: Key)
    ensures StandsAsItIs(codec, reg, k) ==> Judge(codec, reg, k) == Keep
    ensures IsUnknown(codec, reg, k) ==> Judge(codec, reg, k) == Report(NotInRegistry)
    ensures IsRawOfSeveral(codec, reg, k) ==> Judge(codec, reg, k) == Report(AmbiguousRaw)
    ensures forall x :: IsRawOf(codec, reg, k, x) ==> Judge(codec, reg, k) == MoveTo(codec.write(x))
  {
    if IsRawOfSeveral(codec, reg, k) {
      var s := reg.raw[codec.parse(k).value];
      var x, y :| x in s && y in s && x != y;
      SeveralElements(s, x, y);
    }
  }

  /** One of the four applies to every key. */
  lemma EveryKeyIsOne(codec: Codec, reg: Registry, k: Key)
    ensures || StandsAsItIs(codec, reg, k) || IsUnknown(codec, reg, k) || IsRawOfSeveral(codec, reg, k)
            || exists x :: IsRawOf(codec, reg, k, x)
  {
    if codec.parse(k).Finite? && codec.parse(k).value !in reg.normal && codec.parse(k).value in reg.raw {
      var s := reg.raw[codec.parse(k).value];
      if |s| > 1 {
        var x, y := SecondElement(s);
      } else if s != {} {
        var x :| x in s;
        forall y | y in s ensures y == x { OneElement(s, x, y); }
        assert IsRawOf(codec, reg, k, x);
      }
    }
  }

  /** What was said about a key stays said. */
  lemma {:induction false} ReportStays(codec: Codec, reg: Registry, norms: Norms, order: seq<Key>, i: nat, n: nat)
    requires Lists(order, norms.Keys) && i < n <= |order|
    ensures var k, then_, now :=
              order[i], PlanUpTo(codec, reg, norms, order, i + 1).report, PlanUpTo(codec, reg, norms, order, n).report;
            (k in now <==> k in then_) && (k in now ==> now[k] == then_[k])
  {
    if n > i + 1 { ReportStays(codec, reg, norms, order, i, n - 1); }
  }

  /** The key names a normal length that some earlier key was moved to. */
  ghost predicate AskedBefore(codec: Codec, reg: Registry, order: seq<Key>, n: nat, q: Key)
    requires n <= |order|
  {
    exists j, x :: 0 <= j < n && IsRawOf(codec, reg, order[j], x) && codec.write(x) == q
  }

  lemma TargetAfterOneKey(codec: Codec, reg: Registry, norms: Norms, k: Key, st: Plan, q: Key)
    requires Lawful(codec, reg) && k in norms && Target(codec, reg, q)
    ensures q in PlanKey(codec, reg, norms, k, st).norms <==>
              q in st.norms || exists x :: IsRawOf(codec, reg, k, x) && codec.write(x) == q
  {
    JudgeIs(codec, reg, k);
    EveryKeyIsOne(codec, reg, k);
    if Judge(codec, reg, k).MoveTo? { JudgeMoves(codec, reg, k); }
  }

  /** A key of a normal length is there exactly if it always was or an earlier key asked for it. */
  lemma {:induction false} TargetIsThereIff(
    codec: Codec, reg: Registry, norms: Norms, order: seq<Key>, n: nat, q: Key)
    requires Lawful(codec, reg) && Lists(order, norms.Keys) && n <= |order| && Target(codec, reg, q)
    ensures q in PlanUpTo(codec, reg, norms, order, n).norms <==> q in norms || AskedBefore(codec, reg, order, n, q)
  {
    if n > 0 {
      TargetIsThereIff(codec, reg, norms, order, n - 1, q);
      TargetAfterOneKey(codec, reg, norms, order[n - 1], PlanUpTo(codec, reg, norms, order, n - 1), q);
      AskedOneMore(codec, reg, order, n - 1, q);
    }
  }

  lemma AskedOneMore(codec: Codec, reg: Registry, order: seq<Key>, n: nat, q: Key)
    requires n < |order|
    ensures AskedBefore(codec, reg, order, n + 1, q) <==>
              || AskedBefore(codec, reg, order, n, q)
              || exists x :: IsRawOf(codec, reg, order[n], x) && codec.write(x) == q
  {
    if AskedBefore(codec, reg, order, n + 1, q) {
      var j, x :| 0 <= j < n + 1 && IsRawOf(codec, reg, order[j], x) && codec.write(x) == q;
    }
    if AskedBefore(codec, reg, order, n, q) {
      var j, x :| 0 <= j < n && IsRawOf(codec, reg, order[j], x) && codec.write(x) == q;
    }
  }

  /** What the report says about a key of the dictionary. */
  lemma ReportIs(codec: Codec, reg: Registry, norms: Norms, order: seq<Key>, i: nat)
    requires Lawful(codec, reg) && Lists(order, norms.Keys) && i < |order|
    ensures var k, report := order[i], Planned(codec, reg, norms, order).report;
            && (StandsAsItIs(codec, reg, k) ==> k !in report)
            && (IsUnknown(codec, reg, k) ==> k in report && report[k] == Unresolved(NotInRegistry))
            && (IsRawOfSeveral(codec, reg, k) ==> k in report && report[k] == Unresolved(AmbiguousRaw))
            && (forall x :: IsRawOf(codec, reg, k, x) ==>
                  k in report &&
                  report[k] == if codec.write(x) in norms || AskedBefore(codec, reg, order, i, codec.write(x))
                               then Unresolved(TargetTaken) else Rewritten(codec.write(x)))
  {
    var k := order[i];
    NotReportedYet(codec, reg, norms, order, i, i);
    ReportStays(codec, reg, norms, order, i, |order|);
    JudgeIs(codec, reg, k);
    forall x | IsRawOf(codec, reg, k, x)
      ensures codec.write(x) in PlanUpTo(codec, reg, norms, order, i).norms <==>
                codec.write(x) in norms || AskedBefore(codec, reg, order, i, codec.write(x))
    {
      JudgeMoves(codec, reg, k);
      TargetIsThereIff(codec, reg, norms, order, i, codec.write(x));
    }
  }

  /** Where the value of a key stands after the plan: under the new key if the report says so, and otherwise
      where it was; a key whose target was taken finds it there. */
  lemma ValueIs(codec: Codec, reg: Registry, norms: Norms, order: seq<Key>, i: nat)
    requires Lawful(codec, reg) && Lists(order, norms.Keys) && i < |order|
    ensures var k, plan := order[i], Planned(codec, reg, norms, order);
            && (k in plan.report && plan.report[k].Rewritten? ==>
                  && k !in plan.norms
                  && plan.report[k].newKey in plan.norms && plan.norms[plan.report[k].newKey] == norms[k])
            && (k in plan.report && plan.report[k].Unresolved? ==> k in plan.norms && plan.norms[k] == norms[k])
            && (k !in plan.report ==> k in plan.norms && plan.norms[k] == norms[k])
            && (forall x :: IsRawOf(codec, reg, k, x) ==> codec.write(x) in plan.norms)
  {
    var k, plan := order[i], Planned(codec, reg, norms, order);
    var origin := Origins(codec, reg, norms, order, |order|);
    PlanRenames(codec, reg, norms, order);
    assert k in order;
    assert Names(norms, plan.report)[k] == NewName(plan.report, k);
    if NewName(plan.report, k) != k {
      JudgeIs(codec, reg, k);
      OwnNameIsFree(norms, Names(norms, plan.report), origin, plan.norms, k);
    }
    JudgeIs(codec, reg, k);
    TargetStaysTaken(codec, reg, norms, order, |order|, i);
  }

  // ----- a second plan

  /** A key that asks to move has a report row, and the key it asks for stays taken. */
  lemma {:induction false} TargetStaysTaken(codec: Codec, reg: Registry, norms: Norms, order: seq<Key>, n: nat, i: nat)
    requires Lawful(codec, reg) && Lists(order, norms.Keys) && i < n <= |order|
    ensures var st := PlanUpTo(codec, reg, norms, order, n);
            match Judge(codec, reg, order[i])
            case Keep => true
            case Report(_) => order[i] in st.report
            case MoveTo(newKey) => order[i] in st.report && newKey in st.norms
  {
    if Judge(codec, reg, order[n - 1]).MoveTo? { JudgeMoves(codec, reg, order[n - 1]); }
    if Judge(codec, reg, order[i]).MoveTo? { JudgeMoves(codec, reg, order[i]); }
    if i < n - 1 { TargetStaysTaken(codec, reg, norms, order, n - 1, i); }
  }

  /** A key of the planned dictionary that is not itself a normal length was there from the start. */
  lemma SecondLook(codec: Codec, reg: Registry, norms: Norms, order: seq<Key>, key: Key)
    requires Lawful(codec, reg) && Lists(order, norms.Keys) && key in Planned(codec, reg, norms, order).norms
    ensures var first := Planned(codec, reg, norms, order);
            match Judge(codec, reg, key)
            case Keep => true
            case Report(_) => key in first.report
            case MoveTo(newKey) => key in first.report && newKey in first.norms
  {
    PlanRenames(codec, reg, norms, order);
    var first, source := Planned(codec, reg, norms, order), Origins(codec, reg, norms, order, |order|)[key];
    assert NewName(first.report, source) == key;
    if source == key {
      var i :| 0 <= i < |order| && order[i] == key;
      TargetStaysTaken(codec, reg, norms, order, |order|, i);
    } else {
      assert Target(codec, reg, key);
    }
  }

  /** Planning the planned dictionary again, in any key order, moves nothing and reports nothing new. */
  lemma {:induction false} SecondPlanUpTo(
    codec: Codec, reg: Registry, norms: Norms, order: seq<Key>, again: seq<Key>, n: nat)
    requires Lawful(codec, reg) && Lists(order, norms.Keys)
    requires Lists(again, Planned(codec, reg, norms, order).norms.Keys) && n <= |again|
    ensures var first := Planned(codec, reg, norms, order);
            var second := PlanUpTo(codec, reg, first.norms, again, n);
            second.norms == first.norms && second.report.Keys <= first.report.Keys
  {
    if n > 0 {
      SecondPlanUpTo(codec, reg, norms, order, again, n - 1);
      assert again[n - 1] in again;
      SecondLook(codec, reg, norms, order, again[n - 1]);
    }
  }

  // ----- downgrade

  /** One reported change taken back, unless the dictionary no longer looks as the migration left it. */
  function Undo(norms: Norms, oldKey: Key, newKey: Key): Norms {
    if newKey !in norms || oldKey in norms then norms else (norms - {newKey})[oldKey := norms[newKey]]
  }

  function UndoAll(norms: Norms, moves: map<Key, Key>, order: seq<Key>, n: nat): Norms
    requires n <= |order| && forall k :: k in order ==> k in moves
  {
    if n == 0 then norms else Undo(UndoAll(norms, moves, order, n - 1), order[n - 1], moves[order[n - 1]])
  }

  /** Whatever has become of the dictionary since the migration, and whatever the report says, the
      downgrade neither loses nor overwrites a value: it renames keys one to one. */
  lemma {:induction false} UndoLosesNothing(norms: Norms, moves: map<Key, Key>, order: seq<Key>, n: nat)
    returns (now: map<Key, Key>, origin: map<Key, Key>)
    requires n <= |order| && forall k :: k in order ==> k in moves
    ensures Matched(norms, now, origin, UndoAll(norms, moves, order, n))
  {
    if n == 0 {
      now, origin := map k | k in norms :: k, map k | k in norms :: k;
    } else {
      now, origin := UndoLosesNothing(norms, moves, order, n - 1);
      var before, oldKey := UndoAll(norms, moves, order, n - 1), order[n - 1];
      var newKey := moves[oldKey];
      if newKey in before && oldKey !in before {
        MoveKey(norms, now, origin, before, newKey, oldKey);
        now, origin := now[origin[newKey] := oldKey], (origin - {newKey})[oldKey := origin[newKey]];
      }
    }
  }

  method UndoMoves(norms: Norms, moves: map<Key, Key>, order: seq<Key>) returns (r: Norms)
    requires Lists(order, moves.Keys)
    ensures r == UndoAll(norms, moves, order, |order|)
  {
    r := norms;
    for i := 0 to |order|
      invariant r == UndoAll(norms, moves, order, i)
    {
      var oldKey := order[i];
      var newKey := moves[oldKey];
      if newKey !in r || oldKey in r { continue; }
      var value := r[newKey];
      r := r - {newKey};
      r := r[oldKey := value];
    }
  }

  /** The rewritten rows of a report: old key to new key. */
  function Moves(report: map<Key, Entry>): map<Key, Key> {
    map k | k in report && report[k].Rewritten? :: report[k].newKey
  }

  /** Each key stands again under its own name once its turn has come. */
  ghost function Returned(names: map<Key, Key>, order: seq<Key>, n: nat): map<Key, Key>
    requires n <= |order|
  {
    if n == 0 then names else Returned(names, order, n - 1)[order[n - 1] := order[n - 1]]
  }

  lemma {:induction false} ReturnedAt(names: map<Key, Key>, order: seq<Key>, n: nat, k: Key)
    requires n <= |order| && k in names
    ensures k in Returned(names, order, n)
    ensures Returned(names, order, n)[k] == if k in order[..n] then k else names[k]
  {
    if n > 0 {
      ReturnedAt(names, order, n - 1, k);
      assert order[..n] == order[..n - 1] + [order[n - 1]];
    }
  }

  /** The next key still has its new name. */
  lemma NotReturnedYet(names: map<Key, Key>, moves: map<Key, Key>, order: seq<Key>, n: nat)
    requires Lists(order, moves.Keys) && n < |order| && forall k :: k in moves ==> k in names && names[k] == moves[k]
    ensures var key := order[n];
            key in names && key in Returned(names, order, n) && Returned(names, order, n)[key] == moves[key]
  {
    assert order[n] in order && order[n] !in order[..n];
    ReturnedAt(names, order, n, order[n]);
  }

  lemma UndoNext(
    norms: Norms, names: map<Key, Key>, back: map<Key, Key>, undone: Norms, moves: map<Key, Key>, order: seq<Key>,
    n: nat)
    requires Lists(order, moves.Keys) && n < |order| && order[n] in norms && moves[order[n]] != order[n]
    requires forall k :: k in moves ==> k in names && names[k] == moves[k]
    requires Renamed(norms, Returned(names, order, n), back, undone)
    ensures var key := order[n];
            Renamed(norms, Returned(names, order, n + 1), (back - {moves[key]})[key := key],
                Undo(undone, key, moves[key]))
  {
    NotReturnedYet(names, moves, order, n);
    UndoOne(norms, Returned(names, order, n), back, undone, order[n]);
  }

  lemma {:induction false} UndoPartly(
    norms: Norms, names: map<Key, Key>, origin: map<Key, Key>, moved: Norms, moves: map<Key, Key>, order: seq<Key>,
    n: nat)
    returns (back: map<Key, Key>)
    requires Renamed(norms, names, origin, moved) && Lists(order, moves.Keys) && n <= |order|
    requires forall k :: k in moves ==> k in norms && names[k] == moves[k] != k
    ensures Renamed(norms, Returned(names, order, n), back, UndoAll(moved, moves, order, n))
  {
    if n == 0 {
      back := origin;
    } else {
      var before := UndoPartly(norms, names, origin, moved, moves, order, n - 1);
      var key := order[n - 1];
      assert key in order;
      UndoNext(norms, names, before, UndoAll(moved, moves, order, n - 1), moves, order, n - 1);
      back := (before - {moves[key]})[key := key];
    }
  }

  /** Keys under their own names are the original dictionary. */
  lemma NothingRenamed(norms: Norms, now: map<Key, Key>, origin: map<Key, Key>, moved: Norms)
    requires Renamed(norms, now, origin, moved) && forall k :: k in norms ==> now[k] == k
    ensures moved == norms
  {
  }

  lemma AllReturned(norms: Norms, report: map<Key, Entry>, order: seq<Key>)
    requires Lists(order, Moves(report).Keys)
    ensures forall k :: k in norms ==>
              k in Returned(Names(norms, report), order, |order|)
                  && Returned(Names(norms, report), order, |order|)[k] == k
  {
    assert order[..|order|] == order;
    forall k | k in norms
      ensures k in Returned(Names(norms, report), order, |order|)
          && Returned(Names(norms, report), order, |order|)[k] == k
    {
      ReturnedAt(Names(norms, report), order, |order|, k);
    }
  }

  /** Undoing every reported move, in any order, gives the original dictionary back. */
  lemma UndoRestores(codec: Codec, reg: Registry, norms: Norms, origin: map<Key, Key>, plan: Plan, order: seq<Key>)
    requires SoundPlan(codec, reg, norms, origin, plan) && Lists(order, Moves(plan.report).Keys)
    ensures UndoAll(plan.norms, Moves(plan.report), order, |order|) == norms
  {
    var names, moves := Names(norms, plan.report), Moves(plan.report);
    var back := UndoPartly(norms, names, origin, plan.norms, moves, order, |order|);
    AllReturned(norms, plan.report, order);
    NothingRenamed(norms, Returned(names, order, |order|), back, UndoAll(plan.norms, moves, order, |order|));
  }
}
