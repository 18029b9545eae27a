/** `RouteAxis` of `backend/scripts/repair_completed_operations_axis.py`: which stage of a route
    a stored set of operations meant, and the exact set that stage stands for. */
module RouteAxes {
  import opened Text

  type Ops = set<string>

  datatype RouteAxis = RouteAxis(newBySeq: map<int, Ops>, oldBySeq: map<int, Ops>, sequences: seq<int>) {

    /** The loader orders stages by sequence, which is unique within a route and positive. */
    ghost predicate Loaded() {
      && (forall i :: 0 <= i < |sequences| ==> sequences[i] > 0)
      && (forall i, j :: 0 <= i < j < |sequences| ==> sequences[i] < sequences[j])
    }

    function NewThrough(through: int): Ops { Cumulative(newBySeq, sequences, through) }

    function OldThrough(through: int): Ops { Cumulative(oldBySeq, sequences, through) }

    function Previous(sequence: int): Option<int> {
      var earlier := Earlier(sequences, sequence);
      if earlier == [] then None else Some(earlier[|earlier| - 1])
    }

    /** The caller's stage and the one before it; zero and None are "no stage" alike. */
    function PreferredOrder(preferred: Option<int>): seq<int> {
      if preferred.None? || preferred.value == 0 then []
      else
        [preferred.value] +
        match Previous(preferred.value)
        case None => []
        case Some(before) => if before != 0 then [before] else []
    }

    predicate Matches(stored: Ops, seqno: int) {
      stored == OldThrough(seqno) || stored == NewThrough(seqno)
    }

    function HitsIn(order: seq<int>, stored: Ops): (hits: seq<int>)
      ensures forall s :: s in hits <==> s in order && s != 0 && Matches(stored, s)
    {
      if order == [] then []
      else
        (if order[0] != 0 && Matches(stored, order[0]) then [order[0]] else []) + HitsIn(order[1..], stored)
    }

    /** Every stage the stored value fits, the preferred ones first. */
    function Match(stored: Ops, preferred: Option<int>): (hits: seq<int>)
      ensures forall s :: s in hits <==>
                s in PreferredOrder(preferred) + sequences && s != 0 && Matches(stored, s)
    {
      HitsIn(FirstOccurrences(PreferredOrder(preferred) + sequences, {}), stored)
    }

    predicate Ambiguous(hits: seq<int>) {
      exists h :: h in hits && NewThrough(h) != NewThrough(hits[0])
    }

    /** The exact set a plan-driven row gets: rewritten only when every matching stage agrees on it. */
    function Exact(stored: Ops, preferred: Option<int>): Ops {
      var hits := Match(stored, preferred);
      if sequences == [] || hits == [] || Ambiguous(hits) then stored else NewThrough(hits[0])
    }

    /** Adds up the operations stage by stage and stops at the first stage beyond `through`. */
    method ComputeCumulative(store: map<int, Ops>, through: int) returns (codes: Ops)
      ensures codes == Cumulative(store, sequences, through)
    {
      codes := {};
      var i := 0;
      while i < |sequences|
        invariant 0 <= i <= |sequences|
        invariant codes + Cumulative(store, sequences[i..], through) == Cumulative(store, sequences, through)
      {
        assert sequences[i..][1..] == sequences[i + 1..];
        if sequences[i] > through { break; }
        codes := codes + At(store, sequences[i]);
        i := i + 1;
      }
    }
  }

  function At(store: map<int, Ops>, seqno: int): Ops {
    if seqno in store then store[seqno] else {}
  }

  function Cumulative(store: map<int, Ops>, sequences: seq<int>, through: int): Ops {
    if sequences == [] || sequences[0] > through then {}
    else At(store, sequences[0]) + Cumulative(store, sequences[1..], through)
  }

  function Earlier(sequences: seq<int>, sequence: int): (r: seq<int>)
    ensures forall s :: s in r <==> s in sequences && s < sequence
  {
    if sequences == [] then []
    else (if sequences[0] < sequence then [sequences[0]] else []) + Earlier(sequences[1..], sequence)
  }

  /** `dict.fromkeys`: every element once, where it first occurs. */
  function FirstOccurrences(s: seq<int>, seen: set<int>): (r: seq<int>)
    ensures forall x :: x in r <==> x in s && x !in seen
  {
    if s == [] then []
    else if s[0] in seen then FirstOccurrences(s[1..], seen)
    else [s[0]] + FirstOccurrences(s[1..], seen + {s[0]})
  }

  ghost predicate Ascending(s: seq<int>) {
    forall i, j :: 0 <= i < j < |s| ==> s[i] < s[j]
  }

  // ----- the cumulative set

  /** Stopping at the first stage beyond `through` loses nothing: the result is the union up to it. */
  lemma {:induction false} CumulativeIsUnion(store: map<int, Ops>, sequences: seq<int>, through: int, code: string)
    requires Ascending(sequences)
    ensures code in Cumulative(store, sequences, through) <==>
              exists s :: s in sequences && s <= through && code in At(store, s)
  {
    if sequences != [] {
      var head, rest := sequences[0], sequences[1..];
      CumulativeIsUnion(store, rest, through, code);
      assert forall s :: s in sequences <==> s == head || s in rest;
      assert forall s :: s in rest ==> head < s;
    }
  }

  lemma {:induction false} CumulativeGrows(store: map<int, Ops>, sequences: seq<int>, through: int, further: int)
    requires through <= further
    ensures Cumulative(store, sequences, through) <= Cumulative(store, sequences, further)
  {
    if sequences != [] { CumulativeGrows(store, sequences[1..], through, further); }
  }

  /** No stage in between, no difference. */
  lemma {:induction false} CumulativeSteps(store: map<int, Ops>, sequences: seq<int>, through: int, further: int)
    requires Ascending(sequences) && through <= further
    requires forall s :: s in sequences ==> s <= through || s > further
    ensures Cumulative(store, sequences, through) == Cumulative(store, sequences, further)
  {
    if sequences != [] {
      assert sequences[0] in sequences && forall s :: s in sequences[1..] ==> s in sequences;
      CumulativeSteps(store, sequences[1..], through, further);
    }
  }

  /** The operations of all stages up to `through`, read off the loaded stages. */
  ghost function UpTo(store: map<int, Ops>, sequences: seq<int>, through: int): Ops {
    set s, code | s in sequences && s <= through && s in store && code in store[s] :: code
  }

  lemma CumulativeIsUpTo(store: map<int, Ops>, sequences: seq<int>, through: int)
    requires Ascending(sequences)
    ensures Cumulative(store, sequences, through) == UpTo(store, sequences, through)
  {
    forall code ensures code in Cumulative(store, sequences, through) <==> code in UpTo(store, sequences, through) {
      CumulativeIsUnion(store, sequences, through, code);
    }
  }

  /** The stored set is what was reached at this stage, under the old reading or under the new one. */
  ghost predicate Fits(axis: RouteAxis, stored: Ops, s: int) {
    && s in axis.sequences
    && (stored == UpTo(axis.oldBySeq, axis.sequences, s) || stored == UpTo(axis.newBySeq, axis.sequences, s))
  }

  /** The stages that fit stand for this one set. */
  ghost predicate AllFitsMean(axis: RouteAxis, stored: Ops, v: Ops) {
    && (exists s :: Fits(axis, stored, s))
    && forall s :: Fits(axis, stored, s) ==> UpTo(axis.newBySeq, axis.sequences, s) == v
  }

  lemma FitsAreMatches(axis: RouteAxis, stored: Ops, s: int)
    requires axis.Loaded()
    ensures axis.NewThrough(s) == UpTo(axis.newBySeq, axis.sequences, s)
    ensures Fits(axis, stored, s) <==> s in axis.Match(stored, None)
  {
    CumulativeIsUpTo(axis.newBySeq, axis.sequences, s);
    CumulativeIsUpTo(axis.oldBySeq, axis.sequences, s);
  }

  /** What is written, read off the stages of the route: the one set that all fitting stages stand for,
      and otherwise what is stored. */
  lemma ExactWithoutPreference(axis: RouteAxis, stored: Ops)
    requires axis.Loaded()
    ensures forall v :: AllFitsMean(axis, stored, v) ==> axis.Exact(stored, None) == v
    ensures (forall v :: !AllFitsMean(axis, stored, v)) ==> axis.Exact(stored, None) == stored
    ensures Unclear(axis, stored, None) <==> exists s, t :: DisagreeingFits(axis, stored, s, t)
  {
    var hits := axis.Match(stored, None);
    HitsAreFits(axis, stored);
    if hits != [] {
      assert hits[0] in hits && Fits(axis, stored, hits[0]);
      if axis.Ambiguous(hits) {
        var h :| h in hits && axis.NewThrough(h) != axis.NewThrough(hits[0]);
        assert DisagreeingFits(axis, stored, h, hits[0]);
      } else {
        assert AllFitsMean(axis, stored, axis.NewThrough(hits[0]));
      }
    }
  }

  lemma HitsAreFits(axis: RouteAxis, stored: Ops)
    requires axis.Loaded()
    ensures forall s :: axis.NewThrough(s) == UpTo(axis.newBySeq, axis.sequences, s)
    ensures forall s :: Fits(axis, stored, s) <==> s in axis.Match(stored, None)
  {
    forall s ensures axis.NewThrough(s) == UpTo(axis.newBySeq, axis.sequences, s)
      ensures Fits(axis, stored, s) <==> s in axis.Match(stored, None)
    {
      FitsAreMatches(axis, stored, s);
    }
  }

  /** Several stages match and do not stand for one set: such a row is reported. */
  predicate Unclear(axis: RouteAxis, stored: Ops, preferred: Option<int>) {
    axis.sequences != [] && axis.Match(stored, preferred) != [] && axis.Ambiguous(axis.Match(stored, preferred))
  }

  ghost predicate DisagreeingFits(axis: RouteAxis, stored: Ops, s: int, t: int) {
    && Fits(axis, stored, s) && Fits(axis, stored, t)
    && UpTo(axis.newBySeq, axis.sequences, s) != UpTo(axis.newBySeq, axis.sequences, t)
  }

  // ----- which stage was meant

  /** Some stage of the list stands for v. */
  ghost predicate Means(axis: RouteAxis, stages: seq<int>, v: Ops) {
    exists g :: g in stages && axis.NewThrough(g) == v
  }

  /** The value written depends on the matching stages only through the sets they stand for. */
  lemma SameMeaningsSameResult(axis: RouteAxis, a: seq<int>, b: seq<int>)
    requires forall h :: h in a ==> Means(axis, b, axis.NewThrough(h))
    requires forall h :: h in b ==> Means(axis, a, axis.NewThrough(h))
    ensures a == [] <==> b == []
    ensures a != [] ==> (axis.Ambiguous(a) <==> axis.Ambiguous(b))
    ensures a != [] && !axis.Ambiguous(a) ==> axis.NewThrough(a[0]) == axis.NewThrough(b[0])
  {
    if a != [] {
      SomethingMatches(axis, a, b);
      if !axis.Ambiguous(a) { AgreementCarriesOver(axis, a, b); }
      if !axis.Ambiguous(b) { AgreementCarriesOver(axis, b, a); }
    }
    if b != [] { SomethingMatches(axis, b, a); }
  }

  lemma SomethingMatches(axis: RouteAxis, a: seq<int>, b: seq<int>)
    requires a != [] && forall h :: h in a ==> Means(axis, b, axis.NewThrough(h))
    ensures b != []
  {
    assert a[0] in a && Means(axis, b, axis.NewThrough(a[0]));
  }

  lemma AgreementCarriesOver(axis: RouteAxis, a: seq<int>, b: seq<int>)
    requires a != [] && b != [] && !axis.Ambiguous(a)
    requires forall h :: h in b ==> Means(axis, a, axis.NewThrough(h))
    ensures !axis.Ambiguous(b) && axis.NewThrough(b[0]) == axis.NewThrough(a[0])
  {
    forall h | h in b ensures axis.NewThrough(h) == axis.NewThrough(a[0]) {
      var g :| g in a && axis.NewThrough(g) == axis.NewThrough(h);
    }
    assert b[0] in b;
  }

  lemma {:induction false} NearestAt(sequences: seq<int>, sequence: int, s: int)
    requires Ascending(sequences) && s in sequences && s < sequence
    ensures Earlier(sequences, sequence) != []
    ensures var earlier := Earlier(sequences, sequence); s <= earlier[|earlier| - 1]
  {
    var rest := Earlier(sequences[1..], sequence);
    if s in sequences[1..] {
      NearestAt(sequences[1..], sequence, s);
    } else if rest != [] {
      assert rest[|rest| - 1] in rest;
    }
  }

  lemma PreviousIsNearest(sequences: seq<int>, sequence: int)
    requires Ascending(sequences)
    ensures var earlier := Earlier(sequences, sequence);
            earlier != [] ==> forall s :: s in earlier ==> s <= earlier[|earlier| - 1]
  {
    forall s | s in Earlier(sequences, sequence)
      ensures var earlier := Earlier(sequences, sequence); s <= earlier[|earlier| - 1]
    {
      NearestAt(sequences, sequence, s);
    }
  }

  /** A preferred stage that lies at or after the first stage never changes the outcome. Before the first
      stage it stands for the empty set, and matters only to a row that stores the empty set. */
  lemma PreferenceIsIrrelevant(axis: RouteAxis, stored: Ops, p: int)
    requires axis.Loaded() && axis.sequences != []
    ensures axis.Exact(stored, Some(p)) ==
              if p != 0 && p < axis.sequences[0] && stored == {} then {} else axis.Exact(stored, None)
  {
    if p != 0 && p < axis.sequences[0] {
      EarlyPreference(axis, stored, p);
    } else if p != 0 {
      LatePreference(axis, stored, p);
    }
  }

  /** The first stage had no operations under the old reading and has some now, and all stages without old
      operations stand for one set. */
  ghost predicate FilledSince(axis: RouteAxis)
    requires axis.sequences != []
  {
    var first := axis.sequences[0];
    && axis.OldThrough(first) == {} && axis.NewThrough(first) != {}
    && forall s :: s in axis.sequences && axis.OldThrough(s) == {} ==> axis.NewThrough(s) == axis.NewThrough(first)
  }

  lemma FirstStageIsLeast(axis: RouteAxis, s: int)
    requires axis.Loaded() && s in axis.sequences
    ensures axis.OldThrough(axis.sequences[0]) <= axis.OldThrough(s)
    ensures axis.NewThrough(axis.sequences[0]) <= axis.NewThrough(s)
  {
    CumulativeGrows(axis.oldBySeq, axis.sequences, axis.sequences[0], s);
    CumulativeGrows(axis.newBySeq, axis.sequences, axis.sequences[0], s);
  }

  lemma FilledIsWritten(axis: RouteAxis)
    requires axis.Loaded() && axis.sequences != [] && FilledSince(axis)
    ensures axis.Exact({}, None) == axis.NewThrough(axis.sequences[0])
  {
    var hits, first := axis.Match({}, None), axis.sequences[0];
    assert first in hits;
    forall h | h in hits ensures axis.NewThrough(h) == axis.NewThrough(first) {
      FirstStageIsLeast(axis, h);
    }
    assert hits[0] in hits;
  }

  lemma WrittenIsFilled(axis: RouteAxis)
    requires axis.Loaded() && axis.sequences != [] && axis.Exact({}, None) != {}
    ensures FilledSince(axis)
  {
    var hits, first := axis.Match({}, None), axis.sequences[0];
    assert hits[0] in hits && axis.OldThrough(hits[0]) == {};
    FirstStageIsLeast(axis, hits[0]);
    assert first in hits;
    forall s | s in axis.sequences && axis.OldThrough(s) == {} ensures axis.NewThrough(s) == axis.NewThrough(first) {
      assert s in hits;
    }
  }

  /** Exactly when the preferred stage changes what is written. */
  lemma PreferenceMattersIff(axis: RouteAxis, stored: Ops, p: int)
    requires axis.Loaded() && axis.sequences != []
    ensures axis.Exact(stored, Some(p)) != axis.Exact(stored, None) <==>
              p != 0 && p < axis.sequences[0] && stored == {} && FilledSince(axis)
  {
    PreferenceIsIrrelevant(axis, stored, p);
    if FilledSince(axis) { FilledIsWritten(axis); }
    if axis.Exact({}, None) != {} { WrittenIsFilled(axis); }
  }

  /** A preferred stage of the route itself never changes anything. */
  lemma OwnStageIsIrrelevant(axis: RouteAxis, stored: Ops, p: int)
    requires axis.Loaded() && p in axis.sequences
    ensures axis.Exact(stored, Some(p)) == axis.Exact(stored, None)
  {
    PreferenceIsIrrelevant(axis, stored, p);
  }

  /** A route whose one stage, 2, once had no operations and now has A: a row that stores the empty set and
      prefers stage 1 keeps it, and would get A without the preference. */
  lemma PreferenceMatters()
    ensures var axis := RouteAxis(map[2 := {"A"}], map[], [2]);
            axis.Loaded() && axis.Exact({}, Some(1)) == {} && axis.Exact({}, None) == {"A"}
  {
    var axis := RouteAxis(map[2 := {"A"}], map[], [2]);
    OneStage(axis.newBySeq, 2);
    OneStage(axis.oldBySeq, 2);
    var hits := axis.Match({}, None);
    assert 2 in hits && forall h :: h in hits ==> h == 2;
    assert hits[0] in hits;
    PreferenceIsIrrelevant(axis, {}, 1);
  }

  lemma OneStage(store: map<int, Ops>, s: int)
    ensures Cumulative(store, [s], s) == At(store, s)
  {
    assert [s][1..] == [];
    assert At(store, s) + {} == At(store, s);
  }

  lemma EarlyPreference(axis: RouteAxis, stored: Ops, p: int)
    requires axis.Loaded() && axis.sequences != [] && p != 0 && p < axis.sequences[0]
    ensures axis.Exact(stored, Some(p)) == if stored == {} then {} else axis.Exact(stored, None)
    ensures stored != {} ==> (Unclear(axis, stored, Some(p)) <==> Unclear(axis, stored, None))
  {
    var withP, without := axis.Match(stored, Some(p)), axis.Match(stored, None);
    NothingEarlier(axis.sequences, p);
    assert axis.NewThrough(p) == axis.OldThrough(p) == {};
    assert axis.PreferredOrder(Some(p)) == [p];
    if stored == {} {
      assert p in withP;
    } else {
      forall h | h in withP ensures Means(axis, without, axis.NewThrough(h)) { assert h in without; }
      forall h | h in without ensures Means(axis, withP, axis.NewThrough(h)) { assert h in withP; }
      SameMeaningsSameResult(axis, withP, without);
    }
  }

  lemma LatePreference(axis: RouteAxis, stored: Ops, p: int)
    requires axis.Loaded() && axis.sequences != [] && p >= axis.sequences[0]
    ensures axis.Exact(stored, Some(p)) == axis.Exact(stored, None)
    ensures Unclear(axis, stored, Some(p)) <==> Unclear(axis, stored, None)
  {
    LateMeanings(axis, stored, p);
    SameMeaningsSameResult(axis, axis.Match(stored, Some(p)), axis.Match(stored, None));
  }

  lemma LateMeanings(axis: RouteAxis, stored: Ops, p: int)
    requires axis.Loaded() && axis.sequences != [] && p >= axis.sequences[0]
    ensures var withP, without := axis.Match(stored, Some(p)), axis.Match(stored, None);
            && (forall h :: h in withP ==> Means(axis, without, axis.NewThrough(h)))
            && (forall h :: h in without ==> Means(axis, withP, axis.NewThrough(h)))
  {
    var withP, without := axis.Match(stored, Some(p)), axis.Match(stored, None);
    var q := StageAtOrBefore(axis, p);
    PreferredStages(axis, p);
    assert forall h :: h in without <==> h in axis.sequences && h != 0 && axis.Matches(stored, h);
    forall h | h in withP ensures Means(axis, without, axis.NewThrough(h)) {
      if h == p { assert q in without; } else { assert h in without; }
    }
    forall h | h in without ensures Means(axis, withP, axis.NewThrough(h)) { assert h in withP; }
  }

  lemma PreferredStages(axis: RouteAxis, p: int)
    ensures forall s :: s in axis.PreferredOrder(Some(p)) ==> s == p || s in axis.sequences
  {
    var earlier := Earlier(axis.sequences, p);
    if earlier != [] { assert earlier[|earlier| - 1] in earlier; }
  }

  lemma {:induction false} NothingEarlier(sequences: seq<int>, p: int)
    requires sequences != [] ==> p < sequences[0]
    requires Ascending(sequences)
    ensures Earlier(sequences, p) == []
  {
    if sequences != [] { NothingEarlier(sequences[1..], p); }
  }

  /** The last stage at or before p: no other stage stands between. */
  lemma LastStage(sequences: seq<int>, p: int) returns (q: int)
    requires Ascending(sequences) && sequences != [] && sequences[0] <= p
    ensures q in sequences && q <= p
    ensures forall s :: s in sequences ==> s <= q || s > p
  {
    var upTo := Earlier(sequences, p + 1);
    assert sequences[0] in upTo;
    q := upTo[|upTo| - 1];
    assert q in upTo;
    PreviousIsNearest(sequences, p + 1);
  }

  lemma StageAtOrBefore(axis: RouteAxis, p: int) returns (q: int)
    requires axis.Loaded() && axis.sequences != [] && axis.sequences[0] <= p
    ensures q in axis.sequences && q <= p
    ensures axis.NewThrough(q) == axis.NewThrough(p) && axis.OldThrough(q) == axis.OldThrough(p)
  {
    q := LastStage(axis.sequences, p);
    CumulativeSteps(axis.newBySeq, axis.sequences, q, p);
    CumulativeSteps(axis.oldBySeq, axis.sequences, q, p);
  }

  /** The same with any stage of the caller: one that lies before the first stage of the route keeps the
      empty set where it is stored, and changes nothing else. */
  lemma ExactIsFitting(axis: RouteAxis, stored: Ops, p: int)
    requires axis.Loaded()
    ensures axis.sequences != [] && p != 0 && p < axis.sequences[0] && stored == {} ==>
              axis.Exact(stored, Some(p)) == stored
    ensures !(axis.sequences != [] && p != 0 && p < axis.sequences[0] && stored == {}) ==>
              && (forall v :: AllFitsMean(axis, stored, v) ==> axis.Exact(stored, Some(p)) == v)
              && ((forall v :: !AllFitsMean(axis, stored, v)) ==> axis.Exact(stored, Some(p)) == stored)
  {
    ExactWithoutPreference(axis, stored);
    if axis.sequences != [] { PreferenceIsIrrelevant(axis, stored, p); }
  }

  /** When a row is reported as ambiguous, with any stage of the caller. */
  lemma UnclearIff(axis: RouteAxis, stored: Ops, p: int)
    requires axis.Loaded() && axis.sequences != []
    ensures Unclear(axis, stored, Some(p)) <==>
              if p != 0 && p < axis.sequences[0] && stored == {}
              then exists s :: Fits(axis, stored, s) && UpTo(axis.newBySeq, axis.sequences, s) != {}
              else exists s, t :: DisagreeingFits(axis, stored, s, t)
  {
    ExactWithoutPreference(axis, stored);
    if p != 0 && p < axis.sequences[0] {
      EarlyPreference(axis, stored, p);
      if stored == {} { EmptyIsUnclearIff(axis, p); }
    } else if p != 0 {
      LatePreference(axis, stored, p);
    }
  }

  lemma EmptyIsUnclearIff(axis: RouteAxis, p: int)
    requires axis.Loaded() && axis.sequences != [] && p != 0 && p < axis.sequences[0]
    ensures Unclear(axis, {}, Some(p)) <==>
              exists s :: Fits(axis, {}, s) && UpTo(axis.newBySeq, axis.sequences, s) != {}
  {
    var hits := axis.Match({}, Some(p));
    EarlyHits(axis, p);
    HitsAreFits(axis, {});
    assert p in hits && hits[0] in hits;
    if s :| Fits(axis, {}, s) && UpTo(axis.newBySeq, axis.sequences, s) != {} {
      TwoMeanings(axis, hits, s, p);
    }
  }

  lemma TwoMeanings(axis: RouteAxis, hits: seq<int>, s: int, t: int)
    requires s in hits && t in hits && axis.NewThrough(s) != axis.NewThrough(t)
    ensures hits != [] && axis.Ambiguous(hits)
  {
  }

  lemma EarlyHits(axis: RouteAxis, p: int)
    requires axis.Loaded() && axis.sequences != [] && p != 0 && p < axis.sequences[0]
    ensures axis.NewThrough(p) == {}
    ensures forall s :: s in axis.Match({}, Some(p)) <==> s == p || Fits(axis, {}, s)
  {
    NothingEarlier(axis.sequences, p);
    assert axis.PreferredOrder(Some(p)) == [p];
    HitsAreFits(axis, {});
  }

  /** A row changes only if some stage fits it, and then every stage that fits stands for what is written. */
  lemma RewrittenOnlyWhenUnanimous(axis: RouteAxis, stored: Ops, preferred: Option<int>)
    ensures var exact := axis.Exact(stored, preferred);
            var fits := (s: int) => s in axis.Match(stored, preferred);
            && (exact != stored ==> exists s :: fits(s) && axis.NewThrough(s) == exact)
            && (exact != stored ==>
                  forall s :: s in axis.sequences && s != 0 && axis.Matches(stored, s) ==> axis.NewThrough(s) == exact)
            && (axis.sequences != [] && (exists s :: fits(s))
                && (forall s, t :: fits(s) && fits(t) ==> axis.NewThrough(s) == axis.NewThrough(t))
                ==> forall s :: fits(s) ==> exact == axis.NewThrough(s))
  {
    var hits := axis.Match(stored, preferred);
    if hits != [] { assert hits[0] in hits; }
  }

  /** A second resolution finds its own value, or finds it ambiguous; either way it stays. */
  lemma ExactIsIdempotent(axis: RouteAxis, stored: Ops, preferred: Option<int>)
    ensures axis.Exact(axis.Exact(stored, preferred), preferred) == axis.Exact(stored, preferred)
  {
    var hits := axis.Match(stored, preferred);
    var exact := axis.Exact(stored, preferred);
    if axis.sequences != [] && hits != [] && !axis.Ambiguous(hits) {
      assert hits[0] in hits;
      assert axis.Matches(exact, hits[0]);
      assert hits[0] in axis.Match(exact, preferred);
    }
  }
}
