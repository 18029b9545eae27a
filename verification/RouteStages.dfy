/** `_desired_stages` of `backend/scripts/repair_route_operations.py`: consecutive steps of one section
    make one stage. */
module RouteStages {
  import opened Text
  import opened StableSorting

  datatype Op = Op(code: Option<string>, name: string)

  datatype Flags = Flags(significant: bool, transforms: bool, final: bool)

  /** A production section, or the storage section of a transit stage. */
  datatype StageKey = StageKey(section: Option<int>, storage: Option<int>)

  datatype SectionCode = SectionCode(text: string)

  datatype Step = Step(sequence: int, section: SectionCode, transit: bool, op: Op, flags: Flags)

  datatype Desired = Desired(key: StageKey, ops: seq<Op>, steps: seq<Step>, flags: Flags)

  function BySequence(): (Step, Step) -> bool {
    (a: Step, b: Step) => a.sequence <= b.sequence
  }

  predicate Known(sections: map<SectionCode, int>, step: Step) {
    step.section in sections
  }

  function KeyOf(sections: map<SectionCode, int>, step: Step): StageKey
    requires Known(sections, step)
  {
    var id := sections[step.section];
    if step.transit then StageKey(None, Some(id)) else StageKey(Some(id), None)
  }

  /** A stage made of these steps alone: one key, their operations in order. */
  ghost predicate IsRun(sections: map<SectionCode, int>, d: Desired) {
    && d.steps != [] && |d.ops| == |d.steps|
    && forall i :: 0 <= i < |d.steps| ==>
         Known(sections, d.steps[i]) && KeyOf(sections, d.steps[i]) == d.key && d.ops[i] == d.steps[i].op
  }

  /** A stage has a flag when one of its steps has it. */
  ghost predicate FlagsAreOr(d: Desired) {
    && (d.flags.significant <==> exists i :: 0 <= i < |d.steps| && d.steps[i].flags.significant)
    && (d.flags.transforms <==> exists i :: 0 <= i < |d.steps| && d.steps[i].flags.transforms)
    && (d.flags.final <==> exists i :: 0 <= i < |d.steps| && d.steps[i].flags.final)
  }

  function Flatten(stages: seq<Desired>): seq<Step> {
    if stages == [] then [] else Flatten(stages[..|stages| - 1]) + stages[|stages| - 1].steps
  }

  ghost predicate NeighboursDiffer(stages: seq<Desired>) {
    forall i :: 0 < i < |stages| ==> stages[i - 1].key != stages[i].key
  }

  /** Maximal runs of one key that read, one after the other, as the steps in order. */
  ghost predicate IsGrouping(sections: map<SectionCode, int>, stages: seq<Desired>, ordered: seq<Step>) {
    && Flatten(stages) == ordered
    && (forall i :: 0 <= i < |stages| ==> IsRun(sections, stages[i]))
    && NeighboursDiffer(stages)
  }

  ghost predicate IsSegmentation(sections: map<SectionCode, int>, stages: seq<Desired>, ordered: seq<Step>) {
    && IsGrouping(sections, stages, ordered)
    && forall i :: 0 <= i < |stages| ==> FlagsAreOr(stages[i])
  }

  ghost predicate AllKnown(sections: map<SectionCode, int>, steps: seq<Step>) {
    forall i :: 0 <= i < |steps| ==> Known(sections, steps[i])
  }

  // ----- one more step

  function Placed(sections: map<SectionCode, int>, stages: seq<Desired>, step: Step): seq<Desired>
    requires Known(sections, step)
  {
    var key, n := KeyOf(sections, step), |stages|;
    if n == 0 || stages[n - 1].key != key then stages + [Desired(key, [step.op], [step], step.flags)]
    else stages[n - 1 := stages[n - 1].(ops := stages[n - 1].ops + [step.op], steps := stages[n - 1].steps + [step])]
  }

  lemma OneMoreStep(sections: map<SectionCode, int>, stages: seq<Desired>, ordered: seq<Step>, step: Step)
    requires IsGrouping(sections, stages, ordered) && Known(sections, step)
    ensures IsGrouping(sections, Placed(sections, stages, step), ordered + [step])
  {
    var n, placed := |stages|, Placed(sections, stages, step);
    if n == 0 || stages[n - 1].key != KeyOf(sections, step) {
      assert placed[..n] == stages;
    } else {
      assert placed[..n - 1] == stages[..n - 1];
      assert Flatten(stages[..n - 1]) + (stages[n - 1].steps + [step]) ==
          Flatten(stages[..n - 1]) + stages[n - 1].steps + [step];
    }
  }

  function AnySignificant(steps: seq<Step>): (b: bool)
    ensures b <==> exists i :: 0 <= i < |steps| && steps[i].flags.significant
  {
    steps != [] && (steps[|steps| - 1].flags.significant || AnySignificant(steps[..|steps| - 1]))
  }

  function AnyTransforms(steps: seq<Step>): (b: bool)
    ensures b <==> exists i :: 0 <= i < |steps| && steps[i].flags.transforms
  {
    steps != [] && (steps[|steps| - 1].flags.transforms || AnyTransforms(steps[..|steps| - 1]))
  }

  function AnyFinal(steps: seq<Step>): (b: bool)
    ensures b <==> exists i :: 0 <= i < |steps| && steps[i].flags.final
  {
    steps != [] && (steps[|steps| - 1].flags.final || AnyFinal(steps[..|steps| - 1]))
  }

  function FlagsOf(steps: seq<Step>): Flags {
    Flags(AnySignificant(steps), AnyTransforms(steps), AnyFinal(steps))
  }

  method GroupSteps(ordered: seq<Step>, sections: map<SectionCode, int>) returns (stages: seq<Desired>)
    ensures if AllKnown(sections, ordered) then IsGrouping(sections, stages, ordered) else stages == []
  {
    stages := [];
    for i := 0 to |ordered|
      invariant AllKnown(sections, ordered[..i]) && IsGrouping(sections, stages, ordered[..i])
    {
      var step := ordered[i];
      if step.section !in sections { return []; }
      OneMoreStep(sections, stages, ordered[..i], step);
      assert ordered[..i + 1] == ordered[..i] + [step];
      stages := Placed(sections, stages, step);
    }
    assert ordered[..|ordered|] == ordered;
  }

  method SetFlags(stages: seq<Desired>) returns (flagged: seq<Desired>)
    ensures |flagged| == |stages|
    ensures forall i :: 0 <= i < |stages| ==> flagged[i] == stages[i].(flags := FlagsOf(stages[i].steps))
  {
    flagged := [];
    for i := 0 to |stages|
      invariant |flagged| == i
      invariant forall k :: 0 <= k < i ==> flagged[k] == stages[k].(flags := FlagsOf(stages[k].steps))
    {
      flagged := flagged + [stages[i].(flags := FlagsOf(stages[i].steps))];
    }
  }

  /** Groups the steps in sequence order; an unknown section gives no stages at all. */
  method DesiredStages(steps: seq<Step>, sections: map<SectionCode, int>) returns (stages: seq<Desired>)
    ensures AllKnown(sections, steps) ==> IsSegmentation(sections, stages, StableSort(steps, BySequence()))
    ensures !AllKnown(sections, steps) ==> stages == []
  {
    var ordered := StableSort(steps, BySequence());
    SameSteps(steps, sections);
    var grouped := GroupSteps(ordered, sections);
    stages := SetFlags(grouped);
    SameFlatten(grouped, stages);
  }

  lemma SameSteps(steps: seq<Step>, sections: map<SectionCode, int>)
    ensures AllKnown(sections, steps) <==> AllKnown(sections, StableSort(steps, BySequence()))
  {
    var ordered := StableSort(steps, BySequence());
    SortIsPermutation(steps, BySequence());
    if AllKnown(sections, steps) {
      forall i | 0 <= i < |ordered| ensures Known(sections, ordered[i]) {
        assert ordered[i] in multiset(ordered);
        assert ordered[i] in steps;
      }
    }
    if AllKnown(sections, ordered) {
      forall i | 0 <= i < |steps| ensures Known(sections, steps[i]) {
        assert steps[i] in multiset(steps);
        assert steps[i] in ordered;
      }
    }
  }

  lemma {:induction false} SameFlatten(a: seq<Desired>, b: seq<Desired>)
    requires |a| == |b| && forall i :: 0 <= i < |a| ==> a[i].steps == b[i].steps
    ensures Flatten(a) == Flatten(b)
  {
    if a != [] { SameFlatten(a[..|a| - 1], b[..|b| - 1]); }
  }

  // ----- keys and order, in terms of the steps

  /** A production step opens or extends a stage of its section, a transit step one of its storage. */
  lemma KeysFollowSteps(sections: map<SectionCode, int>, stages: seq<Desired>, ordered: seq<Step>, i: nat, step: Step)
    requires IsGrouping(sections, stages, ordered) && i < |stages| && step in stages[i].steps
    ensures step.section in sections
    ensures step.transit ==> stages[i].key == StageKey(None, Some(sections[step.section]))
    ensures !step.transit ==> stages[i].key == StageKey(Some(sections[step.section]), None)
  {
    assert IsRun(sections, stages[i]);
    var j :| 0 <= j < |stages[i].steps| && stages[i].steps[j] == step;
  }

  /** The steps are taken by their sequence, and steps of one sequence in the order they come. */
  lemma StepsInSequence(steps: seq<Step>, q: int)
    ensures var ordered := StableSort(steps, BySequence());
            var rank := (step: Step) => step.sequence;
            && multiset(ordered) == multiset(steps)
            && (forall i, j :: 0 <= i < j < |ordered| ==> ordered[i].sequence <= ordered[j].sequence)
            && AtRank(ordered, rank, q) == AtRank(steps, rank, q)
  {
    SortsByRank(steps, BySequence(), (step: Step) => step.sequence, q);
  }

  // ----- there is only one segmentation

  /** The step just before the last stage has another key. */
  lemma StepBeforeLastRun(sections: map<SectionCode, int>, a: seq<Desired>, ordered: seq<Step>)
    requires IsGrouping(sections, a, ordered) && a != [] && |a[|a| - 1].steps| < |ordered|
    ensures var step := ordered[|ordered| - |a[|a| - 1].steps| - 1];
            Known(sections, step) && KeyOf(sections, step) != a[|a| - 1].key
  {
    var at := |ordered| - |a[|a| - 1].steps| - 1;
    var front := a[..|a| - 1];
    assert |Flatten(front)| == at + 1 && Flatten(front)[at] == ordered[at];
    var before := front[|front| - 1];
    assert before == a[|a| - 2] && Flatten(front)[at] == before.steps[|before.steps| - 1];
  }

  lemma LastRunIsMaximal(sections: map<SectionCode, int>, a: seq<Desired>, b: seq<Desired>, ordered: seq<Step>)
    requires IsGrouping(sections, a, ordered) && IsGrouping(sections, b, ordered) && a != [] && b != []
    ensures |a[|a| - 1].steps| >= |b[|b| - 1].steps|
  {
    var last, other := a[|a| - 1], b[|b| - 1];
    assert ordered[|ordered| - 1] == last.steps[|last.steps| - 1] == other.steps[|other.steps| - 1];
    assert last.key == other.key;
    if |last.steps| < |other.steps| {
      var at := |ordered| - |last.steps| - 1;
      assert ordered[at] == other.steps[at - (|ordered| - |other.steps|)];
      assert KeyOf(sections, ordered[at]) == other.key;
      StepBeforeLastRun(sections, a, ordered);
    }
  }

  lemma LastRunsAgree(sections: map<SectionCode, int>, a: seq<Desired>, b: seq<Desired>, ordered: seq<Step>)
    requires IsGrouping(sections, a, ordered) && IsGrouping(sections, b, ordered) && a != [] && b != []
    ensures var m, n := |a| - 1, |b| - 1;
            a[m].steps == b[n].steps && a[m].key == b[n].key && a[m].ops == b[n].ops
                && Flatten(a[..m]) == Flatten(b[..n])
  {
    var m, n := |a| - 1, |b| - 1;
    LastRunIsMaximal(sections, a, b, ordered);
    LastRunIsMaximal(sections, b, a, ordered);
    var rest := |ordered| - |a[m].steps|;
    assert ordered[rest..] == a[m].steps == b[n].steps;
    assert ordered[..rest] == Flatten(a[..m]) == Flatten(b[..n]);
    assert KeyOf(sections, a[m].steps[0]) == a[m].key == b[n].key;
    assert a[m].ops == b[n].ops;
  }

  lemma FlagsAreDetermined(d: Desired, e: Desired)
    requires FlagsAreOr(d) && FlagsAreOr(e) && d.steps == e.steps
    ensures d.flags == e.flags
  {
  }

  lemma FrontIsSegmentation(sections: map<SectionCode, int>, a: seq<Desired>, ordered: seq<Step>)
    requires IsSegmentation(sections, a, ordered) && a != []
    ensures IsSegmentation(sections, a[..|a| - 1], Flatten(a[..|a| - 1]))
  {
  }

  lemma SameParts<T>(a: seq<T>, b: seq<T>)
    requires a != [] && b != [] && a[..|a| - 1] == b[..|b| - 1] && a[|a| - 1] == b[|b| - 1]
    ensures a == b
  {
    assert a == a[..|a| - 1] + [a[|a| - 1]] && b == b[..|b| - 1] + [b[|b| - 1]];
  }

  /** The steps determine the stages: keys, operations, steps and flags. */
  lemma {:induction false} SegmentationIsUnique(
    sections: map<SectionCode, int>, a: seq<Desired>, b: seq<Desired>, ordered: seq<Step>)
    requires IsSegmentation(sections, a, ordered) && IsSegmentation(sections, b, ordered)
    ensures a == b
  {
    NoStepsNoStages(sections, a, ordered);
    NoStepsNoStages(sections, b, ordered);
    if a != [] {
      LastRunsAgree(sections, a, b, ordered);
      FlagsAreDetermined(a[|a| - 1], b[|b| - 1]);
      FrontIsSegmentation(sections, a, ordered);
      FrontIsSegmentation(sections, b, ordered);
      SegmentationIsUnique(sections, a[..|a| - 1], b[..|b| - 1], Flatten(a[..|a| - 1]));
      SameParts(a, b);
    }
  }

  lemma NoStepsNoStages(sections: map<SectionCode, int>, stages: seq<Desired>, ordered: seq<Step>)
    requires IsGrouping(sections, stages, ordered)
    ensures stages == [] <==> ordered == []
  {
    if stages != [] { assert IsRun(sections, stages[|stages| - 1]); }
  }
}
