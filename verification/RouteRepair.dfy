/** `_existing_stages` and `_repair_route` of `backend/scripts/repair_route_operations.py`: a stored
    route is rewritten in place to the stages a rebuild gives, or left alone. */
module RouteRepair {
  import opened Text
  import opened StableSorting
  import opened RouteStages
  import opened Values

  datatype RouteOperation = RouteOperation(sequence: int, op: Op)

  datatype Stage = Stage(
    sequence: int, sectionId: Option<int>, storageId: Option<int>, operations: seq<RouteOperation>, flags: Flags)

  datatype Signature = Signature(text: string)

  datatype Code = Code(text: string)

  datatype Built = Built(name: Name, signature: Signature)

  const NO_SIGNATURE := Signature("")

  const NO_NAME := Name("")

  /** The signature service and the code derived from a signature; both belong to other files. */
  datatype Services = Services(encode: seq<Stage> -> Signature, autoCode: Signature -> Option<Code>)

  datatype RouteState = RouteState(name: Name, code: Option<Code>, signature: Option<Signature>, stages: seq<Stage>)

  // ----- reading the stored stages

  function ByStage(): (Stage, Stage) -> bool {
    (a: Stage, b: Stage) => a.sequence <= b.sequence
  }

  function ByOperation(): (RouteOperation, RouteOperation) -> bool {
    (a: RouteOperation, b: RouteOperation) => a.sequence <= b.sequence
  }

  function OpsIn(operations: seq<RouteOperation>): seq<Op> {
    seq(|operations|, i requires 0 <= i < |operations| => operations[i].op)
  }

  function OpsOf(stage: Stage): seq<Op> {
    OpsIn(StableSort(stage.operations, ByOperation()))
  }

  function StoredKey(stage: Stage): StageKey {
    if stage.sectionId.None? then StageKey(None, stage.storageId) else StageKey(stage.sectionId, None)
  }

  function Existing(stages: seq<Stage>): seq<Stage> {
    StableSort(stages, ByStage())
  }

  predicate SameKeys(desired: seq<Desired>, existing: seq<Stage>) {
    |desired| == |existing| && forall i :: 0 <= i < |desired| ==> desired[i].key == StoredKey(existing[i])
  }

  // ----- comparing

  datatype Flag = IsSignificant | TransformsDimensions | IsFinal

  datatype Note = OpsChange(stage: int) | FlagChange(stage: int, flag: Flag) | SignatureChange

  function StageNotes(want: Desired, have: Stage): seq<Note> {
    (if want.ops != OpsOf(have) then [OpsChange(have.sequence)] else [])
    + (if want.flags.significant != have.flags.significant then [FlagChange(have.sequence, IsSignificant)] else [])
    + (if want.flags.transforms != have.flags.transforms then [FlagChange(have.sequence, TransformsDimensions)] else [])
    + (if want.flags.final != have.flags.final then [FlagChange(have.sequence, IsFinal)] else [])
  }

  function Notes(desired: seq<Desired>, existing: seq<Stage>, n: nat): seq<Note>
    requires n <= |desired| == |existing|
  {
    if n == 0 then [] else Notes(desired, existing, n - 1) + StageNotes(desired[n - 1], existing[n - 1])
  }

  /** `route.route_signature or None`. */
  function Stored(signature: Option<Signature>): Option<Signature> {
    if signature == Some(NO_SIGNATURE) then None else signature
  }

  function SignatureNote(st: RouteState, built: Built): seq<Note> {
    if Stored(st.signature) != Some(built.signature) then [SignatureChange] else []
  }

  function AllNotes(st: RouteState, desired: seq<Desired>, built: Built): seq<Note>
    requires |desired| == |Existing(st.stages)|
  {
    Notes(desired, Existing(st.stages), |desired|) + SignatureNote(st, built)
  }

  // ----- writing

  function Numbered(ops: seq<Op>): seq<RouteOperation> {
    seq(|ops|, i requires 0 <= i < |ops| => RouteOperation(i + 1, ops[i]))
  }

  function Rewritten(want: Desired, have: Stage): Stage {
    have.(operations := if want.ops != OpsOf(have) then Numbered(want.ops) else have.operations, flags := want.flags)
  }

  function Written(desired: seq<Desired>, existing: seq<Stage>): (r: seq<Stage>)
    requires |desired| == |existing|
    ensures |r| == |desired| && forall i :: 0 <= i < |r| ==> r[i] == Rewritten(desired[i], existing[i])
  {
    seq(|desired|, i requires 0 <= i < |desired| => Rewritten(desired[i], existing[i]))
  }

  /** A route without stages has no signature at all. */
  function Refreshed(services: Services, stages: seq<Stage>): Option<Signature> {
    if stages == [] then None else Some(services.encode(stages))
  }

  datatype Verdict = KeysDiffer | Unchanged | DryRun | CodeTaken(holder: int) | RolledBack | Repaired

  datatype Report = Report(verdict: Verdict, notes: seq<Note>, newName: Option<Name>)

  function NewName(st: RouteState, built: Built): Option<Name> {
    if built.name != st.name then Some(built.name) else None
  }

  /** An empty name is found different, and then not written. */
  function WrittenName(st: RouteState, built: Built): Name {
    if built.name == NO_NAME then st.name else built.name
  }

  /** Some other route holds the code. */
  function Holder(taken: map<Code, int>, id: int, code: Option<Code>): Option<int> {
    if code.Some? && code.value in taken && taken[code.value] != id then Some(taken[code.value]) else None
  }

  function Judge(
    id: int, st: RouteState, desired: seq<Desired>, built: Built, services: Services, taken: map<Code, int>,
    execute: bool): Report
  {
    var existing := Existing(st.stages);
    if !SameKeys(desired, existing) then Report(KeysDiffer, [], None)
    else
      var notes, newName := AllNotes(st, desired, built), NewName(st, built);
      var holder := Holder(taken, id, services.autoCode(built.signature));
      if notes == [] && newName == None then Report(Unchanged, [], None)
      else if !execute then Report(DryRun, notes, newName)
      else if holder.Some? then Report(CodeTaken(holder.value), notes, newName)
      else if services.encode(Written(desired, existing)) != built.signature then Report(RolledBack, notes, newName)
      else Report(Repaired, notes, newName)
  }

  /** The route after a repair; every verdict but `Repaired` leaves it exactly as it was. */
  function After(
    id: int, st: RouteState, desired: seq<Desired>, built: Built, services: Services, taken: map<Code, int>,
    execute: bool)
    : RouteState
  {
    if Judge(id, st, desired, built, services, taken, execute).verdict != Repaired then st
    else
      var stages := Written(desired, Existing(st.stages));
      RouteState(WrittenName(st, built), services.autoCode(built.signature), Refreshed(services, stages), stages)
  }

  class Route {
    const id: int
    var name: Name
    var code: Option<Code>
    var signature: Option<Signature>
    var stages: seq<Stage>

    constructor (id: int, st: RouteState)
      ensures this.id == id && State() == st
    {
      this.id := id;
      name, code, signature, stages := st.name, st.code, st.signature, st.stages;
    }

    function State(): RouteState
      reads this
    {
      RouteState(name, code, signature, stages)
    }

    static method CompareStages(desired: seq<Desired>, existing: seq<Stage>) returns (notes: seq<Note>)
      requires |desired| == |existing|
      ensures notes == Notes(desired, existing, |desired|)
    {
      notes := [];
      for i := 0 to |desired|
        invariant notes == Notes(desired, existing, i)
      {
        notes := notes + StageNotes(desired[i], existing[i]);
      }
    }

    method WriteStages(desired: seq<Desired>, existing: seq<Stage>)
      requires |desired| == |existing|
      modifies this`stages
      ensures stages == Written(desired, existing)
    {
      stages := existing;
      for i := 0 to |desired|
        invariant |stages| == |existing|
        invariant forall k :: 0 <= k < i ==> stages[k] == Rewritten(desired[k], existing[k])
        invariant forall k :: i <= k < |stages| ==> stages[k] == existing[k]
      {
        stages := stages[i := Rewritten(desired[i], stages[i])];
      }
    }

    /** Writes stage by stage, refreshes name, code and signature, then checks the signature of what
        was written; a mismatch rolls the savepoint back. */
    method Repair(desired: seq<Desired>, built: Built, services: Services, taken: map<Code, int>, execute: bool)
      returns (report: Report)
      modifies this
      ensures report == Judge(id, old(State()), desired, built, services, taken, execute)
      ensures State() == After(id, old(State()), desired, built, services, taken, execute)
    {
      var savepoint := State();
      var existing := Existing(stages);
      if !SameKeys(desired, existing) { return Report(KeysDiffer, [], None); }
      var notes := CompareStages(desired, existing);
      notes := notes + SignatureNote(savepoint, built);
      var newName := NewName(savepoint, built);
      if notes == [] && newName == None { return Report(Unchanged, [], None); }
      if !execute { return Report(DryRun, notes, newName); }
      var newCode := services.autoCode(built.signature);
      var holder := Holder(taken, id, newCode);
      if holder.Some? { return Report(CodeTaken(holder.value), notes, newName); }
      WriteStages(desired, existing);
      if newName.Some? && newName.value != NO_NAME { name := newName.value; }
      code := newCode;
      signature := Refreshed(services, stages);
      if services.encode(stages) != built.signature {
        name, code, signature, stages := savepoint.name, savepoint.code, savepoint.signature, savepoint.stages;
        return Report(RolledBack, notes, newName);
      }
      return Report(Repaired, notes, newName);
    }
  }

  // ----- what the functions above say about the stored route

  /** A stored stage matches exactly the runs of production steps of its section, or, without a section, the
      runs of transit steps of its storage. */
  lemma StoredKeyMatches(sections: map<SectionCode, int>, d: Desired, stage: Stage)
    requires IsRun(sections, d)
    ensures forall j :: 0 <= j < |d.steps| ==> d.steps[j].section in sections
    ensures d.key == StoredKey(stage) <==>
              forall j :: 0 <= j < |d.steps| ==>
                var step := d.steps[j];
                if stage.sectionId.Some? then !step.transit && stage.sectionId == Some(sections[step.section])
                else step.transit && stage.storageId == Some(sections[step.section])
  {
    assert KeyOf(sections, d.steps[0]) == d.key;
  }

  /** Stages are compared by their sequence. */
  lemma StagesInSequence(stages: seq<Stage>, q: int)
    ensures var existing := Existing(stages);
            var rank := (stage: Stage) => stage.sequence;
            && multiset(existing) == multiset(stages)
            && (forall i, j :: 0 <= i < j < |existing| ==> existing[i].sequence <= existing[j].sequence)
            && AtRank(existing, rank, q) == AtRank(stages, rank, q)
  {
    SortsByRank(stages, ByStage(), (stage: Stage) => stage.sequence, q);
  }

  /** The operations of a stage are those of its rows, by their sequence. */
  lemma OperationsInSequence(stage: Stage, q: int) returns (ordered: seq<RouteOperation>)
    ensures |OpsOf(stage)| == |ordered| && forall i :: 0 <= i < |ordered| ==> OpsOf(stage)[i] == ordered[i].op
    ensures var rank := (operation: RouteOperation) => operation.sequence;
            && multiset(ordered) == multiset(stage.operations)
            && (forall i, j :: 0 <= i < j < |ordered| ==> ordered[i].sequence <= ordered[j].sequence)
            && AtRank(ordered, rank, q) == AtRank(stage.operations, rank, q)
  {
    ordered := StableSort(stage.operations, ByOperation());
    SortsByRank(stage.operations, ByOperation(), (operation: RouteOperation) => operation.sequence, q);
  }

  /** The note says something that differs between a stored stage and the desired one. */
  ghost predicate Differs(want: Desired, have: Stage, note: Note) {
    match note
    case OpsChange(stage) => stage == have.sequence && OpsOf(have) != want.ops
    case FlagChange(stage, flag) => stage == have.sequence && FlagDiffers(want.flags, have.flags, flag)
    case SignatureChange => false
  }

  ghost predicate FlagDiffers(want: Flags, have: Flags, flag: Flag) {
    match flag
    case IsSignificant => have.significant != want.significant
    case TransformsDimensions => have.transforms != want.transforms
    case IsFinal => have.final != want.final
  }

  lemma StageNoteIs(want: Desired, have: Stage, note: Note)
    ensures note in StageNotes(want, have) <==> Differs(want, have, note)
  {
  }

  function StageNotesAt(desired: seq<Desired>, existing: seq<Stage>): seq<seq<Note>>
    requires |desired| == |existing|
  {
    seq(|desired|, i requires 0 <= i < |desired| => StageNotes(desired[i], existing[i]))
  }

  function Joined<T>(lists: seq<seq<T>>, n: nat): seq<T>
    requires n <= |lists|
  {
    if n == 0 then [] else Joined(lists, n - 1) + lists[n - 1]
  }

  lemma {:induction false} NotesAreJoined(desired: seq<Desired>, existing: seq<Stage>, n: nat)
    requires n <= |desired| == |existing|
    ensures Notes(desired, existing, n) == Joined(StageNotesAt(desired, existing), n)
  {
    if n > 0 { NotesAreJoined(desired, existing, n - 1); }
  }

  lemma {:induction false} InJoined<T>(lists: seq<seq<T>>, n: nat, x: T)
    requires n <= |lists|
    ensures x in Joined(lists, n) <==> exists i :: 0 <= i < n && x in lists[i]
  {
    if n > 0 { InJoined(lists, n - 1, x); }
  }

  ghost predicate DiffersSomewhere(desired: seq<Desired>, existing: seq<Stage>, note: Note)
    requires |desired| == |existing|
  {
    exists i :: 0 <= i < |desired| && Differs(desired[i], existing[i], note)
  }

  /** The notes are the differences between the stored stages and the desired ones. */
  lemma NotesAre(desired: seq<Desired>, existing: seq<Stage>, note: Note)
    requires |desired| == |existing|
    ensures note in Notes(desired, existing, |desired|) <==> DiffersSomewhere(desired, existing, note)
  {
    var lists := StageNotesAt(desired, existing);
    NotesAreJoined(desired, existing, |desired|);
    InJoined(lists, |desired|, note);
    forall i | 0 <= i < |desired| ensures note in lists[i] <==> Differs(desired[i], existing[i], note) {
      StageNoteIs(desired[i], existing[i], note);
    }
  }

  /** Nothing about the route differs from the rebuild: no stage, not the signature, not the name. */
  ghost predicate NothingDiffers(st: RouteState, desired: seq<Desired>, built: Built)
    requires |desired| == |Existing(st.stages)|
  {
    && (forall i :: 0 <= i < |desired| ==> StageAgrees(desired[i], Existing(st.stages)[i]))
    && st.signature == Some(built.signature) && built.signature.text != ""
    && st.name == built.name
  }

  /** Another route has the code of the rebuilt signature. */
  ghost predicate CodeIsTaken(id: int, built: Built, services: Services, taken: map<Code, int>, holder: int) {
    var code := services.autoCode(built.signature);
    code.Some? && code.value in taken && taken[code.value] == holder && holder != id
  }

  ghost predicate StageAgrees(want: Desired, have: Stage) {
    OpsOf(have) == want.ops && have.flags == want.flags
  }

  lemma {:induction false} NothingNotedIff(desired: seq<Desired>, existing: seq<Stage>, n: nat)
    requires n <= |desired| == |existing|
    ensures Notes(desired, existing, n) == [] <==> forall i :: 0 <= i < n ==> StageAgrees(desired[i], existing[i])
  {
    if n > 0 {
      NothingNotedIff(desired, existing, n - 1);
      FlagsAgree(desired[n - 1], existing[n - 1]);
    }
  }

  lemma FlagsAgree(want: Desired, have: Stage)
    ensures StageNotes(want, have) == [] <==> StageAgrees(want, have)
  {
  }

  /** The outcome, in the order in which the conditions are looked at. */
  lemma VerdictIs(
    id: int, st: RouteState, desired: seq<Desired>, built: Built, services: Services, taken: map<Code, int>,
    execute: bool, holder: int)
    ensures var existing := Existing(st.stages);
            var verdict := Judge(id, st, desired, built, services, taken, execute).verdict;
            if |desired| != |existing| || exists i :: 0 <= i < |desired| && desired[i].key != StoredKey(existing[i])
            then verdict == KeysDiffer
            else if NothingDiffers(st, desired, built) then verdict == Unchanged
            else if !execute then verdict == DryRun
            else if CodeIsTaken(id, built, services, taken, holder) then verdict == CodeTaken(holder)
            else if exists other :: CodeIsTaken(id, built, services, taken, other) then verdict.CodeTaken?
            else if services.encode(Written(desired, existing)) != built.signature then verdict == RolledBack
            else verdict == Repaired
  {
    var existing := Existing(st.stages);
    if SameKeys(desired, existing) {
      NothingNotedIff(desired, existing, |desired|);
      NothingToSayIff(st, desired, built);
      HolderIs(id, built, services, taken);
    }
  }

  lemma NothingToSayIff(st: RouteState, desired: seq<Desired>, built: Built)
    requires |desired| == |Existing(st.stages)|
    ensures AllNotes(st, desired, built) == [] && NewName(st, built) == None <==> NothingDiffers(st, desired, built)
  {
    NothingNotedIff(desired, Existing(st.stages), |desired|);
  }

  lemma HolderIs(id: int, built: Built, services: Services, taken: map<Code, int>)
    ensures forall other ::
              Holder(taken, id, services.autoCode(built.signature)) == Some(other) <==>
              CodeIsTaken(id, built, services, taken, other)
  {
  }

  /** What is written into a stage: operations numbered from one where they differ, the flags, and no more. */
  lemma WrittenIs(desired: seq<Desired>, existing: seq<Stage>, i: nat)
    requires |desired| == |existing| && i < |desired|
    ensures var want, have, stage := desired[i], existing[i], Written(desired, existing)[i];
            && stage == have.(operations := stage.operations, flags := want.flags)
            && (OpsOf(have) == want.ops ==> stage.operations == have.operations)
            && (OpsOf(have) != want.ops ==>
                  && |stage.operations| == |want.ops|
                  && forall j :: 0 <= j < |want.ops| ==> stage.operations[j] == RouteOperation(j + 1, want.ops[j]))
  {
  }

  /** Name, code and signature after a repair; an empty name is not written, and no stages have no signature. */
  lemma RepairedFields(
    id: int, st: RouteState, desired: seq<Desired>, built: Built, services: Services, taken: map<Code, int>,
    execute: bool)
    ensures var after := After(id, st, desired, built, services, taken, execute);
            if Judge(id, st, desired, built, services, taken, execute).verdict == Repaired then
              && |desired| == |Existing(st.stages)|
              && after.stages == Written(desired, Existing(st.stages))
              && after.name == (if built.name.text == "" then st.name else built.name)
              && after.code == services.autoCode(built.signature)
              && after.signature == (if after.stages == [] then None else Some(services.encode(after.stages)))
            else after == st
  {
  }

  // ----- after a repair the stored stages are the desired ones

  lemma NumberedReadsBack(ops: seq<Op>)
    ensures OpsIn(StableSort(Numbered(ops), ByOperation())) == ops
  {
    SortedStays(Numbered(ops), ByOperation());
  }

  lemma WrittenStaysInOrder(desired: seq<Desired>, stages: seq<Stage>)
    requires |desired| == |Existing(stages)|
    ensures Existing(Written(desired, Existing(stages))) == Written(desired, Existing(stages))
  {
    SortIsStable(stages, ByStage());
    SortedStays(Written(desired, Existing(stages)), ByStage());
  }

  /** Read back, a repaired route has the keys, the operations and the flags that were desired. */
  lemma RepairedStagesAreDesired(
    id: int, st: RouteState, desired: seq<Desired>, built: Built, services: Services, taken: map<Code, int>,
    execute: bool)
    requires Judge(id, st, desired, built, services, taken, execute).verdict == Repaired
    ensures var stored := Existing(After(id, st, desired, built, services, taken, execute).stages);
            && SameKeys(desired, stored)
            && forall i :: 0 <= i < |desired| ==>
                 OpsOf(stored[i]) == desired[i].ops && stored[i].flags == desired[i].flags
  {
    var existing := Existing(st.stages);
    WrittenStaysInOrder(desired, st.stages);
    forall i | 0 <= i < |desired| ensures OpsOf(Rewritten(desired[i], existing[i])) == desired[i].ops {
      NumberedReadsBack(desired[i].ops);
    }
  }

  lemma {:induction false} NothingToNote(desired: seq<Desired>, existing: seq<Stage>, n: nat)
    requires n <= |desired| == |existing|
    requires forall i :: 0 <= i < |desired| ==>
               OpsOf(existing[i]) == desired[i].ops && existing[i].flags == desired[i].flags
    ensures Notes(desired, existing, n) == []
  {
    if n > 0 { NothingToNote(desired, existing, n - 1); }
  }

  /** What a repair has written. */
  lemma RepairedState(
    id: int, st: RouteState, desired: seq<Desired>, built: Built, services: Services, taken: map<Code, int>,
    execute: bool)
    requires Judge(id, st, desired, built, services, taken, execute).verdict == Repaired
    ensures |desired| == |Existing(st.stages)|
    ensures var after := After(id, st, desired, built, services, taken, execute);
            && after.stages == Written(desired, Existing(st.stages))
            && after.signature == Refreshed(services, after.stages)
            && after.name == WrittenName(st, built)
            && services.encode(after.stages) == built.signature
  {
  }

  lemma UnchangedIff(
    id: int, st: RouteState, desired: seq<Desired>, built: Built, services: Services, taken: map<Code, int>,
    execute: bool)
    requires SameKeys(desired, Existing(st.stages))
    ensures Judge(id, st, desired, built, services, taken, execute).verdict == Unchanged <==>
              AllNotes(st, desired, built) == [] && NewName(st, built) == None
  {
  }

  lemma SecondSignatureNote(services: Services, after: RouteState, built: Built)
    requires services.encode([]) == NO_SIGNATURE
    requires after.signature == Refreshed(services, after.stages) && services.encode(after.stages) == built.signature
    ensures SignatureNote(after, built) == if built.signature == NO_SIGNATURE then [SignatureChange] else []
  {
  }

  /** The same repair run again finds no operation and no flag to change. It finds nothing at all exactly
      when neither the rebuilt signature is empty, which is never found stored, nor the rebuilt name is an
      empty one that differs from the stored name, which is never written. */
  lemma SecondNotes(
    id: int, st: RouteState, desired: seq<Desired>, built: Built, services: Services, taken: map<Code, int>,
    execute: bool)
    requires services.encode([]) == NO_SIGNATURE
    requires Judge(id, st, desired, built, services, taken, execute).verdict == Repaired
    ensures var after := After(id, st, desired, built, services, taken, execute);
            && SameKeys(desired, Existing(after.stages))
            && Notes(desired, Existing(after.stages), |desired|) == []
            && AllNotes(after, desired, built) == (if built.signature == NO_SIGNATURE then [SignatureChange] else [])
            && (Judge(id, after, desired, built, services, taken, execute).verdict == Unchanged <==>
                  built.signature != NO_SIGNATURE && (built.name == NO_NAME ==> st.name == NO_NAME))
  {
    var after := After(id, st, desired, built, services, taken, execute);
    RepairedState(id, st, desired, built, services, taken, execute);
    RepairedStagesAreDesired(id, st, desired, built, services, taken, execute);
    NothingToNote(desired, Existing(after.stages), |desired|);
    SecondSignatureNote(services, after, built);
    UnchangedIff(id, after, desired, built, services, taken, execute);
  }

  /** A repaired route is found unchanged exactly when the rebuilt signature is not empty. A rebuild without
      a name never gets here: the caller passes it over. */
  lemma SecondRepair(
    id: int, st: RouteState, desired: seq<Desired>, built: Built, services: Services, taken: map<Code, int>,
    execute: bool)
    requires services.encode([]) == NO_SIGNATURE && built.name != NO_NAME
    requires Judge(id, st, desired, built, services, taken, execute).verdict == Repaired
    ensures var after := After(id, st, desired, built, services, taken, execute);
            var again := Judge(id, after, desired, built, services, taken, execute);
            && (again.verdict == Unchanged <==> built.signature != NO_SIGNATURE)
            && again.notes == if built.signature == NO_SIGNATURE then [SignatureChange] else []
  {
    SecondNotes(id, st, desired, built, services, taken, execute);
  }

  /** A route without stages, rebuilt without stages: every run repairs it anew. */
  lemma EmptyRouteIsRepairedAgain(id: int, name: Name, services: Services)
    requires services.encode([]) == NO_SIGNATURE && services.autoCode(NO_SIGNATURE) == None && name != NO_NAME
    ensures var st, built := RouteState(name, None, None, []), Built(name, NO_SIGNATURE);
            && Judge(id, st, [], built, services, map[], true).verdict == Repaired
            && After(id, st, [], built, services, map[], true) == st
  {
    var st, built := RouteState(name, None, None, []), Built(name, NO_SIGNATURE);
    assert Existing([]) == [] && Written([], []) == [];
    assert AllNotes(st, [], built) == [SignatureChange];
  }
}
