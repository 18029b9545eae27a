/** `repo_alembic_heads` of `scripts/e2e-db.py`: the single head of the migration graph, and what
    its being single says about every other revision. */
module MigrationHeads {
  import opened Text
  import opened Finite

  /** A revision identifier. */
  datatype Rev = Rev(text: string)

  /** The value of an assignment in a migration module: None, a string, a tuple or list, or something
      else together with its printed form. */
  datatype Literal = NoneValue | Name(rev: Rev) | Many(revs: seq<Rev>) | Other(shown: Rev)

  /** A migration file; a missing assignment is None. */
  datatype File = File(revision: Option<Literal>, down: Option<Literal>)

  datatype HeadError =
    | NoDirectory
    | MissingAssignment
    | UnreadableRevision
    | NoRevisions
    | UnknownParent
    | HeadCount(n: nat)

  // ----- reading one file

  predicate Readable(f: File) {
    f.revision.Some? && f.revision.value.Name? && f.revision.value.rev.text != "" && f.down.Some?
  }

  function Problem(f: File): HeadError
    requires !Readable(f)
  {
    if f.revision.None? then MissingAssignment
    else if !f.revision.value.Name? || f.revision.value.rev.text == "" then UnreadableRevision
    else MissingAssignment
  }

  function Revision(f: File): Rev
    requires Readable(f)
  {
    f.revision.value.rev
  }

  function Parents(f: File): seq<Rev>
    requires Readable(f)
  {
    match f.down.value
    case NoneValue => []
    case Name(r) => [r]
    case Many(rs) => rs
    case Other(shown) => [shown]
  }

  // ----- the graph

  ghost predicate AllReadable(files: seq<File>) {
    forall i :: 0 <= i < |files| ==> Readable(files[i])
  }

  ghost predicate IsRevision(files: seq<File>, r: Rev)
    requires AllReadable(files)
  {
    exists i :: 0 <= i < |files| && Revision(files[i]) == r
  }

  /** Some file of revision `child` names `parent`, alone or as one parent of a merge. */
  ghost predicate IsParent(files: seq<File>, parent: Rev, child: Rev)
    requires AllReadable(files)
  {
    exists i :: 0 <= i < |files| && Revision(files[i]) == child && parent in Parents(files[i])
  }

  ghost predicate HasChild(files: seq<File>, r: Rev)
    requires AllReadable(files)
  {
    exists i :: 0 <= i < |files| && r in Parents(files[i])
  }

  /** Each revision of the chain is a parent of the next. */
  ghost predicate Climbs(files: seq<File>, chain: seq<Rev>)
    requires AllReadable(files)
  {
    chain != [] && forall i :: 0 <= i < |chain| - 1 ==> IsParent(files, chain[i], chain[i + 1])
  }

  ghost predicate IsAncestor(files: seq<File>, r: Rev, of: Rev)
    requires AllReadable(files)
  {
    exists chain :: Climbs(files, chain) && chain[0] == r && chain[|chain| - 1] == of
  }

  ghost predicate OnCycle(files: seq<File>, r: Rev)
    requires AllReadable(files)
  {
    exists chain :: Climbs(files, chain) && |chain| >= 2 && chain[0] == chain[|chain| - 1] == r
  }

  // ----- the graph, in terms of the two assignments of each file

  /** The assignment of the parents names this one: alone, in a tuple or list, or as the text of anything else. */
  ghost predicate NamesParent(down: Literal, parent: Rev) {
    down == Name(parent) || (down.Many? && parent in down.revs) || down == Other(parent)
  }

  ghost predicate HasRevisionAndParents(f: File) {
    f.down.Some? && match f.revision case Some(Name(r)) => r.text != "" case _ => false
  }

  lemma ReadableIff(f: File)
    ensures Readable(f) <==> HasRevisionAndParents(f)
    ensures f.revision == None ==> !Readable(f) && Problem(f) == MissingAssignment
    ensures f.revision.Some? && !(f.revision.value.Name? && f.revision.value.rev.text != "") ==>
              !Readable(f) && Problem(f) == UnreadableRevision
    ensures f.revision.Some? && f.revision.value.Name? && f.revision.value.rev.text != "" && f.down == None ==>
              !Readable(f) && Problem(f) == MissingAssignment
  {
  }

  lemma RevisionIff(files: seq<File>, r: Rev)
    requires AllReadable(files)
    ensures IsRevision(files, r) <==> exists i :: 0 <= i < |files| && files[i].revision == Some(Name(r))
  {
    if IsRevision(files, r) {
      var i :| 0 <= i < |files| && Revision(files[i]) == r;
      assert files[i].revision == Some(Name(r));
    }
  }

  /** Parents, all of them: a merge revision has several. */
  lemma ParentIff(files: seq<File>, parent: Rev, child: Rev)
    requires AllReadable(files)
    ensures IsParent(files, parent, child) <==>
              exists i :: 0 <= i < |files| && files[i].revision == Some(Name(child)) &&
                          NamesParent(files[i].down.value, parent)
    ensures HasChild(files, parent) <==> exists i :: 0 <= i < |files| && NamesParent(files[i].down.value, parent)
  {
    forall i | 0 <= i < |files| ensures NamesParent(files[i].down.value, parent) <==> parent in Parents(files[i]) {
      assert Readable(files[i]);
    }
  }

  // ----- the check

  /** Exactly one revision is nobody's parent. */
  ghost predicate SingleHead(files: seq<File>, h: Rev)
    requires AllReadable(files)
  {
    forall r :: IsRevision(files, r) && !HasChild(files, r) <==> r == h
  }

  ghost predicate ParentsKnown(files: seq<File>)
    requires AllReadable(files)
  {
    forall r :: HasChild(files, r) ==> IsRevision(files, r)
  }

  ghost function Revisions(files: seq<File>): set<Rev>
    requires AllReadable(files)
  {
    set i | 0 <= i < |files| :: Revision(files[i])
  }

  ghost function Heads(files: seq<File>): set<Rev>
    requires AllReadable(files)
  {
    set r | r in Revisions(files) && !HasChild(files, r)
  }

  /** The files before this one can be read. */
  ghost predicate IsFirstProblem(files: seq<File>, i: int) {
    0 <= i < |files| && !Readable(files[i]) && AllReadable(files[..i])
  }

  method RepoAlembicHeads(isDirectory: bool, files: seq<File>) returns (r: Result<set<Rev>, HeadError>)
    ensures r.Success? <==> isDirectory && AllReadable(files) && ParentsKnown(files) && exists h :: SingleHead(files, h)
    ensures r.Success? ==> exists h :: r.value == {h} && SingleHead(files, h)
    ensures r == Failure(NoDirectory) <==> !isDirectory
    ensures isDirectory && !AllReadable(files) ==>
              exists i :: IsFirstProblem(files, i) && r == Failure(Problem(files[i]))
    ensures isDirectory && AllReadable(files) && r.Failure? ==>
              r == Failure(if files == [] then NoRevisions
                           else if !ParentsKnown(files) then UnknownParent
                           else HeadCount(|Heads(files)|))
  {
    if !isDirectory { return Failure(NoDirectory); }
    var revisions: set<Rev>, revises: set<Rev> := {}, {};
    for i := 0 to |files|
      invariant AllReadable(files[..i])
      invariant forall r :: r in revisions <==> IsRevision(files[..i], r)
      invariant forall r :: r in revises <==> HasChild(files[..i], r)
    {
      var f := files[i];
      if !Readable(f) {
        assert IsFirstProblem(files, i);
        return Failure(Problem(f));
      }
      OneMoreFile(files[..i], f);
      assert files[..i + 1] == files[..i] + [f];
      revisions := revisions + {Revision(f)};
      revises := revises + set p | p in Parents(f);
    }
    assert files[..|files|] == files;
    if revisions == {} {
      assert files != [] ==> IsRevision(files, Revision(files[0]));
      SingleHeadIs(files, {});
      return Failure(NoRevisions);
    }
    if revises - revisions != {} {
      ghost var p :| p in revises - revisions;
      assert HasChild(files, p) && !IsRevision(files, p);
      return Failure(UnknownParent);
    }
    forall r | HasChild(files, r) ensures IsRevision(files, r) { assert r !in revises - revisions; }
    var heads := set rev | rev in revisions && rev !in revises;
    SingleHeadIs(files, heads);
    assert heads == Heads(files) by {
      forall r ensures r in Revisions(files) <==> IsRevision(files, r) { RevisionsAre(files, r); }
    }
    if |heads| != 1 {
      return Failure(HeadCount(|heads|));
    }
    ghost var h :| h in heads;
    Singleton(heads, h);
    return Success(heads);
  }

  lemma RevisionsAre(files: seq<File>, r: Rev)
    requires AllReadable(files)
    ensures r in Revisions(files) <==> IsRevision(files, r)
  {
  }

  lemma SingleHeadIs(files: seq<File>, heads: set<Rev>)
    requires AllReadable(files)
    requires forall r :: r in heads <==> IsRevision(files, r) && !HasChild(files, r)
    ensures forall h :: SingleHead(files, h) <==> heads == {h}
  {
    forall h ensures SingleHead(files, h) <==> heads == {h} {
      if heads == {h} { assert forall r :: r in heads <==> r == h; }
    }
  }

  lemma Singleton(s: set<Rev>, x: Rev)
    requires |s| == 1 && x in s
    ensures s == {x}
  {
    assert |s - {x}| == 0;
  }

  lemma OneMoreFile(files: seq<File>, f: File)
    requires AllReadable(files) && Readable(f)
    ensures AllReadable(files + [f])
    ensures forall r :: IsRevision(files + [f], r) <==> IsRevision(files, r) || r == Revision(f)
    ensures forall r :: HasChild(files + [f], r) <==> HasChild(files, r) || r in Parents(f)
  {
    var all := files + [f];
    assert all[|files|] == f;
    forall i | 0 <= i < |files| ensures all[i] == files[i] {}
    forall r ensures IsRevision(all, r) <==> IsRevision(files, r) || r == Revision(f) {
      if IsRevision(files, r) { var i :| 0 <= i < |files| && Revision(files[i]) == r; assert Revision(all[i]) == r; }
      if IsRevision(all, r) {
        var i :| 0 <= i < |all| && Revision(all[i]) == r;
        assert i < |files| ==> Revision(files[i]) == r;
      }
      if r == Revision(f) { assert Revision(all[|files|]) == r; }
    }
    forall r ensures HasChild(all, r) <==> HasChild(files, r) || r in Parents(f) {
      if HasChild(files, r) { var i :| 0 <= i < |files| && r in Parents(files[i]); assert r in Parents(all[i]); }
      if HasChild(all, r) {
        var i :| 0 <= i < |all| && r in Parents(all[i]);
        assert i < |files| ==> r in Parents(files[i]);
      }
      if r in Parents(f) { assert r in Parents(all[|files|]); }
    }
  }

  // ----- what a single head means for the rest

  lemma NextUp(files: seq<File>, h: Rev, last: Rev) returns (child: Rev)
    requires AllReadable(files) && SingleHead(files, h) && IsRevision(files, last) && last != h
    ensures IsParent(files, last, child) && IsRevision(files, child)
  {
    assert HasChild(files, last);
    var i :| 0 <= i < |files| && last in Parents(files[i]);
    child := Revision(files[i]);
  }

  /** A chain that comes back to one of its revisions goes round a cycle. */
  lemma BackOnChain(files: seq<File>, chain: seq<Rev>, child: Rev)
    requires AllReadable(files) && Climbs(files, chain + [child]) && child in chain
    ensures IsAncestor(files, chain[0], child) && OnCycle(files, child)
  {
    var longer := chain + [child];
    var j :| 0 <= j < |chain| && chain[j] == child;
    SuffixClimbs(files, longer, j);
    var cycle := longer[j..];
    assert cycle[0] == child && cycle[|cycle| - 1] == child && |cycle| >= 2;
    assert longer[0] == chain[0] && longer[|longer| - 1] == child;
  }

  /** A simple chain of revisions. */
  ghost predicate IsSimple(files: seq<File>, chain: seq<Rev>)
    requires AllReadable(files)
  {
    Climbs(files, chain) && NoRepeats(chain) && forall r :: r in chain ==> r in Revisions(files)
  }

  lemma OneLonger(files: seq<File>, chain: seq<Rev>, child: Rev)
    requires AllReadable(files) && IsSimple(files, chain)
    requires IsParent(files, chain[|chain| - 1], child) && IsRevision(files, child) && child !in chain
    ensures IsSimple(files, chain + [child]) && |chain| < |Revisions(files)|
  {
    ClimbsOneMore(files, chain, child);
    RevisionsAre(files, child);
    NoRepeatsFits(chain + [child], Revisions(files));
  }

  /** Climbing from any revision ends at the head, or comes back to a revision it has met. */
  lemma {:induction false} Climb(files: seq<File>, h: Rev, chain: seq<Rev>) returns (end: Rev)
    requires AllReadable(files) && SingleHead(files, h) && IsSimple(files, chain)
    ensures IsAncestor(files, chain[0], end) && (end == h || (OnCycle(files, end) && IsRevision(files, end)))
    decreases |Revisions(files)| - |chain|
  {
    var last := chain[|chain| - 1];
    assert last in chain;
    RevisionsAre(files, last);
    if last == h {
      end := h;
    } else {
      var child := NextUp(files, h, last);
      if child in chain {
        ClimbsOneMore(files, chain, child);
        BackOnChain(files, chain, child);
        end := child;
      } else {
        OneLonger(files, chain, child);
        end := Climb(files, h, chain + [child]);
      }
    }
  }

  lemma ClimbsOneMore(files: seq<File>, chain: seq<Rev>, child: Rev)
    requires AllReadable(files) && Climbs(files, chain) && IsParent(files, chain[|chain| - 1], child)
    ensures Climbs(files, chain + [child])
  {
    var longer := chain + [child];
    forall k | 0 <= k < |longer| - 1 ensures IsParent(files, longer[k], longer[k + 1]) {
      assert k < |chain| - 1 ==> IsParent(files, chain[k], chain[k + 1]);
    }
  }

  lemma SuffixClimbs(files: seq<File>, chain: seq<Rev>, j: nat)
    requires AllReadable(files) && Climbs(files, chain) && j < |chain|
    ensures Climbs(files, chain[j..])
  {
    var suffix := chain[j..];
    forall k | 0 <= k < |suffix| - 1 ensures IsParent(files, suffix[k], suffix[k + 1]) {
      assert IsParent(files, chain[j + k], chain[j + k + 1]);
    }
  }

  lemma AncestorOfAncestor(files: seq<File>, a: Rev, b: Rev, c: Rev)
    requires AllReadable(files) && IsAncestor(files, a, b) && IsAncestor(files, b, c)
    ensures IsAncestor(files, a, c)
  {
    var p :| Climbs(files, p) && p[0] == a && p[|p| - 1] == b;
    var q :| Climbs(files, q) && q[0] == b && q[|q| - 1] == c;
    var joined := p + q[1..];
    forall i | 0 <= i < |joined| - 1 ensures IsParent(files, joined[i], joined[i + 1]) {
      if i < |p| - 1 {
        assert IsParent(files, p[i], p[i + 1]);
      } else {
        assert joined[i] == q[i - (|p| - 1)] && joined[i + 1] == q[i - (|p| - 1) + 1];
      }
    }
    assert Climbs(files, joined) && joined[|joined| - 1] == c;
  }

  /** From this revision one can climb to a revision that does not lead back. */
  ghost predicate CanBeLeft(files: seq<File>, r: Rev)
    requires AllReadable(files)
  {
    exists s :: IsAncestor(files, r, s) && !IsAncestor(files, s, r)
  }

  ghost predicate EveryCycleCanBeLeft(files: seq<File>)
    requires AllReadable(files)
  {
    forall r :: IsRevision(files, r) && OnCycle(files, r) ==> CanBeLeft(files, r)
  }

  /** The revisions that can be reached by climbing. */
  ghost function Above(files: seq<File>, r: Rev): set<Rev>
    requires AllReadable(files)
  {
    set s | s in Revisions(files) && IsAncestor(files, r, s)
  }

  lemma DescendantIsRevision(files: seq<File>, r: Rev, s: Rev)
    requires AllReadable(files) && IsRevision(files, r) && IsAncestor(files, r, s)
    ensures IsRevision(files, s)
  {
    var chain :| Climbs(files, chain) && chain[0] == r && chain[|chain| - 1] == s;
    if |chain| > 1 { assert IsParent(files, chain[|chain| - 2], chain[|chain| - 2 + 1]); }
  }

  lemma FirstHasChild(files: seq<File>, chain: seq<Rev>)
    requires AllReadable(files) && Climbs(files, chain) && |chain| >= 2
    ensures HasChild(files, chain[0])
  {
    assert IsParent(files, chain[0], chain[0 + 1]);
  }

  lemma NothingAboveHead(files: seq<File>, h: Rev, s: Rev)
    requires AllReadable(files) && SingleHead(files, h) && IsAncestor(files, h, s)
    ensures s == h
  {
    var chain :| Climbs(files, chain) && chain[0] == h && chain[|chain| - 1] == s;
    if |chain| >= 2 { FirstHasChild(files, chain); }
  }

  /** Leaving a cycle for good leaves fewer revisions above. */
  lemma FewerAbove(files: seq<File>, r: Rev, end: Rev, s: Rev)
    requires AllReadable(files) && IsRevision(files, end)
    requires IsAncestor(files, r, end) && IsAncestor(files, end, s) && !IsAncestor(files, s, end)
    ensures |Above(files, s)| < |Above(files, r)|
  {
    assert end in Revisions(files);
    forall t | t in Above(files, s) ensures t in Above(files, r) - {end} {
      AncestorOfAncestor(files, end, s, t);
      AncestorOfAncestor(files, r, end, t);
    }
    SubsetSize(Above(files, s), Above(files, r) - {end});
  }

  lemma {:induction false} LeavingLeadsToHead(files: seq<File>, h: Rev, r: Rev)
    requires AllReadable(files) && SingleHead(files, h) && IsRevision(files, r) && EveryCycleCanBeLeft(files)
    ensures IsAncestor(files, r, h)
    decreases |Above(files, r)|
  {
    assert r in Revisions(files);
    assert Climbs(files, [r]);
    var end := Climb(files, h, [r]);
    if end != h {
      assert CanBeLeft(files, end);
      var s :| IsAncestor(files, end, s) && !IsAncestor(files, s, end);
      DescendantIsRevision(files, end, s);
      FewerAbove(files, r, end, s);
      LeavingLeadsToHead(files, h, s);
      AncestorOfAncestor(files, r, end, s);
      AncestorOfAncestor(files, r, s, h);
    }
  }

  lemma HeadIsOnNoCycle(files: seq<File>, h: Rev)
    requires AllReadable(files) && SingleHead(files, h)
    ensures !OnCycle(files, h)
  {
    forall chain | Climbs(files, chain) && chain[0] == h ensures |chain| < 2 {
      if |chain| >= 2 { FirstHasChild(files, chain); }
    }
  }

  /** Every revision is an ancestor of the head if and only if every cycle can be left. */
  lemma HeadCoversAllIff(files: seq<File>, h: Rev)
    requires AllReadable(files) && SingleHead(files, h)
    ensures (forall r :: IsRevision(files, r) ==> IsAncestor(files, r, h)) <==> EveryCycleCanBeLeft(files)
  {
    if EveryCycleCanBeLeft(files) {
      forall r | IsRevision(files, r) ensures IsAncestor(files, r, h) { LeavingLeadsToHead(files, h, r); }
    }
    if forall r :: IsRevision(files, r) ==> IsAncestor(files, r, h) {
      forall r | IsRevision(files, r) && OnCycle(files, r) ensures CanBeLeft(files, r) {
        HeadIsOnNoCycle(files, h);
        if IsAncestor(files, h, r) { NothingAboveHead(files, h, r); }
      }
    }
  }

  /** Without cycles the returned head has every revision of the directory among its ancestors. */
  lemma HeadCoversAcyclic(files: seq<File>, h: Rev)
    requires AllReadable(files) && SingleHead(files, h)
    requires forall r :: IsRevision(files, r) ==> !OnCycle(files, r)
    ensures forall r :: IsRevision(files, r) ==> IsAncestor(files, r, h)
  {
    HeadCoversAllIff(files, h);
  }

  const A := Rev("a")
  const B := Rev("b")
  const C := Rev("c")

  function Detached(): seq<File> {
    [File(Some(Name(A)), Some(NoneValue)), File(Some(Name(B)), Some(Name(C))), File(Some(Name(C)), Some(Many([B])))]
  }

  lemma DetachedGraph()
    ensures A != B && A != C && AllReadable(Detached())
    ensures forall r :: IsRevision(Detached(), r) <==> r == A || r == B || r == C
    ensures forall r :: HasChild(Detached(), r) <==> r == B || r == C
    ensures forall p, c :: IsParent(Detached(), p, c) ==> c != A
  {
    var files := Detached();
    assert A.text[0] == 'a' && B.text[0] == 'b' && C.text[0] == 'c';
    assert Revision(files[0]) == A && Revision(files[1]) == B && Revision(files[2]) == C;
    assert Parents(files[0]) == [] && Parents(files[1]) == [C] && Parents(files[2]) == [B];
    forall r | r == B || r == C ensures HasChild(files, r) { assert B in Parents(files[2]) && C in Parents(files[1]); }
  }

  /** A cycle apart from the head is accepted, and the head does not cover it. */
  lemma DetachedCyclePasses()
    ensures AllReadable(Detached()) && ParentsKnown(Detached()) && SingleHead(Detached(), A)
    ensures IsRevision(Detached(), B) && !IsAncestor(Detached(), B, A)
  {
    DetachedGraph();
    forall chain | Climbs(Detached(), chain) && chain[0] == B ensures chain[|chain| - 1] != A {
      if |chain| > 1 { assert IsParent(Detached(), chain[|chain| - 2], chain[|chain| - 2 + 1]); }
    }
  }
}
