/** `canonicalize_dimensions` and `format_cut_layout` of `backend/app/domain/dimensions.py`: outputs of
    one length merge, and no quantity is lost. */
module CutLayout {
  import opened Text
  import opened StableSorting
  import opened Finite
  import opened Values

  const LENGTH_MM := Key("length_mm")

  /** A JSON value of a dimension: a finite number, an unusable value (a boolean, null or a non-finite
      number), or anything else, kept as its text. */
  datatype Value = Number(q: real) | Label(text: string) | Unusable

  type Dims = map<Key, Value>

  datatype DimError = Invalid | NotANumber

  datatype Output = Output(dims: Option<Dims>, quantity: Option<real>)

  // ----- canonical dimensions

  predicate GoodEntry(key: Key, value: Value) {
    Strip(key.text) != "" && !value.Unusable? && (value.Number? ==> value.q > 0.0)
  }

  predicate HasDims(raw: Option<Dims>) {
    raw.Some? && |raw.value| > 0
  }

  /** Both None and the empty object mean pieces without dimensions. Numbers are compared by value, so
      with exact numbers the canonical form of a valid object is the object. */
  function Canonical(raw: Option<Dims>): Result<Option<Dims>, DimError> {
    if !HasDims(raw) then Success(None)
    else if exists k :: k in raw.value && !GoodEntry(k, raw.value[k]) then Failure(Invalid)
    else Success(raw)
  }

  /** The canonical form is a fixpoint, and no dimensions is its one form of "no dimensions". */
  lemma CanonicalIsIdempotent(raw: Option<Dims>)
    requires Canonical(raw).Success?
    ensures Canonical(Canonical(raw).value) == Canonical(raw)
    ensures Canonical(raw).value.Some? <==> HasDims(raw)
  {
  }

  // ----- what each output contributes

  /** An output counts towards a length, is shown with its own dimensions, or is a number of pieces; a
      length that is not a number stops the layout. */
  datatype Share =
    | OfLength(mm: Mm, quantity: real)
    | OfOther(dims: Dims, quantity: real)
    | OfPieces(quantity: real)
    | Unreadable(quantity: real)

  /** A missing or unreadable quantity counts as nothing. */
  function Quantity(o: Output): real {
    if o.quantity.None? then 0.0 else o.quantity.value
  }

  function ReadLength(decimalOf: string -> Option<real>, value: Value): Option<real> {
    match value
    case Number(q) => Some(q)
    case Label(s) => decimalOf(s)
    case Unusable => None
  }

  function ShareOf(decimalOf: string -> Option<real>, o: Output): Share {
    if !HasDims(o.dims) then OfPieces(Quantity(o))
    else if LENGTH_MM !in o.dims.value then OfOther(o.dims.value, Quantity(o))
    else match ReadLength(decimalOf, o.dims.value[LENGTH_MM])
      case None => Unreadable(Quantity(o))
      case Some(mm) => OfLength(Mm(mm), Quantity(o))
  }

  function Shares(decimalOf: string -> Option<real>, outputs: seq<Output>): (shares: seq<Share>)
    ensures |shares| == |outputs|
  {
    if outputs == [] then []
    else Shares(decimalOf, outputs[..|outputs| - 1]) + [ShareOf(decimalOf, outputs[|outputs| - 1])]
  }

  // ----- the layout

  datatype LengthPart = LengthPart(mm: Mm, quantity: real)

  /** The columns of the screen: parts by length, then other dimensions, then pieces. */
  datatype Layout =
    | Nothing
    | InputOnly(input: Dims)
    | Parts(shown: Option<Dims>, lengths: seq<LengthPart>, others: seq<Share>, pieces: seq<Share>)

  function TotalStep(share: Share, mm: Mm): real {
    if share.OfLength? && share.mm == mm then share.quantity else 0.0
  }

  /** How much of this length there is. */
  function Total(shares: seq<Share>, mm: Mm): real {
    if shares == [] then 0.0 else Total(shares[..|shares| - 1], mm) + TotalStep(shares[|shares| - 1], mm)
  }

  function OthersStep(share: Share): seq<Share> {
    if share.OfOther? then [share] else []
  }

  /** The shares with dimensions but no length, as they come. */
  function Others(shares: seq<Share>): seq<Share> {
    if shares == [] then [] else Others(shares[..|shares| - 1]) + OthersStep(shares[|shares| - 1])
  }

  function PiecesStep(share: Share): seq<Share> {
    if share.OfPieces? then [share] else []
  }

  /** The shares without dimensions, as they come. */
  function Pieces(shares: seq<Share>): seq<Share> {
    if shares == [] then [] else Pieces(shares[..|shares| - 1]) + PiecesStep(shares[|shares| - 1])
  }

  ghost predicate HasLength(shares: seq<Share>, mm: Mm) {
    exists i :: 0 <= i < |shares| && shares[i].OfLength? && shares[i].mm == mm
  }

  ghost predicate HasPart(parts: seq<LengthPart>, mm: Mm) {
    exists i :: 0 <= i < |parts| && parts[i].mm == mm
  }

  ghost predicate Ascending(parts: seq<LengthPart>) {
    forall i, j :: 0 <= i < j < |parts| ==> parts[i].mm.value < parts[j].mm.value
  }

  /** One part per length that occurs, strictly ascending, each with the total of its length. */
  ghost predicate IsMerge(shares: seq<Share>, parts: seq<LengthPart>) {
    && Ascending(parts)
    && (forall mm :: HasPart(parts, mm) <==> HasLength(shares, mm))
    && (forall i :: 0 <= i < |parts| ==> parts[i].quantity == Total(shares, parts[i].mm))
  }

  ghost predicate AllValid(input: Option<Dims>, outputs: seq<Output>) {
    Canonical(input).Success? && forall i :: 0 <= i < |outputs| ==> Canonical(outputs[i].dims).Success?
  }

  predicate AllReadable(shares: seq<Share>) {
    forall i :: 0 <= i < |shares| ==> !shares[i].Unreadable?
  }

  /** Nothing is really cut: no outputs, or every output has the dimensions of the input. */
  predicate NoTransformation(input: Option<Dims>, outputs: seq<Output>) {
    HasDims(input) && forall i :: 0 <= i < |outputs| ==> HasDims(outputs[i].dims) && outputs[i].dims == input
  }

  /** A label in place of the only length cannot be printed in metres. */
  predicate Printable(decimalOf: string -> Option<real>, input: Option<Dims>) {
    HasDims(input) && input.value.Keys == {LENGTH_MM} ==> ReadLength(decimalOf, input.value[LENGTH_MM]).Some?
  }

  // ----- the same, in terms of the outputs

  /** A blank key, an unusable value and a number that is not positive are refused, everywhere. */
  ghost predicate IsRefused(key: Key, value: Value) {
    Blank(key.text) || value.Unusable? || (value.Number? && value.q <= 0.0)
  }

  lemma CanonicalIs(raw: Option<Dims>)
    ensures raw == None || |raw.value| == 0 ==> Canonical(raw) == Success(None) && !HasDims(raw)
    ensures raw.Some? && |raw.value| > 0 ==>
              && HasDims(raw)
              && Canonical(raw) == if exists k :: k in raw.value && IsRefused(k, raw.value[k])
                                   then Failure(Invalid) else Success(raw)
  {
    if raw.Some? {
      forall k | k in raw.value ensures IsRefused(k, raw.value[k]) <==> !GoodEntry(k, raw.value[k]) {
        RefusedIff(k, raw.value[k]);
      }
    }
  }

  lemma RefusedIff(key: Key, value: Value)
    ensures IsRefused(key, value) <==> !GoodEntry(key, value)
  {
    if Blank(key.text) { StripBlank(key.text); } else { StripKeepsSomething(key.text); }
  }

  ghost function Amount(o: Output): real {
    match o.quantity case None => 0.0 case Some(q) => q
  }

  ghost predicate IsDimensionless(o: Output) {
    o.dims == None || |o.dims.value| == 0
  }

  /** What the output says about its length. */
  ghost function LengthValue(o: Output): Option<Value> {
    if o.dims.Some? && Key("length_mm") in o.dims.value then Some(o.dims.value[Key("length_mm")]) else None
  }

  /** The output has this length, as a number or as a label that reads as one. */
  ghost predicate Measures(decimalOf: string -> Option<real>, o: Output, mm: real) {
    match LengthValue(o)
    case Some(Number(q)) => q == mm
    case Some(Label(s)) => decimalOf(s) == Some(mm)
    case _ => false
  }

  lemma ShareIs(decimalOf: string -> Option<real>, o: Output, mm: real)
    ensures var share := ShareOf(decimalOf, o);
            && share.quantity == Amount(o)
            && (Measures(decimalOf, o, mm) <==> share.OfLength? && share.mm == Mm(mm))
            && (IsDimensionless(o) <==> share.OfPieces?)
            && (!IsDimensionless(o) && LengthValue(o) == None <==> share.OfOther?)
            && (share.OfOther? ==> Some(share.dims) == o.dims)
  {
  }

  lemma {:induction false} ShareAt(decimalOf: string -> Option<real>, outputs: seq<Output>, i: nat)
    requires i < |outputs|
    ensures Shares(decimalOf, outputs)[i] == ShareOf(decimalOf, outputs[i])
  {
    if i < |outputs| - 1 { ShareAt(decimalOf, outputs[..|outputs| - 1], i); }
  }

  /** The quantities of all outputs of one length. */
  ghost function Held(decimalOf: string -> Option<real>, outputs: seq<Output>, mm: real): real {
    if outputs == [] then 0.0
    else
      var o := outputs[|outputs| - 1];
      Held(decimalOf, outputs[..|outputs| - 1], mm) + if Measures(decimalOf, o, mm) then Amount(o) else 0.0
  }

  lemma {:induction false} TotalIsHeld(decimalOf: string -> Option<real>, outputs: seq<Output>, mm: real)
    ensures Total(Shares(decimalOf, outputs), Mm(mm)) == Held(decimalOf, outputs, mm)
  {
    if outputs != [] {
      var shares, n := Shares(decimalOf, outputs), |outputs| - 1;
      TotalIsHeld(decimalOf, outputs[..n], mm);
      ShareIs(decimalOf, outputs[n], mm);
      assert shares[..n] == Shares(decimalOf, outputs[..n]);
    }
  }

  lemma HasLengthIff(decimalOf: string -> Option<real>, outputs: seq<Output>, mm: real)
    ensures HasLength(Shares(decimalOf, outputs), Mm(mm)) <==>
              exists i :: 0 <= i < |outputs| && Measures(decimalOf, outputs[i], mm)
  {
    var shares := Shares(decimalOf, outputs);
    forall i | 0 <= i < |outputs|
      ensures Measures(decimalOf, outputs[i], mm) <==> shares[i].OfLength? && shares[i].mm == Mm(mm)
    {
      ShareAt(decimalOf, outputs, i);
      ShareIs(decimalOf, outputs[i], mm);
    }
  }

  /** The parts of the layout by length, in terms of the outputs. */
  lemma PartsAreHeld(decimalOf: string -> Option<real>, outputs: seq<Output>, parts: seq<LengthPart>, mm: real)
    requires IsMerge(Shares(decimalOf, outputs), parts)
    ensures HasPart(parts, Mm(mm)) <==> exists i :: 0 <= i < |outputs| && Measures(decimalOf, outputs[i], mm)
    ensures forall k :: 0 <= k < |parts| && parts[k].mm == Mm(mm) ==> parts[k].quantity == Held(decimalOf, outputs, mm)
  {
    HasLengthIff(decimalOf, outputs, mm);
    TotalIsHeld(decimalOf, outputs, mm);
  }

  /** The outputs with dimensions but no length, as they come. */
  ghost function Sized(outputs: seq<Output>): seq<Output> {
    if outputs == [] then []
    else
      var o := outputs[|outputs| - 1];
      Sized(outputs[..|outputs| - 1]) + if !IsDimensionless(o) && LengthValue(o) == None then [o] else []
  }

  /** The outputs without dimensions, as they come. */
  ghost function Unsized(outputs: seq<Output>): seq<Output> {
    if outputs == [] then []
    else
      var o := outputs[|outputs| - 1];
      Unsized(outputs[..|outputs| - 1]) + if IsDimensionless(o) then [o] else []
  }

  lemma ShareOfLast(decimalOf: string -> Option<real>, outputs: seq<Output>)
    requires outputs != []
    ensures var shares, n := Shares(decimalOf, outputs), |outputs| - 1;
            shares[..n] == Shares(decimalOf, outputs[..n]) && shares[n] == ShareOf(decimalOf, outputs[n])
  {
  }

  /** The other two columns, in terms of the outputs. */
  lemma {:induction false} OthersAreSized(decimalOf: string -> Option<real>, outputs: seq<Output>)
    ensures var others, sized := Others(Shares(decimalOf, outputs)), Sized(outputs);
            && |others| == |sized|
            && forall i :: 0 <= i < |sized| ==> others[i].OfOther? && Some(others[i].dims) == sized[i].dims &&
                                                others[i].quantity == Amount(sized[i])
  {
    if outputs != [] {
      OthersAreSized(decimalOf, outputs[..|outputs| - 1]);
      ShareOfLast(decimalOf, outputs);
      ShareIs(decimalOf, outputs[|outputs| - 1], 0.0);
    }
  }

  lemma {:induction false} PiecesAreUnsized(decimalOf: string -> Option<real>, outputs: seq<Output>)
    ensures var pieces, unsized := Pieces(Shares(decimalOf, outputs)), Unsized(outputs);
            && |pieces| == |unsized|
            && forall i :: 0 <= i < |unsized| ==> pieces[i] == OfPieces(Amount(unsized[i]))
  {
    if outputs != [] {
      PiecesAreUnsized(decimalOf, outputs[..|outputs| - 1]);
      ShareOfLast(decimalOf, outputs);
      ShareIs(decimalOf, outputs[|outputs| - 1], 0.0);
    }
  }

  /** A length that is neither a number nor a label that reads as one. */
  ghost predicate HasUnreadableLength(decimalOf: string -> Option<real>, o: Output) {
    match LengthValue(o)
    case None => false
    case Some(Number(_)) => false
    case Some(Label(s)) => decimalOf(s) == None
    case Some(Unusable) => true
  }

  lemma ReadableIff(decimalOf: string -> Option<real>, outputs: seq<Output>)
    ensures AllReadable(Shares(decimalOf, outputs)) <==>
              forall i :: 0 <= i < |outputs| ==> !HasUnreadableLength(decimalOf, outputs[i])
  {
    forall i | 0 <= i < |outputs|
      ensures HasUnreadableLength(decimalOf, outputs[i]) <==> Shares(decimalOf, outputs)[i].Unreadable?
    {
      ShareAt(decimalOf, outputs, i);
    }
  }

  /** When the input alone is shown, and when its label cannot be printed. */
  lemma InputIs(decimalOf: string -> Option<real>, input: Option<Dims>, outputs: seq<Output>)
    ensures NoTransformation(input, outputs) <==>
              input.Some? && |input.value| > 0 && forall i :: 0 <= i < |outputs| ==> outputs[i].dims == input
    ensures Printable(decimalOf, input) <==>
              !(input.Some? && input.value.Keys == {Key("length_mm")} &&
                match input.value[Key("length_mm")]
                case Number(_) => false
                case Label(s) => decimalOf(s) == None
                case Unusable => true)
  {
    if input.Some? && input.value.Keys == {Key("length_mm")} {
      assert Key("length_mm") in input.value;
      assert |input.value| > 0;
    }
  }

  // ----- merging

  function ByLength(): (Mm, Mm) -> bool {
    (a: Mm, b: Mm) => a.value <= b.value
  }

  /** The dictionary `merged`, with its keys in insertion order. */
  ghost predicate IsMerged(shares: seq<Share>, keys: seq<Mm>, merged: map<Mm, real>) {
    && NoRepeats(keys)
    && (forall mm :: mm in keys <==> HasLength(shares, mm))
    && (forall mm :: mm in keys <==> mm in merged)
    && (forall mm :: mm in merged ==> merged[mm] == Total(shares, mm))
  }

  lemma OneMoreShare(shares: seq<Share>, s: Share, mm: Mm)
    ensures HasLength(shares + [s], mm) <==> HasLength(shares, mm) || (s.OfLength? && s.mm == mm)
    ensures Total(shares + [s], mm) == Total(shares, mm) + TotalStep(s, mm)
  {
    var all := shares + [s];
    assert all[..|all| - 1] == shares && all[|shares|] == s;
    if HasLength(shares, mm) {
      var i :| 0 <= i < |shares| && shares[i].OfLength? && shares[i].mm == mm;
      assert all[i] == shares[i];
    }
  }

  lemma {:induction false} NoLengthNoTotal(shares: seq<Share>, mm: Mm)
    requires !HasLength(shares, mm)
    ensures Total(shares, mm) == 0.0
  {
    if shares != [] {
      var front, s := shares[..|shares| - 1], shares[|shares| - 1];
      assert shares == front + [s];
      OneMoreShare(front, s, mm);
      NoLengthNoTotal(front, mm);
    }
  }

  /** `merged[length] = merged.get(length, 0) + quantity`: a new key goes to the end. */
  function AddKey(keys: seq<Mm>, merged: map<Mm, real>, mm: Mm): seq<Mm> {
    if mm in merged then keys else keys + [mm]
  }

  function AddQuantity(merged: map<Mm, real>, mm: Mm, quantity: real): map<Mm, real> {
    merged[mm := (if mm in merged then merged[mm] else 0.0) + quantity]
  }

  lemma MergeNothing(shares: seq<Share>, s: Share, keys: seq<Mm>, merged: map<Mm, real>)
    requires IsMerged(shares, keys, merged) && !s.OfLength?
    ensures IsMerged(shares + [s], keys, merged)
  {
    forall mm { OneMoreShare(shares, s, mm); }
  }

  lemma MergeLength(shares: seq<Share>, s: Share, keys: seq<Mm>, merged: map<Mm, real>)
    requires IsMerged(shares, keys, merged) && s.OfLength?
    ensures IsMerged(shares + [s], AddKey(keys, merged, s.mm), AddQuantity(merged, s.mm, s.quantity))
  {
    var after := AddQuantity(merged, s.mm, s.quantity);
    forall mm
      ensures HasLength(shares + [s], mm) <==> mm in merged || mm == s.mm
      ensures mm in after ==> after[mm] == Total(shares + [s], mm)
    {
      OneMoreShare(shares, s, mm);
      assert mm in keys <==> mm in merged;
      if mm !in merged { NoLengthNoTotal(shares, mm); }
    }
  }

  lemma SharesOneMore(decimalOf: string -> Option<real>, outputs: seq<Output>, i: nat)
    requires i < |outputs|
    ensures Shares(decimalOf, outputs[..i + 1]) == Shares(decimalOf, outputs[..i]) + [ShareOf(decimalOf, outputs[i])]
  {
    assert outputs[..i + 1][..i] == outputs[..i];
  }

  lemma StepOne(shares: seq<Share>, s: Share)
    ensures Others(shares + [s]) == Others(shares) + OthersStep(s)
    ensures Pieces(shares + [s]) == Pieces(shares) + PiecesStep(s)
    ensures AllReadable(shares + [s]) <==> AllReadable(shares) && !s.Unreadable?
  {
    assert (shares + [s])[..|shares|] == shares;
    assert (shares + [s])[|shares|] == s;
    if AllReadable(shares + [s]) {
      assert forall i :: 0 <= i < |shares| ==> shares[i] == (shares + [s])[i];
    }
  }

  lemma {:induction false} UnreadablePrefix(decimalOf: string -> Option<real>, outputs: seq<Output>, i: nat)
    requires i <= |outputs| && !AllReadable(Shares(decimalOf, outputs[..i]))
    ensures !AllReadable(Shares(decimalOf, outputs))
    decreases |outputs| - i
  {
    if i == |outputs| {
      assert outputs[..i] == outputs;
    } else {
      SharesOneMore(decimalOf, outputs, i);
      StepOne(Shares(decimalOf, outputs[..i]), ShareOf(decimalOf, outputs[i]));
      UnreadablePrefix(decimalOf, outputs, i + 1);
    }
  }

  /** The state of the loop after one more share. */
  ghost predicate MergedSoFar(shares: seq<Share>, keys: seq<Mm>, merged: map<Mm, real>, others: seq<Share>) {
    AllReadable(shares) && IsMerged(shares, keys, merged) && others == Others(shares)
  }

  lemma MergeStep(shares: seq<Share>, s: Share, keys: seq<Mm>, merged: map<Mm, real>, others: seq<Share>)
    requires MergedSoFar(shares, keys, merged, others)
    ensures match s
            case Unreadable(_) => !AllReadable(shares + [s])
            case OfLength(mm, q) =>
              MergedSoFar(shares + [s], AddKey(keys, merged, mm), AddQuantity(merged, mm, q), others)
            case OfOther(_, _) => MergedSoFar(shares + [s], keys, merged, others + [s])
            case OfPieces(_) => MergedSoFar(shares + [s], keys, merged, others)
  {
    StepOne(shares, s);
    if s.OfLength? { MergeLength(shares, s, keys, merged); } else { MergeNothing(shares, s, keys, merged); }
  }

  /** The merging loop: adds up by length, and collects what has no length. */
  method Merge(decimalOf: string -> Option<real>, outputs: seq<Output>)
    returns (ok: bool, keys: seq<Mm>, merged: map<Mm, real>, others: seq<Share>)
    ensures ok <==> AllReadable(Shares(decimalOf, outputs))
    ensures ok ==> MergedSoFar(Shares(decimalOf, outputs), keys, merged, others)
  {
    ok, keys, merged, others := true, [], map[], [];
    for i := 0 to |outputs|
      invariant MergedSoFar(Shares(decimalOf, outputs[..i]), keys, merged, others)
    {
      var s := ShareOf(decimalOf, outputs[i]);
      SharesOneMore(decimalOf, outputs, i);
      MergeStep(Shares(decimalOf, outputs[..i]), s, keys, merged, others);
      match s
      case Unreadable(_) =>
        UnreadablePrefix(decimalOf, outputs, i + 1);
        return false, keys, merged, others;
      case OfLength(mm, quantity) =>
        keys, merged := AddKey(keys, merged, mm), AddQuantity(merged, mm, quantity);
      case OfOther(_, _) =>
        others := others + [s];
      case OfPieces(_) =>
    }
    assert outputs[..|outputs|] == outputs;
  }

  lemma SortedKeys(keys: seq<Mm>)
    requires NoRepeats(keys)
    ensures var s := StableSort(keys, ByLength());
            && |s| == |keys| && (forall mm :: mm in s <==> mm in keys)
            && forall i, j :: 0 <= i < j < |s| ==> s[i].value < s[j].value
  {
    var s := StableSort(keys, ByLength());
    SortIsPermutation(keys, ByLength());
    SortIsStable(keys, ByLength());
    forall mm ensures mm in s <==> mm in keys {
      assert mm in s <==> mm in multiset(s);
      assert mm in keys <==> mm in multiset(keys);
    }
    forall i, j | 0 <= i < j < |s| ensures s[i] != s[j] {
      OccursOnce(keys, s[i]);
      if s[i] == s[j] { OccursTwice(s, i, j); }
    }
  }

  lemma {:induction false} OccursOnce(s: seq<Mm>, x: Mm)
    requires NoRepeats(s)
    ensures multiset(s)[x] <= 1
  {
    if s != [] {
      var front, last := s[..|s| - 1], s[|s| - 1];
      assert s == front + [last];
      assert last !in front;
      OccursOnce(front, x);
    }
  }

  lemma OccursTwice(s: seq<Mm>, i: nat, j: nat)
    requires i < j < |s| && s[i] == s[j]
    ensures multiset(s)[s[i]] >= 2
  {
    assert s == s[..j] + s[j..];
    assert s[i] in s[..j] && s[j] in s[j..];
    assert s[..j][i] == s[i] && s[j..][0] == s[j];
  }

  function PartsOf(sorted: seq<Mm>, merged: map<Mm, real>): seq<LengthPart> {
    seq(|sorted|, i requires 0 <= i < |sorted| =>
        LengthPart(sorted[i], if sorted[i] in merged then merged[sorted[i]] else 0.0))
  }

  lemma PartsHave(sorted: seq<Mm>, merged: map<Mm, real>, mm: Mm)
    ensures HasPart(PartsOf(sorted, merged), mm) <==> mm in sorted
  {
    var parts := PartsOf(sorted, merged);
    if mm in sorted {
      var i :| 0 <= i < |sorted| && sorted[i] == mm;
      assert parts[i].mm == mm;
    }
    if HasPart(parts, mm) {
      var i :| 0 <= i < |parts| && parts[i].mm == mm;
      assert sorted[i] == mm;
    }
  }

  lemma PartsAreAMerge(shares: seq<Share>, keys: seq<Mm>, merged: map<Mm, real>)
    requires IsMerged(shares, keys, merged)
    ensures IsMerge(shares, PartsOf(StableSort(keys, ByLength()), merged))
  {
    var sorted := StableSort(keys, ByLength());
    SortedKeys(keys);
    forall i | 0 <= i < |sorted| ensures sorted[i] in merged { assert sorted[i] in sorted; }
    forall mm ensures HasPart(PartsOf(sorted, merged), mm) <==> HasLength(shares, mm) {
      PartsHave(sorted, merged, mm);
      assert mm in keys <==> mm in sorted;
    }
  }

  method FormatCutLayout(decimalOf: string -> Option<real>, input: Option<Dims>, outputs: seq<Output>)
    returns (r: Result<Layout, DimError>)
    ensures r == Failure(Invalid) <==> !AllValid(input, outputs)
    ensures r == Failure(NotANumber) ==>
              !Printable(decimalOf, input) || !AllReadable(Shares(decimalOf, outputs))
    ensures r == Success(Nothing) <==>
              && AllValid(input, outputs) && !HasDims(input)
              && forall i :: 0 <= i < |outputs| ==> !HasDims(outputs[i].dims)
    ensures r.Success? && r.value.InputOnly? <==>
              AllValid(input, outputs) && NoTransformation(input, outputs) && Printable(decimalOf, input)
    ensures r.Success? && r.value.InputOnly? ==> Some(r.value.input) == input
    ensures r.Success? && r.value.Parts? ==>
              && r.value.shown == (if HasDims(input) then input else None)
              && Printable(decimalOf, input) && AllReadable(Shares(decimalOf, outputs))
              && IsMerge(Shares(decimalOf, outputs), r.value.lengths)
              && r.value.others == Others(Shares(decimalOf, outputs))
              && r.value.pieces == Pieces(Shares(decimalOf, outputs))
  {
    if Canonical(input).Failure? || exists i :: 0 <= i < |outputs| && Canonical(outputs[i].dims).Failure? {
      return Failure(Invalid);
    }
    if !HasDims(input) && forall i :: 0 <= i < |outputs| ==> !HasDims(outputs[i].dims) {
      return Success(Nothing);
    }
    if NoTransformation(input, outputs) {
      return if Printable(decimalOf, input) then Success(InputOnly(input.value)) else Failure(NotANumber);
    }
    var ok, keys, merged, others := Merge(decimalOf, outputs);
    if !ok || !Printable(decimalOf, input) { return Failure(NotANumber); }
    PartsAreAMerge(Shares(decimalOf, outputs), keys, merged);
    return Success(Parts(if HasDims(input) then input else None,
                         PartsOf(StableSort(keys, ByLength()), merged), others, Pieces(Shares(decimalOf, outputs))));
  }

  // ----- conservation

  function Sum(shares: seq<Share>): real {
    if shares == [] then 0.0 else Sum(shares[..|shares| - 1]) + shares[|shares| - 1].quantity
  }

  function SumParts(parts: seq<LengthPart>): real {
    if parts == [] then 0.0 else SumParts(parts[..|parts| - 1]) + parts[|parts| - 1].quantity
  }

  ghost function SumOutputs(outputs: seq<Output>): real {
    if outputs == [] then 0.0 else SumOutputs(outputs[..|outputs| - 1]) + Amount(outputs[|outputs| - 1])
  }

  /** What the shares hold of the lengths of these parts. */
  function SumTotals(parts: seq<LengthPart>, shares: seq<Share>): real {
    if parts == [] then 0.0 else SumTotals(parts[..|parts| - 1], shares) + Total(shares, parts[|parts| - 1].mm)
  }

  lemma {:induction false} TotalsOfNothing(parts: seq<LengthPart>)
    ensures SumTotals(parts, []) == 0.0
  {
    if parts != [] { TotalsOfNothing(parts[..|parts| - 1]); }
  }

  lemma {:induction false} TotalsOneMore(parts: seq<LengthPart>, shares: seq<Share>, s: Share)
    requires Ascending(parts)
    ensures SumTotals(parts, shares + [s]) ==
              SumTotals(parts, shares) + if s.OfLength? && HasPart(parts, s.mm) then s.quantity else 0.0
  {
    if parts != [] {
      var front, last := parts[..|parts| - 1], parts[|parts| - 1];
      TotalsOneMore(front, shares, s);
      OneMoreShare(shares, s, last.mm);
      HasPartOneMore(parts, last.mm);
      if s.OfLength? { HasPartOneMore(parts, s.mm); }
    }
  }

  lemma HasPartOneMore(parts: seq<LengthPart>, mm: Mm)
    requires parts != [] && Ascending(parts)
    ensures var front, last := parts[..|parts| - 1], parts[|parts| - 1];
            && (HasPart(parts, mm) <==> HasPart(front, mm) || last.mm == mm)
            && !HasPart(front, last.mm)
  {
    var front, last := parts[..|parts| - 1], parts[|parts| - 1];
    if HasPart(front, mm) {
      var i :| 0 <= i < |front| && front[i].mm == mm;
      assert parts[i] == front[i];
    }
    if HasPart(parts, mm) {
      var i :| 0 <= i < |parts| && parts[i].mm == mm;
      assert i < |front| ==> front[i] == parts[i];
    }
  }

  ghost predicate Covers(parts: seq<LengthPart>, shares: seq<Share>) {
    forall i :: 0 <= i < |shares| && shares[i].OfLength? ==> HasPart(parts, shares[i].mm)
  }

  function InColumns(parts: seq<LengthPart>, shares: seq<Share>): real {
    SumTotals(parts, shares) + Sum(Others(shares)) + Sum(Pieces(shares))
  }

  /** One more share goes to exactly one of the three columns. */
  lemma OneColumn(parts: seq<LengthPart>, shares: seq<Share>)
    requires Ascending(parts) && shares != [] && AllReadable(shares) && Covers(parts, shares)
    ensures InColumns(parts, shares) == InColumns(parts, shares[..|shares| - 1]) + shares[|shares| - 1].quantity
  {
    var front, s := shares[..|shares| - 1], shares[|shares| - 1];
    assert shares == front + [s];
    TotalsOneMore(parts, front, s);
    SumStep(Others(front), OthersStep(s));
    SumStep(Pieces(front), PiecesStep(s));
  }

  lemma {:induction false} KindsAddUp(parts: seq<LengthPart>, shares: seq<Share>)
    requires Ascending(parts) && AllReadable(shares) && Covers(parts, shares)
    ensures InColumns(parts, shares) == Sum(shares)
  {
    if shares == [] {
      TotalsOfNothing(parts);
    } else {
      KindsAddUp(parts, shares[..|shares| - 1]);
      OneColumn(parts, shares);
    }
  }

  lemma SumStep(a: seq<Share>, b: seq<Share>)
    requires |b| <= 1
    ensures Sum(a + b) == Sum(a) + if b == [] then 0.0 else b[0].quantity
  {
    if b == [] { assert a + b == a; } else { assert (a + b)[..|a|] == a; }
  }

  lemma {:induction false} PartsHoldTotals(parts: seq<LengthPart>, shares: seq<Share>)
    requires forall i :: 0 <= i < |parts| ==> parts[i].quantity == Total(shares, parts[i].mm)
    ensures SumParts(parts) == SumTotals(parts, shares)
  {
    if parts != [] { PartsHoldTotals(parts[..|parts| - 1], shares); }
  }

  lemma {:induction false} SharesKeepQuantities(decimalOf: string -> Option<real>, outputs: seq<Output>)
    ensures Sum(Shares(decimalOf, outputs)) == SumOutputs(outputs)
  {
    if outputs != [] {
      var front, o := outputs[..|outputs| - 1], outputs[|outputs| - 1];
      SharesKeepQuantities(decimalOf, front);
      SumStep(Shares(decimalOf, front), [ShareOf(decimalOf, o)]);
    }
  }

  /** The parts shown sum to the sum of all outputs. */
  lemma QuantitiesAreConserved(decimalOf: string -> Option<real>, outputs: seq<Output>, parts: seq<LengthPart>)
    requires AllReadable(Shares(decimalOf, outputs)) && IsMerge(Shares(decimalOf, outputs), parts)
    ensures var shares := Shares(decimalOf, outputs);
            SumParts(parts) + Sum(Others(shares)) + Sum(Pieces(shares)) == SumOutputs(outputs)
  {
    var shares := Shares(decimalOf, outputs);
    assert Covers(parts, shares) by {
      forall i | 0 <= i < |shares| && shares[i].OfLength? ensures HasPart(parts, shares[i].mm) {
        assert HasLength(shares, shares[i].mm);
      }
    }
    KindsAddUp(parts, shares);
    PartsHoldTotals(parts, shares);
    SharesKeepQuantities(decimalOf, outputs);
  }

  // ----- order independence

  lemma RemoveOne<T>(s: seq<T>, k: nat)
    requires k < |s|
    ensures multiset(s[..k] + s[k + 1..]) == multiset(s) - multiset{s[k]}
  {
    assert s == s[..k] + ([s[k]] + s[k + 1..]);
  }

  lemma {:induction false} TotalWithout(shares: seq<Share>, k: nat, mm: Mm)
    requires k < |shares|
    ensures Total(shares, mm) == Total(shares[..k] + shares[k + 1..], mm) + TotalStep(shares[k], mm)
  {
    var n := |shares| - 1;
    var front, rest := shares[..n], shares[..k] + shares[k + 1..];
    if k == n {
      assert rest == front;
    } else {
      TotalWithout(front, k, mm);
      assert rest[..|rest| - 1] == front[..k] + front[k + 1..] && rest[|rest| - 1] == shares[n];
    }
  }

  /** Two orders of one list: the last of the one is somewhere in the other. */
  lemma MatchLast<T>(one: seq<T>, other: seq<T>) returns (k: nat)
    requires multiset(one) == multiset(other) && one != []
    ensures k < |other| && other[k] == one[|one| - 1]
    ensures multiset(one[..|one| - 1]) == multiset(other[..k] + other[k + 1..])
  {
    var n := |one| - 1;
    assert one[n] in multiset(other);
    k :| 0 <= k < |other| && other[k] == one[n];
    RemoveOne(one, n);
    RemoveOne(other, k);
    assert one[..n] + one[n + 1..] == one[..n];
  }

  lemma {:induction false} TotalIgnoresOrder(one: seq<Share>, other: seq<Share>, mm: Mm)
    requires multiset(one) == multiset(other)
    ensures Total(one, mm) == Total(other, mm)
  {
    if one == [] {
      assert |multiset(other)| == 0;
    } else {
      var k := MatchLast(one, other);
      TotalIgnoresOrder(one[..|one| - 1], other[..k] + other[k + 1..], mm);
      TotalWithout(other, k, mm);
    }
  }

  lemma RestAt<T>(s: seq<T>, k: nat, i: nat)
    requires k < |s| && i < |s| - 1
    ensures (s[..k] + s[k + 1..])[i] == s[if i < k then i else i + 1]
  {
  }

  lemma SharesRestAt(decimalOf: string -> Option<real>, outputs: seq<Output>, k: nat, i: nat)
    requires k < |outputs| && i < |outputs| - 1
    ensures Shares(decimalOf, outputs[..k] + outputs[k + 1..])[i] ==
        Shares(decimalOf, outputs)[if i < k then i else i + 1]
  {
    RestAt(outputs, k, i);
    ShareAt(decimalOf, outputs[..k] + outputs[k + 1..], i);
    ShareAt(decimalOf, outputs, if i < k then i else i + 1);
  }

  lemma SharesRest(decimalOf: string -> Option<real>, outputs: seq<Output>, k: nat)
    requires k < |outputs|
    ensures var shares := Shares(decimalOf, outputs);
            Shares(decimalOf, outputs[..k] + outputs[k + 1..]) == shares[..k] + shares[k + 1..]
  {
    var shares, rest := Shares(decimalOf, outputs), Shares(decimalOf, outputs[..k] + outputs[k + 1..]);
    forall i | 0 <= i < |rest| ensures rest[i] == shares[if i < k then i else i + 1] {
      SharesRestAt(decimalOf, outputs, k, i);
    }
  }

  lemma PutBack<T>(s: seq<T>, k: nat)
    requires k < |s|
    ensures multiset(s) == multiset(s[..k] + s[k + 1..]) + multiset{s[k]}
  {
    assert s == s[..k] + ([s[k]] + s[k + 1..]);
  }

  lemma SharesWithout(decimalOf: string -> Option<real>, outputs: seq<Output>, k: nat)
    requires k < |outputs|
    ensures multiset(Shares(decimalOf, outputs)) ==
              multiset(Shares(decimalOf, outputs[..k] + outputs[k + 1..])) + multiset{ShareOf(decimalOf, outputs[k])}
  {
    SharesRest(decimalOf, outputs, k);
    ShareAt(decimalOf, outputs, k);
    PutBack(Shares(decimalOf, outputs), k);
  }

  lemma {:induction false} SharesIgnoreOrder(decimalOf: string -> Option<real>, one: seq<Output>, other: seq<Output>)
    requires multiset(one) == multiset(other)
    ensures multiset(Shares(decimalOf, one)) == multiset(Shares(decimalOf, other))
  {
    if one == [] {
      assert |multiset(other)| == 0;
    } else {
      var n := |one| - 1;
      var k := MatchLast(one, other);
      SharesIgnoreOrder(decimalOf, one[..n], other[..k] + other[k + 1..]);
      SharesWithout(decimalOf, other, k);
      SharesWithout(decimalOf, one, n);
      assert one[..n] + one[n + 1..] == one[..n];
    }
  }

  lemma {:induction false} AscendingUnique(a: seq<LengthPart>, b: seq<LengthPart>)
    requires Ascending(a) && Ascending(b)
    requires forall p :: p in a <==> p in b
    ensures a == b
  {
    assert a != [] ==> a[0] in a && a[0] in b;
    assert b != [] ==> b[0] in b && b[0] in a;
    if a != [] && b != [] {
      assert a[0] == b[0];
      forall p ensures p in a[1..] <==> p in b[1..] {
        assert p in a <==> p == a[0] || p in a[1..];
        assert p in b <==> p == b[0] || p in b[1..];
        assert a[0] !in a[1..] && b[0] !in b[1..];
      }
      AscendingUnique(a[1..], b[1..]);
      assert a == [a[0]] + a[1..] && b == [b[0]] + b[1..];
    }
  }

  lemma PartCarriesOver(one: seq<Share>, other: seq<Share>, a: seq<LengthPart>, b: seq<LengthPart>, p: LengthPart)
    requires multiset(one) == multiset(other)
    requires IsMerge(one, a) && IsMerge(other, b) && p in a
    ensures p in b
  {
    assert HasPart(a, p.mm);
    var i :| 0 <= i < |one| && one[i].OfLength? && one[i].mm == p.mm;
    assert one[i] in multiset(other);
    var k :| 0 <= k < |other| && other[k] == one[i];
    assert HasLength(other, p.mm);
    TotalIgnoresOrder(one, other, p.mm);
    var j :| 0 <= j < |b| && b[j].mm == p.mm;
    assert b[j] == p;
  }

  /** Outputs in any other order give the same parts by length. */
  lemma LengthPartsIgnoreOrder(
    decimalOf: string -> Option<real>, one: seq<Output>, other: seq<Output>, a: seq<LengthPart>, b: seq<LengthPart>)
    requires multiset(one) == multiset(other)
    requires IsMerge(Shares(decimalOf, one), a) && IsMerge(Shares(decimalOf, other), b)
    ensures a == b
  {
    SharesIgnoreOrder(decimalOf, one, other);
    forall p ensures p in a <==> p in b {
      if p in a { PartCarriesOver(Shares(decimalOf, one), Shares(decimalOf, other), a, b, p); }
      if p in b { PartCarriesOver(Shares(decimalOf, other), Shares(decimalOf, one), b, a, p); }
    }
    AscendingUnique(a, b);
  }
}
