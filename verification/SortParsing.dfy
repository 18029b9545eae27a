/** `parse_sort` of `backend/app/core/sorting.py`: the clauses written as `field:order,field:order`. */
module SortParsing {
  import opened Text

  datatype Field = Field(name: string)

  datatype Direction = Asc | Desc

  datatype SortClause = SortClause(field: Field, order: Direction) {
    predicate IsDesc() { order.Desc? }
  }

  datatype SortError = EmptyField | InvalidOrder(order: string) | InvalidField(field: Field) | Incomparable

  // ----- parse_sort

  /** One comma-separated part: `field` or `field:order`, split at the last colon. */
  function ParsePart(raw: string): Result<SortClause, SortError> {
    var part := Strip(raw);
    var colon := LastIndex(part, ':');
    var field := Strip(if colon >= 0 then part[..colon] else part);
    var order := Lower(Strip(if colon >= 0 then part[colon + 1..] else "asc"));
    ReadClause(field, order)
  }

  /** A trimmed field and a trimmed order in lower case; no order means ascending. */
  function ReadClause(field: string, order: string): Result<SortClause, SortError> {
    var direction := if order == "" then "asc" else order;
    if field == "" then Failure(EmptyField)
    else if direction != "asc" && direction != "desc" then Failure(InvalidOrder(direction))
    else Success(SortClause(Field(field), if direction == "asc" then Asc else Desc))
  }

  function ParseEach(parts: seq<string>): (r: seq<Result<SortClause, SortError>>)
    ensures |r| == |parts|
  {
    seq(|parts|, i requires 0 <= i < |parts| => ParsePart(parts[i]))
  }

  /** Every part read as a clause, repeated fields included; the first bad part decides the error. */
  function AllClauses(parsed: seq<Result<SortClause, SortError>>): Result<seq<SortClause>, SortError> {
    if parsed == [] then Success([])
    else match parsed[0]
      case Failure(e) => Failure(e)
      case Success(c) =>
        match AllClauses(parsed[1..])
        case Failure(e) => Failure(e)
        case Success(cs) => Success([c] + cs)
  }

  /** The clauses whose field is neither in `seen` nor named by an earlier clause. */
  function DropRepeats(cs: seq<SortClause>, seen: set<Field>): seq<SortClause> {
    if cs == [] then []
    else if cs[0].field in seen then DropRepeats(cs[1..], seen)
    else [cs[0]] + DropRepeats(cs[1..], seen + {cs[0].field})
  }

  /** The clauses asked for, before repeated fields are dropped. */
  function Requested(raw: Option<string>, default: SortClause): Result<seq<SortClause>, SortError> {
    if raw.None? || Strip(raw.value) == "" then Success([default]) else AllClauses(ParseEach(Split(raw.value, ',')))
  }

  ghost function Parsed(parsed: seq<Result<SortClause, SortError>>, clauses: seq<SortClause>, seen: set<Field>)
    : Result<seq<SortClause>, SortError>
  {
    match AllClauses(parsed)
    case Failure(e) => Failure(e)
    case Success(cs) => Success(clauses + DropRepeats(cs, seen))
  }

  lemma ParseOnePart(parsed: seq<Result<SortClause, SortError>>, clauses: seq<SortClause>, seen: set<Field>)
    requires parsed != []
    ensures match parsed[0]
            case Failure(e) => Parsed(parsed, clauses, seen) == Failure(e)
            case Success(c) =>
              if c.field in seen then Parsed(parsed, clauses, seen) == Parsed(parsed[1..], clauses, seen)
              else Parsed(parsed, clauses, seen) == Parsed(parsed[1..], clauses + [c], seen + {c.field})
  {
    if parsed[0].Success? && AllClauses(parsed[1..]).Success? {
      var c, rest := parsed[0].value, AllClauses(parsed[1..]).value;
      var kept := DropRepeats(rest, seen + {c.field});
      assert ([c] + rest)[1..] == rest;
      assert clauses + ([c] + kept) == clauses + [c] + kept;
    }
  }

  /** The clauses to sort by: what was requested, each field once, at its highest priority. */
  ghost function Clauses(raw: Option<string>, default: SortClause): Result<seq<SortClause>, SortError> {
    match Requested(raw, default)
    case Failure(e) => Failure(e)
    case Success(cs) => Success(DropRepeats(cs, {}))
  }

  lemma NothingParsedYet(raw: Option<string>, default: SortClause)
    requires raw.Some? && Strip(raw.value) != ""
    ensures Clauses(raw, default) == Parsed(ParseEach(Split(raw.value, ',')), [], {})
  {
    var all := AllClauses(ParseEach(Split(raw.value, ',')));
    if all.Success? { assert [] + DropRepeats(all.value, {}) == DropRepeats(all.value, {}); }
  }

  method ParseSort(raw: Option<string>, default: SortClause) returns (r: Result<seq<SortClause>, SortError>)
    ensures r == Clauses(raw, default)
    ensures r.Success? ==> r.value != [] && DistinctFields(r.value)
  {
    if raw.None? || Strip(raw.value) == "" {
      assert [default][1..] == [] && DropRepeats([default], {}) == [default];
      return Success([default]);
    }
    NothingParsedYet(raw, default);
    r := ParseParts(Split(raw.value, ','));
    if r.Success? && r.value == [] {
      return Success([default]);
    }
  }

  predicate DistinctFields(clauses: seq<SortClause>) {
    forall i, j :: 0 <= i < j < |clauses| ==> clauses[i].field != clauses[j].field
  }

  /** The state of the loop: distinct fields, all of them seen. */
  ghost predicate Collected(clauses: seq<SortClause>, seen: set<Field>) {
    && DistinctFields(clauses)
    && (forall i :: 0 <= i < |clauses| ==> clauses[i].field in seen)
    && (clauses == [] ==> seen == {})
  }

  lemma CollectOne(clauses: seq<SortClause>, seen: set<Field>, c: SortClause)
    requires Collected(clauses, seen) && c.field !in seen
    ensures Collected(clauses + [c], seen + {c.field})
  {
  }

  method ParseParts(parts: seq<string>) returns (r: Result<seq<SortClause>, SortError>)
    ensures r == Parsed(ParseEach(parts), [], {})
    ensures r.Success? ==> DistinctFields(r.value) && (parts != [] ==> r.value != [])
  {
    var clauses: seq<SortClause> := [];
    var seen: set<Field> := {};
    ghost var all := ParseEach(parts);
    var k := 0;
    while k < |parts|
      invariant 0 <= k <= |parts|
      invariant Collected(clauses, seen)
      invariant k > 0 ==> clauses != []
      invariant Parsed(all, [], {}) == Parsed(all[k..], clauses, seen)
    {
      ParseOnePart(all[k..], clauses, seen);
      assert all[k..][1..] == all[k + 1..];
      var parsed := ParsePart(parts[k]);
      if parsed.Failure? {
        return Failure(parsed.error);
      }
      if parsed.value.field !in seen {
        CollectOne(clauses, seen, parsed.value);
        seen := seen + {parsed.value.field};
        clauses := clauses + [parsed.value];
      }
      k := k + 1;
    }
    assert all[k..] == [] && clauses + [] == clauses;
    return Success(clauses);
  }

  // ----- what a part says

  lemma ColonAt(before: string, after: string)
    requires ':' !in after
    ensures LastIndex(before + [':'] + after, ':') == |before|
  {
    var s, n := before + [':'] + after, |before|;
    assert s[n] == ':' && s[n + 1..] == after;
    forall j | n < j < |s| ensures s[j] != ':' { assert s[j] == s[n + 1..][j - n - 1]; }
  }

  /** Read at the last colon, with a trimmed text on either side. */
  lemma PartAtColon(part: string, before: string, after: string)
    requires Strip(part) == before + [':'] + after && ':' !in after
    ensures ParsePart(part) == ReadClause(Strip(before), Lower(Strip(after)))
  {
    ColonAt(before, after);
    var s := before + [':'] + after;
    assert s[..|before|] == before && s[|before| + 1..] == after;
  }

  lemma PartAtNoColon(part: string, field: string)
    requires Strip(part) == field && Strip(field) == field && ':' !in field
    ensures ParsePart(part) == ReadClause(field, Lower(Strip("asc")))
  {
    assert LastIndex(field, ':') == -1;
  }

  lemma AscIsAsc()
    ensures Lower(Strip("asc")) == "asc"
  {
    StripOf([], "asc", []);
    assert [] + "asc" + [] == "asc";
    LowerSpells("asc", "asc");
  }

  /** Asc for nothing and for `asc`, Desc for `desc`; a missing field comes first. */
  lemma ClauseIs(field: string, order: string)
    ensures field == [] ==> ReadClause(field, order) == Failure(EmptyField)
    ensures field != [] && (order == [] || order == "asc") ==>
              ReadClause(field, order) == Success(SortClause(Field(field), Asc))
    ensures field != [] && order == "desc" ==> ReadClause(field, order) == Success(SortClause(Field(field), Desc))
    ensures field != [] && order != [] && order != "asc" && order != "desc" ==>
              ReadClause(field, order) == Failure(InvalidOrder(order))
  {
  }

  lemma StripItself(s: string)
    requires Trimmed(s)
    ensures Strip(s) == s
  {
    StripOf([], s, []);
    assert [] + s + [] == s;
  }

  lemma StripAfter(s: string, right: string)
    requires Trimmed(s) && Blank(right)
    ensures Strip(s + right) == s
  {
    StripOf([], s, right);
    assert [] + s + right == s + right;
  }

  lemma StripBefore(left: string, s: string)
    requires Trimmed(s) && Blank(left)
    ensures Strip(left + s) == s
  {
    StripOf(left, s, []);
    assert left + s + [] == left + s;
  }

  /** A field without a colon is sorted ascending. */
  lemma PartWithoutOrder(left: string, name: string, right: string)
    requires Blank(left) && Blank(right) && Trimmed(name) && ':' !in name
    ensures ParsePart(left + name + right) == Success(SortClause(Field(name), Asc))
  {
    StripOf(left, name, right);
    StripItself(name);
    PartAtNoColon(left + name + right, name);
    AscIsAsc();
    ClauseIs(name, "asc");
  }

  lemma NoColonInside(blank: string, order: string)
    requires Blank(blank) && ':' !in order
    ensures ':' !in blank + order
  {
    KnownSpaces(':');
  }

  lemma OrderIs(name: string, order: string)
    requires name != [] && order != []
    ensures var clause := ReadClause(name, Lower(order));
            && (Spells(order, "asc") ==> clause == Success(SortClause(Field(name), Asc)))
            && (Spells(order, "desc") ==> clause == Success(SortClause(Field(name), Desc)))
            && (!Spells(order, "asc") && !Spells(order, "desc") ==> clause == Failure(InvalidOrder(Lower(order))))
  {
    LowerSpells(order, "asc");
    LowerSpells(order, "desc");
    ClauseIs(name, Lower(order));
    assert |Lower(order)| > 0;
  }

  lemma ColonBodyIsTrimmed(name: string, inner: string, after: string)
    requires Trimmed(name) && Trimmed([':'] + after)
    ensures Trimmed(name + inner + [':'] + after)
  {
    var body := name + inner + [':'] + after;
    assert body[0] == name[0];
    assert body[|body| - 1] == ([':'] + after)[|after|];
  }

  /** `field:order`, split at the last colon, spaces anywhere around the two and the order in any case. */
  lemma PartWithOrder(left: string, name: string, inner: string, inner': string, order: string, right: string)
    requires Blank(left) && Blank(inner) && Blank(inner') && Blank(right)
    requires Trimmed(name) && Trimmed(order) && ':' !in order
    ensures var part := ParsePart(left + (name + inner + [':'] + (inner' + order)) + right);
            && (Spells(order, "asc") ==> part == Success(SortClause(Field(name), Asc)))
            && (Spells(order, "desc") ==> part == Success(SortClause(Field(name), Desc)))
            && (!Spells(order, "asc") && !Spells(order, "desc") ==> part == Failure(InvalidOrder(Lower(order))))
  {
    var before, after := name + inner, inner' + order;
    KnownSpaces(':');
    assert ([':'] + after)[|after|] == order[|order| - 1];
    ColonBodyIsTrimmed(name, inner, after);
    StripOf(left, before + [':'] + after, right);
    StripAfter(name, inner);
    StripBefore(inner', order);
    NoColonInside(inner', order);
    PartAtColon(left + (before + [':'] + after) + right, before, after);
    OrderIs(name, order);
  }

  /** Nothing after the colon means ascending. */
  lemma PartWithEmptyOrder(left: string, name: string, inner: string, right: string)
    requires Blank(left) && Blank(inner) && Blank(right) && Trimmed(name)
    ensures ParsePart(left + (name + inner + [':'] + []) + right) == Success(SortClause(Field(name), Asc))
  {
    KnownSpaces(':');
    ColonBodyIsTrimmed(name, inner, []);
    StripOf(left, name + inner + [':'] + [], right);
    StripAfter(name, inner);
    StripBlank([]);
    PartAtColon(left + (name + inner + [':'] + []) + right, name + inner, []);
    ClauseIs(name, []);
    assert Lower([]) == [];
  }

  /** Nothing before the only colon, or nothing at all, is an empty field, whatever the order. */
  lemma PartWithoutField(left: string, order: string, right: string)
    requires Blank(left) && Blank(right) && ':' !in order && Trimmed([':'] + order)
    ensures ParsePart(left + ([] + [':'] + order) + right) == Failure(EmptyField)
    ensures ParsePart(left) == Failure(EmptyField)
  {
    assert [] + [':'] + order == [':'] + order;
    StripOf(left, [] + [':'] + order, right);
    StripBlank([]);
    PartAtColon(left + ([] + [':'] + order) + right, [], order);
    ClauseIs([], Lower(Strip(order)));
    StripBlank(left);
    PartAtNoColon(left, []);
    ClauseIs([], Lower(Strip("asc")));
  }

  ghost predicate FirstBadAt(parsed: seq<Result<SortClause, SortError>>, k: int) {
    0 <= k < |parsed| && parsed[k].Failure? && forall j :: 0 <= j < k ==> parsed[j].Success?
  }

  /** All parts, in order, if they are all good; otherwise the error of the first bad one. */
  lemma {:induction false} AllClausesAre(parsed: seq<Result<SortClause, SortError>>)
    ensures forall k :: FirstBadAt(parsed, k) ==> AllClauses(parsed) == Failure(parsed[k].error)
    ensures (forall i :: 0 <= i < |parsed| ==> parsed[i].Success?) ==>
              && AllClauses(parsed).Success? && |AllClauses(parsed).value| == |parsed|
              && forall i :: 0 <= i < |parsed| ==> AllClauses(parsed).value[i] == parsed[i].value
  {
    if parsed != [] {
      AllClausesAre(parsed[1..]);
      forall k | FirstBadAt(parsed, k) && k > 0 ensures FirstBadAt(parsed[1..], k - 1) {
        assert forall j :: 0 <= j < k - 1 ==> parsed[1..][j] == parsed[j + 1];
      }
      if forall i :: 0 <= i < |parsed| ==> parsed[i].Success? {
        assert forall i :: 0 <= i < |parsed| - 1 ==> parsed[1..][i] == parsed[i + 1];
      }
    }
  }

  /** No parameter, or a blank one, asks for the default; any other is read part by part. */
  lemma RequestedIs(raw: Option<string>, default: SortClause)
    ensures raw == None || Blank(raw.value) ==> Requested(raw, default) == Success([default])
    ensures raw.Some? && !Blank(raw.value) ==> Requested(raw, default) == AllClauses(ParseEach(Split(raw.value, ',')))
  {
    if raw.Some? {
      if Blank(raw.value) { StripBlank(raw.value); } else { StripKeepsSomething(raw.value); }
    }
  }

  ghost predicate FirstOfItsField(cs: seq<SortClause>, k: int) {
    0 <= k < |cs| && forall j :: 0 <= j < k ==> cs[j].field != cs[k].field
  }

  /** Of clauses with one field the first is kept. */
  lemma {:induction false} KeptAreFirst(cs: seq<SortClause>, seen: set<Field>, c: SortClause)
    ensures c in DropRepeats(cs, seen) <==>
              c.field !in seen && exists k :: FirstOfItsField(cs, k) && cs[k] == c
  {
    if cs != [] {
      var rest := cs[1..];
      assert forall j :: 0 < j < |cs| ==> cs[j] == rest[j - 1];
      KeptAreFirst(rest, seen, c);
      KeptAreFirst(rest, seen + {cs[0].field}, c);
      FirstInRest(cs, c);
    }
  }

  lemma FirstInRest(cs: seq<SortClause>, c: SortClause)
    requires cs != []
    ensures (exists k :: FirstOfItsField(cs, k) && cs[k] == c) <==>
              c == cs[0] || (c.field != cs[0].field && exists k :: FirstOfItsField(cs[1..], k) && cs[1..][k] == c)
  {
    var rest := cs[1..];
    assert forall j :: 0 < j < |cs| ==> cs[j] == rest[j - 1];
    if k :| FirstOfItsField(cs, k) && cs[k] == c && k > 0 {
      assert FirstOfItsField(rest, k - 1) && rest[k - 1] == c;
    }
    if c == cs[0] { assert FirstOfItsField(cs, 0); }
    if c.field != cs[0].field {
      if k :| FirstOfItsField(rest, k) && rest[k] == c {
        assert FirstOfItsField(cs, k + 1) && cs[k + 1] == c;
      }
    }
  }

  function Render(cs: seq<SortClause>): string
    requires cs != []
  {
    Join(RenderAll(cs), ',')
  }

  /** Clauses a client can write down: a trimmed field without a comma. */
  predicate Writable(c: SortClause) {
    Trimmed(c.field.name) && ',' !in c.field.name
  }

  function DirectionName(d: Direction): string {
    if d == Asc then "asc" else "desc"
  }

  function RenderClause(c: SortClause): string {
    c.field.name + ":" + DirectionName(c.order)
  }

  lemma ParsePartOfRendered(c: SortClause)
    requires Writable(c)
    ensures ParsePart(RenderClause(c)) == Success(c)
  {
    var name, order := c.field.name, DirectionName(c.order);
    var s, n := RenderClause(c), |name|;
    KnownDirection(c.order);
    assert s[0] == name[0] && s[|s| - 1] == order[|order| - 1];
    assert Strip(s) == s;
    assert s[n] == ':' && s[n + 1..] == order && s[..n] == name;
    forall j | n < j < |s| ensures s[j] != ':' { assert s[j] == order[j - n - 1]; }
    assert LastIndex(s, ':') == n;
    assert Strip(name) == name;
  }

  lemma KnownDirection(d: Direction)
    ensures var order := DirectionName(d);
            && order[|order| - 1] == 'c' && order != "" && (order == "asc" <==> d == Asc)
            && Strip(order) == order && Lower(order) == order && ':' !in order && ',' !in order
  {
    assert |"asc"| == 3 && |"desc"| == 4;
    if d == Asc { assert Lower("asc") == "asc"; } else { assert Lower("desc") == "desc"; }
  }

  function RenderAll(cs: seq<SortClause>): (parts: seq<string>)
    ensures |parts| == |cs|
  {
    seq(|cs|, i requires 0 <= i < |cs| => RenderClause(cs[i]))
  }

  lemma {:induction false} AllSucceed(parsed: seq<Result<SortClause, SortError>>, cs: seq<SortClause>)
    requires |parsed| == |cs| && forall i :: 0 <= i < |cs| ==> parsed[i] == Success(cs[i])
    ensures AllClauses(parsed) == Success(cs)
  {
    if cs != [] {
      AllSucceed(parsed[1..], cs[1..]);
      assert cs == [cs[0]] + cs[1..];
    }
  }

  lemma AllClausesOfRendered(cs: seq<SortClause>)
    requires forall i :: 0 <= i < |cs| ==> Writable(cs[i])
    ensures AllClauses(ParseEach(RenderAll(cs))) == Success(cs)
  {
    forall i | 0 <= i < |cs| ensures ParseEach(RenderAll(cs))[i] == Success(cs[i]) { ParsePartOfRendered(cs[i]); }
    AllSucceed(ParseEach(RenderAll(cs)), cs);
  }

  lemma RenderedWithoutComma(cs: seq<SortClause>)
    requires forall i :: 0 <= i < |cs| ==> Writable(cs[i])
    ensures forall i :: 0 <= i < |cs| ==> ',' !in RenderAll(cs)[i]
  {
    forall i | 0 <= i < |cs| ensures ',' !in RenderAll(cs)[i] {
      KnownDirection(cs[i].order);
    }
  }

  /** Written out and parsed back, a list of clauses is asked for again. */
  lemma RequestedRoundTrip(cs: seq<SortClause>, default: SortClause)
    requires cs != [] && forall i :: 0 <= i < |cs| ==> Writable(cs[i])
    ensures Requested(Some(Render(cs)), default) == Success(cs)
  {
    var s := Render(cs);
    AllClausesOfRendered(cs);
    RenderedWithoutComma(cs);
    SplitUndoesJoin(RenderAll(cs), ',');
    assert Writable(cs[0]);
    assert s[0] == RenderClause(cs[0])[0] == cs[0].field.name[0];
    StripKeepsInk(s);
  }
}
