/** `_worksheet_title` of `backend/app/api/backups.py` and the export loop that uses it. */
module Worksheets {
  import opened Text
  import opened Finite

  const MAX_TITLE := 31

  /** The first counter whose suffix no longer fits into a title. */
  const COUNTER_LIMIT: nat := 1_000_000_000_000_000_000_000_000_000_000

  predicate IsInvalid(c: char) {
    c == '[' || c == ']' || c == ':' || c == '*' || c == '?' || c == '/' || c == '\\'
  }

  function Sanitize(name: string): string {
    seq(|name|, i requires 0 <= i < |name| => if IsInvalid(name[i]) then '_' else name[i])
  }

  function BaseTitle(name: string): (t: string)
    ensures 0 < |t| <= MAX_TITLE
  {
    var stripped := Strip(Sanitize(name));
    var title := if stripped == "" then "table" else stripped;
    if |title| <= MAX_TITLE then title else title[..MAX_TITLE]
  }

  /** `title[:n]`; a negative n counts from the end. */
  function Cut(title: string, n: int): string {
    if n >= |title| then title
    else if n >= 0 then title[..n]
    else if -n >= |title| then ""
    else title[..|title| + n]
  }

  function Suffix(counter: nat): string {
    "_" + Digits(counter)
  }

  function Candidate(title: string, counter: nat): string {
    Cut(title, MAX_TITLE - |Suffix(counter)|) + Suffix(counter)
  }

  // ----- titles, letter by letter

  /** What a character becomes: the seven that a sheet title may not hold are replaced. */
  ghost predicate BecomesLetter(from: char, to: char) {
    if from in ['[', ']', ':', '*', '?', '/', '\\'] then to == '_' else to == from
  }

  lemma SpaceStays(s: string)
    requires Blank(s)
    ensures Sanitize(s) == s
  {
    forall i | 0 <= i < |s| ensures !IsInvalid(s[i]) { KnownSpaces(s[i]); }
  }

  lemma SanitizeIs(name: string)
    ensures |Sanitize(name)| == |name| && forall i :: 0 <= i < |name| ==> BecomesLetter(name[i], Sanitize(name)[i])
  {
  }

  lemma SanitizeParts(left: string, body: string, right: string)
    ensures Sanitize(left + body + right) == Sanitize(left) + Sanitize(body) + Sanitize(right)
  {
  }

  lemma SanitizedIsTrimmed(body: string)
    requires Trimmed(body)
    ensures Trimmed(Sanitize(body))
  {
    KnownSpaces('_');
  }

  /** A title is the name without the white space around it, letter by letter, cut to 31 characters. */
  lemma TitleIs(left: string, body: string, right: string)
    requires Blank(left) && Blank(right) && Trimmed(body)
    ensures var title := BaseTitle(left + body + right);
            && |title| == (if |body| < 31 then |body| else 31)
            && forall i :: 0 <= i < |title| ==> BecomesLetter(body[i], title[i])
  {
    SanitizeParts(left, body, right);
    SpaceStays(left);
    SpaceStays(right);
    SanitizedIsTrimmed(body);
    StripOf(left, Sanitize(body), right);
    SanitizeIs(body);
  }

  lemma BlankTitleIs(name: string)
    requires Blank(name)
    ensures BaseTitle(name) == "table"
  {
    SpaceStays(name);
    StripBlank(name);
  }

  /** A numbered title: as much of the title as leaves room for the underscore and the digits. */
  lemma CandidateIs(title: string, counter: nat)
    requires |title| <= MAX_TITLE && counter < COUNTER_LIMIT
    ensures var n := |Candidate(title, counter)| - 1 - |Digits(counter)|;
            && 0 <= n <= |title| && (n == |title| || |Candidate(title, counter)| == 31)
            && Candidate(title, counter) == title[..n] + ['_'] + Digits(counter)
  {
    CandidateFitsIff(title, counter);
    DigitCount(counter, 30);
    CounterLimitIsPow();
  }

  // ----- candidates for different counters differ

  lemma {:induction false} LastUnderscore(p: string, digits: string)
    requires forall i :: 0 <= i < |digits| ==> IsDigit(digits[i])
    ensures LastIndex(p + "_" + digits, '_') == |p|
  {
    var s := p + "_" + digits;
    assert s[|p|] == '_';
    forall j | |p| < j < |s| ensures s[j] != '_' { assert s[j] == digits[j - |p| - 1]; }
  }

  lemma CandidatesDiffer(title: string, c: nat, d: nat)
    requires Candidate(title, c) == Candidate(title, d)
    ensures c == d
  {
    var p, q := Cut(title, MAX_TITLE - |Suffix(c)|), Cut(title, MAX_TITLE - |Suffix(d)|);
    var s, t := p + "_" + Digits(c), q + "_" + Digits(d);
    assert Candidate(title, c) == s && Candidate(title, d) == t;
    LastUnderscore(p, Digits(c));
    LastUnderscore(q, Digits(d));
    assert s[|p| + 1..] == Digits(c) && t[|q| + 1..] == Digits(d);
    DigitsRoundTrip(c);
    DigitsRoundTrip(d);
  }

  // ----- how long a title gets

  lemma {:induction false} DigitCount(n: nat, k: nat)
    requires k >= 1
    ensures |Digits(n)| <= k <==> n < Pow10(k)
  {
    if n >= 10 && k > 1 {
      DigitCount(n / 10, k - 1);
    } else if n < 10 {
      TenAtLeast(k);
    }
  }

  lemma {:induction false} TenAtLeast(k: nat)
    requires k >= 1
    ensures Pow10(k) >= 10
  {
    if k > 1 { TenAtLeast(k - 1); }
  }

  lemma CounterLimitIsPow()
    ensures Pow10(30) == COUNTER_LIMIT
  {
    assert Pow10(10) == 10_000_000_000;
    assert Pow10(20) == 100_000_000_000_000_000_000;
  }

  /** A numbered title fits exactly when its counter is below 10^30. */
  lemma CandidateFitsIff(title: string, counter: nat)
    requires |title| <= MAX_TITLE
    ensures |Candidate(title, counter)| <= MAX_TITLE <==> counter < COUNTER_LIMIT
  {
    DigitCount(counter, 30);
    CounterLimitIsPow();
  }

  // ----- the loop

  ghost function Tried(title: string, counter: nat): set<string>
    requires counter >= 2
  {
    set c | 2 <= c < counter :: Candidate(title, c)
  }

  lemma WasTried(title: string, c: nat, counter: nat)
    requires 2 <= c < counter
    ensures Candidate(title, c) in Tried(title, counter)
  {
  }

  lemma {:induction false} TriedCount(title: string, counter: nat)
    requires counter >= 2
    ensures |Tried(title, counter)| == counter - 2
  {
    if counter == 2 {
      assert Tried(title, 2) == {};
    } else {
      TriedCount(title, counter - 1);
      var last := Candidate(title, counter - 1);
      if last in Tried(title, counter - 1) {
        var c :| 2 <= c < counter - 1 && Candidate(title, c) == last;
        CandidatesDiffer(title, c, counter - 1);
      }
      assert Tried(title, counter) == Tried(title, counter - 1) + {last};
    }
  }

  /** At most |existing| candidates can be taken: the pigeonhole that ends the loop. */
  lemma FewAreTaken(title: string, counter: nat, existing: set<string>)
    requires counter >= 2 && Tried(title, counter) <= existing
    ensures counter - 2 <= |existing|
  {
    TriedCount(title, counter);
    SubsetSize(Tried(title, counter), existing);
  }

  /** The bare title if it is free, otherwise the free candidate with the least counter. */
  ghost predicate IsTitleFor(name: string, existing: set<string>, r: string) {
    var title := BaseTitle(name);
    if title !in existing then r == title
    else exists counter: nat :: IsLeastFree(title, existing, counter) && r == Candidate(title, counter)
  }

  ghost predicate IsLeastFree(title: string, existing: set<string>, counter: nat) {
    counter >= 2 && Candidate(title, counter) !in existing && Tried(title, counter) <= existing
  }

  class Titles {
    var existing: set<string>

    constructor ()
      ensures existing == {}
    {
      existing := {};
    }

    method WorksheetTitle(name: string) returns (candidate: string)
      modifies this
      ensures candidate !in old(existing) && existing == old(existing) + {candidate}
      ensures IsTitleFor(name, old(existing), candidate)
      ensures |candidate| <= MAX_TITLE <==>
                BaseTitle(name) !in old(existing) || !(Tried(BaseTitle(name), COUNTER_LIMIT) <= old(existing))
      ensures |old(existing)| + 2 < COUNTER_LIMIT ==> |candidate| <= MAX_TITLE
    {
      var title := BaseTitle(name);
      candidate := title;
      var counter := 2;
      while candidate in existing
        invariant existing == old(existing) && counter >= 2
        invariant if counter == 2 then candidate == title
                  else
                    && title in existing && candidate == Candidate(title, counter - 1)
                    && Tried(title, counter - 1) <= existing
        decreases |existing| + 3 - counter
      {
        assert counter > 2 ==> Tried(title, counter) == Tried(title, counter - 1) + {candidate};
        FewAreTaken(title, counter, existing);
        candidate := Candidate(title, counter);
        counter := counter + 1;
      }
      if counter > 2 {
        assert IsLeastFree(title, existing, counter - 1);
        FewAreTaken(title, counter - 1, existing);
        CandidateFitsIff(title, counter - 1);
      }
      TitleFitsIff(name, existing, candidate);
      existing := existing + {candidate};
    }

    /** One sheet per table, every title fresh. */
    method ExportTitles(tables: seq<string>) returns (titles: seq<string>)
      requires existing == {}
      modifies this
      ensures |titles| == |tables|
      ensures forall i, j :: 0 <= i < j < |titles| ==> titles[i] != titles[j]
      ensures |tables| + 2 < COUNTER_LIMIT ==> forall i :: 0 <= i < |titles| ==> |titles[i]| <= MAX_TITLE
    {
      titles := [];
      for i := 0 to |tables|
        invariant |titles| == i && |existing| <= i
        invariant forall k :: 0 <= k < i ==> titles[k] in existing
        invariant forall j, k :: 0 <= j < k < i ==> titles[j] != titles[k]
        invariant |tables| + 2 < COUNTER_LIMIT ==> forall k :: 0 <= k < i ==> |titles[k]| <= MAX_TITLE
      {
        var title := WorksheetTitle(tables[i]);
        titles := titles + [title];
      }
    }
  }

  /** A title is too long exactly when the bare one and every candidate below the limit are taken. */
  lemma TitleFitsIff(name: string, existing: set<string>, r: string)
    requires IsTitleFor(name, existing, r)
    ensures |r| <= MAX_TITLE <==>
              BaseTitle(name) !in existing || !(Tried(BaseTitle(name), COUNTER_LIMIT) <= existing)
  {
    var title := BaseTitle(name);
    if title in existing {
      var counter: nat :| IsLeastFree(title, existing, counter) && r == Candidate(title, counter);
      CandidateFitsIff(title, counter);
      if counter < COUNTER_LIMIT {
        WasTried(title, counter, COUNTER_LIMIT);
      } else {
        forall t | t in Tried(title, COUNTER_LIMIT) ensures t in existing {
          TriedSooner(title, t, COUNTER_LIMIT, counter);
        }
      }
    }
  }

  lemma TriedSooner(title: string, t: string, counter: nat, later: nat)
    requires 2 <= counter <= later && t in Tried(title, counter)
    ensures t in Tried(title, later)
  {
  }

  /** The bound is needed: when everything below the limit is taken, the next title is too long for a sheet. */
  lemma ExhaustedTitlesOverflow(name: string)
    ensures var title := BaseTitle(name);
            var existing := Tried(title, COUNTER_LIMIT) + {title};
            forall r :: IsTitleFor(name, existing, r) ==> |r| > MAX_TITLE
  {
    var title := BaseTitle(name);
    var existing := Tried(title, COUNTER_LIMIT) + {title};
    forall counter: nat | IsLeastFree(title, existing, counter) ensures |Candidate(title, counter)| > MAX_TITLE {
      if counter < COUNTER_LIMIT { WasTried(title, counter, COUNTER_LIMIT); }
      CandidateFitsIff(title, counter);
    }
  }
}
