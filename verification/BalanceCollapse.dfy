/** The downgrade of `backend/alembic/versions/074_stock_balance_completed_operations.py`: rows keyed on
    five axes collapse to four, under a CHECK that forbids a zero balance at any moment; and the
    backfill of the upgrade. */
module BalanceCollapse {
  import opened Text

  datatype Quality = Good | Scrap | Rework | FinalScrap

  /** The four old axes. Grouping and IS NOT DISTINCT FROM both treat a missing dimension as a value. */
  datatype GroupKey = GroupKey(product: int, location: int, quality: Quality, dimensions: Option<string>)

  /** `qty` counts thousandths, the scale of the column. */
  datatype Balance = Balance(id: int, key: GroupKey, ops: Option<string>, qty: int)

  // ----- the table

  ghost predicate UniqueIds(rows: seq<Balance>) {
    forall i, j :: 0 <= i < j < |rows| ==> rows[i].id != rows[j].id
  }

  /** ck_stock_balances_nonzero. */
  predicate NonZero(rows: seq<Balance>) {
    forall i :: 0 <= i < |rows| ==> rows[i].qty != 0
  }

  /** The old unique constraint on the four axes. */
  ghost predicate OneRowPerGroup(rows: seq<Balance>) {
    forall i, j :: 0 <= i < j < |rows| ==> rows[i].key != rows[j].key
  }

  /** SUM(balance_qty) of a group. */
  function Total(rows: seq<Balance>, key: GroupKey): int {
    if rows == [] then 0
    else Total(rows[..|rows| - 1], key) + if rows[|rows| - 1].key == key then rows[|rows| - 1].qty else 0
  }

  ghost predicate HasGroup(rows: seq<Balance>, key: GroupKey) {
    exists i :: 0 <= i < |rows| && rows[i].key == key
  }

  /** MIN(id) of a group: no row of the group has a smaller id. */
  predicate IsRepresentative(rows: seq<Balance>, row: Balance) {
    forall i :: 0 <= i < |rows| && rows[i].key == row.key ==> row.id <= rows[i].id
  }

  // ----- the three statements, each against the rows it finds

  /** What DELETE leaves of the first n rows. */
  function Kept(rows: seq<Balance>, keep: Balance -> bool, n: nat): seq<Balance>
    requires n <= |rows|
  {
    if n == 0 then [] else Kept(rows, keep, n - 1) + if keep(rows[n - 1]) then [rows[n - 1]] else []
  }

  function InLiveGroup(rows: seq<Balance>): Balance -> bool {
    (row: Balance) => Total(rows, row.key) != 0
  }

  function DropZero(rows: seq<Balance>): seq<Balance> {
    Kept(rows, InLiveGroup(rows), |rows|)
  }

  function SumRow(rows: seq<Balance>, row: Balance): Balance {
    if IsRepresentative(rows, row) then row.(qty := Total(rows, row.key)) else row
  }

  function Sum(rows: seq<Balance>): (r: seq<Balance>) {
    seq(|rows|, i requires 0 <= i < |rows| => SumRow(rows, rows[i]))
  }

  function Represents(rows: seq<Balance>): Balance -> bool {
    (row: Balance) => IsRepresentative(rows, row)
  }

  function Dedup(rows: seq<Balance>): seq<Balance> {
    Kept(rows, Represents(rows), |rows|)
  }

  function Downgraded(rows: seq<Balance>): seq<Balance> {
    Dedup(Sum(DropZero(rows)))
  }

  class StockBalances {
    var rows: seq<Balance>

    constructor (rows: seq<Balance>)
      ensures this.rows == rows
    {
      this.rows := rows;
    }

    method DropZeroStatement()
      modifies this
      ensures rows == DropZero(old(rows))
    {
      var kept: seq<Balance> := [];
      for i := 0 to |rows|
        invariant rows == old(rows) && kept == Kept(rows, InLiveGroup(rows), i)
      {
        if Total(rows, rows[i].key) != 0 { kept := kept + [rows[i]]; }
      }
      rows := kept;
    }

    /** The CHECK is not deferrable: an update that would store a zero fails and changes nothing. */
    method SumStatement() returns (ok: bool)
      modifies this
      ensures ok <==> NonZero(Sum(old(rows)))
      ensures rows == if ok then Sum(old(rows)) else old(rows)
    {
      var updated: seq<Balance> := [];
      for i := 0 to |rows|
        invariant rows == old(rows) && updated == Sum(rows)[..i]
      {
        updated := updated + [SumRow(rows, rows[i])];
      }
      ok := NonZero(updated);
      if ok { rows := updated; }
    }

    method DedupStatement()
      modifies this
      ensures rows == Dedup(old(rows))
    {
      var kept: seq<Balance> := [];
      for i := 0 to |rows|
        invariant rows == old(rows) && kept == Kept(rows, Represents(rows), i)
      {
        if IsRepresentative(rows, rows[i]) { kept := kept + [rows[i]]; }
      }
      rows := kept;
    }

    /** The three statements in order: the CHECK never fires and the old constraint can be restored. */
    method Downgrade() returns (ok: bool)
      requires UniqueIds(rows) && NonZero(rows)
      modifies this
      ensures ok && rows == Downgraded(old(rows))
      ensures NonZero(rows) && OneRowPerGroup(rows) && UniqueIds(rows)
      ensures forall key :: Total(rows, key) == Total(old(rows), key)
      ensures forall key :: HasGroup(rows, key) <==> Total(old(rows), key) != 0
    {
      CollapseIsCorrect(rows);
      DropZeroStatement();
      ok := SumStatement();
      if !ok { return; }
      DedupStatement();
    }
  }

  // ----- sums over parts of the table

  lemma {:induction false} TotalOfConcat(a: seq<Balance>, b: seq<Balance>, key: GroupKey)
    ensures Total(a + b, key) == Total(a, key) + Total(b, key)
  {
    if b == [] {
      assert a + b == a;
    } else {
      assert (a + b)[..|a + b| - 1] == a + b[..|b| - 1];
      TotalOfConcat(a, b[..|b| - 1], key);
    }
  }

  lemma TotalOfPrefix(rows: seq<Balance>, n: nat, key: GroupKey)
    requires 0 < n <= |rows|
    ensures Total(rows[..n], key) == Total(rows[..n - 1], key) + if rows[n - 1].key == key then rows[n - 1].qty else 0
  {
    assert rows[..n][..n - 1] == rows[..n - 1];
  }

  lemma {:induction false} NoRowsNoTotal(rows: seq<Balance>, key: GroupKey)
    requires !HasGroup(rows, key)
    ensures Total(rows, key) == 0
  {
    if rows != [] { NoRowsNoTotal(rows[..|rows| - 1], key); }
  }

  // ----- what a DELETE leaves

  /** Rows are kept whole and none twice. */
  lemma {:induction false} KeptRows(rows: seq<Balance>, keep: Balance -> bool, n: nat)
    requires UniqueIds(rows) && n <= |rows|
    ensures UniqueIds(Kept(rows, keep, n))
    ensures forall i :: 0 <= i < |Kept(rows, keep, n)| ==>
              keep(Kept(rows, keep, n)[i]) && IsAmong(rows, n, Kept(rows, keep, n)[i])
    ensures forall i :: 0 <= i < n && keep(rows[i]) ==> IsAmong(Kept(rows, keep, n), |Kept(rows, keep, n)|, rows[i])
  {
    if n > 0 {
      KeptRows(rows, keep, n - 1);
      var before, after := Kept(rows, keep, n - 1), Kept(rows, keep, n);
      forall i | 0 <= i < |after| ensures keep(after[i]) && IsAmong(rows, n, after[i]) {
        if i < |before| {
          assert IsAmong(rows, n - 1, before[i]);
          var k :| 0 <= k < n - 1 && rows[k] == before[i];
        }
      }
      forall i, j | 0 <= i < j < |after| ensures after[i].id != after[j].id {
        assert IsAmong(rows, n - 1, before[i]);
      }
      forall i | 0 <= i < n && keep(rows[i]) ensures IsAmong(after, |after|, rows[i]) {
        if i < n - 1 {
          assert IsAmong(before, |before|, rows[i]);
          var k :| 0 <= k < |before| && before[k] == rows[i];
          assert after[k] == rows[i];
        } else {
          assert after[|before|] == rows[i];
        }
      }
    }
  }

  ghost predicate IsAmong(rows: seq<Balance>, n: nat, row: Balance)
    requires n <= |rows|
  {
    exists i :: 0 <= i < n && rows[i] == row
  }

  /** Statement 1: groups that cancel out vanish, the others keep their total. */
  lemma {:induction false} DropZeroTotal(rows: seq<Balance>, n: nat, key: GroupKey)
    requires n <= |rows|
    ensures Total(Kept(rows, InLiveGroup(rows), n), key) == if Total(rows, key) == 0 then 0 else Total(rows[..n], key)
  {
    if n == 0 {
      assert rows[..0] == [];
    } else {
      DropZeroTotal(rows, n - 1, key);
      TotalOfPrefix(rows, n, key);
      var last := if InLiveGroup(rows)(rows[n - 1]) then [rows[n - 1]] else [];
      TotalOfConcat(Kept(rows, InLiveGroup(rows), n - 1), last, key);
      assert last != [] ==> last[..0] == [];
    }
  }

  // ----- statement 2 and 3: the representative takes the total, the others go

  lemma {:induction false} LeastId(rows: seq<Balance>, key: GroupKey) returns (k: nat)
    requires HasGroup(rows, key)
    ensures k < |rows| && rows[k].key == key && IsRepresentative(rows, rows[k])
  {
    var front := rows[..|rows| - 1];
    var last := rows[|rows| - 1];
    if HasGroup(front, key) {
      var j := LeastId(front, key);
      assert front[j] == rows[j];
      k := if last.key == key && last.id < rows[j].id then |rows| - 1 else j;
      forall i | 0 <= i < |rows| && rows[i].key == key ensures rows[k].id <= rows[i].id {
        assert i < |front| ==> front[i] == rows[i];
      }
    } else {
      k := |rows| - 1;
      forall i | 0 <= i < |front| ensures rows[i].key != key { assert front[i] == rows[i]; }
    }
  }

  /** A table with one row per group holds its totals in those rows. */
  lemma {:induction false} TotalOfSingleRow(rows: seq<Balance>, k: nat)
    requires k < |rows| && forall i :: 0 <= i < |rows| && i != k ==> rows[i].key != rows[k].key
    ensures Total(rows, rows[k].key) == rows[k].qty
  {
    var front := rows[..|rows| - 1];
    if k == |rows| - 1 {
      NoRowsNoTotal(front, rows[k].key);
    } else {
      TotalOfSingleRow(front, k);
    }
  }

  lemma SameRepresentatives(rows: seq<Balance>, row: Balance)
    ensures IsRepresentative(Sum(rows), row) <==> IsRepresentative(rows, row)
  {
    var s := Sum(rows);
    forall i | 0 <= i < |rows| ensures s[i].key == rows[i].key && s[i].id == rows[i].id {}
    if IsRepresentative(s, row) {
      forall i | 0 <= i < |rows| && rows[i].key == row.key ensures row.id <= rows[i].id { assert s[i].key == row.key; }
    }
  }

  /** After the second and third statement a group is one row, and it carries the group's total. */
  lemma SumThenDedup(rows: seq<Balance>)
    requires UniqueIds(rows)
    ensures var r := Dedup(Sum(rows));
            && UniqueIds(r) && OneRowPerGroup(r)
            && (forall i :: 0 <= i < |r| ==> HasGroup(rows, r[i].key) && r[i].qty == Total(rows, r[i].key))
            && (forall key :: HasGroup(rows, key) ==> HasGroup(r, key))
  {
    var s := Sum(rows);
    var r := Dedup(s);
    assert UniqueIds(s);
    KeptRows(s, Represents(s), |s|);
    forall i | 0 <= i < |r|
      ensures HasGroup(rows, r[i].key) && r[i].qty == Total(rows, r[i].key)
      ensures forall j :: 0 <= j < |r| && r[j].key == r[i].key ==> r[i].id <= r[j].id
    {
      assert IsAmong(s, |s|, r[i]);
      var k :| 0 <= k < |s| && s[k] == r[i];
      assert s[k] == SumRow(rows, rows[k]) && s[k].key == rows[k].key && s[k].id == rows[k].id;
      assert Represents(s)(s[k]) && IsRepresentative(s, rows[k]);
      SameRepresentatives(rows, rows[k]);
      forall j | 0 <= j < |r| && r[j].key == r[i].key ensures r[i].id <= r[j].id { assert IsAmong(s, |s|, r[j]); }
    }
    forall key | HasGroup(rows, key) ensures HasGroup(r, key) {
      var k := LeastId(rows, key);
      SameRepresentatives(rows, rows[k]);
      assert s[k].key == key && IsRepresentative(s, s[k]) && Represents(s)(s[k]);
      assert IsAmong(r, |r|, s[k]);
    }
  }

  /** Statement 1 leaves a table in which no group sums to zero. */
  lemma DropZeroLive(rows: seq<Balance>)
    requires UniqueIds(rows) && NonZero(rows)
    ensures var live := DropZero(rows);
            && UniqueIds(live) && NonZero(live)
            && (forall key :: Total(live, key) == Total(rows, key))
            && (forall key :: HasGroup(live, key) <==> Total(rows, key) != 0)
  {
    var live := DropZero(rows);
    KeptRows(rows, InLiveGroup(rows), |rows|);
    assert rows[..|rows|] == rows;
    forall i | 0 <= i < |live| ensures live[i].qty != 0 && Total(rows, live[i].key) != 0 {
      assert InLiveGroup(rows)(live[i]) && IsAmong(rows, |rows|, live[i]);
    }
    forall key ensures Total(live, key) == Total(rows, key) && (HasGroup(live, key) <==> Total(rows, key) != 0) {
      DropZeroTotal(rows, |rows|, key);
      if !HasGroup(live, key) { NoRowsNoTotal(live, key); }
    }
  }

  /** Main property of the downgrade. */
  lemma CollapseIsCorrect(rows: seq<Balance>)
    requires UniqueIds(rows) && NonZero(rows)
    ensures var live, out := DropZero(rows), Downgraded(rows);
            && NonZero(live) && NonZero(Sum(live)) && NonZero(out)
            && OneRowPerGroup(out) && UniqueIds(out)
            && (forall key :: Total(out, key) == Total(rows, key))
            && (forall key :: HasGroup(out, key) <==> Total(rows, key) != 0)
  {
    var live, out := DropZero(rows), Downgraded(rows);
    DropZeroLive(rows);
    SumThenDedup(live);
    forall i | 0 <= i < |live| ensures Total(live, live[i].key) != 0 { assert HasGroup(live, live[i].key); }
    forall key
      ensures HasGroup(out, key) <==> Total(rows, key) != 0
      ensures Total(out, key) == Total(rows, key)
    {
      GroupAfter(live, out, key);
      if !HasGroup(live, key) { NoRowsNoTotal(live, key); }
    }
    forall i | 0 <= i < |out| ensures out[i].qty != 0 { assert HasGroup(out, out[i].key); }
  }

  lemma GroupAfter(live: seq<Balance>, out: seq<Balance>, key: GroupKey)
    requires OneRowPerGroup(out)
    requires forall i :: 0 <= i < |out| ==> HasGroup(live, out[i].key) && out[i].qty == Total(live, out[i].key)
    requires forall k :: HasGroup(live, k) ==> HasGroup(out, k)
    ensures HasGroup(out, key) <==> HasGroup(live, key)
    ensures HasGroup(out, key) ==> Total(out, key) == Total(live, key)
    ensures !HasGroup(out, key) ==> Total(out, key) == 0
  {
    if HasGroup(out, key) {
      var i :| 0 <= i < |out| && out[i].key == key;
      TotalOfSingleRow(out, i);
    } else {
      NoRowsNoTotal(out, key);
    }
  }

  // ----- each statement, row by row

  ghost predicate HasLeastId(rows: seq<Balance>, k: int) {
    0 <= k < |rows| && forall i :: 0 <= i < |rows| && rows[i].key == rows[k].key ==> rows[k].id <= rows[i].id
  }

  /** The sum is written to the row with the least id of its group and to no other, and nothing else changes. */
  lemma SummedRow(rows: seq<Balance>, k: nat)
    requires k < |rows|
    ensures Sum(rows)[k] == if HasLeastId(rows, k) then rows[k].(qty := Total(rows, rows[k].key)) else rows[k]
  {
  }

  /** Which rows the two deletions leave; rows are compared as a whole, so ids tell them apart. */
  lemma RowStays(rows: seq<Balance>, k: nat)
    requires UniqueIds(rows) && k < |rows|
    ensures rows[k] in DropZero(rows) <==> Total(rows, rows[k].key) != 0
    ensures rows[k] in Dedup(rows) <==> HasLeastId(rows, k)
  {
    KeptRows(rows, InLiveGroup(rows), |rows|);
    KeptRows(rows, Represents(rows), |rows|);
    assert Represents(rows)(rows[k]) <==> HasLeastId(rows, k);
    assert InLiveGroup(rows)(rows[k]) <==> Total(rows, rows[k].key) != 0;
    if Total(rows, rows[k].key) != 0 { assert IsAmong(DropZero(rows), |DropZero(rows)|, rows[k]); }
    if HasLeastId(rows, k) { assert IsAmong(Dedup(rows), |Dedup(rows)|, rows[k]); }
  }

  // ----- why the order matters

  /** Two rows of one group that differ in their operations. */
  function TwoRows(a: int, b: int): seq<Balance> {
    var key := GroupKey(1, 1, Good, None);
    [Balance(1, key, Some("A"), a), Balance(2, key, Some("B"), b)]
  }

  /** Deduplicating first leaves one row per group, so that the sum which follows changes nothing. */
  lemma DedupThenSum(rows: seq<Balance>)
    requires UniqueIds(rows)
    ensures Sum(Dedup(rows)) == Dedup(rows) && OneRowPerGroup(Dedup(rows))
  {
    var kept := Dedup(rows);
    KeptRows(rows, Represents(rows), |rows|);
    forall i, j | 0 <= i < j < |kept| ensures kept[i].key != kept[j].key {
      assert IsAmong(rows, |rows|, kept[i]) && IsAmong(rows, |rows|, kept[j]);
      assert Represents(rows)(kept[i]) && Represents(rows)(kept[j]);
    }
    forall i | 0 <= i < |kept| ensures SumRow(kept, kept[i]) == kept[i] { TotalOfSingleRow(kept, i); }
  }

  /** Deduplicating before summing keeps of a group only the quantity of its representative. */
  lemma DedupFirstTotal(rows: seq<Balance>, k: nat)
    requires UniqueIds(rows) && k < |rows| && IsRepresentative(rows, rows[k])
    ensures Total(Sum(Dedup(rows)), rows[k].key) == rows[k].qty
  {
    var kept := Dedup(rows);
    DedupThenSum(rows);
    KeptRows(rows, Represents(rows), |rows|);
    assert Represents(rows)(rows[k]) && IsAmong(kept, |kept|, rows[k]);
    var i :| 0 <= i < |kept| && kept[i] == rows[k];
    TotalOfSingleRow(kept, i);
  }

  /** With the last two statements swapped, totals are kept exactly when every representative already holds
      the total of its group. */
  lemma DedupBeforeSumKeepsIff(rows: seq<Balance>)
    requires UniqueIds(rows)
    ensures (forall key :: Total(Sum(Dedup(rows)), key) == Total(rows, key)) <==>
            (forall k :: 0 <= k < |rows| && IsRepresentative(rows, rows[k]) ==> rows[k].qty == Total(rows, rows[k].key))
  {
    forall k | 0 <= k < |rows| && IsRepresentative(rows, rows[k])
      ensures Total(Sum(Dedup(rows)), rows[k].key) == rows[k].qty
    {
      DedupFirstTotal(rows, k);
    }
    if forall k :: 0 <= k < |rows| && IsRepresentative(rows, rows[k]) ==> rows[k].qty == Total(rows, rows[k].key) {
      forall key ensures Total(Sum(Dedup(rows)), key) == Total(rows, key) {
        if HasGroup(rows, key) { var k := LeastId(rows, key); } else { NoGroupAfterDedup(rows, key); }
      }
    }
  }

  lemma NoGroupAfterDedup(rows: seq<Balance>, key: GroupKey)
    requires UniqueIds(rows) && !HasGroup(rows, key)
    ensures Total(Sum(Dedup(rows)), key) == 0 == Total(rows, key)
  {
    var kept := Dedup(rows);
    DedupThenSum(rows);
    KeptRows(rows, Represents(rows), |rows|);
    NoRowsNoTotal(rows, key);
    forall i | 0 <= i < |kept| ensures kept[i].key != key { assert IsAmong(rows, |rows|, kept[i]); }
    NoRowsNoTotal(kept, key);
  }

  /** Two rows of one group that differ in their operations: the second row's quantity is lost. */
  lemma DedupBeforeSumLoses(a: int, b: int)
    requires a != 0 && b != 0
    ensures var rows := TwoRows(a, b);
            Total(Sum(Dedup(rows)), rows[0].key) == a != Total(rows, rows[0].key)
  {
    var rows := TwoRows(a, b);
    assert IsRepresentative(rows, rows[0]);
    DedupFirstTotal(rows, 0);
    assert rows == [rows[0]] + [rows[1]];
    TotalOfConcat([rows[0]], [rows[1]], rows[0].key);
    TotalOfSingleRow([rows[0]], 0);
    TotalOfSingleRow([rows[1]], 0);
  }

  /** Summing without the first statement trips the CHECK exactly when some group cancels out. */
  lemma SumAloneFailsIff(rows: seq<Balance>)
    requires UniqueIds(rows) && NonZero(rows)
    ensures NonZero(Sum(rows)) <==> forall i :: 0 <= i < |rows| ==> Total(rows, rows[i].key) != 0
  {
    var s := Sum(rows);
    forall i | 0 <= i < |rows| && Total(rows, rows[i].key) == 0 ensures !NonZero(s) {
      assert HasGroup(rows, rows[i].key);
      var k := LeastId(rows, rows[i].key);
      assert s[k].qty == 0;
    }
  }

  // ----- the backfill of the upgrade, and the way back

  /** One side of a ledger row: the balance it feeds, and the operations it carries. */
  datatype Side = Side(key: GroupKey, ops: Option<string>)

  function Variants(sides: seq<Side>, key: GroupKey): set<Option<string>> {
    set i | 0 <= i < |sides| && sides[i].key == key :: sides[i].ops
  }

  ghost predicate Unanimous(sides: seq<Side>, key: GroupKey, ops: Option<string>) {
    && (exists i :: 0 <= i < |sides| && sides[i].key == key)
    && forall i :: 0 <= i < |sides| && sides[i].key == key ==> sides[i].ops == ops
  }

  lemma OneVariant(sides: seq<Side>, key: GroupKey, ops: Option<string>)
    ensures Variants(sides, key) == {ops} <==> Unanimous(sides, key, ops)
  {
    var v := Variants(sides, key);
    if Unanimous(sides, key, ops) {
      assert v == {ops};
    }
    if v == {ops} {
      assert ops in v;
      forall i | 0 <= i < |sides| && sides[i].key == key ensures sides[i].ops == ops { assert sides[i].ops in v; }
    }
  }

  ghost predicate IsBackfillOf(row: Balance, before: Balance, sides: seq<Side>) {
    && (forall ops :: Unanimous(sides, before.key, ops) ==> row == before.(ops := ops))
    && ((forall ops :: !Unanimous(sides, before.key, ops)) ==> row == before)
  }

  /** A balance takes the operations of its ledger rows when they all agree, and is left alone otherwise. */
  method Backfill(rows: seq<Balance>, sides: seq<Side>) returns (r: seq<Balance>)
    ensures |r| == |rows| && forall i :: 0 <= i < |rows| ==> IsBackfillOf(r[i], rows[i], sides)
  {
    r := [];
    for i := 0 to |rows|
      invariant |r| == i && forall k :: 0 <= k < i ==> IsBackfillOf(r[k], rows[k], sides)
    {
      var row, variants := rows[i], Variants(sides, rows[i].key);
      forall ops ensures variants == {ops} <==> Unanimous(sides, row.key, ops) { OneVariant(sides, row.key, ops); }
      if variants != {} {
        var ops :| ops in variants;
        if variants == {ops} { row := row.(ops := ops); }
      }
      r := r + [row];
    }
  }

  function WithoutOps(rows: seq<Balance>): seq<Balance> {
    seq(|rows|, i requires 0 <= i < |rows| => rows[i].(ops := None))
  }

  /** A table that came from four axes goes back to them unchanged. */
  lemma DowngradeUndoesBackfill(rows: seq<Balance>, filled: seq<Balance>, sides: seq<Side>)
    requires UniqueIds(rows) && NonZero(rows) && OneRowPerGroup(rows)
    requires |filled| == |rows| && forall i :: 0 <= i < |rows| ==> IsBackfillOf(filled[i], rows[i], sides)
    ensures WithoutOps(Downgraded(filled)) == WithoutOps(rows)
  {
    forall i | 0 <= i < |rows| ensures filled[i].(ops := None) == rows[i].(ops := None) {
      if ops :| Unanimous(sides, rows[i].key, ops) { assert filled[i] == rows[i].(ops := ops); }
    }
    forall i | 0 <= i < |rows|
      ensures filled[i].key == rows[i].key && filled[i].id == rows[i].id && filled[i].qty == rows[i].qty
    {
      assert filled[i].(ops := None) == rows[i].(ops := None);
    }
    SingleRowsStay(filled);
  }

  lemma SingleRowsStay(rows: seq<Balance>)
    requires UniqueIds(rows) && NonZero(rows) && OneRowPerGroup(rows)
    ensures Downgraded(rows) == rows
  {
    forall i | 0 <= i < |rows| ensures Total(rows, rows[i].key) == rows[i].qty && IsRepresentative(rows, rows[i]) {
      TotalOfSingleRow(rows, i);
    }
    KeepAll(rows, InLiveGroup(rows), |rows|);
    assert Sum(rows) == rows;
    KeepAll(rows, Represents(rows), |rows|);
    assert rows[..|rows|] == rows;
  }

  lemma {:induction false} KeepAll(rows: seq<Balance>, keep: Balance -> bool, n: nat)
    requires n <= |rows| && forall i :: 0 <= i < |rows| ==> keep(rows[i])
    ensures Kept(rows, keep, n) == rows[..n]
  {
    if n > 0 { KeepAll(rows, keep, n - 1); }
  }
}
