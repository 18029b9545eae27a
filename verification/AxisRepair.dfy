/** `run_repair` of `backend/scripts/repair_completed_operations_axis.py`: three resolution passes
    over the ledger, the guard on unknown codes, and the write-back. */
module AxisRepair {
  import opened Text
  import opened RouteAxes

  const IMPORT_SOURCE_REF_PREFIX: string := "import_remainders:"

  datatype Reason = TransferSend | TransferReceive | ManualIn | ManualOut | AdjustmentIn | AdjustmentOut | OtherReason

  /** The route and the stage sequence of the work order a row belongs to; sequence 0 means no stage. */
  datatype Owner = Owner(route: int, sequence: int)

  /** What the repair reads of a ledger row besides its stored operations. */
  datatype Row = Row(
    id: int,
    reason: Reason,
    transferId: Option<int>,
    reversesId: Option<int>,
    sourceRef: Option<string>,
    owner: Option<Owner>)
  {
    predicate IsImport() { sourceRef.Some? && IMPORT_SOURCE_REF_PREFIX <= sourceRef.value }

    predicate IsManual() { reason in {ManualIn, ManualOut, AdjustmentIn, AdjustmentOut} }

    predicate IsReceipt() { reason == TransferReceive && transferId.Some? && transferId.value != 0 }

    predicate IsCompensation() { reversesId.Some? }

    /** Resolved by the first pass: neither a receipt nor a compensation. */
    predicate IsPlain() { !IsReceipt() && !IsCompensation() }

    /** A send that is not itself the compensation of a cancelled transfer. */
    predicate IsOriginalSend() { reason == TransferSend && transferId.Some? && !IsCompensation() }
  }

  datatype Ledger = Ledger(rows: seq<Row>, stored: map<int, Ops>, axes: map<int, RouteAxis>)

  /** Rows come ordered by their primary key. */
  ghost predicate OrderedById(rows: seq<Row>) {
    forall i, j :: 0 <= i < j < |rows| ==> rows[i].id < rows[j].id
  }

  ghost predicate Valid(L: Ledger) {
    && OrderedById(L.rows)
    && forall i :: 0 <= i < |L.rows| ==> L.rows[i].id in L.stored
  }

  // ----- the value of a row that is neither a receipt nor a compensation

  function PlanDriven(axes: map<int, RouteAxis>, row: Row, stored: Ops): Ops {
    if row.owner.None? || row.owner.value.route !in axes then stored
    else axes[row.owner.value.route].Exact(stored, Some(row.owner.value.sequence))
  }

  function PlainValue(axes: map<int, RouteAxis>, row: Row, stored: Ops): Ops {
    if row.IsImport() || row.IsManual() then stored else PlanDriven(axes, row, stored)
  }

  // ----- what the dictionaries of the three passes hold after n rows

  ghost function Plain(L: Ledger, n: nat): map<int, Ops>
    requires Valid(L) && n <= |L.rows|
  {
    if n == 0 then map[]
    else
      var row, before := L.rows[n - 1], Plain(L, n - 1);
      if row.IsPlain() then before[row.id := PlainValue(L.axes, row, L.stored[row.id])] else before
  }

  ghost function Sends(L: Ledger, n: nat): map<int, Ops>
    requires Valid(L) && n <= |L.rows|
  {
    if n == 0 then map[]
    else
      var row, before := L.rows[n - 1], Sends(L, n - 1);
      if row.IsOriginalSend() then before[row.transferId.value := PlainValue(L.axes, row, L.stored[row.id])] else before
  }

  /** What a receipt takes: the value of the last original send of its transfer, if there is one. */
  ghost function Mirror(L: Ledger, row: Row): Option<Ops>
    requires Valid(L) && row.IsReceipt()
  {
    var sends := Sends(L, |L.rows|);
    if row.transferId.value in sends then Some(sends[row.transferId.value]) else None
  }

  ghost function ReceiptValue(L: Ledger, row: Row): Ops
    requires Valid(L) && row.IsReceipt() && row.id in L.stored
  {
    match Mirror(L, row) case None => L.stored[row.id] case Some(ops) => ops
  }

  ghost function Received(L: Ledger, n: nat): map<int, Ops>
    requires Valid(L) && n <= |L.rows|
  {
    if n == 0 then Plain(L, |L.rows|)
    else
      var row, before := L.rows[n - 1], Received(L, n - 1);
      if row.IsReceipt() then before[row.id := ReceiptValue(L, row)] else before
  }

  ghost function Compensated(L: Ledger, n: nat): map<int, Ops>
    requires Valid(L) && n <= |L.rows|
  {
    if n == 0 then Received(L, |L.rows|)
    else
      var row, before := L.rows[n - 1], Compensated(L, n - 1);
      if row.IsCompensation() then before[row.id := CompensationValue(before, row, L.stored[row.id])] else before
  }

  function CompensationValue(resolved: map<int, Ops>, row: Row, stored: Ops): Ops
    requires row.IsCompensation()
  {
    if row.reversesId.value in resolved then resolved[row.reversesId.value] else stored
  }

  ghost function Resolved(L: Ledger): (r: map<int, Ops>)
    requires Valid(L)
    ensures forall i :: 0 <= i < |L.rows| ==> L.rows[i].id in r
  {
    EveryRowResolved(L);
    Compensated(L, |L.rows|)
  }

  // ----- looking a row up in those dictionaries

  lemma {:induction false} PlainAt(L: Ledger, n: nat, i: nat)
    requires Valid(L) && n <= |L.rows| && i < |L.rows|
    ensures var row := L.rows[i];
            if i < n && row.IsPlain() then
              row.id in Plain(L, n) && Plain(L, n)[row.id] == PlainValue(L.axes, row, L.stored[row.id])
            else row.id !in Plain(L, n)
  {
    if n > 0 { PlainAt(L, n - 1, i); }
  }

  lemma {:induction false} ReceivedAt(L: Ledger, n: nat, i: nat)
    requires Valid(L) && n <= |L.rows| && i < |L.rows|
    ensures var row := L.rows[i];
            if row.IsPlain() then
              row.id in Received(L, n) && Received(L, n)[row.id] == PlainValue(L.axes, row, L.stored[row.id])
            else if i < n && row.IsReceipt() then
              row.id in Received(L, n) && Received(L, n)[row.id] == ReceiptValue(L, row)
            else row.id !in Received(L, n)
  {
    if n == 0 { PlainAt(L, |L.rows|, i); } else { ReceivedAt(L, n - 1, i); }
  }

  /** The value a row has when the compensation pass begins; None if the row is not resolved yet. */
  ghost function Early(L: Ledger, i: nat): Option<Ops>
    requires Valid(L) && i < |L.rows|
  {
    var row := L.rows[i];
    if row.IsPlain() then Some(PlainValue(L.axes, row, L.stored[row.id]))
    else if row.IsReceipt() then Some(ReceiptValue(L, row))
    else None
  }

  ghost function Lookup(m: map<int, Ops>, id: int): Option<Ops> {
    if id in m then Some(m[id]) else None
  }

  /** Until its own turn comes, and for ever if it is not a compensation, a row keeps its early value. */
  lemma {:induction false} UntouchedBefore(L: Ledger, n: nat, i: nat)
    requires Valid(L) && n <= |L.rows| && i < |L.rows|
    requires n <= i || !L.rows[i].IsCompensation()
    ensures Lookup(Compensated(L, n), L.rows[i].id) == Early(L, i)
  {
    if n == 0 { ReceivedAt(L, |L.rows|, i); } else { UntouchedBefore(L, n - 1, i); }
  }

  lemma {:induction false} SettledAfter(L: Ledger, n: nat, i: nat)
    requires Valid(L) && i < n <= |L.rows|
    ensures Lookup(Compensated(L, n), L.rows[i].id) == Lookup(Compensated(L, i + 1), L.rows[i].id)
  {
    if n > i + 1 { SettledAfter(L, n - 1, i); }
  }

  lemma {:induction false} OnlyRowIds(L: Ledger, n: nat, id: int)
    requires Valid(L) && n <= |L.rows|
    requires forall i :: 0 <= i < |L.rows| ==> L.rows[i].id != id
    ensures id !in Compensated(L, n)
  {
    if n > 0 {
      OnlyRowIds(L, n - 1, id);
    } else {
      OnlyRowIdsReceived(L, |L.rows|, id);
    }
  }

  lemma {:induction false} OnlyRowIdsReceived(L: Ledger, n: nat, id: int)
    requires Valid(L) && n <= |L.rows|
    requires forall i :: 0 <= i < |L.rows| ==> L.rows[i].id != id
    ensures id !in Received(L, n)
  {
    if n > 0 { OnlyRowIdsReceived(L, n - 1, id); } else { OnlyRowIdsPlain(L, |L.rows|, id); }
  }

  lemma {:induction false} OnlyRowIdsPlain(L: Ledger, n: nat, id: int)
    requires Valid(L) && n <= |L.rows|
    requires forall i :: 0 <= i < |L.rows| ==> L.rows[i].id != id
    ensures id !in Plain(L, n)
  {
    if n > 0 { OnlyRowIdsPlain(L, n - 1, id); }
  }

  lemma EveryRowResolved(L: Ledger)
    requires Valid(L)
    ensures forall i :: 0 <= i < |L.rows| ==> L.rows[i].id in Compensated(L, |L.rows|)
  {
    forall i | 0 <= i < |L.rows| ensures L.rows[i].id in Compensated(L, |L.rows|) {
      if L.rows[i].IsCompensation() { SettledAfter(L, |L.rows|, i); } else { UntouchedBefore(L, |L.rows|, i); }
    }
  }

  ghost function IndexOf(rows: seq<Row>, id: int): (r: Option<nat>)
    ensures r.Some? ==> r.value < |rows| && rows[r.value].id == id
    ensures r.None? ==> forall i :: 0 <= i < |rows| ==> rows[i].id != id
  {
    if exists i :: 0 <= i < |rows| && rows[i].id == id then
      var i :| 0 <= i < |rows| && rows[i].id == id;
      Some(i)
    else None
  }

  /** Every row is resolved, and a compensation takes what its source holds at that moment. */
  lemma FinalValue(L: Ledger, i: nat)
    requires Valid(L) && i < |L.rows|
    ensures var row := L.rows[i];
            && (row.IsPlain() ==> Resolved(L)[row.id] == PlainValue(L.axes, row, L.stored[row.id]))
            && (row.IsReceipt() && !row.IsCompensation() ==> Resolved(L)[row.id] == ReceiptValue(L, row))
            && (row.IsCompensation() ==>
                  Resolved(L)[row.id] == CompensationValue(Compensated(L, i), row, L.stored[row.id]))
  {
    if L.rows[i].IsCompensation() {
      SettledAfter(L, |L.rows|, i);
    } else {
      UntouchedBefore(L, |L.rows|, i);
    }
  }

  /** Where a compensation reads: the final value of an earlier source, the early value of any other. */
  lemma SourceValue(L: Ledger, i: nat)
    requires Valid(L) && i < |L.rows| && L.rows[i].IsCompensation()
    ensures var source := IndexOf(L.rows, L.rows[i].reversesId.value);
            Lookup(Compensated(L, i), L.rows[i].reversesId.value) ==
              if source.None? then None
              else if source.value < i then Some(Resolved(L)[L.rows[source.value].id])
              else Early(L, source.value)
  {
    var source := IndexOf(L.rows, L.rows[i].reversesId.value);
    if source.None? {
      OnlyRowIds(L, i, L.rows[i].reversesId.value);
    } else {
      FinalValue(L, source.value);
      if source.value < i {
        SettledAfter(L, i, source.value);
        SettledAfter(L, |L.rows|, source.value);
      } else {
        UntouchedBefore(L, i, source.value);
      }
    }
  }

  /** The value of a row, read off the loaded ledger: the chain of earlier sources is followed back to a
      row that is no compensation, to a source that stands later, or to a missing source. */
  ghost function Chained(L: Ledger, i: nat): Ops
    requires Valid(L) && i < |L.rows|
    decreases i
  {
    var row, own := L.rows[i], L.stored[L.rows[i].id];
    if !row.IsCompensation() then OrElse(Early(L, i), own)
    else
      var source := IndexOf(L.rows, row.reversesId.value);
      if source.None? then own
      else if source.value < i then Chained(L, source.value)
      else OrElse(Early(L, source.value), own)
  }

  function OrElse(early: Option<Ops>, otherwise: Ops): Ops {
    if early.Some? then early.value else otherwise
  }

  /** The three passes give every row the value read off the ledger. */
  lemma {:induction false} ResolvedIsChained(L: Ledger, i: nat)
    requires Valid(L) && i < |L.rows|
    ensures Resolved(L)[L.rows[i].id] == Chained(L, i)
    decreases i
  {
    FinalValue(L, i);
    if L.rows[i].IsCompensation() {
      SourceValue(L, i);
      var source := IndexOf(L.rows, L.rows[i].reversesId.value);
      if source.Some? && source.value < i { ResolvedIsChained(L, source.value); }
    }
  }

  // ----- the mirror

  /** The row sends the goods of this transfer, and does not take such a sending back. */
  ghost predicate SendsOriginally(row: Row, transfer: int) {
    row.reason == TransferSend && row.transferId == Some(transfer) && row.reversesId == None
  }

  ghost predicate LastOriginalSend(L: Ledger, n: nat, transfer: int, k: nat)
    requires n <= |L.rows|
  {
    && k < n
    && SendsOriginally(L.rows[k], transfer)
    && forall j :: k < j < n ==> !SendsOriginally(L.rows[j], transfer)
  }

  lemma {:induction false} SendsHoldTheLast(L: Ledger, n: nat, transfer: int, k: nat)
    requires Valid(L) && n <= |L.rows| && LastOriginalSend(L, n, transfer, k)
    ensures Lookup(Sends(L, n), transfer) == Some(PlainValue(L.axes, L.rows[k], L.stored[L.rows[k].id]))
  {
    if k < n - 1 { SendsHoldTheLast(L, n - 1, transfer, k); }
  }

  ghost predicate NeverSent(L: Ledger, n: nat, transfer: int)
    requires n <= |L.rows|
  {
    forall k :: 0 <= k < n ==> !SendsOriginally(L.rows[k], transfer)
  }

  lemma {:induction false} NeverSentNotHeld(L: Ledger, n: nat, transfer: int)
    requires Valid(L) && n <= |L.rows| && NeverSent(L, n, transfer)
    ensures transfer !in Sends(L, n)
  {
    if n > 0 { NeverSentNotHeld(L, n - 1, transfer); }
  }

  /** A receipt that is not a compensation ends with the operations of the last original send of its
      transfer, and is left alone when there is no such send. */
  lemma ReceiptMirrorsSend(L: Ledger, i: nat)
    requires Valid(L) && i < |L.rows| && L.rows[i].reversesId == None
    requires L.rows[i].reason == TransferReceive && L.rows[i].transferId.Some? && L.rows[i].transferId.value != 0
    ensures var t := L.rows[i].transferId.value;
            && (forall k :: 0 <= k < |L.rows| && LastOriginalSend(L, |L.rows|, t, k) ==>
                  Resolved(L)[L.rows[i].id] == Resolved(L)[L.rows[k].id])
            && (NeverSent(L, |L.rows|, t) ==> Resolved(L)[L.rows[i].id] == L.stored[L.rows[i].id])
  {
    var t := L.rows[i].transferId.value;
    if NeverSent(L, |L.rows|, t) { NeverSentNotHeld(L, |L.rows|, t); }
    FinalValue(L, i);
    forall k | 0 <= k < |L.rows| && LastOriginalSend(L, |L.rows|, t, k)
      ensures Resolved(L)[L.rows[i].id] == Resolved(L)[L.rows[k].id]
    {
      SendsHoldTheLast(L, |L.rows|, t, k);
      FinalValue(L, k);
    }
  }

  /** A row that is neither a receipt nor a compensation, of no manual kind and not imported. */
  ghost predicate FromThePlan(row: Row) {
    && row.reversesId == None
    && !(row.reason == TransferReceive && row.transferId.Some? && row.transferId.value != 0)
    && !FromElsewhere(row)
  }

  ghost predicate FromElsewhere(row: Row) {
    || row.reason == ManualIn || row.reason == ManualOut || row.reason == AdjustmentIn || row.reason == AdjustmentOut
    || (row.sourceRef.Some? && "import_remainders:" <= row.sourceRef.value)
  }

  /** The owner's route was loaded. */
  ghost predicate HasRoute(L: Ledger, row: Row) {
    row.owner.Some? && row.owner.value.route in L.axes && L.axes[row.owner.value.route].Loaded()
  }

  /** The stage of the owner stands before the first stage of the route, and the row stores nothing. */
  ghost predicate EmptyBeforeRoute(axis: RouteAxis, own: int, stored: Ops) {
    axis.sequences != [] && own != 0 && own < axis.sequences[0] && stored == {}
  }

  /** Which set the run gives to a row of the plan, in terms of the stages of its route: the one set that all
      fitting stages stand for; what is stored if none fits or two disagree. */
  lemma PlanRowIsFitted(L: Ledger, i: nat, v: Ops)
    requires Valid(L) && i < |L.rows| && FromThePlan(L.rows[i]) && HasRoute(L, L.rows[i])
    ensures var row := L.rows[i];
            var axis, own, stored := L.axes[row.owner.value.route], row.owner.value.sequence, L.stored[row.id];
            && (EmptyBeforeRoute(axis, own, stored) ==> Resolved(L)[row.id] == stored)
            && (!EmptyBeforeRoute(axis, own, stored) && AllFitsMean(axis, stored, v) ==> Resolved(L)[row.id] == v)
            && ((forall w :: !AllFitsMean(axis, stored, w)) ==> Resolved(L)[row.id] == stored)
  {
    var row := L.rows[i];
    FinalValue(L, i);
    ExactIsFitting(L.axes[row.owner.value.route], L.stored[row.id], row.owner.value.sequence);
  }

  /** Manual rows and imported ones keep what they store. */
  lemma OtherRowsStay(L: Ledger, i: nat)
    requires Valid(L) && i < |L.rows| && L.rows[i].reversesId == None && FromElsewhere(L.rows[i])
    requires !(L.rows[i].reason == TransferReceive && L.rows[i].transferId.Some? && L.rows[i].transferId.value != 0)
    ensures Resolved(L)[L.rows[i].id] == L.stored[L.rows[i].id]
  {
    FinalValue(L, i);
  }

  /** So do rows of the plan without an owner or without a loaded route. */
  lemma WithoutRouteStays(L: Ledger, i: nat)
    requires Valid(L) && i < |L.rows| && FromThePlan(L.rows[i])
    requires L.rows[i].owner.None? || L.rows[i].owner.value.route !in L.axes
    ensures Resolved(L)[L.rows[i].id] == L.stored[L.rows[i].id]
  {
    FinalValue(L, i);
  }

  /** A compensation whose source stands earlier in the ledger ends with its source's operations,
      through chains of compensations of any length. */
  lemma CompensationMirrorsSource(L: Ledger, i: nat, j: nat)
    requires Valid(L) && j < i < |L.rows|
    requires L.rows[i].reversesId == Some(L.rows[j].id)
    ensures Resolved(L)[L.rows[i].id] == Resolved(L)[L.rows[j].id]
  {
    SourceValue(L, i);
    FinalValue(L, i);
    FinalValue(L, j);
  }

  /** What compensations store, those of cancelled transfers included, reaches no row that is not itself a
      compensation. */
  lemma CompensationsDoNotLeak(L: Ledger, M: Ledger, i: nat)
    requires Valid(L) && Valid(M) && L.rows == M.rows && L.axes == M.axes
    requires forall k :: 0 <= k < |L.rows| && !L.rows[k].IsCompensation() ==>
        L.stored[L.rows[k].id] == M.stored[L.rows[k].id]
    requires i < |L.rows| && !L.rows[i].IsCompensation()
    ensures Resolved(L)[L.rows[i].id] == Resolved(M)[L.rows[i].id]
  {
    FinalValue(L, i);
    FinalValue(M, i);
    SendsIgnoreCompensations(L, M, |L.rows|);
  }

  lemma {:induction false} SendsIgnoreCompensations(L: Ledger, M: Ledger, n: nat)
    requires Valid(L) && Valid(M) && L.rows == M.rows && L.axes == M.axes && n <= |L.rows|
    requires forall k :: 0 <= k < |L.rows| && L.rows[k].IsOriginalSend() ==>
               PlainValue(L.axes, L.rows[k], L.stored[L.rows[k].id]) ==
                   PlainValue(L.axes, L.rows[k], M.stored[L.rows[k].id])
    ensures Sends(L, n) == Sends(M, n)
  {
    if n > 0 { SendsIgnoreCompensations(L, M, n - 1); }
  }

  // ----- a second run

  /** The ledger a successful run with --apply leaves behind. */
  ghost function Repaired(L: Ledger): (M: Ledger)
    requires Valid(L)
    ensures Valid(M)
  {
    L.(stored := Resolved(L))
  }

  /** A compensation that points forward, at a compensating receipt whose transfer has no original send. */
  ghost predicate ReadsOrphanAhead(L: Ledger, i: nat, j: nat)
    requires Valid(L) && i < |L.rows| && j < |L.rows|
  {
    && i < j && L.rows[i].reversesId == Some(L.rows[j].id)
    && L.rows[j].IsCompensation() && L.rows[j].IsReceipt() && Mirror(L, L.rows[j]).None?
  }

  /** Any such orphan receipt already stores what the chain of sources behind it will give it. */
  ghost predicate OrphansAheadKept(L: Ledger)
    requires Valid(L)
  {
    forall i, j :: 0 <= i < |L.rows| && 0 <= j < |L.rows| && ReadsOrphanAhead(L, i, j) ==>
      Chained(L, j) == L.stored[L.rows[j].id]
  }

  lemma PlainValueSettles(axes: map<int, RouteAxis>, row: Row, stored: Ops)
    ensures PlainValue(axes, row, PlainValue(axes, row, stored)) == PlainValue(axes, row, stored)
  {
    if row.owner.Some? && row.owner.value.route in axes {
      ExactIsIdempotent(axes[row.owner.value.route], stored, Some(row.owner.value.sequence));
    }
  }

  lemma SecondSends(L: Ledger)
    requires Valid(L)
    ensures Sends(Repaired(L), |L.rows|) == Sends(L, |L.rows|)
  {
    forall k | 0 <= k < |L.rows| && L.rows[k].IsOriginalSend()
      ensures PlainValue(L.axes, L.rows[k], L.stored[L.rows[k].id]) ==
          PlainValue(L.axes, L.rows[k], Resolved(L)[L.rows[k].id])
    {
      FinalValue(L, k);
      PlainValueSettles(L.axes, L.rows[k], L.stored[L.rows[k].id]);
    }
    SendsIgnoreCompensations(L, Repaired(L), |L.rows|);
  }

  /** Before the compensation pass the second run differs from the first at most on orphan receipts. */
  lemma SecondEarly(L: Ledger, j: nat)
    requires Valid(L) && j < |L.rows|
    ensures var row := L.rows[j];
            if row.IsCompensation() && row.IsReceipt() && Mirror(L, row).None?
            then Early(L, j) == Some(L.stored[row.id]) && Early(Repaired(L), j) == Some(Resolved(L)[row.id])
            else Early(Repaired(L), j) == Early(L, j)
  {
    FinalValue(L, j);
    SecondSends(L);
    PlainValueSettles(L.axes, L.rows[j], L.stored[L.rows[j].id]);
  }

  ghost predicate SameAt(L: Ledger, i: nat)
    requires Valid(L) && i < |L.rows|
  {
    Lookup(Resolved(Repaired(L)), L.rows[i].id) == Lookup(Resolved(L), L.rows[i].id)
  }

  /** What a compensation reads in the first and in the second run from a source that stands ahead of it. */
  lemma ReadsAhead(L: Ledger, i: nat, j: nat)
    requires Valid(L) && i <= j < |L.rows| && L.rows[i].reversesId == Some(L.rows[j].id)
    ensures Lookup(Compensated(L, i), L.rows[j].id) == Early(L, j)
    ensures Lookup(Compensated(Repaired(L), i), L.rows[j].id) == Early(Repaired(L), j)
  {
    UntouchedBefore(L, i, j);
    UntouchedBefore(Repaired(L), i, j);
  }

  lemma ReadsOrphan(L: Ledger, i: nat, j: nat)
    requires Valid(L) && i < |L.rows| && j < |L.rows| && ReadsOrphanAhead(L, i, j)
    ensures Lookup(Compensated(L, i), L.rows[j].id) == Some(L.stored[L.rows[j].id])
    ensures Lookup(Compensated(Repaired(L), i), L.rows[j].id) == Lookup(Resolved(L), L.rows[j].id)
  {
    ReadsAhead(L, i, j);
    SecondEarly(L, j);
  }

  lemma ReadsBack(L: Ledger, i: nat, j: nat)
    requires Valid(L) && j < i < |L.rows| && L.rows[i].reversesId == Some(L.rows[j].id) && SameAt(L, j)
    ensures Lookup(Compensated(Repaired(L), i), L.rows[j].id) == Lookup(Compensated(L, i), L.rows[j].id)
  {
    SettledAfter(L, i, j);
    SettledAfter(L, |L.rows|, j);
    SettledAfter(Repaired(L), i, j);
    SettledAfter(Repaired(L), |L.rows|, j);
  }

  lemma ReadsNothing(L: Ledger, i: nat, id: int)
    requires Valid(L) && i < |L.rows| && forall k :: 0 <= k < |L.rows| ==> L.rows[k].id != id
    ensures Lookup(Compensated(Repaired(L), i), id) == Lookup(Compensated(L, i), id) == None
  {
    OnlyRowIds(L, i, id);
    OnlyRowIds(Repaired(L), i, id);
  }

  /** Both runs read the same, or the row reads itself, unresolved, and keeps what it stores. */
  ghost predicate SameReading(L: Ledger, i: nat, id: int)
    requires Valid(L) && i < |L.rows|
  {
    var first, second := Lookup(Compensated(L, i), id), Lookup(Compensated(Repaired(L), i), id);
    second == first || (first == Some(L.stored[L.rows[i].id]) && second == Some(Resolved(L)[L.rows[i].id]))
  }

  lemma ReadsAheadTheSame(L: Ledger, i: nat, j: nat)
    requires Valid(L) && i <= j < |L.rows| && L.rows[i].reversesId == Some(L.rows[j].id) && !ReadsOrphanAhead(L, i, j)
    ensures SameReading(L, i, L.rows[j].id)
  {
    ReadsAhead(L, i, j);
    SecondEarly(L, j);
  }

  /** A compensation that reads no orphan ahead reads the same in both runs, or reads itself. */
  lemma ReadsTheSame(L: Ledger, i: nat)
    requires Valid(L) && i < |L.rows| && L.rows[i].IsCompensation()
    requires forall k :: 0 <= k < i ==> SameAt(L, k)
    requires forall j :: 0 <= j < |L.rows| ==> !ReadsOrphanAhead(L, i, j)
    ensures SameReading(L, i, L.rows[i].reversesId.value)
  {
    var source := IndexOf(L.rows, L.rows[i].reversesId.value);
    if source.None? {
      ReadsNothing(L, i, L.rows[i].reversesId.value);
    } else if source.value < i {
      ReadsBack(L, i, source.value);
    } else {
      ReadsAheadTheSame(L, i, source.value);
    }
  }

  lemma NoOrphanSameValue(L: Ledger, i: nat)
    requires Valid(L) && i < |L.rows|
    requires forall k :: 0 <= k < i ==> SameAt(L, k)
    requires forall j :: 0 <= j < |L.rows| ==> !ReadsOrphanAhead(L, i, j)
    ensures SameAt(L, i)
  {
    FinalValue(L, i);
    FinalValue(Repaired(L), i);
    if L.rows[i].IsCompensation() { ReadsTheSame(L, i); } else { SecondEarly(L, i); }
  }

  lemma OrphanSameValueIff(L: Ledger, i: nat, j: nat)
    requires Valid(L) && i < |L.rows| && j < |L.rows| && ReadsOrphanAhead(L, i, j)
    ensures SameAt(L, i) <==> Lookup(Resolved(L), L.rows[j].id) == Some(L.stored[L.rows[j].id])
  {
    FinalValue(L, i);
    FinalValue(Repaired(L), i);
    ReadsOrphan(L, i, j);
  }

  lemma {:induction false} SecondRunSameUpTo(L: Ledger, n: nat)
    requires Valid(L) && n <= |L.rows| && OrphansAheadKept(L)
    ensures forall i :: 0 <= i < n ==> SameAt(L, i)
  {
    if n > 0 {
      var m := n - 1;
      SecondRunSameUpTo(L, m);
      if j :| 0 <= j < |L.rows| && ReadsOrphanAhead(L, m, j) {
        ResolvedIsChained(L, j);
        OrphanSameValueIff(L, m, j);
      } else {
        NoOrphanSameValue(L, m);
      }
    }
  }

  /** The run finds every row already as it would write it. */
  ghost predicate NothingToChange(L: Ledger)
    requires Valid(L)
  {
    forall i :: 0 <= i < |L.rows| ==> Resolved(L)[L.rows[i].id] == L.stored[L.rows[i].id]
  }

  /** The exact condition on the loaded ledger under which the repair, run on its own output, finds
      nothing to change. */
  lemma IdempotentIff(L: Ledger)
    requires Valid(L)
    ensures NothingToChange(Repaired(L)) <==> OrphansAheadKept(L)
  {
    if OrphansAheadKept(L) {
      SecondRunSameUpTo(L, |L.rows|);
      forall i | 0 <= i < |L.rows| ensures Resolved(Repaired(L))[L.rows[i].id] == Repaired(L).stored[L.rows[i].id] {
        assert SameAt(L, i);
      }
    }
    if NothingToChange(Repaired(L)) {
      forall i | 0 <= i < |L.rows| ensures SameAt(L, i) {
        assert Resolved(Repaired(L))[L.rows[i].id] == Repaired(L).stored[L.rows[i].id];
      }
      forall i, j | 0 <= i < |L.rows| && 0 <= j < |L.rows| && ReadsOrphanAhead(L, i, j)
        ensures Chained(L, j) == L.stored[L.rows[j].id]
      {
        OrphanSameValueIff(L, i, j);
        ResolvedIsChained(L, j);
      }
    }
  }

  /** Compensations are written after what they compensate; then one run reaches a fixpoint. */
  lemma IdempotentWhenReversalsPointBack(L: Ledger)
    requires Valid(L)
    requires forall i :: 0 <= i < |L.rows| && L.rows[i].IsCompensation() ==> L.rows[i].reversesId.value < L.rows[i].id
    ensures NothingToChange(Repaired(L))
  {
    IdempotentIff(L);
  }

  /** Row 1 compensates row 2, an orphan receipt that itself compensates row 3. */
  ghost function ForwardLedger(): Ledger {
    Ledger([Row(1, OtherReason, None, Some(2), None, None),
            Row(2, TransferReceive, Some(7), Some(3), None, None),
            Row(3, ManualIn, None, None, None, None)],
           map[1 := {"A"}, 2 := {"B"}, 3 := {"C"}], map[])
  }

  /** Without that, one run may not be enough: the first run gives row 1 the old value of row 2,
      the second run the new one. */
  lemma ForwardReversalNeedsTwoRuns()
    ensures Valid(ForwardLedger()) && !NothingToChange(Repaired(ForwardLedger()))
  {
    var L := ForwardLedger();
    ForwardOrphan();
    CompensationMirrorsForward(L);
    ResolvedIsChained(L, 1);
    IdempotentIff(L);
  }

  lemma ForwardOrphan()
    ensures var L := ForwardLedger();
            && Valid(L) && ReadsOrphanAhead(L, 0, 1) && Resolved(L)[3] != L.stored[2]
  {
    var L := ForwardLedger();
    FinalValue(L, 2);
    NeverSentNotHeld(L, 3, 7);
    assert "C" in Resolved(L)[3] && "C" !in L.stored[2];
  }

  lemma CompensationMirrorsForward(L: Ledger)
    requires Valid(L) && |L.rows| == 3 && L.rows[1].reversesId == Some(L.rows[2].id) && L.rows[2].IsPlain()
    ensures Resolved(L)[L.rows[1].id] == Resolved(L)[L.rows[2].id]
  {
    FinalValue(L, 1);
    FinalValue(L, 2);
    UntouchedBefore(L, 1, 2);
  }

  // ----- the three passes, as loops over the loaded rows

  method PlainPass(L: Ledger) returns (resolved: map<int, Ops>, ambiguous: set<int>)
    requires Valid(L)
    ensures resolved == Plain(L, |L.rows|)
    ensures ambiguous == AmbiguousIds(L, |L.rows|)
  {
    resolved, ambiguous := map[], {};
    for i := 0 to |L.rows|
      invariant resolved == Plain(L, i)
      invariant ambiguous == AmbiguousIds(L, i)
    {
      var row := L.rows[i];
      var stored := L.stored[row.id];
      if row.IsPlain() {
        if row.IsImport() || row.IsManual() {
          resolved := resolved[row.id := stored];
        } else {
          if AmbiguousPlan(L.axes, row, stored) { ambiguous := ambiguous + {row.id}; }
          resolved := resolved[row.id := PlanDriven(L.axes, row, stored)];
        }
      }
    }
  }

  method SendsPass(L: Ledger, resolved: map<int, Ops>) returns (sends: map<int, Ops>)
    requires Valid(L) && resolved == Plain(L, |L.rows|)
    ensures sends == Sends(L, |L.rows|)
  {
    sends := map[];
    for i := 0 to |L.rows|
      invariant sends == Sends(L, i)
    {
      var row := L.rows[i];
      if row.IsOriginalSend() {
        PlainAt(L, |L.rows|, i);
        sends := sends[row.transferId.value := resolved[row.id]];
      }
    }
  }

  method ReceiptPass(L: Ledger, plain: map<int, Ops>, sends: map<int, Ops>) returns (resolved: map<int, Ops>)
    requires Valid(L) && plain == Plain(L, |L.rows|) && sends == Sends(L, |L.rows|)
    ensures resolved == Received(L, |L.rows|)
  {
    resolved := plain;
    for i := 0 to |L.rows|
      invariant resolved == Received(L, i)
    {
      var row := L.rows[i];
      if row.IsReceipt() {
        var transfer := row.transferId.value;
        resolved := resolved[row.id := if transfer in sends then sends[transfer] else L.stored[row.id]];
      }
    }
  }

  method CompensationPass(L: Ledger, received: map<int, Ops>) returns (resolved: map<int, Ops>)
    requires Valid(L) && received == Received(L, |L.rows|)
    ensures resolved == Resolved(L)
  {
    resolved := received;
    for i := 0 to |L.rows|
      invariant resolved == Compensated(L, i)
    {
      var row := L.rows[i];
      if row.IsCompensation() {
        resolved := resolved[row.id := CompensationValue(resolved, row, L.stored[row.id])];
      }
    }
  }

  /** Rows whose matching stages disagree: reported, never rewritten. */
  ghost predicate IsAmbiguous(L: Ledger, i: nat)
    requires Valid(L) && i < |L.rows|
  {
    var row := L.rows[i];
    && row.IsPlain() && !row.IsImport() && !row.IsManual()
    && AmbiguousPlan(L.axes, row, L.stored[row.id])
  }

  predicate AmbiguousPlan(axes: map<int, RouteAxis>, row: Row, stored: Ops) {
    && row.owner.Some? && row.owner.value.route in axes
    && Unclear(axes[row.owner.value.route], stored, Some(row.owner.value.sequence))
  }

  ghost function AmbiguousIds(L: Ledger, n: nat): set<int>
    requires Valid(L) && n <= |L.rows|
  {
    if n == 0 then {}
    else AmbiguousIds(L, n - 1) + if IsAmbiguous(L, n - 1) then {L.rows[n - 1].id} else {}
  }

  lemma {:induction false} AmbiguousAt(L: Ledger, n: nat, i: nat)
    requires Valid(L) && n <= |L.rows| && i < |L.rows|
    ensures L.rows[i].id in AmbiguousIds(L, n) <==> i < n && IsAmbiguous(L, i)
  {
    if n > 0 { AmbiguousAt(L, n - 1, i); }
  }

  /** Which rows are reported, in terms of the stages of the route. */
  lemma ReportedIff(L: Ledger, i: nat)
    requires Valid(L) && i < |L.rows| && (L.rows[i].owner.Some? ==> HasRoute(L, L.rows[i]))
    ensures L.rows[i].id in AmbiguousIds(L, |L.rows|) <==>
              && FromThePlan(L.rows[i]) && L.rows[i].owner.Some?
              && var axis, stored := L.axes[L.rows[i].owner.value.route], L.stored[L.rows[i].id];
                 if EmptyBeforeRoute(axis, L.rows[i].owner.value.sequence, stored)
                 then exists s :: Fits(axis, stored, s) && UpTo(axis.newBySeq, axis.sequences, s) != {}
                 else exists s, t :: DisagreeingFits(axis, stored, s, t)
  {
    AmbiguousAt(L, |L.rows|, i);
    PlainIsFromThePlan(L.rows[i]);
    if L.rows[i].owner.Some? {
      AmbiguousPlanIff(L.axes[L.rows[i].owner.value.route], L.rows[i].owner.value.sequence, L.stored[L.rows[i].id]);
    }
  }

  lemma PlainIsFromThePlan(row: Row)
    ensures row.IsPlain() && !row.IsImport() && !row.IsManual() <==> FromThePlan(row)
  {
  }

  lemma AmbiguousPlanIff(axis: RouteAxis, own: int, stored: Ops)
    requires axis.Loaded()
    ensures Unclear(axis, stored, Some(own)) <==>
              if EmptyBeforeRoute(axis, own, stored)
              then exists s :: Fits(axis, stored, s) && UpTo(axis.newBySeq, axis.sequences, s) != {}
              else exists s, t :: DisagreeingFits(axis, stored, s, t)
  {
    if axis.sequences != [] { UnclearIff(axis, stored, own); }
  }

  lemma AmbiguousRowsStay(L: Ledger, i: nat)
    requires Valid(L) && i < |L.rows| && IsAmbiguous(L, i)
    ensures Resolved(L)[L.rows[i].id] == L.stored[L.rows[i].id]
  {
    FinalValue(L, i);
  }

  // ----- the changes and the guard

  datatype Change = Change(id: int, before: Ops, after: Ops)

  ghost function ChangesUpTo(L: Ledger, n: nat): seq<Change>
    requires Valid(L) && n <= |L.rows|
  {
    if n == 0 then []
    else
      var id, before := L.rows[n - 1].id, ChangesUpTo(L, n - 1);
      if Resolved(L)[id] != L.stored[id] then before + [Change(id, L.stored[id], Resolved(L)[id])] else before
  }

  /** The changes listed: the rows whose set differs, with the set before and the set after. */
  lemma {:induction false} ChangesAre(L: Ledger, n: nat, c: Change)
    requires Valid(L) && n <= |L.rows|
    ensures c in ChangesUpTo(L, n) <==>
              exists i :: 0 <= i < n && c.id == L.rows[i].id && c.before == L.stored[c.id] &&
                          c.after == Resolved(L)[c.id] && c.before != c.after
  {
    if n > 0 { ChangesAre(L, n - 1, c); }
  }

  /** Some code that would be newly written is not in the reference book of operations. */
  ghost predicate WritesUnknownCode(L: Ledger, known: set<string>)
    requires Valid(L)
  {
    exists i :: 0 <= i < |L.rows| && ChangesToUnknown(L, known, i)
  }

  ghost predicate ChangesToUnknown(L: Ledger, known: set<string>, i: nat)
    requires Valid(L) && i < |L.rows|
  {
    var id := L.rows[i].id;
    Resolved(L)[id] != L.stored[id] && !(Resolved(L)[id] <= known)
  }

  method CollectChanges(L: Ledger, resolved: map<int, Ops>, known: set<string>)
    returns (changes: seq<Change>, unknown: set<string>)
    requires Valid(L) && resolved == Resolved(L)
    ensures changes == ChangesUpTo(L, |L.rows|)
    ensures unknown != {} <==> WritesUnknownCode(L, known)
    ensures changes == [] <==> NothingToChange(L)
  {
    changes, unknown := [], {};
    for i := 0 to |L.rows|
      invariant changes == ChangesUpTo(L, i)
      invariant unknown != {} <==> exists k :: 0 <= k < i && ChangesToUnknown(L, known, k)
      invariant changes == [] <==> forall k :: 0 <= k < i ==> resolved[L.rows[k].id] == L.stored[L.rows[k].id]
    {
      var id := L.rows[i].id;
      ghost var before := unknown;
      if resolved[id] != L.stored[id] {
        changes := changes + [Change(id, L.stored[id], resolved[id])];
        NothingLeft(resolved[id], known);
        UnionEmpty(unknown, resolved[id] - known);
        unknown := unknown + (resolved[id] - known);
      }
      assert unknown != {} <==> before != {} || ChangesToUnknown(L, known, i);
    }
  }

  lemma UnionEmpty(a: Ops, b: Ops)
    ensures a + b == {} <==> a == {} && b == {}
  {
    if a + b == {} {
      assert forall x :: x in a ==> x in a + b;
      assert forall x :: x in b ==> x in a + b;
    }
  }

  lemma NothingLeft(a: Ops, b: Ops)
    ensures a - b == {} <==> a <= b
  {
    if a - b == {} { forall x | x in a ensures x in b { assert x !in a - b; } }
  }

  // ----- the script

  class StockTransaction {
    const row: Row
    var completedOperations: Ops

    constructor (row: Row, completedOperations: Ops)
      ensures this.row == row && this.completedOperations == completedOperations
    {
      this.row := row;
      this.completedOperations := completedOperations;
    }
  }

  function RowsOf(txs: seq<StockTransaction>): (rows: seq<Row>)
    ensures |rows| == |txs| && forall i :: 0 <= i < |txs| ==> rows[i] == txs[i].row
  {
    seq(|txs|, i requires 0 <= i < |txs| => txs[i].row)
  }

  function StoredOf(txs: seq<StockTransaction>, n: nat): map<int, Ops>
    requires n <= |txs|
    reads txs
  {
    if n == 0 then map[] else StoredOf(txs, n - 1)[txs[n - 1].row.id := txs[n - 1].completedOperations]
  }

  lemma {:induction false} StoredAt(txs: seq<StockTransaction>, n: nat)
    requires n <= |txs| && OrderedById(RowsOf(txs))
    ensures forall i :: 0 <= i < n ==> Lookup(StoredOf(txs, n), txs[i].row.id) == Some(txs[i].completedOperations)
  {
    if n > 0 {
      StoredAt(txs, n - 1);
      assert forall i :: 0 <= i < n - 1 ==> RowsOf(txs)[i].id < RowsOf(txs)[n - 1].id;
    }
  }

  /** The rows as loaded, in primary key order. */
  function LedgerOf(txs: seq<StockTransaction>, axes: map<int, RouteAxis>): (L: Ledger)
    requires OrderedById(RowsOf(txs))
    reads txs
    ensures Valid(L) && |L.rows| == |txs|
    ensures forall i :: 0 <= i < |txs| ==>
              L.rows[i] == txs[i].row && L.stored[L.rows[i].id] == txs[i].completedOperations
  {
    StoredAt(txs, |txs|);
    var L := Ledger(RowsOf(txs), StoredOf(txs, |txs|), axes);
    assert forall i :: 0 <= i < |txs| ==> Lookup(L.stored, L.rows[i].id) == Some(txs[i].completedOperations);
    L
  }

  method WriteBack(txs: seq<StockTransaction>, resolved: map<int, Ops>)
    requires OrderedById(RowsOf(txs)) && forall i :: 0 <= i < |txs| ==> txs[i].row.id in resolved
    modifies txs
    ensures forall i :: 0 <= i < |txs| ==> txs[i].completedOperations == resolved[txs[i].row.id]
  {
    for i := 0 to |txs|
      invariant forall k :: 0 <= k < i ==> txs[k].completedOperations == resolved[txs[k].row.id]
    {
      assert forall k :: 0 <= k < i ==> RowsOf(txs)[k].id < RowsOf(txs)[i].id;
      txs[i].completedOperations := resolved[txs[i].row.id];
    }
  }

  /** Exit code 0 or 2, the changes found, and the rows written when `execute` is set. */
  method RunRepair(txs: seq<StockTransaction>, axes: map<int, RouteAxis>, known: set<string>, execute: bool)
    returns (code: int, changes: seq<Change>, ambiguous: set<int>)
    requires OrderedById(RowsOf(txs))
    modifies txs
    ensures changes == ChangesUpTo(old(LedgerOf(txs, axes)), |txs|)
    ensures ambiguous == AmbiguousIds(old(LedgerOf(txs, axes)), |txs|)
    ensures code == if execute && WritesUnknownCode(old(LedgerOf(txs, axes)), known) then 2 else 0
    ensures forall i :: 0 <= i < |txs| ==>
              txs[i].completedOperations ==
              if execute && code == 0 then Resolved(old(LedgerOf(txs, axes)))[txs[i].row.id]
                  else old(txs[i].completedOperations)
  {
    var L := LedgerOf(txs, axes);
    var plain, unclear := PlainPass(L);
    var sends := SendsPass(L, plain);
    var received := ReceiptPass(L, plain, sends);
    var resolved := CompensationPass(L, received);
    var found, unknown := CollectChanges(L, resolved, known);
    code, changes, ambiguous := 0, found, unclear;
    if !execute { return; }
    if unknown != {} {
      code := 2;
      return;
    }
    if changes == [] { return; }
    WriteBack(txs, resolved);
  }

  // ----- the script run again

  lemma {:induction false} ChangesEmptyIff(L: Ledger, n: nat)
    requires Valid(L) && n <= |L.rows|
    ensures ChangesUpTo(L, n) == [] <==> forall i :: 0 <= i < n ==> Resolved(L)[L.rows[i].id] == L.stored[L.rows[i].id]
  {
    if n > 0 { ChangesEmptyIff(L, n - 1); }
  }

  lemma NoChangesIff(L: Ledger)
    requires Valid(L)
    ensures |ChangesUpTo(L, |L.rows|)| == 0 <==> NothingToChange(L)
  {
    ChangesEmptyIff(L, |L.rows|);
  }

  ghost predicate IsRowId(rows: seq<Row>, id: int) {
    exists i :: 0 <= i < |rows| && rows[i].id == id
  }

  lemma {:induction false} StoredKeys(txs: seq<StockTransaction>, n: nat, id: int)
    requires n <= |txs| && id in StoredOf(txs, n)
    ensures IsRowId(RowsOf(txs), id)
  {
    if id == txs[n - 1].row.id {
      assert RowsOf(txs)[n - 1].id == id;
    } else {
      StoredKeys(txs, n - 1, id);
    }
  }

  lemma ResolvedKeys(L: Ledger, id: int)
    requires Valid(L)
    ensures id in Resolved(L) <==> IsRowId(L.rows, id)
  {
    if !IsRowId(L.rows, id) { OnlyRowIds(L, |L.rows|, id); }
  }

  /** Rows that hold their resolved values are the repaired ledger. */
  lemma WrittenIsRepaired(txs: seq<StockTransaction>, L: Ledger)
    requires Valid(L) && OrderedById(RowsOf(txs)) && RowsOf(txs) == L.rows
    requires forall i :: 0 <= i < |txs| ==> txs[i].completedOperations == Resolved(L)[L.rows[i].id]
    ensures LedgerOf(txs, L.axes) == Repaired(L)
  {
    var stored := LedgerOf(txs, L.axes).stored;
    forall id ensures Lookup(stored, id) == Lookup(Resolved(L), id) {
      ResolvedKeys(L, id);
      if id in stored { StoredKeys(txs, |txs|, id); }
      if IsRowId(L.rows, id) {
        var i :| 0 <= i < |L.rows| && L.rows[i].id == id;
        assert stored[id] == txs[i].completedOperations;
      }
    }
    SameMap(stored, Resolved(L));
  }

  lemma SameMap(a: map<int, Ops>, b: map<int, Ops>)
    requires forall id :: Lookup(a, id) == Lookup(b, id)
    ensures a == b
  {
    forall id ensures id in a <==> id in b { assert Lookup(a, id) == Lookup(b, id); }
    forall id | id in a ensures a[id] == b[id] { assert Lookup(a, id) == Lookup(b, id); }
  }

  /** After a run that wrote, the next run lists no change exactly under the condition above. */
  lemma NextRunListsNothingIff(txs: seq<StockTransaction>, L: Ledger)
    requires Valid(L) && OrderedById(RowsOf(txs)) && RowsOf(txs) == L.rows
    requires forall i :: 0 <= i < |txs| ==> txs[i].completedOperations == Resolved(L)[L.rows[i].id]
    ensures |ChangesUpTo(LedgerOf(txs, L.axes), |txs|)| == 0 <==> OrphansAheadKept(L)
  {
    WrittenIsRepaired(txs, L);
    NoChangesIff(LedgerOf(txs, L.axes));
    IdempotentIff(L);
  }
}
