/** The four UPDATE statements of `backend/alembic/versions/048_product_hanger_mode_backfill.py`. */
module HangerModeBackfill {
  import opened Text
  import opened HangerCapacity
  import opened Values

  datatype Mode = Auto | Manual

  /** An entry of a per-length dictionary: an object with its two norms, or any other JSON value. */
  datatype Entry = Norms(auto: Option<int>, manual: Option<Json>) | OtherEntry(value: Json)

  /** `attributes->'quantity_per_hanger'`. */
  datatype Quantities = Absent | PerLength(entries: map<Key, Entry>) | Scalar(number: Json) | OtherValue(value: Json)

  /** `ck_product_lengths_positive`. */
  type Positive = x: real | x > 0.0 witness 1.0

  /** `lengths` are those of the product in `product_lengths`. */
  datatype Product = Product(
    oneDimensional: bool,
    mode: Option<Mode>,
    perimeter: Option<real>,
    width: Option<real>,
    quantities: Quantities,
    lengths: seq<Positive>)

  /** How keys are read as numbers (None for a bare key) and how a length is written as a key. */
  datatype Codec = Codec(number: Key -> Option<real>, write: real -> Key)

  /** Both fields filled and positive, and no mode yet. */
  predicate AutoFields(p: Product) {
    && p.oneDimensional && p.mode.None?
    && p.perimeter.Some? && p.perimeter.value > 0.0
    && p.width.Some? && p.width.value > 0.0
  }

  /** The profile does not fit on a hanger at all: the automatic norm stays empty. */
  predicate TooWide(p: Product)
    requires AutoFields(p)
  {
    p.width.value + 20.0 > 1450.0
  }

  /** The division by `perimeter * key` aborts the whole migration on a key that is zero. */
  predicate DividesByZero(codec: Codec, p: Product) {
    && AutoFields(p) && !TooWide(p) && p.quantities.PerLength?
    && exists k :: k in p.quantities.entries && codec.number(k) == Some(0.0)
  }

  lemma ProductNotZero(x: real, y: real)
    requires x > 0.0 && y != 0.0
    ensures x * y != 0.0
  {
    if y > 0.0 { MulStrict(0.0, x, y); } else { MulStrict(0.0, x, -y); }
  }

  function AutoNorm(p: Product, length: real): Option<int>
    requires AutoFields(p) && (TooWide(p) || length != 0.0)
  {
    if TooWide(p) then None
    else
      ProductNotZero(p.perimeter.value, length);
      Some(Capacity(p.perimeter.value, length, p.width.value))
  }

  function ManualOf(e: Entry): Option<Json> {
    if e.Norms? then e.manual else None
  }

  // ----- statement 1

  function Recomputed(codec: Codec, p: Product, k: Key, e: Entry): Entry
    requires AutoFields(p) && (TooWide(p) || codec.number(k) != Some(0.0))
  {
    match codec.number(k)
    case None => e
    case Some(length) => Norms(AutoNorm(p, length), ManualOf(e))
  }

  function Step1(codec: Codec, p: Product): Product
    requires !DividesByZero(codec, p)
  {
    if AutoFields(p) && p.quantities.PerLength? then
      p.(quantities := PerLength(map k | k in p.quantities.entries :: Recomputed(codec, p, k, p.quantities.entries[k])))
    else p
  }

  // ----- statement 1b

  predicate IsLeast(length: real, lengths: seq<Positive>) {
    forall i :: 0 <= i < |lengths| ==> length <= lengths[i]
  }

  function LegacyManual(p: Product, length: real): Option<Json> {
    if IsLeast(length, p.lengths) && p.quantities.Scalar? then Some(p.quantities.number) else None
  }

  function FreshEntries(codec: Codec, p: Product, n: nat): map<Key, Entry>
    requires AutoFields(p) && n <= |p.lengths|
  {
    if n == 0 then map[]
    else
      var length := p.lengths[n - 1];
      FreshEntries(codec, p, n - 1)[codec.write(length) := Norms(AutoNorm(p, length), LegacyManual(p, length))]
  }

  function Step1b(codec: Codec, p: Product): Product {
    if AutoFields(p) && !p.quantities.PerLength? && p.lengths != []
    then p.(quantities := PerLength(FreshEntries(codec, p, |p.lengths|)))
    else p
  }

  // ----- statements 2 and 3

  function Step2(p: Product): Product {
    if AutoFields(p) then p.(mode := Some(Auto)) else p
  }

  function Step3(p: Product): Product {
    if p.oneDimensional && p.mode.None? then p.(mode := Some(Manual)) else p
  }

  function Upgraded(codec: Codec, p: Product): Product
    requires !DividesByZero(codec, p)
  {
    Step3(Step2(Step1b(codec, Step1(codec, p))))
  }

  function Downgraded(p: Product): Product {
    if p.oneDimensional then p.(mode := None) else p
  }

  class Products {
    var rows: seq<Product>

    constructor (rows: seq<Product>)
      ensures this.rows == rows
    {
      this.rows := rows;
    }

    /** One UPDATE: the statement rewrites the attributes row by row. */
    method Update(step: Product --> Product)
      requires forall i :: 0 <= i < |rows| ==> step.requires(rows[i])
      modifies this
      ensures |rows| == |old(rows)|
      ensures forall i :: 0 <= i < |rows| ==> step.requires(old(rows)[i]) && rows[i] == step(old(rows)[i])
    {
      for i := 0 to |rows|
        invariant |rows| == |old(rows)|
        invariant forall k :: 0 <= k < i ==> rows[k] == step(old(rows)[k])
        invariant forall k :: i <= k < |rows| ==> rows[k] == old(rows)[k]
      {
        rows := rows[i := step(rows[i])];
      }
    }

    /** All four statements, or, when statement 1 divides by zero, none of them. */
    method Upgrade(codec: Codec) returns (ok: bool)
      modifies this
      ensures ok <==> forall i :: 0 <= i < |old(rows)| ==> !Aborts(codec, old(rows)[i])
      ensures !ok ==> rows == old(rows)
      ensures ok ==> |rows| == |old(rows)| &&
                     forall i :: 0 <= i < |rows| ==>
                       !DividesByZero(codec, old(rows)[i]) && rows[i] == Upgraded(codec, old(rows)[i])
    {
      ok := forall i :: 0 <= i < |rows| ==> !DividesByZero(codec, rows[i]);
      forall i | 0 <= i < |rows| { AbortsIff(codec, rows[i]); }
      if !ok { return; }
      Update((p: Product) requires !DividesByZero(codec, p) => Step1(codec, p));
      Update((p: Product) => Step1b(codec, p));
      Update((p: Product) => Step2(p));
      Update((p: Product) => Step3(p));
    }

    method Downgrade()
      modifies this
      ensures |rows| == |old(rows)|
      ensures forall i :: 0 <= i < |rows| ==>
                rows[i] == old(rows)[i].(mode := if old(rows)[i].oneDimensional then None else old(rows)[i].mode)
    {
      Update((p: Product) => Downgraded(p));
    }
  }

  // ----- what the four statements do to one product

  /** No mode yet, and both fields are filled and positive. */
  ghost predicate BothFilled(p: Product) {
    && p.oneDimensional && p.mode == None
    && p.perimeter.Some? && p.perimeter.value > 0.0 && p.width.Some? && p.width.value > 0.0
  }

  /** Statement 1 divides by zero: the profile fits on a hanger, and some key of its dictionary is zero. */
  ghost predicate Aborts(codec: Codec, p: Product) {
    && BothFilled(p) && p.width.value + 20.0 <= 1450.0 && p.quantities.PerLength?
    && exists k :: k in p.quantities.entries && codec.number(k) == Some(0.0)
  }

  lemma AbortsIff(codec: Codec, p: Product)
    ensures Aborts(codec, p) <==> DividesByZero(codec, p)
  {
  }

  /** Empty for a profile that is too wide for a hanger, and otherwise the largest number that fits. */
  ghost predicate IsNormFor(auto: Option<int>, p: Product, length: real)
    requires BothFilled(p)
  {
    if p.width.value + 20.0 > 1450.0 then auto == None
    else
      && auto.Some? && auto.value >= 0
      && forall n: nat :: Fits(n, p.perimeter.value, length, p.width.value) <==> n <= auto.value
  }

  lemma AutoNormIsLargest(p: Product, length: real)
    requires AutoFields(p) && length > 0.0
    ensures BothFilled(p) && IsNormFor(AutoNorm(p, length), p, length)
  {
    if p.width.value + 20.0 <= 1450.0 {
      CapacityIsLargest(p.perimeter.value, length, p.width.value);
    }
  }

  /** A negative key, which the pattern of keys admits, gets a negative norm. */
  lemma NegativeNorm(p: Product, length: real)
    requires AutoFields(p) && length < 0.0 && p.width.value + 20.0 <= 1450.0
    ensures AutoNorm(p, length).Some? && AutoNorm(p, length).value < 0
  {
    MulStrict(length, 0.0, p.perimeter.value);
    assert p.perimeter.value * length < 0.0;
    NegativeQuotient(p.perimeter.value * length);
  }

  /** Afterwards every one-dimensional product has a mode: auto when both fields are filled, manual
      otherwise, and a mode that was already there stays. Nothing else about the product changes. */
  lemma ModeIsDecided(codec: Codec, p: Product)
    requires !Aborts(codec, p)
    ensures !DividesByZero(codec, p)
    ensures var q := Upgraded(codec, p);
            && q.mode == (if !p.oneDimensional || p.mode.Some? then p.mode
                          else if BothFilled(p) then Some(Auto)
                          else Some(Manual))
            && q == p.(mode := q.mode, quantities := q.quantities)
            && (!BothFilled(p) ==> q.quantities == p.quantities)
            && (!p.quantities.PerLength? && p.lengths == [] ==> q.quantities == p.quantities)
  {
    AbortsIff(codec, p);
  }

  /** A per-length dictionary keeps its keys, its bare entries and every manual norm; the automatic norm
      of a positive length becomes the largest number that fits, or empty for a profile too wide. */
  lemma DictionaryIsRecomputed(codec: Codec, p: Product, k: Key)
    requires BothFilled(p) && p.quantities.PerLength? && !Aborts(codec, p) && k in p.quantities.entries
    ensures !DividesByZero(codec, p)
    ensures var q := Upgraded(codec, p);
            && q.quantities.PerLength? && q.quantities.entries.Keys == p.quantities.entries.Keys
            && var before, after := p.quantities.entries[k], q.quantities.entries[k];
               && (codec.number(k).None? ==> after == before)
               && (codec.number(k).Some? ==>
                     after.Norms? && after.manual == (if before.Norms? then before.manual else None))
               && (codec.number(k).Some? && codec.number(k).value > 0.0 ==>
                     IsNormFor(after.auto, p, codec.number(k).value))
               && (codec.number(k).Some? && codec.number(k).value <= 0.0 ==>
                     if p.width.value + 20.0 > 1450.0 then after.auto == None
                     else after.auto.Some? && after.auto.value < 0)
  {
    AbortsIff(codec, p);
    var q := Step1(codec, p);
    assert q.quantities.entries.Keys == p.quantities.entries.Keys;
    if codec.number(k).Some? {
      var length := codec.number(k).value;
      if length > 0.0 { AutoNormIsLargest(p, length); }
      if length < 0.0 && p.width.value + 20.0 <= 1450.0 { NegativeNorm(p, length); }
    }
  }

  lemma {:induction false} FreshAt(codec: Codec, p: Product, n: nat, i: nat)
    requires AutoFields(p) && n <= |p.lengths|
    requires i < n && forall j :: i < j < n ==> codec.write(p.lengths[j]) != codec.write(p.lengths[i])
    ensures var key := codec.write(p.lengths[i]);
            && key in FreshEntries(codec, p, n)
            && FreshEntries(codec, p, n)[key] == Norms(AutoNorm(p, p.lengths[i]), LegacyManual(p, p.lengths[i]))
  {
    if i < n - 1 { FreshAt(codec, p, n - 1, i); }
  }

  lemma {:induction false} FreshKeys(codec: Codec, p: Product, n: nat)
    requires AutoFields(p) && n <= |p.lengths|
    ensures FreshEntries(codec, p, n).Keys == set i | 0 <= i < n :: codec.write(p.lengths[i])
  {
    if n > 0 { FreshKeys(codec, p, n - 1); }
  }

  /** A product without a dictionary gets one entry per length and no other, and a legacy number survives as the
      manual norm of the shortest length and of no other. */
  lemma DictionaryIsBuilt(codec: Codec, p: Product, i: nat)
    requires BothFilled(p) && !p.quantities.PerLength?
    requires forall a, b :: 0 <= a < b < |p.lengths| ==> codec.write(p.lengths[a]) != codec.write(p.lengths[b])
    requires i < |p.lengths|
    ensures !DividesByZero(codec, p)
    ensures var q, key := Upgraded(codec, p), codec.write(p.lengths[i]);
            && q.quantities.PerLength? && key in q.quantities.entries
            && q.quantities.entries.Keys == (set j | 0 <= j < |p.lengths| :: codec.write(p.lengths[j]))
            && var e := q.quantities.entries[key];
               && e.Norms? && IsNormFor(e.auto, p, p.lengths[i])
               && e.manual ==
                    if p.quantities.Scalar? && forall j :: 0 <= j < |p.lengths| ==> p.lengths[i] <= p.lengths[j]
                    then Some(p.quantities.number) else None
  {
    FreshAt(codec, p, |p.lengths|, i);
    FreshKeys(codec, p, |p.lengths|);
    AutoNormIsLargest(p, p.lengths[i]);
  }

  /** A second run finds a mode everywhere and changes nothing; a mode keeps every statement away. */
  lemma UpgradeIsIdempotent(codec: Codec, p: Product)
    requires !Aborts(codec, p)
    ensures !DividesByZero(codec, p) && !DividesByZero(codec, Upgraded(codec, p))
    ensures Upgraded(codec, Upgraded(codec, p)) == Upgraded(codec, p)
  {
    ModeIsDecided(codec, p);
  }
}
