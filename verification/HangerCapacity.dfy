/** The capacity formula of `backend/alembic/versions/048_product_hanger_mode_backfill.py`: how many
    pieces of one length hang on one hanger. */
module HangerCapacity {

  /** LEAST(FLOOR(13 / (perimeter * length / 10^6)), FLOOR(1450 / (width + 20)) * 2), exactly. */
  function Capacity(perimeter: real, length: real, width: real): int
    requires perimeter * length != 0.0 && width + 20.0 != 0.0
  {
    var byArea := (13.0 / (perimeter * length / 1000000.0)).Floor;
    var byWidth := (1450.0 / (width + 20.0)).Floor * 2;
    if byArea <= byWidth then byArea else byWidth
  }

  /** n pieces fit: their surface is within 13 square metres, and hung in two rows, n / 2 a row rounded
      up, they are within 1450 mm with 20 mm between them. */
  ghost predicate Fits(n: nat, perimeter: real, length: real, width: real) {
    && n as real * (perimeter * length) <= 13000000.0
    && ((n + 1) / 2) as real * (width + 20.0) <= 1450.0
  }

  lemma FloorBound(x: real, k: int)
    ensures k as real <= x <==> k <= x.Floor
  {
  }

  lemma DivideBound(k: real, a: real, b: real)
    requires b > 0.0
    ensures k <= a / b <==> k * b <= a
  {
    assert a / b * b == a;
    if k <= a / b { MulMonotone(k, a / b, b); }
    if a / b < k { MulStrict(a / b, k, b); }
  }

  lemma MulMonotone(x: real, y: real, b: real)
    requires x <= y && b >= 0.0
    ensures x * b <= y * b
  {
  }

  lemma MulStrict(x: real, y: real, b: real)
    requires x < y && b > 0.0
    ensures x * b < y * b
  {
  }

  lemma AreaBound(n: int, perimeter: real, length: real)
    requires perimeter * length > 0.0
    ensures n <= (13.0 / (perimeter * length / 1000000.0)).Floor <==> n as real * (perimeter * length) <= 13000000.0
  {
    var unit, k := perimeter * length / 1000000.0, n as real;
    FloorBound(13.0 / unit, n);
    DivideBound(k, 13.0, unit);
    assert unit * 1000000.0 == perimeter * length;
    assert k * unit * 1000000.0 == k * (perimeter * length);
  }

  lemma WidthBound(n: nat, width: real)
    requires width + 20.0 > 0.0
    ensures n <= (1450.0 / (width + 20.0)).Floor * 2 <==> ((n + 1) / 2) as real * (width + 20.0) <= 1450.0
  {
    FloorBound(1450.0 / (width + 20.0), (n + 1) / 2);
    DivideBound(((n + 1) / 2) as real, 1450.0, width + 20.0);
  }

  /** The formula is the exact optimum: n pieces fit if and only if n is at most the capacity. */
  lemma CapacityIsLargest(perimeter: real, length: real, width: real)
    requires perimeter > 0.0 && length > 0.0 && width > 0.0
    ensures perimeter * length > 0.0
    ensures Capacity(perimeter, length, width) >= 0
    ensures forall n: nat :: Fits(n, perimeter, length, width) <==> n <= Capacity(perimeter, length, width)
  {
    MulStrict(0.0, perimeter, length);
    forall n: nat ensures Fits(n, perimeter, length, width) <==> n <= Capacity(perimeter, length, width) {
      AreaBound(n, perimeter, length);
      WidthBound(n, width);
    }
    assert Fits(0, perimeter, length, width);
  }

  /** A longer, rounder or wider piece never hangs in a greater number. */
  lemma CapacityNeverGrows(p: real, l: real, w: real, p': real, l': real, w': real)
    requires 0.0 < p <= p' && 0.0 < l <= l' && 0.0 < w <= w'
    ensures p * l > 0.0 && p' * l' > 0.0
    ensures Capacity(p', l', w') <= Capacity(p, l, w)
  {
    CapacityIsLargest(p, l, w);
    CapacityIsLargest(p', l', w');
    FitsSmaller(Capacity(p', l', w'), p, l, w, p', l', w');
  }

  lemma FitsSmaller(n: nat, p: real, l: real, w: real, p': real, l': real, w': real)
    requires 0.0 < p <= p' && 0.0 < l <= l' && 0.0 < w <= w' && Fits(n, p', l', w')
    ensures Fits(n, p, l, w)
  {
    ProductGrows(p, l, p', l');
    StaysWithin(n as real, p * l, p' * l', 13000000.0);
    StaysWithin(((n + 1) / 2) as real, w + 20.0, w' + 20.0, 1450.0);
  }

  lemma StaysWithin(k: real, a: real, b: real, limit: real)
    requires k >= 0.0 && a <= b && k * b <= limit
    ensures k * a <= limit
  {
    ScaledGrows(k, a, b);
  }

  lemma ProductGrows(a: real, b: real, c: real, d: real)
    requires 0.0 < a <= c && 0.0 < b <= d
    ensures a * b <= c * d
  {
    MulMonotone(a, c, b);
    MulMonotone(b, d, c);
  }

  lemma ScaledGrows(k: real, a: real, b: real)
    requires k >= 0.0 && a <= b
    ensures k * a <= k * b
  {
    MulMonotone(a, b, k);
  }

  /** The key of a norm may be any number. The formula is the optimum exactly for a positive length;
      a negative one makes it negative although no number of pieces would be too many for the area. */
  lemma OptimumIffPositiveLength(perimeter: real, length: real, width: real)
    requires perimeter > 0.0 && length != 0.0 && width > 0.0
    ensures perimeter * length != 0.0
    ensures (forall n: nat :: Fits(n, perimeter, length, width) <==> n <= Capacity(perimeter, length, width)) <==>
        length > 0.0
  {
    if length > 0.0 {
      CapacityIsLargest(perimeter, length, width);
    } else {
      MulStrict(length, 0.0, perimeter);
      assert perimeter * length < 0.0;
      NegativeQuotient(perimeter * length);
      assert Fits(0, perimeter, length, width);
    }
  }

  lemma NegativeQuotient(x: real)
    requires x < 0.0
    ensures (13.0 / (x / 1000000.0)).Floor < 0
  {
    var q := 13.0 / (x / 1000000.0);
    assert q * (x / 1000000.0) == 13.0;
    if q >= 0.0 { MulMonotone(0.0, q, -(x / 1000000.0)); }
  }
}
