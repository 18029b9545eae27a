/** Lengths on screen and in spreadsheets, from `backend/app/domain/dimensions.py`: millimetres printed
    as metres with a decimal comma, and metres read back as whole millimetres. */
module Metres {
  import opened Text

  /** An exact decimal: digits * 10^power. */
  datatype Decimal = Decimal(digits: nat, power: int)

  // ----- printing

  /** `Decimal.normalize()`: no trailing zeros. */
  function Normalize(d: Decimal): (n: Decimal)
    decreases d.digits
  {
    if d.digits > 0 && d.digits % 10 == 0 then Normalize(Decimal(d.digits / 10, d.power + 1)) else d
  }

  function Zeros(k: nat): (z: string)
    ensures |z| == k && forall i :: 0 <= i < k ==> z[i] == '0'
  {
    seq(k, _ => '0')
  }

  /** A number with at least one digit before its last `places` digits. */
  function Pad(n: nat, places: nat): (p: string)
    ensures AllDigits(p) && |p| > places
  {
    var s := Digits(n);
    if |s| > places then s else Zeros(places + 1 - |s|) + s
  }

  /** `format(d, "f")` with the decimal point printed as a comma. */
  function Plain(d: Decimal): string {
    if d.power >= 0 then Digits(d.digits) + Zeros(d.power)
    else
      var padded, places := Pad(d.digits, -d.power), -d.power;
      padded[..|padded| - places] + "," + padded[|padded| - places..]
  }

  function FormatMmAsMetres(mm: nat): string {
    Plain(Normalize(Decimal(mm, -3)))
  }

  // ----- reading

  function RemoveSpaces(s: string): string {
    if s == [] then [] else (if IsSpace(s[0]) then [] else [s[0]]) + RemoveSpaces(s[1..])
  }

  function CommaToPoint(s: string): string {
    seq(|s|, i requires 0 <= i < |s| => if s[i] == ',' then '.' else s[i])
  }

  predicate AllDigits(s: string) {
    forall i :: 0 <= i < |s| ==> IsDigit(s[i])
  }

  /** Position of the first character of s that is c or d, or |s|. */
  function FirstOf(s: string, c: char, d: char): (i: nat)
    ensures i <= |s|
    ensures i < |s| ==> s[i] == c || s[i] == d
    ensures forall j :: 0 <= j < i ==> s[j] != c && s[j] != d
  {
    if s == [] || s[0] == c || s[0] == d then 0 else 1 + FirstOf(s[1..], c, d)
  }

  predicate IsSign(c: char) {
    c == '+' || c == '-'
  }

  /** `[sign] digits`, as in an exponent. */
  function ParseInt(s: string): Option<int> {
    var body := if s != "" && IsSign(s[0]) then s[1..] else s;
    if body == "" || !AllDigits(body) then None
    else
      var magnitude: int := DigitsValue(body);
      Some(if s[0] == '-' then -magnitude else magnitude)
  }

  /** Digits with at most one point among them; at least one digit. */
  function ParseMantissa(s: string): Option<Decimal> {
    var point := FirstOf(s, '.', '.');
    MantissaOf(s[..point], if point < |s| then s[point + 1..] else [])
  }

  function MantissaOf(whole: string, fraction: string): Option<Decimal> {
    if |whole| + |fraction| == 0 || !AllDigits(whole) || !AllDigits(fraction) then None
    else
      assert AllDigits(whole + fraction);
      Some(Decimal(DigitsValue(whole + fraction), -|fraction|))
  }

  datatype Signed = Signed(negative: bool, magnitude: Decimal)

  /** `float(s)` also reads `inf`, `infinity` and `nan`, signed or not, in any case. */
  predicate NamesNonFinite(s: string) {
    var name := Lower(BodyOf(s));
    name == "inf" || name == "infinity" || name == "nan"
  }

  lemma DigitsNameANumber(s: string)
    requires s != "" && IsDigit(s[0])
    ensures !NamesNonFinite(s)
  {
    assert Lower(s)[0] == s[0];
  }

  /** The text behind a sign, if there is one. */
  function BodyOf(s: string): string {
    if s != [] && IsSign(s[0]) then s[1..] else s
  }

  function Shifted(mantissa: Option<Decimal>, exponent: Option<int>): Option<Decimal> {
    if mantissa.None? || exponent.None? then None
    else Some(Decimal(mantissa.value.digits, mantissa.value.power + exponent.value))
  }

  /** A mantissa and an optional exponent. */
  function ParseUnsigned(body: string): Option<Decimal> {
    var e := FirstOf(body, 'e', 'E');
    if e == |body| then ParseMantissa(body) else Shifted(ParseMantissa(body[..e]), ParseInt(body[e + 1..]))
  }

  /** `float(s)` of a finite number, kept exact: sign, mantissa, optional exponent. */
  function ParseNumber(s: string): Option<Signed> {
    match ParseUnsigned(BodyOf(s))
    case None => None
    case Some(d) => Some(Signed(s != [] && s[0] == '-', d))
  }

  /** `round(n / d)`: to the nearest whole number, halves to the even one. */
  function RoundHalfEven(n: nat, d: nat): nat
    requires d > 0
  {
    var q, r := n / d, n % d;
    if 2 * r < d || (2 * r == d && q % 2 == 0) then q else q + 1
  }

  function RoundToWhole(d: Decimal): nat {
    if d.power >= 0 then d.digits * Pow10(d.power) else RoundHalfEven(d.digits, Pow10(-d.power))
  }

  datatype Raw = Str(text: string) | Num(value: Signed) | NotFinite | NotALength

  datatype LengthError = WrongType | EmptyText | Unreadable | Infinite | NotPositive | BelowOneMillimetre

  function ToMillimetres(metres: Signed): Result<nat, LengthError> {
    if metres.negative || metres.magnitude.digits == 0 then Failure(NotPositive)
    else
      var mm := RoundToWhole(Decimal(metres.magnitude.digits, metres.magnitude.power + 3));
      if mm == 0 then Failure(BelowOneMillimetre) else Success(mm)
  }

  function ParseLengthToMm(raw: Raw): (r: Result<nat, LengthError>)
    ensures r.Success? ==> r.value > 0
  {
    match raw
    case NotALength => Failure(WrongType)
    case NotFinite => Failure(Infinite)
    case Num(value) => ToMillimetres(value)
    case Str(s) =>
      var text := CommaToPoint(RemoveSpaces(s));
      if text == "" then Failure(EmptyText)
      else if NamesNonFinite(text) then Failure(Infinite)
      else match ParseNumber(text)
        case None => Failure(Unreadable)
        case Some(metres) => ToMillimetres(metres)
  }

  // ----- what reading means

  /** The whole number nearest to n / d; halfway between two, the even one. */
  lemma RoundsToNearest(n: nat, d: nat)
    requires d > 0
    ensures var r := RoundHalfEven(n, d);
            && 2 * (r * d) - d <= 2 * n <= 2 * (r * d) + d
            && (2 * n == 2 * (r * d) - d || 2 * n == 2 * (r * d) + d ==> r % 2 == 0)
  {
    var q := n / d;
    assert n == q * d + n % d;
    assert (q + 1) * d == q * d + d;
  }

  /** A length is accepted exactly when it is more than half a millimetre. */
  lemma AcceptedIff(metres: Signed)
    ensures var d := metres.magnitude;
            ToMillimetres(metres).Success? <==>
              !metres.negative && (if d.power + 3 >= 0 then d.digits > 0 else 2 * d.digits > Pow10(-(d.power + 3)))
  {
    var d := metres.magnitude;
    if d.power + 3 >= 0 {
      if d.digits > 0 { ProductIsPositive(d.digits, Pow10(d.power + 3)); }
    } else {
      RoundsUpIff(d.digits, Pow10(-(d.power + 3)));
    }
  }

  lemma RoundsUpIff(n: nat, d: nat)
    requires d > 0
    ensures RoundHalfEven(n, d) > 0 <==> 2 * n > d
  {
    var q := n / d;
    assert n == q * d + n % d;
    if q > 0 { ProductIsPositive(q, d); assert q * d >= d; }
  }

  lemma ProductIsPositive(a: nat, b: nat)
    requires a > 0 && b > 0
    ensures a * b >= b
  {
  }

  /** The three words, in any case and with or without a sign. */
  lemma NonFiniteIff(s: string)
    ensures NamesNonFinite(s) <==>
              var body := if s != [] && (s[0] == '+' || s[0] == '-') then s[1..] else s;
              Spells(body, "inf") || Spells(body, "infinity") || Spells(body, "nan")
  {
    var body := BodyOf(s);
    LowerSpells(body, "inf");
    LowerSpells(body, "infinity");
    LowerSpells(body, "nan");
  }

  /** What the unreadable and the non-finite texts come to. */
  lemma NamesAreInfinite(s: string)
    requires NamesNonFinite(CommaToPoint(RemoveSpaces(s)))
    ensures ParseLengthToMm(Str(s)) == Failure(Infinite)
  {
  }

  // ----- reading undoes printing

  lemma {:induction false} PowAdds(a: nat, b: nat)
    ensures Pow10(a + b) == Pow10(a) * Pow10(b)
  {
    if a > 0 {
      PowAdds(a - 1, b);
      assert Pow10(a + b) == 10 * Pow10(a - 1 + b);
    }
  }

  /** Stripping zeros moves powers of ten from the digits to the exponent. */
  lemma {:induction false} NormalizeKeepsValue(d: Decimal)
    ensures Normalize(d).power >= d.power
    ensures Normalize(d).digits * Pow10(Normalize(d).power - d.power) == d.digits
    decreases d.digits
  {
    if d.digits > 0 && d.digits % 10 == 0 {
      var next := Decimal(d.digits / 10, d.power + 1);
      NormalizeKeepsValue(next);
      var n := Normalize(next);
      var k := n.power - next.power;
      assert Pow10(k + 1) == 10 * Pow10(k);
      assert n.digits * Pow10(k + 1) == 10 * (n.digits * Pow10(k));
    }
  }

  lemma ShiftOneDigit(x: nat, p: nat, v: nat, d: nat)
    ensures 10 * (x * p + v) + d == x * (10 * p) + (10 * v + d)
  {
  }

  lemma {:induction false} ValueOfConcat(a: string, b: string)
    requires AllDigits(a) && AllDigits(b)
    ensures AllDigits(a + b)
    ensures DigitsValue(a + b) == DigitsValue(a) * Pow10(|b|) + DigitsValue(b)
  {
    if b == [] {
      assert a + b == a;
    } else {
      var front, last := b[..|b| - 1], b[|b| - 1];
      assert (a + b)[..|a + b| - 1] == a + front && (a + b)[|a + b| - 1] == last;
      ValueOfConcat(a, front);
      assert IsDigit(last);
      ShiftOneDigit(DigitsValue(a), Pow10(|front|), DigitsValue(front), last as int - '0' as int);
    }
  }

  lemma {:induction false} ValueOfZeros(k: nat)
    ensures DigitsValue(Zeros(k)) == 0
  {
    if k > 0 {
      assert Zeros(k)[..k - 1] == Zeros(k - 1);
      ValueOfZeros(k - 1);
    }
  }

  lemma {:induction false} NothingToRemove(s: string)
    requires forall i :: 0 <= i < |s| ==> IsDigit(s[i]) || s[i] == ','
    ensures RemoveSpaces(s) == s
  {
    if s != [] {
      NothingToRemove(s[1..]);
      assert s == [s[0]] + s[1..];
    }
  }

  lemma MantissaOfDigits(s: string)
    requires s != "" && AllDigits(s)
    ensures ParseMantissa(s) == Some(Decimal(DigitsValue(s), 0))
  {
    assert FirstOf(s, '.', '.') == |s|;
    assert s[..|s|] == s && s + [] == s;
  }

  lemma SplitAtPoint(whole: string, fraction: string)
    requires AllDigits(whole)
    ensures var s := whole + "." + fraction;
            FirstOf(s, '.', '.') == |whole| < |s| && s[..|whole|] == whole && s[|whole| + 1..] == fraction
  {
    var s, n := whole + "." + fraction, |whole|;
    assert forall j :: 0 <= j < n ==> s[j] == whole[j];
    assert s[n] == '.';
  }

  lemma MantissaOfFraction(whole: string, fraction: string)
    requires whole != "" && AllDigits(whole) && AllDigits(fraction)
    ensures AllDigits(whole + fraction)
    ensures ParseMantissa(whole + "." + fraction) == Some(Decimal(DigitsValue(whole + fraction), -|fraction|))
  {
    SplitAtPoint(whole, fraction);
  }

  /** Without a sign and an exponent a number is its mantissa. */
  lemma NumberOfMantissa(s: string)
    requires s != "" && !IsSign(s[0]) && forall j :: 0 <= j < |s| ==> s[j] != 'e' && s[j] != 'E'
    requires ParseMantissa(s).Some?
    ensures ParseNumber(s) == Some(Signed(false, ParseMantissa(s).value))
  {
    assert FirstOf(s, 'e', 'E') == |s|;
    assert s[..|s|] == s;
  }

  lemma ReadWhole(s: string)
    requires s != "" && AllDigits(s)
    ensures ParseLengthToMm(Str(s)) == ToMillimetres(Signed(false, Decimal(DigitsValue(s), 0)))
  {
    NothingToRemove(s);
    assert CommaToPoint(s) == s;
    MantissaOfDigits(s);
    assert IsDigit(s[0]);
    DigitsNameANumber(s);
    NumberOfMantissa(s);
  }

  lemma FractionText(whole: string, fraction: string)
    requires whole != "" && AllDigits(whole) && AllDigits(fraction)
    ensures var printed, s := whole + "," + fraction, whole + "." + fraction;
            && (forall j :: 0 <= j < |printed| ==> IsDigit(printed[j]) || printed[j] == ',')
            && CommaToPoint(printed) == s
            && IsDigit(s[0]) && forall j :: 0 <= j < |s| ==> s[j] != 'e' && s[j] != 'E'
  {
    var printed, s, n := whole + "," + fraction, whole + "." + fraction, |whole|;
    forall j | 0 <= j < |printed|
      ensures IsDigit(printed[j]) || printed[j] == ','
      ensures s[j] == (if printed[j] == ',' then '.' else printed[j]) && s[j] != 'e' && s[j] != 'E'
    {
      assert j < n ==> printed[j] == whole[j] == s[j];
      assert j > n ==> printed[j] == fraction[j - n - 1] == s[j];
    }
    assert s[0] == whole[0];
  }

  lemma ReadFraction(whole: string, fraction: string)
    requires whole != "" && AllDigits(whole) && AllDigits(fraction)
    ensures AllDigits(whole + fraction)
    ensures ParseLengthToMm(Str(whole + "," + fraction)) ==
              ToMillimetres(Signed(false, Decimal(DigitsValue(whole + fraction), -|fraction|)))
  {
    FractionText(whole, fraction);
    NothingToRemove(whole + "," + fraction);
    MantissaOfFraction(whole, fraction);
    DigitsNameANumber(whole + "." + fraction);
    NumberOfMantissa(whole + "." + fraction);
  }

  lemma ShiftedResult(digits: nat, power: int, mm: nat)
    requires power >= -3 && mm > 0 && digits * Pow10(power + 3) == mm
    ensures ToMillimetres(Signed(false, Decimal(digits, power))) == Success(mm)
  {
  }

  /** Leading zeros change nothing. */
  lemma PaddingKeepsValue(k: nat, s: string)
    requires AllDigits(s)
    ensures AllDigits(Zeros(k) + s) && DigitsValue(Zeros(k) + s) == DigitsValue(s)
  {
    ValueOfConcat(Zeros(k), s);
    ValueOfZeros(k);
  }

  lemma PadValue(n: nat, places: nat)
    ensures DigitsValue(Pad(n, places)) == n
  {
    DigitsRoundTrip(n);
    var s := Digits(n);
    if |s| <= places {
      PaddingKeepsValue(places + 1 - |s|, s);
      assert Pad(n, places) == Zeros(places + 1 - |s|) + s;
    }
  }

  lemma WholeShape(d: Decimal)
    requires d.power >= 0
    ensures var s := Plain(d);
            s != "" && AllDigits(s) && DigitsValue(s) == d.digits * Pow10(d.power)
  {
    DigitsRoundTrip(d.digits);
    ValueOfConcat(Digits(d.digits), Zeros(d.power));
    ValueOfZeros(d.power);
  }

  lemma DigitsOnBothSides(s: string, cut: nat)
    requires cut <= |s| && AllDigits(s)
    ensures AllDigits(s[..cut]) && AllDigits(s[cut..]) && s[..cut] + s[cut..] == s
  {
  }

  lemma FractionShape(d: Decimal) returns (whole: string, fraction: string)
    requires d.power < 0
    ensures Plain(d) == whole + "," + fraction && |fraction| == -d.power
    ensures whole != "" && AllDigits(whole) && AllDigits(fraction) && AllDigits(whole + fraction)
    ensures DigitsValue(whole + fraction) == d.digits
  {
    var padded := Pad(d.digits, -d.power);
    PadValue(d.digits, -d.power);
    var cut := |padded| + d.power;
    whole, fraction := padded[..cut], padded[cut..];
    DigitsOnBothSides(padded, cut);
  }

  lemma WholeComesBack(d: Decimal, mm: nat)
    requires d.power >= 0 && mm > 0 && d.digits * Pow10(d.power + 3) == mm
    ensures ParseLengthToMm(Str(Plain(d))) == Success(mm)
  {
    PowAdds(d.power, 3);
    Regroup(d.digits, Pow10(d.power), Pow10(3));
    ShiftedResult(d.digits * Pow10(d.power), 0, mm);
    WholeShape(d);
    ReadWhole(Plain(d));
  }

  lemma FractionComesBack(d: Decimal, mm: nat)
    requires -3 <= d.power < 0 && mm > 0 && d.digits * Pow10(d.power + 3) == mm
    ensures ParseLengthToMm(Str(Plain(d))) == Success(mm)
  {
    ShiftedResult(d.digits, d.power, mm);
    var whole, fraction := FractionShape(d);
    ReadFraction(whole, fraction);
  }

  /** Printed and parsed, any positive whole number of millimetres comes back. */
  lemma ParsingUndoesPrinting(mm: nat)
    requires mm > 0
    ensures ParseLengthToMm(Str(FormatMmAsMetres(mm))) == Success(mm)
  {
    var d := Normalize(Decimal(mm, -3));
    NormalizeKeepsValue(Decimal(mm, -3));
    if d.power >= 0 { WholeComesBack(d, mm); } else { FractionComesBack(d, mm); }
  }

  lemma Regroup(x: nat, p: nat, q: nat)
    ensures x * (p * q) == (x * p) * q
  {
  }

  /** Different lengths print differently. */
  lemma PrintingIsInjective(a: nat, b: nat)
    requires a > 0 && b > 0 && FormatMmAsMetres(a) == FormatMmAsMetres(b)
    ensures a == b
  {
    ParsingUndoesPrinting(a);
    ParsingUndoesPrinting(b);
  }

  // ----- the printed form, digit by digit

  lemma PadOneMore(n: nat, places: nat)
    requires places > 0
    ensures Pad(n, places) == Pad(n / 10, places - 1) + [Digit(n % 10)]
  {
    if n < 10 {
      assert Digits(0) == ['0'];
      assert Zeros(places) == if places == 1 then ['0'] else Zeros(places - 1) + ['0'];
    }
  }

  lemma PadNothing(n: nat)
    ensures Pad(n, 0) == Digits(n)
  {
  }

  lemma PlainSplit(n: nat, places: nat, whole: string, fraction: string)
    requires places > 0 && |fraction| == places && Pad(n, places) == whole + fraction
    ensures Plain(Decimal(n, -(places as int))) == whole + "," + fraction
  {
    var padded := whole + fraction;
    assert padded[..|whole|] == whole && padded[|whole|..] == fraction;
  }

  lemma PadOne(n: nat)
    ensures Pad(n, 1) == Digits(n / 10) + [Digit(n % 10)]
  {
    PadOneMore(n, 1);
    PadNothing(n / 10);
  }

  lemma PadTwo(n: nat)
    ensures Pad(n, 2) == Digits(n / 100) + [Digit(n / 10 % 10), Digit(n % 10)]
  {
    PadOneMore(n, 2);
    PadOne(n / 10);
    assert n / 10 / 10 == n / 100;
  }

  lemma PadThree(n: nat)
    ensures Pad(n, 3) == Digits(n / 1000) + [Digit(n / 100 % 10), Digit(n / 10 % 10), Digit(n % 10)]
  {
    PadOneMore(n, 3);
    PadTwo(n / 10);
    assert n / 10 / 10 == n / 100 && n / 10 / 100 == n / 1000;
  }

  lemma {:induction false} WholePlain(n: nat, power: nat)
    requires n > 0
    ensures Plain(Normalize(Decimal(n, power))) == Digits(n) + Zeros(power)
  {
    if n % 10 == 0 {
      WholePlain(n / 10, power + 1);
      assert Digits(n) == Digits(n / 10) + ['0'];
      assert Digits(n / 10) + Zeros(power + 1) == Digits(n / 10) + (['0'] + Zeros(power));
    }
  }

  /** The printed form of a length: whole metres, and after a comma as many digits of the millimetres as are
      left without zeros at the end. */
  lemma PrintedForm(mm: nat)
    requires mm > 0
    ensures var whole, h, t, u := Digits(mm / 1000), Digit(mm / 100 % 10), Digit(mm / 10 % 10), Digit(mm % 10);
            FormatMmAsMetres(mm) ==
              if mm % 1000 == 0 then whole
              else if mm % 100 == 0 then whole + "," + [h]
              else if mm % 10 == 0 then whole + "," + [h, t]
              else whole + "," + [h, t, u]
  {
    if mm % 1000 == 0 {
      ThreeStrips(mm);
      WholePlain(mm / 1000, 0);
      assert Digits(mm / 1000) + Zeros(0) == Digits(mm / 1000);
    } else if mm % 100 == 0 {
      TwoStrips(mm);
      PadOne(mm / 100);
      PlainSplit(mm / 100, 1, Digits(mm / 1000), [Digit(mm / 100 % 10)]);
    } else if mm % 10 == 0 {
      OneStrip(mm);
      PadTwo(mm / 10);
      PlainSplit(mm / 10, 2, Digits(mm / 1000), [Digit(mm / 100 % 10), Digit(mm / 10 % 10)]);
    } else {
      PadThree(mm);
      PlainSplit(mm, 3, Digits(mm / 1000), [Digit(mm / 100 % 10), Digit(mm / 10 % 10), Digit(mm % 10)]);
    }
  }

  lemma StripZero(n: nat, power: int)
    requires n > 0 && n % 10 == 0
    ensures Normalize(Decimal(n, power)) == Normalize(Decimal(n / 10, power + 1))
  {
  }

  lemma DigitsOfThousands(mm: nat)
    ensures mm / 10 / 10 == mm / 100 && mm / 100 / 10 == mm / 1000 && mm / 10 / 100 == mm / 1000
    ensures mm % 100 == mm / 10 % 10 * 10 + mm % 10
    ensures mm % 1000 == mm / 100 % 10 * 100 + mm % 100
  {
  }

  lemma OneStrip(mm: nat)
    requires mm > 0 && mm % 10 == 0 && mm % 100 != 0
    ensures Normalize(Decimal(mm, -3)) == Decimal(mm / 10, -2)
    ensures mm / 10 / 100 == mm / 1000 && mm / 10 / 10 % 10 == mm / 100 % 10
  {
    DigitsOfThousands(mm);
    StripZero(mm, -3);
  }

  lemma TwoStrips(mm: nat)
    requires mm > 0 && mm % 100 == 0 && mm % 1000 != 0
    ensures Normalize(Decimal(mm, -3)) == Decimal(mm / 100, -1)
    ensures mm / 100 / 10 == mm / 1000
  {
    DigitsOfThousands(mm);
    StripZero(mm, -3);
    StripZero(mm / 10, -2);
  }

  lemma ThreeStrips(mm: nat)
    requires mm > 0 && mm % 1000 == 0
    ensures Normalize(Decimal(mm, -3)) == Normalize(Decimal(mm / 1000, 0))
  {
    DigitsOfThousands(mm);
    StripZero(mm, -3);
    StripZero(mm / 10, -2);
    StripZero(mm / 100, -1);
  }

  // ----- reading, character by character

  lemma {:induction false} RemoveSpacesParts(a: string, b: string)
    ensures RemoveSpaces(a + b) == RemoveSpaces(a) + RemoveSpaces(b)
  {
    if a == [] {
      assert a + b == b;
    } else {
      assert (a + b)[1..] == a[1..] + b;
      RemoveSpacesParts(a[1..], b);
    }
  }

  lemma RemoveOneCharacter(a: string, c: char, b: string)
    ensures RemoveSpaces(a + [c] + b) == RemoveSpaces(a) + (if IsSpace(c) then [] else [c]) + RemoveSpaces(b)
  {
    RemoveSpacesParts(a + [c], b);
    RemoveSpacesParts(a, [c]);
    assert RemoveSpaces([]) == [];
    assert [c][1..] == [];
  }

  lemma SameText(s: string, t: string)
    requires CommaToPoint(RemoveSpaces(s)) == CommaToPoint(RemoveSpaces(t))
    ensures ParseLengthToMm(Str(s)) == ParseLengthToMm(Str(t))
  {
  }

  lemma CommaToPointParts(a: string, b: string)
    ensures CommaToPoint(a + b) == CommaToPoint(a) + CommaToPoint(b)
  {
  }

  /** White space anywhere in the text changes nothing. */
  lemma SpacesAreIgnored(a: string, c: char, b: string)
    requires IsSpace(c)
    ensures ParseLengthToMm(Str(a + [c] + b)) == ParseLengthToMm(Str(a + b))
  {
    RemoveOneCharacter(a, c, b);
    RemoveSpacesParts(a, b);
    assert RemoveSpaces(a + [c] + b) == RemoveSpaces(a + b);
    SameText(a + [c] + b, a + b);
  }

  lemma PointsAgree(a: string, b: string)
    ensures CommaToPoint(a + [','] + b) == CommaToPoint(a + ['.'] + b)
  {
    CommaToPointParts(a + [','], b);
    CommaToPointParts(a + ['.'], b);
    CommaToPointParts(a, [',']);
    CommaToPointParts(a, ['.']);
    assert CommaToPoint([',']) == ['.'] == CommaToPoint(['.']);
  }

  /** A comma is as good as a point. */
  lemma CommaIsPoint(a: string, b: string)
    ensures ParseLengthToMm(Str(a + [','] + b)) == ParseLengthToMm(Str(a + ['.'] + b))
  {
    RemoveOneCharacter(a, ',', b);
    RemoveOneCharacter(a, '.', b);
    PointsAgree(RemoveSpaces(a), RemoveSpaces(b));
    SameText(a + [','] + b, a + ['.'] + b);
  }

  lemma {:induction false} OnlySpaces(s: string)
    requires Blank(s)
    ensures RemoveSpaces(s) == []
  {
    if s != [] { OnlySpaces(s[1..]); }
  }

  lemma BlankIsEmpty(s: string)
    requires Blank(s)
    ensures ParseLengthToMm(Str(s)) == Failure(EmptyText)
  {
    OnlySpaces(s);
    assert CommaToPoint([]) == "";
  }

  /** The value of a number of metres in whole millimetres, or why it has none. */
  lemma MillimetresAre(metres: Signed)
    ensures var d, r := metres.magnitude, ToMillimetres(metres);
            && (metres.negative || d.digits == 0 ==> r == Failure(NotPositive))
            && (!metres.negative && d.digits > 0 && d.power + 3 >= 0 ==> r == Success(d.digits * Pow10(d.power + 3)))
            && (!metres.negative && d.digits > 0 && d.power + 3 < 0 ==>
                  if 2 * d.digits > Pow10(-(d.power + 3))
                  then r.Success? && IsNearest(d.digits, Pow10(-(d.power + 3)), r.value)
                  else r == Failure(BelowOneMillimetre))
  {
    var d := metres.magnitude;
    if d.power + 3 >= 0 {
      if d.digits > 0 { ProductIsPositive(d.digits, Pow10(d.power + 3)); }
    } else {
      RoundsUpIff(d.digits, Pow10(-(d.power + 3)));
      RoundsToNearest(d.digits, Pow10(-(d.power + 3)));
    }
  }

  /** r is the whole number nearest to n / d, the even one of two. */
  ghost predicate IsNearest(n: nat, d: nat, r: nat) {
    && 2 * (r * d) - d <= 2 * n <= 2 * (r * d) + d
    && (2 * n == 2 * (r * d) - d || 2 * n == 2 * (r * d) + d ==> r % 2 == 0)
  }

  predicate IsNumberText(s: string) {
    s != [] && IsDigit(s[0]) && forall i :: 0 <= i < |s| ==> IsDigit(s[i]) || s[i] == '.' || s[i] == 'e' || IsSign(s[i])
  }

  lemma {:induction false} NumberTextStays(s: string)
    requires forall i :: 0 <= i < |s| ==> IsDigit(s[i]) || s[i] == '.' || s[i] == 'e' || IsSign(s[i])
    ensures RemoveSpaces(s) == s && CommaToPoint(s) == s
  {
    if s != [] {
      NumberTextStays(s[1..]);
      assert s == [s[0]] + s[1..];
    }
  }

  lemma ReadNumberText(s: string)
    requires IsNumberText(s) && ParseNumber(s).Some?
    ensures ParseLengthToMm(Str(s)) == ToMillimetres(ParseNumber(s).value)
  {
    NumberTextStays(s);
    DigitsNameANumber(s);
  }

  lemma SignedIsFinite(sign: char, s: string)
    requires IsSign(sign) && s != [] && IsDigit(s[0])
    ensures !NamesNonFinite([sign] + s)
  {
    assert ([sign] + s)[1..] == s;
    assert Lower(s)[0] == s[0];
  }

  lemma BodyOfSigned(sign: char, s: string)
    requires IsSign(sign) && s != [] && !IsSign(s[0])
    ensures BodyOf([sign] + s) == s == BodyOf(s)
  {
  }

  lemma SignedNumber(sign: char, s: string)
    requires IsSign(sign) && s != [] && !IsSign(s[0]) && ParseNumber(s).Some?
    ensures ParseNumber([sign] + s) == Some(Signed(sign == '-', ParseNumber(s).value.magnitude))
  {
    BodyOfSigned(sign, s);
  }

  /** A minus sign refuses the length, a plus sign changes nothing. */
  lemma SignDecides(s: string)
    requires IsNumberText(s) && ParseNumber(s).Some?
    ensures ParseLengthToMm(Str(['-'] + s)) == Failure(NotPositive)
    ensures ParseLengthToMm(Str(['+'] + s)) == ParseLengthToMm(Str(s))
  {
    ReadNumberText(s);
    UnsignedIsPositive(s);
    ReadSigned('-', s);
    ReadSigned('+', s);
  }

  lemma UnsignedIsPositive(s: string)
    requires s != [] && !IsSign(s[0]) && ParseNumber(s).Some?
    ensures !ParseNumber(s).value.negative
  {
  }

  lemma SignedStays(sign: char, s: string)
    requires IsSign(sign) && IsNumberText(s)
    ensures RemoveSpaces([sign] + s) == [sign] + s && CommaToPoint([sign] + s) == [sign] + s
  {
    assert forall i :: 0 < i < |[sign] + s| ==> ([sign] + s)[i] == s[i - 1];
    NumberTextStays([sign] + s);
  }

  lemma ReadSigned(sign: char, s: string)
    requires IsSign(sign) && IsNumberText(s) && ParseNumber(s).Some?
    ensures ParseLengthToMm(Str([sign] + s)) == ToMillimetres(Signed(sign == '-', ParseNumber(s).value.magnitude))
  {
    SignedStays(sign, s);
    SignedIsFinite(sign, s);
    SignedNumber(sign, s);
  }

  lemma ExponentAt(mantissa: string, exponent: string)
    requires forall i :: 0 <= i < |mantissa| ==> mantissa[i] != 'e' && mantissa[i] != 'E'
    ensures var s := mantissa + ['e'] + exponent;
            FirstOf(s, 'e', 'E') == |mantissa| < |s| && s[..|mantissa|] == mantissa && s[|mantissa| + 1..] == exponent
  {
    var s, n := mantissa + ['e'] + exponent, |mantissa|;
    assert forall j :: 0 <= j < n ==> s[j] == mantissa[j];
    assert s[n] == 'e';
  }

  lemma UnsignedNumber(s: string, d: Decimal)
    requires s != [] && !IsSign(s[0]) && ParseUnsigned(s) == Some(d)
    ensures ParseNumber(s) == Some(Signed(false, d))
  {
  }

  lemma ShiftedBy(m: Decimal, x: int)
    ensures Shifted(Some(m), Some(x)) == Some(Decimal(m.digits, m.power + x))
  {
  }

  /** An exponent shifts the point. */
  lemma NumberWithExponent(mantissa: string, exponent: string, m: Decimal, x: int)
    requires mantissa != [] && !IsSign(mantissa[0])
    requires ParseMantissa(mantissa) == Some(m) && ParseInt(exponent) == Some(x)
    requires forall i :: 0 <= i < |mantissa| ==> mantissa[i] != 'e' && mantissa[i] != 'E'
    ensures ParseNumber(mantissa + ['e'] + exponent) == Some(Signed(false, Decimal(m.digits, m.power + x)))
  {
    UnsignedShifted(mantissa, exponent, m, x);
    FirstOfThree(mantissa, ['e'], exponent);
    UnsignedNumber(mantissa + ['e'] + exponent, Decimal(m.digits, m.power + x));
  }

  lemma UnsignedShifted(mantissa: string, exponent: string, m: Decimal, x: int)
    requires ParseMantissa(mantissa) == Some(m) && ParseInt(exponent) == Some(x)
    requires forall i :: 0 <= i < |mantissa| ==> mantissa[i] != 'e' && mantissa[i] != 'E'
    ensures ParseUnsigned(mantissa + ['e'] + exponent) == Some(Decimal(m.digits, m.power + x))
  {
    UnsignedWithExponent(mantissa, exponent);
    ShiftedBy(m, x);
  }

  lemma FirstOfThree(a: string, b: string, c: string)
    requires a != []
    ensures (a + b + c)[0] == a[0]
  {
  }

  lemma UnsignedWithExponent(mantissa: string, exponent: string)
    requires forall i :: 0 <= i < |mantissa| ==> mantissa[i] != 'e' && mantissa[i] != 'E'
    ensures ParseUnsigned(mantissa + ['e'] + exponent) == Shifted(ParseMantissa(mantissa), ParseInt(exponent))
  {
    ExponentAt(mantissa, exponent);
  }

  /** A whole number, with or without a sign. */
  lemma ParsedInt(digits: string)
    requires digits != [] && AllDigits(digits)
    ensures ParseInt(digits) == Some(DigitsValue(digits))
    ensures ParseInt(['+'] + digits) == Some(DigitsValue(digits))
    ensures ParseInt(['-'] + digits) == Some(-(DigitsValue(digits) as int))
  {
    assert IsDigit(digits[0]);
    assert (['+'] + digits)[1..] == digits && (['-'] + digits)[1..] == digits;
  }

  /** No number holds any other character. */
  lemma StrangeCharacter(s: string, i: nat)
    requires i < |s| && IsStrange(s[i])
    ensures ParseNumber(s) == None
  {
    if IsSign(s[0]) {
      assert s[1..][i - 1] == s[i];
      StrangeInBody(s[1..], i - 1);
    } else {
      StrangeInBody(s, i);
    }
  }

  predicate IsStrange(c: char) {
    !IsDigit(c) && c != '.' && c != 'e' && c != 'E' && !IsSign(c)
  }

  lemma StrangeInBody(body: string, i: nat)
    requires i < |body| && IsStrange(body[i])
    ensures ParseUnsigned(body) == None
  {
    var e := FirstOf(body, 'e', 'E');
    if e == |body| {
      StrangeInMantissa(body, i);
    } else if i < e {
      assert body[..e][i] == body[i];
      StrangeInMantissa(body[..e], i);
    } else {
      assert body[e + 1..][i - e - 1] == body[i];
      StrangeInExponent(body[e + 1..], i - e - 1);
    }
  }

  lemma StrangeInMantissa(s: string, i: nat)
    requires i < |s| && !IsDigit(s[i]) && s[i] != '.'
    ensures ParseMantissa(s) == None
  {
    var point := FirstOf(s, '.', '.');
    if i < point { assert s[..point][i] == s[i]; } else { assert s[point + 1..][i - point - 1] == s[i]; }
  }

  lemma StrangeInExponent(s: string, i: nat)
    requires i < |s| && !IsDigit(s[i]) && !IsSign(s[i])
    ensures ParseInt(s) == None
  {
    var from := if IsSign(s[0]) then 1 else 0;
    var body := if IsSign(s[0]) then s[1..] else s;
    assert body[i - from] == s[i];
  }

  /** What is no number at all is unreadable, and a value that is not a text needs no reading. */
  lemma UnreadableIs(s: string)
    requires !Blank(s)
    ensures var text := CommaToPoint(RemoveSpaces(s));
            !NamesNonFinite(text) && ParseNumber(text) == None ==> ParseLengthToMm(Str(s)) == Failure(Unreadable)
    ensures ParseLengthToMm(NotALength) == Failure(WrongType)
    ensures ParseLengthToMm(NotFinite) == Failure(Infinite)
  {
    SomethingLeft(s);
  }

  lemma {:induction false} SomethingLeft(s: string)
    requires !Blank(s)
    ensures RemoveSpaces(s) != []
  {
    if IsSpace(s[0]) {
      assert s == [s[0]] + s[1..];
      SomethingLeft(s[1..]);
    }
  }
}
