/** Decimal strings: one spelling for each number (`decimal_string` in runtime_contracts/canonical.py).
    Python's `Decimal` is modelled where that function uses it: the constructor's grammar, `normalize` under the
    default context (28 digits, half-even, exponents up to 999999) and fixed-point formatting. */
module Decimals {
  import opened Wrappers
  import opened Digits

  datatype Decimal =
    | Finite(negative: bool, coefficient: nat, exponent: int)
    | Special  // NaN and the infinities

  const PRECISION := 28
  /** Exponent of the least subnormal of the default context. */
  const E_TINY := -1000026
  /** Largest exponent a 28-digit coefficient may have. */
  const E_TOP := 999972

  // ---- reading a number ----

  predicate IsSpace(c: char) {
    var n := c as int;
    9 <= n <= 13 || 28 <= n <= 32 || n == 0x85 || n == 0xa0 || n == 0x1680 || 0x2000 <= n <= 0x200a
    || n == 0x2028 || n == 0x2029 || n == 0x202f || n == 0x205f || n == 0x3000
  }

  function StripLeft(s: string): string {
    if s != [] && IsSpace(s[0]) then StripLeft(s[1..]) else s
  }

  function StripRight(s: string): string {
    if s != [] && IsSpace(s[|s| - 1]) then StripRight(s[..|s| - 1]) else s
  }

  /** `s.strip()`. */
  function Strip(s: string): string {
    StripRight(StripLeft(s))
  }

  function DropUnderscores(s: string): string {
    if s == [] then []
    else if s[0] == '_' then DropUnderscores(s[1..])
    else [s[0]] + DropUnderscores(s[1..])
  }

  /** The optional exponent part: nothing, or `e` with an optionally signed run of digits. */
  function ParseExponent(s: string): Option<int> {
    if s == [] then Some(0)
    else if s[0] != 'e' && s[0] != 'E' then None
    else
      var signed := |s| > 1 && (s[1] == '+' || s[1] == '-');
      var digits := if signed then s[2..] else s[1..];
      if digits == [] || !AllDigits(digits) then None
      else
        var n: int := Value(digits);
        Some(if signed && s[1] == '-' then -n else n)
  }

  /** The optional fraction: digits after a point, and what follows them. */
  function ParseFraction(s: string): (r: (string, string))
    ensures AllDigits(r.0)
  {
    if s != [] && s[0] == '.' then
      var n := Prefix(s[1..]);
      (s[1..][..n], s[1..][n..])
    else ([], s)
  }

  function ParseUnsigned(negative: bool, s: string): Option<Decimal> {
    var n := Prefix(s);
    var (fraction, rest) := ParseFraction(s[n..]);
    var exponent := ParseExponent(rest);
    var digits := s[..n] + fraction;
    if digits == [] || exponent.None? then None
    else Some(Finite(negative, Value(digits), exponent.value - |fraction|))
  }

  /** The finite spellings `Decimal(s)` accepts. Spellings of NaN and the infinities give None as well: they
      parse, and are then refused for not being finite. */
  function Parse(s: string): Option<Decimal> {
    if s != [] && (s[0] == '-' || s[0] == '+') then ParseUnsigned(s[0] == '-', s[1..])
    else ParseUnsigned(false, s)
  }

  // ---- normalising a number ----

  function StripZeros(d: Decimal): (r: Decimal)
    requires d.Finite? && d.coefficient > 0
    ensures r.Finite? && r.negative == d.negative && r.coefficient % 10 != 0 && r.exponent >= d.exponent
    ensures Length(r.coefficient) + r.exponent == Length(d.coefficient) + d.exponent
    decreases d.coefficient
  {
    if d.coefficient % 10 != 0 then d
    else StripZeros(Finite(d.negative, d.coefficient / 10, d.exponent + 1))
  }

  lemma {:induction false} StripZerosExact(d: Decimal)
    requires d.Finite? && d.coefficient > 0
    ensures var r := StripZeros(d); d.coefficient == r.coefficient * Pow10(r.exponent - d.exponent)
    decreases d.coefficient
  {
    if d.coefficient % 10 != 0 {
      assert Pow10(0) == 1;
    } else {
      var next := Finite(d.negative, d.coefficient / 10, d.exponent + 1);
      StripZerosExact(next);
      var r := StripZeros(next);
      TenTimes(r.coefficient, r.exponent - next.exponent);
    }
  }

  function Max(a: int, b: int): int {
    if a >= b then a else b
  }

  /** The exponent a non-zero number is rounded to: 28 significant digits, and never below the least subnormal. */
  function RoundingExponent(d: Decimal): int
    requires d.Finite?
  {
    Max(Length(d.coefficient) + d.exponent - PRECISION, E_TINY)
  }

  /** `d.normalize()` of a non-zero finite number; Refused stands for the trapped overflow. */
  function Normalize(d: Decimal): Result<Decimal>
    requires d.Finite? && d.coefficient > 0
  {
    var e := RoundingExponent(d);
    if e > E_TOP then Refused
    else if d.exponent >= e then Ok(StripZeros(d))
    else
      var c := RoundHalfEven(d.coefficient, Pow10(e - d.exponent));
      if c == 0 then Ok(Finite(d.negative, 0, 0))
      else if c == Pow10(PRECISION) && e + 1 > E_TOP then Refused
      else Ok(StripZeros(Finite(d.negative, c, e)))
  }

  /** The digits of a number before and after the point. */
  function PointSplit(coefficient: nat, exponent: int): (r: (string, string))
    ensures AllDigits(r.0) && AllDigits(r.1) && r.0 != [] && (exponent <= 0 ==> r.0[0] == '0' ==> |r.0| == 1)
    ensures |r.1| == if exponent >= 0 then 0 else -exponent
  {
    var digits := NatText(coefficient);
    if exponent >= 0 then (digits + Zeros(exponent), "")
    else if |digits| > -exponent then (digits[..|digits| + exponent], digits[|digits| + exponent..])
    else ("0", Zeros(-exponent - |digits|) + digits)
  }

  function Pointed(parts: (string, string)): string {
    if parts.1 == "" then parts.0 else parts.0 + ("." + parts.1)
  }

  /** `format(d, "f")`. */
  function FixedPoint(d: Decimal): string
    requires d.Finite?
  {
    var text := Pointed(PointSplit(d.coefficient, d.exponent));
    if d.negative then "-" + text else text
  }

  /** The regular expression `-?(0|[1-9][0-9]*)(\.[0-9]*[1-9])?`. */
  predicate CanonicalShape(s: string) {
    UnsignedShape(if s != [] && s[0] == '-' then s[1..] else s)
  }

  predicate UnsignedShape(t: string) {
    var n := Prefix(t);
    && n >= 1
    && (t[0] == '0' ==> n == 1)
    && (n == |t| ||
        (t[n] == '.' && n + 1 < |t| && AllDigits(t[n + 1..]) && t[|t| - 1] != '0'))
  }

  /** `decimal_string` once the number has been read. */
  function DecimalText(d: Decimal): Result<string> {
    if d.Special? then Refused
    else if d.coefficient == 0 then Ok("0")
    else
      var n :- Normalize(d);
      var text := FixedPoint(n);
      if CanonicalShape(text) then Ok(text) else Refused
  }

  /** The number a text spells, once the check on its ends has passed. */
  function Read(value: string): Option<Decimal> {
    var raw := Strip(value);
    if raw != [] && (raw[|raw| - 1] == '.' || raw[0] == '.') then None
    else Parse(DropUnderscores(raw))
  }

  /** `decimal_string` of a text. */
  function DecimalString(value: string): Result<string> {
    match Read(value)
    case None => Refused
    case Some(d) => DecimalText(d)
  }

  // ---- what numbers are the same ----

  /** d as a whole multiple of 10^e. */
  function Scaled(d: Decimal, e: int): int
    requires d.Finite? && e <= d.exponent
  {
    var n := d.coefficient * Pow10(d.exponent - e);
    if d.negative then -n else n
  }

  function Min(a: int, b: int): int {
    if a <= b then a else b
  }

  /** Numerically equal. */
  predicate SameNumber(a: Decimal, b: Decimal)
    requires a.Finite? && b.Finite?
  {
    var e := Min(a.exponent, b.exponent);
    Scaled(a, e) == Scaled(b, e)
  }

  /** The same number written with one more trailing zero. */
  function OneMoreZero(d: Decimal): (r: Decimal)
    requires d.Finite?
  {
    Finite(d.negative, 10 * d.coefficient, d.exponent - 1)
  }

  /** The same number written with k more trailing zeros. */
  function Padded(d: Decimal, k: nat): (r: Decimal)
    requires d.Finite?
    ensures r.Finite? && (d.coefficient > 0 ==> r.coefficient > 0)
  {
    if k == 0 then d else OneMoreZero(Padded(d, k - 1))
  }

  lemma {:induction false} PaddedNumber(d: Decimal, k: nat)
    requires d.Finite?
    ensures Padded(d, k) == Finite(d.negative, d.coefficient * Pow10(k), d.exponent - k)
  {
    if k == 0 {
      assert Pow10(0) == 1;
    } else {
      PaddedNumber(d, k - 1);
      TenTimes(d.coefficient, k - 1);
    }
  }

  lemma SameUpToZero(d: Decimal)
    requires d.Finite? && d.coefficient > 0
    ensures RoundingExponent(OneMoreZero(d)) == RoundingExponent(d) && StripZeros(OneMoreZero(d)) == StripZeros(d)
  {
    var p := OneMoreZero(d);
    assert p.coefficient / 10 == d.coefficient && p.coefficient % 10 == 0;
    assert Length(p.coefficient) == 1 + Length(d.coefficient);
  }

  lemma {:induction false} NormalizeOneMoreZero(d: Decimal)
    requires d.Finite? && d.coefficient > 0
    ensures Normalize(OneMoreZero(d)) == Normalize(d)
  {
    var p, e := OneMoreZero(d), RoundingExponent(d);
    SameUpToZero(d);
    if e <= E_TOP {
      if d.exponent < e {
        assert Pow10(e - p.exponent) == 10 * Pow10(e - d.exponent);
        RoundScales(d.coefficient, Pow10(e - d.exponent));
      } else if d.exponent == e {
        assert Pow10(1) == 10 by { assert Pow10(0) == 1; }
        RoundExact(d.coefficient, 10);
        LengthBounds(d.coefficient);
        Pow10Monotone(Length(d.coefficient), PRECISION);
      }
    }
  }

  lemma {:induction false} NormalizePadded(d: Decimal, k: nat)
    requires d.Finite? && d.coefficient > 0
    ensures Normalize(Padded(d, k)) == Normalize(d)
  {
    if k > 0 {
      NormalizePadded(d, k - 1);
      NormalizeOneMoreZero(Padded(d, k - 1));
    }
  }

  lemma SameNumberPadded(a: Decimal, b: Decimal)
    requires a.Finite? && b.Finite? && a.coefficient > 0
    requires SameNumber(a, b) && a.exponent >= b.exponent
    ensures b == Padded(a, a.exponent - b.exponent)
  {
    assert Pow10(0) == 1;
    var n := a.coefficient * Pow10(a.exponent - b.exponent);
    assert n > 0;
    PaddedNumber(a, a.exponent - b.exponent);
  }

  lemma PaddedText(d: Decimal, k: nat)
    requires d.Finite? && d.coefficient > 0
    ensures DecimalText(Padded(d, k)) == DecimalText(d)
  {
    NormalizePadded(d, k);
  }

  lemma SameNumberIsPadding(a: Decimal, b: Decimal)
    requires a.Finite? && b.Finite? && SameNumber(a, b)
    ensures
      || (a.coefficient == 0 && b.coefficient == 0)
      || (a.coefficient > 0 && exists k: nat :: b == Padded(a, k))
      || (b.coefficient > 0 && exists k: nat :: a == Padded(b, k))
  {
    ScaledZero(a, Min(a.exponent, b.exponent));
    ScaledZero(b, Min(a.exponent, b.exponent));
    if a.coefficient == 0 || b.coefficient == 0 {
    } else if a.exponent >= b.exponent {
      SameNumberPadded(a, b);
    } else {
      SameNumberPadded(b, a);
    }
  }

  /** decimal_string depends on the number alone, not on how it was written: for every pair of spellings. */
  lemma SameNumberSameText(a: Decimal, b: Decimal)
    requires a.Finite? && b.Finite? && SameNumber(a, b)
    ensures DecimalText(a) == DecimalText(b)
  {
    SameNumberIsPadding(a, b);
    if a.coefficient == 0 && b.coefficient == 0 {
    } else if a.coefficient > 0 && exists k: nat :: b == Padded(a, k) {
      var k: nat :| b == Padded(a, k);
      PaddedText(a, k);
    } else {
      var k: nat :| a == Padded(b, k);
      PaddedText(b, k);
    }
  }

  lemma ScaledZero(d: Decimal, e: int)
    requires d.Finite? && e <= d.exponent
    ensures Scaled(d, e) == 0 <==> d.coefficient == 0
  {
    if d.coefficient > 0 {
      assert d.coefficient * Pow10(d.exponent - e) > 0;
    }
  }

  // ---- the text reads back as the number ----

  /** The number as it is read back from fixed-point form: the exponent is never positive. */
  function Written(d: Decimal): (r: Decimal)
    requires d.Finite?
    ensures r.Finite?
  {
    if d.exponent > 0 then Finite(d.negative, d.coefficient * Pow10(d.exponent), 0) else d
  }

  lemma WrittenSameNumber(d: Decimal)
    requires d.Finite?
    ensures SameNumber(Written(d), d)
  {
    assert Pow10(0) == 1;
  }

  /** Reading a run of digits, optionally followed by a point and more digits. */
  lemma ParsePointed(negative: bool, a: string, b: string)
    requires AllDigits(a) && AllDigits(b) && a != []
    ensures ParseUnsigned(negative, Pointed((a, b))) == Some(Finite(negative, Value(a + b), -|b|))
  {
    var text := Pointed((a, b));
    var tail := text[|a|..];
    assert text == a + tail && text[..|a|] == a;
    PrefixStops(a, tail);
    assert ParseFraction(tail) == (b, "") by {
      if b == "" {
        assert tail == "";
      } else {
        assert tail == "." + b && tail[1..] == b;
        PrefixStops(b, "");
        assert b + "" == b && b[..|b|] == b && b[|b|..] == "";
      }
    }
  }

  lemma {:induction false} PointSplitValue(coefficient: nat, exponent: int)
    ensures var (a, b) := PointSplit(coefficient, exponent);
      Value(a + b) == if exponent > 0 then coefficient * Pow10(exponent) else coefficient
  {
    var digits := NatText(coefficient);
    var (a, b) := PointSplit(coefficient, exponent);
    if exponent >= 0 {
      assert a + b == digits + Zeros(exponent);
      ZerosOnTheRight(digits, exponent);
      assert Pow10(0) == 1;
    } else if |digits| > -exponent {
      assert a + b == digits;
    } else {
      var z := -exponent - |digits|;
      assert a + b == Zeros(z + 1) + digits;
      ZerosOnTheLeft(digits, z + 1);
    }
  }

  lemma WrittenParts(d: Decimal)
    requires d.Finite?
    ensures var (a, b) := PointSplit(d.coefficient, d.exponent);
      Finite(d.negative, Digits.Value(a + b), -|b|) == Written(d)
  {
    PointSplitValue(d.coefficient, d.exponent);
  }

  lemma UnsignedParses(d: Decimal)
    requires d.Finite?
    ensures ParseUnsigned(d.negative, Pointed(PointSplit(d.coefficient, d.exponent))) == Some(Written(d))
  {
    var (a, b) := PointSplit(d.coefficient, d.exponent);
    ParsePointed(d.negative, a, b);
    WrittenParts(d);
  }

  lemma SignParses(negative: bool, text: string)
    requires text != [] && IsDigit(text[0])
    ensures Parse(if negative then "-" + text else text) == ParseUnsigned(negative, text)
  {
    assert ("-" + text)[1..] == text;
  }

  lemma FixedPointParses(d: Decimal)
    requires d.Finite?
    ensures Parse(FixedPoint(d)) == Some(Written(d))
  {
    UnsignedParses(d);
    SignParses(d.negative, Pointed(PointSplit(d.coefficient, d.exponent)));
  }

  lemma {:induction false} DropUnderscoresClean(s: string)
    requires forall i :: 0 <= i < |s| ==> s[i] != '_'
    ensures DropUnderscores(s) == s
  {
    if s != [] {
      DropUnderscoresClean(s[1..]);
    }
  }

  /** Every character is a digit or punctuation, with digits at both ends of the unsigned part. */
  ghost predicate Clean(s: string) {
    && s != [] && (s[0] == '-' || IsDigit(s[0])) && IsDigit(s[|s| - 1])
    && forall i :: 0 <= i < |s| ==> IsDigit(s[i]) || s[i] == '-' || s[i] == '.'
  }

  lemma PointedClean(a: string, b: string)
    requires AllDigits(a) && AllDigits(b) && a != []
    ensures Clean(Pointed((a, b))) && Clean("-" + Pointed((a, b)))
  {
    var t := Pointed((a, b));
    assert t[|t| - 1] == if b == "" then a[|a| - 1] else b[|b| - 1];
  }

  lemma FixedPointClean(d: Decimal)
    requires d.Finite?
    ensures Clean(FixedPoint(d))
  {
    var (a, b) := PointSplit(d.coefficient, d.exponent);
    PointedClean(a, b);
  }

  lemma CleanStrip(s: string)
    requires Clean(s)
    ensures Strip(s) == s && DropUnderscores(s) == s
  {
    assert StripLeft(s) == s && StripRight(s) == s;
    DropUnderscoresClean(s);
  }

  lemma CleanRead(s: string, d: Decimal)
    requires Clean(s) && Parse(s) == Some(d)
    ensures Read(s) == Some(d)
  {
    CleanStrip(s);
    assert s[|s| - 1] != '.' && s[0] != '.';
  }

  /** Reading back a text this module wrote goes straight to the number. */
  lemma FixedPointReads(d: Decimal)
    requires d.Finite?
    ensures Read(FixedPoint(d)) == Some(Written(d))
  {
    FixedPointClean(d);
    FixedPointParses(d);
    CleanRead(FixedPoint(d), Written(d));
  }

  // ---- the shape of the output ----

  /** In lowest terms: no trailing zero in the coefficient, zero written with exponent zero. */
  ghost predicate Reduced(d: Decimal) {
    d.Finite? && if d.coefficient == 0 then d.exponent == 0 else d.coefficient % 10 != 0
  }

  lemma NormalizeReduced(d: Decimal)
    requires d.Finite? && d.coefficient > 0 && Normalize(d).Ok?
    ensures Reduced(Normalize(d).value) && Normalize(d).value.negative == d.negative
  {}

  lemma SignedShape(text: string)
    requires text != [] && text[0] != '-' && UnsignedShape(text)
    ensures CanonicalShape(text) && CanonicalShape("-" + text)
  {
    assert ("-" + text)[1..] == text;
  }

  lemma PointedShape(a: string, b: string)
    requires AllDigits(a) && AllDigits(b) && a != [] && (a[0] == '0' ==> |a| == 1)
    requires b == "" || b[|b| - 1] != '0'
    ensures CanonicalShape(Pointed((a, b))) && CanonicalShape("-" + Pointed((a, b)))
  {
    if b == "" {
      PrefixStops(a, "");
      assert a + "" == a;
    } else {
      FractionShape(a, b);
    }
    SignedShape(Pointed((a, b)));
  }

  lemma FractionShape(a: string, b: string)
    requires AllDigits(a) && AllDigits(b) && a != [] && (a[0] == '0' ==> |a| == 1)
    requires b != "" && b[|b| - 1] != '0'
    ensures UnsignedShape(a + ("." + b))
  {
    var t := a + ("." + b);
    PrefixStops(a, "." + b);
    assert t[|a| + 1..] == b && t[|a|] == '.';
  }

  lemma ReducedShape(d: Decimal)
    requires Reduced(d)
    ensures CanonicalShape(FixedPoint(d))
  {
    var digits := NatText(d.coefficient);
    var (a, b) := PointSplit(d.coefficient, d.exponent);
    assert digits[|digits| - 1] == DigitChar(d.coefficient % 10);
    if d.exponent >= 0 {
      assert a[0] == digits[0] && (d.exponent == 0 ==> a == digits);
    } else {
      assert b[|b| - 1] == digits[|digits| - 1];
    }
    PointedShape(a, b);
  }

  /** The defensive check in `decimal_string` never fires: a text is refused only when the number is not finite
      or overflows, and every text returned has the canonical shape. */
  lemma OutputShape(d: Decimal)
    ensures DecimalText(d).Refused?
       <==> d.Special? || (d.coefficient > 0 && Normalize(d).Refused?)
    ensures DecimalText(d).Ok? ==> CanonicalShape(DecimalText(d).value)
  {
    if d.Finite? && d.coefficient > 0 && Normalize(d).Ok? {
      NormalizeReduced(d);
      ReducedShape(Normalize(d).value);
    } else {
      PrefixStops("0", "");
      assert "0" + "" == "0";
    }
  }

  // ---- fixed points ----

  lemma {:induction false} RoundedLength(d: Decimal)
    requires d.Finite? && d.coefficient > 0 && d.exponent < RoundingExponent(d)
    ensures RoundHalfEven(d.coefficient, Pow10(RoundingExponent(d) - d.exponent)) <= Pow10(PRECISION)
  {
    var k := RoundingExponent(d) - d.exponent;
    var m := Pow10(k);
    LengthBounds(d.coefficient);
    Pow10Monotone(Length(d.coefficient), PRECISION + k);
    Pow10Add(PRECISION, k);
    RoundMonotone(d.coefficient, Pow10(PRECISION) * m, m);
    RoundExact(Pow10(PRECISION), m);
  }

  /** Needs no rounding: at most 28 digits, above the least exponent, and no overflow. */
  ghost predicate WithinContext(d: Decimal)
    requires d.Finite?
  {
    RoundingExponent(d) <= d.exponent && RoundingExponent(d) <= E_TOP
  }

  lemma StripZerosWithin(d: Decimal)
    requires d.Finite? && d.coefficient > 0 && WithinContext(d)
    ensures WithinContext(StripZeros(d))
  {}

  lemma RoundedWithin(negative: bool, c: nat, e: int)
    requires 0 < c <= Pow10(PRECISION) && E_TINY <= e <= E_TOP && (c == Pow10(PRECISION) ==> e + 1 <= E_TOP)
    ensures WithinContext(StripZeros(Finite(negative, c, e)))
  {
    RoundedLengthAt(c, PRECISION);
    StripZerosGrows(Finite(negative, c, e));
  }

  lemma RoundedLengthAt(c: nat, p: nat)
    requires 0 < c <= Pow10(p) && p > 0
    ensures Length(c) <= p || (c == Pow10(p) && Length(c) == p + 1 && c % 10 == 0)
  {
    if c < Pow10(p) {
      LengthAtMost(c, p);
    } else {
      assert Pow10(p + 1) == 10 * Pow10(p);
      LengthAtMost(c, p + 1);
    }
  }

  lemma StripZerosGrows(d: Decimal)
    requires d.Finite? && d.coefficient > 0
    ensures d.coefficient % 10 == 0 ==> StripZeros(d).exponent >= d.exponent + 1
  {}

  lemma {:induction false} NormalizeWithin(d: Decimal)
    requires d.Finite? && d.coefficient > 0 && Normalize(d).Ok? && Normalize(d).value.coefficient > 0
    ensures WithinContext(Normalize(d).value)
  {
    var e := RoundingExponent(d);
    if d.exponent >= e {
      StripZerosWithin(d);
    } else {
      RoundedLength(d);
      RoundedWithin(d.negative, RoundHalfEven(d.coefficient, Pow10(e - d.exponent)), e);
    }
  }

  /** What `normalize` returns, it returns unchanged the next time. */
  lemma NormalizeIdempotent(d: Decimal)
    requires d.Finite? && d.coefficient > 0 && Normalize(d).Ok? && Normalize(d).value.coefficient > 0
    ensures Normalize(Normalize(d).value) == Normalize(d)
  {
    NormalizeReduced(d);
    NormalizeWithin(d);
    NormalizeFixed(Normalize(d).value);
  }

  lemma NormalizeFixed(n: Decimal)
    requires n.Finite? && n.coefficient % 10 != 0 && WithinContext(n)
    ensures Normalize(n) == Ok(n)
  {}

  /** A negative number so small that it rounds to zero at the least exponent of the context. */
  predicate UnderflowsBelowZero(d: Decimal) {
    d.Finite? && d.negative && d.coefficient > 0 && d.exponent < E_TINY
    && 2 * d.coefficient <= Pow10(E_TINY - d.exponent)
  }

  lemma {:induction false} RoundsToZero(d: Decimal)
    requires d.Finite? && d.coefficient > 0
    ensures Normalize(d) == Ok(Finite(d.negative, 0, 0))
       <==> d.exponent < E_TINY && 2 * d.coefficient <= Pow10(E_TINY - d.exponent)
  {
    var e := RoundingExponent(d);
    if d.exponent < e {
      QuotientZero(d.coefficient, Pow10(e - d.exponent));
      if d.exponent < E_TINY && 2 * d.coefficient <= Pow10(E_TINY - d.exponent) {
        LengthAtMost(d.coefficient, E_TINY - d.exponent);
      } else if e != E_TINY {
        LengthBounds(d.coefficient);
        Pow10Monotone(e - d.exponent, Length(d.coefficient) - 1);
      }
    }
  }

  lemma QuotientZero(c: nat, m: nat)
    requires m > 0
    ensures RoundHalfEven(c, m) == 0 <==> 2 * c <= m
  {
    if c < m {
      DivisionUnique(c, m, 0, c);
    } else {
      RoundMonotone(m, c, m);
      RoundExact(1, m);
    }
  }

  lemma TextOf(d: Decimal)
    requires d.Finite? && d.coefficient > 0 && DecimalText(d).Ok?
    ensures Normalize(d).Ok? && DecimalText(d).value == FixedPoint(Normalize(d).value)
  {}

  lemma ZeroText(negative: bool)
    ensures FixedPoint(Finite(negative, 0, 0)) == if negative then "-0" else "0"
  {
    assert NatText(0) == "0" && Zeros(0) == "" && "0" + Zeros(0) == "0";
  }

  lemma NonZeroText(d: Decimal)
    requires d.Finite? && d.coefficient > 0
    ensures FixedPoint(d) != "-0" && FixedPoint(d) != "0"
  {
    FixedPointParses(d);
    FixedPointParses(Finite(d.negative, 0, 0));
    ZeroText(d.negative);
    FixedPointParses(Finite(!d.negative, 0, 0));
    ZeroText(!d.negative);
    ScaledZero(d, Min(d.exponent, 0));
    if d.exponent > 0 {
      assert d.coefficient * Pow10(d.exponent) > 0;
    }
  }

  /** Exactly when the output is "-0". */
  lemma NegativeZeroOutput(d: Decimal)
    requires DecimalText(d).Ok?
    ensures DecimalText(d).value == "-0" <==> UnderflowsBelowZero(d)
  {
    if d.coefficient > 0 {
      TextOf(d);
      NormalizeReduced(d);
      RoundsToZero(d);
      var n := Normalize(d).value;
      if n.coefficient == 0 {
        ZeroText(n.negative);
      } else {
        NonZeroText(n);
      }
    }
  }

  /** The text decimal_string returns is a fixed point of it, unless it is "-0". */
  lemma TextIsFixedPoint(d: Decimal)
    requires DecimalText(d).Ok?
    ensures var t := DecimalText(d).value;
      DecimalString(t) == Ok(if t == "-0" then "0" else t)
  {
    var t := DecimalText(d).value;
    if d.coefficient == 0 {
      ZeroText(false);
      FixedPointReads(Finite(false, 0, 0));
    } else {
      TextOf(d);
      NormalizeReduced(d);
      var n := Normalize(d).value;
      FixedPointReads(n);
      WrittenSameNumber(n);
      SameNumberSameText(Written(n), n);
      if n.coefficient == 0 {
        ZeroText(n.negative);
      } else {
        NonZeroText(n);
        NormalizeIdempotent(d);
        ReducedShape(n);
      }
    }
  }

  /** The output is stable under decimal_string exactly when the number is not a negative one that underflows. */
  lemma FixedPointIff(d: Decimal)
    requires DecimalText(d).Ok?
    ensures DecimalString(DecimalText(d).value) == DecimalText(d) <==> !UnderflowsBelowZero(d)
  {
    TextIsFixedPoint(d);
    NegativeZeroOutput(d);
  }

  /** A number for which it fails: minus ten to the power -2000000 is written "-0", which is then rewritten "0". */
  lemma {:induction false} NegativeZeroExample()
    ensures var d := Finite(true, 1, -2000000);
      UnderflowsBelowZero(d) && DecimalText(d) == Ok("-0") && DecimalString("-0") == Ok("0")
  {
    var d := Finite(true, 1, -2000000);
    AtLeastTen(E_TINY - d.exponent);
    RoundsToZero(d);
    ZeroText(true);
    PointedShape("0", "");
    TextIsFixedPoint(d);
  }

  lemma AtLeastTen(k: nat)
    requires k > 0
    ensures Pow10(k) >= 10
  {}

  // ---- how far the output is from the input ----

  lemma ScaledDeeper(d: Decimal, e: int, k: nat)
    requires d.Finite? && e <= d.exponent
    ensures Scaled(d, e - k) == Scaled(d, e) * Pow10(k)
  {
    var c: int, x: int, y: int := d.coefficient, Pow10(d.exponent - e), Pow10(k);
    Pow10Add(d.exponent - e, k);
    assert Pow10(d.exponent - (e - k)) == x * y;
    MulAssociates(c, x, y);
    MulAssociates(-1, c * x, y);
    MulAssociates(-1, c, x);
  }

  /** Numeric equality may be judged at any common exponent. */
  lemma SameNumberAt(a: Decimal, b: Decimal, e: int)
    requires a.Finite? && b.Finite? && e <= a.exponent && e <= b.exponent
    ensures SameNumber(a, b) <==> Scaled(a, e) == Scaled(b, e)
  {
    var m := Min(a.exponent, b.exponent);
    ScaledDeeper(a, m, m - e);
    ScaledDeeper(b, m, m - e);
    MulCancels(Scaled(a, m), Scaled(b, m), Pow10(m - e));
  }

  lemma SameNumberTransitive(a: Decimal, b: Decimal, c: Decimal)
    requires a.Finite? && b.Finite? && c.Finite? && SameNumber(a, b) && SameNumber(b, c)
    ensures SameNumber(a, c) && SameNumber(b, a)
  {
    var e := Min(a.exponent, Min(b.exponent, c.exponent));
    SameNumberAt(a, b, e);
    SameNumberAt(b, c, e);
    SameNumberAt(a, c, e);
    SameNumberAt(b, a, e);
  }

  lemma ScaledSelf(d: Decimal)
    requires d.Finite?
    ensures Scaled(d, d.exponent) == if d.negative then 0 - d.coefficient else d.coefficient
  {
    assert Pow10(0) == 1;
  }

  lemma {:induction false} StripZerosSameNumber(d: Decimal, r: Decimal)
    requires d.Finite? && d.coefficient > 0 && r == StripZeros(d)
    ensures SameNumber(d, r) && SameNumber(r, d)
  {
    StripZerosExact(d);
    ScaledUp(d, r);
  }

  lemma ScaledUp(d: Decimal, r: Decimal)
    requires d.Finite? && r.Finite? && r.negative == d.negative && r.exponent >= d.exponent
    requires d.coefficient == r.coefficient * Pow10(r.exponent - d.exponent)
    ensures SameNumber(d, r) && SameNumber(r, d)
  {
    ScaledSelf(d);
  }

  /** At most 28 significant digits, none of them below the least exponent. */
  predicate FitsPrecision(d: Decimal)
    requires d.Finite?
  {
    d.coefficient > 0 ==>
      var r := StripZeros(d);
      Length(r.coefficient) <= PRECISION && r.exponent >= E_TINY
  }

  /** What the number is rounded to before it is printed: a multiple of 10^RoundingExponent. */
  function Rounded(d: Decimal): Decimal
    requires d.Finite? && d.coefficient > 0
  {
    var e := RoundingExponent(d);
    if d.exponent >= e then d
    else Finite(d.negative, RoundHalfEven(d.coefficient, Pow10(e - d.exponent)), e)
  }

  lemma NormalizeIsRounded(d: Decimal)
    requires d.Finite? && d.coefficient > 0 && Normalize(d).Ok?
    ensures SameNumber(Normalize(d).value, Rounded(d))
  {
    var r := Rounded(d);
    if r.coefficient > 0 {
      StripZerosSameNumber(r, StripZeros(r));
    }
  }

  /** The text reads back as the rounded number. */
  lemma TextIsRounded(d: Decimal)
    requires d.Finite? && d.coefficient > 0 && DecimalText(d).Ok?
    ensures var back := Read(DecimalText(d).value);
      back.Some? && back.value.Finite? && SameNumber(back.value, Rounded(d))
  {
    TextOf(d);
    NormalizeReduced(d);
    var n := Normalize(d).value;
    FixedPointReads(n);
    WrittenSameNumber(n);
    NormalizeIsRounded(d);
    SameNumberTransitive(Written(n), n, Rounded(d));
  }

  /** The printed number is within half a unit of the last place kept (the 28th digit, or the least exponent),
      a tie going to the even neighbour. */
  lemma RoundingError(d: Decimal)
    requires d.Finite? && d.coefficient > 0
    ensures var e, r := Min(d.exponent, RoundingExponent(d)), Rounded(d);
      var unit := Pow10(RoundingExponent(d) - e);
      && e <= r.exponent
      && var gap := Scaled(r, e) - Scaled(d, e);
      && 0 - unit <= 2 * gap <= unit
      && (2 * gap == unit || 2 * gap == 0 - unit ==> r.coefficient % 2 == 0)
  {
    var e := RoundingExponent(d);
    if d.exponent < e {
      RoundNearest(d.coefficient, Pow10(e - d.exponent));
      assert Pow10(0) == 1;
    }
  }

  lemma FittingRoundsToItself(d: Decimal)
    requires d.Finite? && d.coefficient > 0 && FitsPrecision(d)
    ensures SameNumber(Rounded(d), d)
  {
    var e := RoundingExponent(d);
    if d.exponent < e {
      var q := RoundsToMultiple(d, e);
      assert Rounded(d) == Finite(d.negative, q, e);
      assert Pow10(0) == 1;
    }
  }

  lemma {:induction false} RoundsToMultiple(d: Decimal, e: int) returns (q: nat)
    requires d.Finite? && d.coefficient > 0 && d.exponent <= e <= StripZeros(d).exponent
    ensures d.coefficient == q * Pow10(e - d.exponent)
    ensures RoundHalfEven(d.coefficient, Pow10(e - d.exponent)) == q
  {
    var r := StripZeros(d);
    StripZerosExact(d);
    var k := e - d.exponent;
    Pow10Add(r.exponent - e, k);
    q := r.coefficient * Pow10(r.exponent - e);
    MulAssociates(r.coefficient, Pow10(r.exponent - e), Pow10(k));
    RoundExact(q, Pow10(k));
  }

  /** Numbers within the precision are printed exactly. */
  lemma FittingTextIsExact(d: Decimal)
    requires d.Finite? && FitsPrecision(d) && DecimalText(d).Ok?
    ensures var back := Read(DecimalText(d).value);
      back.Some? && back.value.Finite? && SameNumber(back.value, d)
  {
    if d.coefficient == 0 {
      ZeroText(false);
      FixedPointReads(Finite(false, 0, 0));
    } else {
      TextIsRounded(d);
      FittingRoundsToItself(d);
      SameNumberTransitive(Read(DecimalText(d).value).value, Rounded(d), d);
    }
  }

  /** Within the precision, two numbers share a decimal string exactly when they are equal. */
  lemma SameTextIffSameNumber(a: Decimal, b: Decimal)
    requires a.Finite? && b.Finite? && FitsPrecision(a) && FitsPrecision(b)
    requires DecimalText(a).Ok? && DecimalText(b).Ok?
    ensures DecimalText(a) == DecimalText(b) <==> SameNumber(a, b)
  {
    if DecimalText(a) == DecimalText(b) {
      FittingTextIsExact(a);
      FittingTextIsExact(b);
      var back := Read(DecimalText(a).value).value;
      SameNumberTransitive(back, a, a);
      SameNumberTransitive(a, back, b);
    } else if SameNumber(a, b) {
      SameNumberSameText(a, b);
    }
  }

  // ---- what is read, and the documented examples ----

  /** An exponent is read as its digits, negative only behind a minus. */
  lemma ExponentIs(letter: char, sign: string, digits: string)
    requires (letter == 'e' || letter == 'E') && (sign == "" || sign == "+" || sign == "-") && digits != "" && AllDigits(digits)
    ensures ParseExponent([letter] + sign + digits) == Some(if sign == "-" then 0 - Value(digits) else Value(digits))
  {
    var s := [letter] + sign + digits;
    if sign == "" {
      assert s[1..] == digits && IsDigit(s[1]);
    } else {
      assert s[2..] == digits && s[1] == sign[0];
    }
  }

  lemma {:induction false} FractionIs(b: string, rest: string)
    requires AllDigits(b) && (rest == "" || !IsDigit(rest[0]))
    ensures ParseFraction(("." + b) + rest) == (b, rest)
  {
    var s := ("." + b) + rest;
    assert s[1..] == b + rest;
    PrefixStops(b, rest);
    assert s[1..][..|b|] == b && s[1..][|b|..] == rest;
  }

  lemma {:induction false} UnsignedParts(negative: bool, s: string, b: string, exponent: string, e: int, digits: string)
    requires ParseFraction(s[Prefix(s)..]) == (b, exponent) && ParseExponent(exponent) == Some(e)
    requires digits == s[..Prefix(s)] + b && digits != "" && AllDigits(digits)
    ensures ParseUnsigned(negative, s) == Some(Finite(negative, Value(digits), e - |b|))
  {}

  lemma JoinedDigits(a: string, b: string)
    requires AllDigits(a) && AllDigits(b)
    ensures AllDigits(a + b)
  {}

  lemma {:induction false} UnsignedIs(negative: bool, a: string, rest: string, b: string, exponent: string, e: int)
    requires AllDigits(a) && a != "" && (rest == "" || !IsDigit(rest[0]))
    requires ParseFraction(rest) == (b, exponent) && ParseExponent(exponent) == Some(e)
    ensures AllDigits(a + b) && ParseUnsigned(negative, a + rest) == Some(Finite(negative, Value(a + b), e - |b|))
  {
    PrefixStops(a, rest);
    CutAt(a, rest);
    JoinedDigits(a, b);
    UnsignedParts(negative, a + rest, b, exponent, e, a + b);
  }

  lemma CutAt<T>(a: seq<T>, b: seq<T>)
    ensures (a + b)[..|a|] == a && (a + b)[|a|..] == b
  {}

  /** A number with an exponent is read as what it says: the digits of both parts, scaled down by the length of the fraction and
      up or down by the exponent. */
  lemma {:induction false} PointedExponent(negative: bool, a: string, b: string, exponent: string, e: int)
    requires AllDigits(a) && AllDigits(b) && a != "" && exponent != "" && !IsDigit(exponent[0]) && ParseExponent(exponent) == Some(e)
    ensures ParseUnsigned(negative, a + (("." + b) + exponent)) == Some(Finite(negative, Value(a + b), e - |b|))
  {
    FractionIs(b, exponent);
    var rest := ("." + b) + exponent;
    assert rest[0] == '.';
    UnsignedIs(negative, a, rest, b, exponent, e);
  }

  /** The thresholds of the context: a number in lowest terms is kept exactly when it has at most 28 digits, none below the
      1000026th place; and one that is kept is refused exactly when it reaches ten to the millionth. */
  lemma {:induction false} ContextIs(d: Decimal)
    requires d.Finite? && d.coefficient % 10 != 0
    ensures FitsPrecision(d) <==> Length(d.coefficient) <= 28 && d.exponent >= -1000026
    ensures FitsPrecision(d) ==> (DecimalText(d).Refused? <==> Length(d.coefficient) + d.exponent > 1000000)
  {
    OutputShape(d);
  }
}
