/** The table in the documentation of `decimal_string` (runtime_contracts/canonical.py), row by row. */
module DecimalTable {
  import opened Wrappers
  import opened Digits
  import opened Decimals

  ghost predicate PlainNumber(s: string) {
    s != "" && forall i :: 0 <= i < |s| ==> IsDigit(s[i]) || s[i] == '+' || s[i] == '-' || s[i] == '.' || s[i] == 'e'
  }

  lemma {:induction false} PlainRead(s: string)
    requires PlainNumber(s)
    ensures Read(s) == if s[|s| - 1] == '.' || s[0] == '.' then None else Parse(s)
  {
    assert StripLeft(s) == s && StripRight(s) == s;
    DropUnderscoresClean(s);
  }

  // ---- reading ----

  lemma {:induction false} PlainParts(a: string, b: string)
    requires PlainNumber(a) && PlainNumber(b)
    ensures PlainNumber(a + b) && (a + b)[0] == a[0] && (a + b)[|a + b| - 1] == b[|b| - 1]
  {}

  lemma {:induction false} DigitsPlain(a: string)
    requires AllDigits(a) && a != ""
    ensures PlainNumber(a)
  {}

  lemma {:induction false} UnsignedRead(t: string)
    requires PlainNumber(t) && IsDigit(t[0]) && IsDigit(t[|t| - 1])
    ensures Read(t) == ParseUnsigned(false, t)
  {
    PlainRead(t);
  }

  lemma {:induction false} SignedRead(sign: char, t: string)
    requires PlainNumber(t) && IsDigit(t[|t| - 1]) && (sign == '-' || sign == '+')
    ensures Read([sign] + t) == ParseUnsigned(sign == '-', t)
  {
    PlainParts([sign], t);
    PlainRead([sign] + t);
    assert ([sign] + t)[1..] == t;
  }

  lemma {:induction false} WholeRead(negative: bool, a: string)
    requires AllDigits(a) && a != ""
    ensures ParseUnsigned(negative, a) == Some(Finite(negative, Value(a), 0))
  {
    ParsePointed(negative, a, "");
    assert a + "" == a;
  }

  lemma {:induction false} PointPlain(a: string, b: string)
    requires AllDigits(a) && AllDigits(b) && a != "" && b != ""
    ensures PlainNumber(a + ("." + b)) && IsDigit((a + ("." + b))[0]) && IsDigit((a + ("." + b))[|a + ("." + b)| - 1])
  {
    DigitsPlain(a);
    DigitsPlain(b);
    PlainParts(".", b);
    PlainParts(a, "." + b);
  }

  // ---- the texts ----

  /** A number in lowest terms that the context keeps is written as it is. */
  lemma {:induction false} KeptText(d: Decimal)
    requires Reduced(d) && d.coefficient > 0 && WithinContext(d)
    ensures DecimalText(d) == Ok(FixedPoint(d))
  {
    NormalizeFixed(d);
    ReducedShape(d);
  }

  lemma {:induction false} WholeText(n: nat)
    requires 0 < n < 10
    ensures DecimalText(Finite(false, n, 0)) == Ok([DigitChar(n)])
  {
    KeptText(Finite(false, n, 0));
    assert NatText(n) + Zeros(0) == NatText(n);
  }

  lemma {:induction false} ThousandthText()
    ensures DecimalText(Finite(false, 1, -3)) == Ok("0.001")
  {
    KeptText(Finite(false, 1, -3));
    assert NatText(1) == "1" && Zeros(2) == ['0', '0'] && Zeros(2) + "1" == "001";
    assert Pointed(("0", "001")) == "0.001";
  }

  lemma {:induction false} DigitValues()
    ensures Value("") == 0 && Value("0") == 0 && Value("1") == 1 && Value("3") == 3
  {
    assert "0"[..0] == "" && "1"[..0] == "" && "3"[..0] == "";
  }

  lemma NextDigit(front: string, c: char)
    requires AllDigits(front) && IsDigit(c)
    ensures Value(front + [c]) == Value(front) * 10 + DigitOf(c)
  {
    assert (front + [c])[..|front|] == front;
  }

  // ---- the rows ----

  /** A leading plus is removed: "+1" is "1". */
  lemma {:induction false} PlusDropped(a: string)
    requires AllDigits(a) && a != ""
    ensures DecimalString("+" + a) == DecimalString(a)
  {
    DigitsPlain(a);
    UnsignedRead(a);
    SignedRead('+', a);
    assert "+" + a == ['+'] + a;
  }

  /** Leading zeros are removed: "007" is "7". */
  lemma {:induction false} LeadingZeroDropped(a: string)
    requires AllDigits(a) && a != ""
    ensures DecimalString("0" + a) == DecimalString(a)
  {
    assert Zeros(1) == "0";
    ZerosOnTheLeft(a, 1);
    DigitsPlain(a);
    DigitsPlain("0" + a);
    UnsignedRead(a);
    UnsignedRead("0" + a);
    WholeRead(false, a);
    WholeRead(false, "0" + a);
  }

  lemma {:induction false} PointText(a: string, b: string)
    requires AllDigits(a) && AllDigits(b) && a != "" && b != ""
    ensures DecimalString(a + ("." + b)) == DecimalText(Finite(false, Value(a + b), 0 - |b|))
  {
    PointPlain(a, b);
    UnsignedRead(a + ("." + b));
    ParsePointed(false, a, b);
  }

  lemma {:induction false} WholeString(a: string)
    requires AllDigits(a) && a != ""
    ensures DecimalString(a) == DecimalText(Finite(false, Value(a), 0))
  {
    DigitsPlain(a);
    UnsignedRead(a);
    WholeRead(false, a);
  }

  lemma {:induction false} TenfoldText(c: nat, k: nat)
    ensures DecimalText(Finite(false, c * 10, 0 - (k + 1))) == DecimalText(Finite(false, c, 0 - k))
  {
    assert Pow10(0) == 1 && Pow10(1) == 10;
    SameNumberSameText(Finite(false, c * 10, 0 - (k + 1)), Finite(false, c, 0 - k));
  }

  /** Trailing zeros of a fraction are removed: "1.500" is "1.50" is "1.5". */
  lemma {:induction false} TrailingZeroDropped(a: string, b: string)
    requires AllDigits(a) && AllDigits(b) && a != "" && b != ""
    ensures DecimalString(a + ("." + (b + "0"))) == DecimalString(a + ("." + b))
  {
    PointText(a, b);
    PointText(a, b + "0");
    assert a + (b + "0") == (a + b) + ['0'];
    NextDigit(a + b, '0');
    TenfoldText(Value(a + b), |b|);
  }

  /** ... to the last one: "1.0" is "1". */
  lemma {:induction false} EmptyFractionDropped(a: string)
    requires AllDigits(a) && a != ""
    ensures DecimalString(a + ("." + "0")) == DecimalString(a)
  {
    PointText(a, "0");
    WholeString(a);
    assert a + "0" == a + ['0'];
    NextDigit(a, '0');
    TenfoldText(Value(a), 0);
  }

  /** Zero has no sign: "-0" and "-0.0" are "0". */
  lemma {:induction false} NoNegativeZero(b: string)
    requires AllDigits(b) && b != "" && Value(b) == 0
    ensures DecimalString("-" + b) == Ok("0")
  {
    DigitsPlain(b);
    SignedRead('-', b);
    WholeRead(true, b);
    assert "-" + b == ['-'] + b;
  }

  lemma {:induction false} NoNegativeZeroPoint(a: string, b: string)
    requires AllDigits(a) && AllDigits(b) && a != "" && b != "" && Value(a + b) == 0
    ensures DecimalString("-" + (a + ("." + b))) == Ok("0")
  {
    PointPlain(a, b);
    SignedRead('-', a + ("." + b));
    ParsePointed(true, a, b);
    assert "-" + (a + ("." + b)) == ['-'] + (a + ("." + b));
  }

  lemma {:induction false} ThousandthExponent()
    ensures ParseExponent("e-3") == Some(-3) && ParseFraction("e-3") == ("", "e-3")
  {
    DigitValues();
    ExponentIs('e', "-", "3");
    assert ['e'] + "-" + "3" == "e-3";
  }

  lemma {:induction false} ThousandthRead()
    ensures Read("1e-3") == Some(Finite(false, 1, -3))
  {
    ThousandthExponent();
    DigitValues();
    UnsignedIs(false, "1", "e-3", "", "e-3", -3);
    assert "1" + "" == "1" && "1" + "e-3" == "1e-3";
    UnsignedRead("1e-3");
  }

  /** An exponent is expanded: "1e-3" is "0.001". */
  lemma {:induction false} ExponentExpanded()
    ensures DecimalString("1e-3") == Ok("0.001")
  {
    ThousandthText();
    ThousandthRead();
  }

  /** "1." is refused, and so is any number with an empty integer or fraction part. */
  lemma {:induction false} EmptyPartRefused(s: string)
    requires PlainNumber(s) && (s[|s| - 1] == '.' || s[0] == '.')
    ensures DecimalString(s).Refused?
  {
    PlainRead(s);
  }
}
