/** Decimal digits: natural numbers as text, and powers of ten. */
module Digits {

  predicate IsDigit(c: char) {
    '0' <= c <= '9'
  }

  predicate AllDigits(s: string) {
    forall i :: 0 <= i < |s| ==> IsDigit(s[i])
  }

  function DigitChar(n: nat): (c: char)
    requires n < 10
    ensures IsDigit(c) && c as int - '0' as int == n
  {
    '0' + n as char
  }

  function DigitOf(c: char): (n: nat)
    requires IsDigit(c)
    ensures n < 10 && DigitChar(n) == c
  {
    c as int - '0' as int
  }

  /** The number a string of digits spells. */
  function Value(s: string): nat
    requires AllDigits(s)
  {
    if s == [] then 0 else Value(s[..|s| - 1]) * 10 + DigitOf(s[|s| - 1])
  }

  /** `str(n)`. */
  function NatText(n: nat): (s: string)
    ensures AllDigits(s) && s != []
    ensures Value(s) == n
    ensures s[0] == '0' <==> n == 0
    ensures |s| == Length(n)
  {
    if n < 10 then
      var s := [DigitChar(n)];
      assert s[..0] == [];
      assert Value(s[..0]) == 0;
      s
    else
      var front := NatText(n / 10);
      var s := front + [DigitChar(n % 10)];
      assert s[..|s| - 1] == front;
      s
  }

  /** How many digits `n` has. */
  function Length(n: nat): (k: nat)
    ensures k >= 1
  {
    if n < 10 then 1 else 1 + Length(n / 10)
  }

  function Pow10(k: nat): (p: nat)
    ensures p >= 1
    ensures k >= 1 ==> p % 10 == 0
  {
    if k == 0 then 1 else 10 * Pow10(k - 1)
  }

  lemma MulAssociates(a: int, b: int, c: int)
    ensures (a * b) * c == a * (b * c)
  {}

  lemma MulCancels(x: int, y: int, p: int)
    requires p > 0
    ensures x * p == y * p <==> x == y
  {
    assert (x - y) * p == x * p - y * p;
    assert x > y ==> (x - y) * p > 0;
    assert x < y ==> (x - y) * p < 0;
  }

  lemma MulKeepsOrder(x: int, y: int, p: int)
    requires p > 0
    ensures x * p <= y * p <==> x <= y
  {
    assert x * p - y * p == (x - y) * p;
  }

  lemma TenTimes(c: nat, k: nat)
    ensures 10 * (c * Pow10(k)) == c * Pow10(k + 1)
  {
    var p := Pow10(k);
    assert Pow10(k + 1) == 10 * p;
    assert 10 * (c * p) == c * (10 * p);
  }

  lemma {:induction false} Pow10Add(a: nat, b: nat)
    ensures Pow10(a + b) == Pow10(a) * Pow10(b)
  {
    if a > 0 {
      Pow10Add(a - 1, b);
      assert Pow10(a + b) == 10 * (Pow10(a - 1) * Pow10(b)) == (10 * Pow10(a - 1)) * Pow10(b);
    }
  }

  lemma {:induction false} Pow10Monotone(a: nat, b: nat)
    requires a <= b
    ensures Pow10(a) <= Pow10(b)
    decreases b
  {
    if a < b {
      Pow10Monotone(a, b - 1);
    }
  }

  /** `n` has `k` digits exactly when it lies between consecutive powers of ten. */
  lemma {:induction false} LengthBounds(n: nat)
    requires n > 0
    ensures Pow10(Length(n) - 1) <= n < Pow10(Length(n))
  {
    if n < 10 {
      assert Pow10(1) == 10 * Pow10(0);
    } else {
      LengthBounds(n / 10);
    }
  }

  lemma LengthAtMost(n: nat, k: nat)
    requires n > 0 && n < Pow10(k)
    ensures Length(n) <= k
  {
    LengthBounds(n);
    if Length(n) > k {
      Pow10Monotone(k, Length(n) - 1);
    }
  }

  function Zeros(k: nat): (s: string)
    ensures |s| == k && AllDigits(s) && forall i :: 0 <= i < k ==> s[i] == '0'
  {
    seq(k, i => '0')
  }

  lemma {:induction false} ZerosOnTheRight(s: string, k: nat)
    requires AllDigits(s)
    ensures Value(s + Zeros(k)) == Value(s) * Pow10(k)
  {
    var t := s + Zeros(k);
    if k == 0 {
      assert t == s;
    } else {
      assert t[..|t| - 1] == s + Zeros(k - 1);
      ZerosOnTheRight(s, k - 1);
    }
  }

  lemma {:induction false} ZerosOnTheLeft(s: string, k: nat)
    requires AllDigits(s)
    ensures Value(Zeros(k) + s) == Value(s)
  {
    var t := Zeros(k) + s;
    if s == [] {
      assert t == [] + Zeros(k);
      ZerosOnTheRight([], k);
    } else {
      assert t[..|t| - 1] == Zeros(k) + s[..|s| - 1];
      ZerosOnTheLeft(s[..|s| - 1], k);
    }
  }

  /** How many digits `s` starts with. */
  function Prefix(s: string): (n: nat)
    ensures n <= |s| && AllDigits(s[..n])
    ensures n < |s| ==> !IsDigit(s[n])
  {
    if s == [] || !IsDigit(s[0]) then 0
    else
      var n := Prefix(s[1..]);
      assert s[..n + 1] == [s[0]] + s[1..][..n];
      n + 1
  }

  lemma PrefixStops(a: string, b: string)
    requires AllDigits(a) && (b == [] || !IsDigit(b[0]))
    ensures Prefix(a + b) == |a|
  {
    var n := Prefix(a + b);
    assert forall i :: 0 <= i < |a| ==> (a + b)[i] == a[i];
    assert forall i :: 0 <= i < n ==> (a + b)[..n][i] == (a + b)[i];
    assert b != [] ==> (a + b)[|a|] == b[0];
  }

  /** Divide and round to nearest, ties to even. */
  function RoundHalfEven(n: nat, m: nat): nat
    requires m > 0
  {
    var q, r := n / m, n % m;
    if 2 * r > m || (2 * r == m && q % 2 == 1) then q + 1 else q
  }

  /** The rounded multiple is off by at most half a unit, and by exactly half only when it is even. */
  lemma RoundNearest(n: nat, m: nat)
    requires m > 0
    ensures var q: int := RoundHalfEven(n, m); 0 - m <= 2 * (n - q * m) <= m
    ensures var q: int := RoundHalfEven(n, m); 2 * (n - q * m) == m || 2 * (q * m - n) == m ==> q % 2 == 0
  {
    var q, r := n / m, n % m;
    assert n == q * m + r;
    assert (q + 1) * m == q * m + m;
  }

  lemma DivisionUnique(n: nat, m: nat, q: nat, r: nat)
    requires m > 0 && n == q * m + r && r < m
    ensures n / m == q && n % m == r
  {
    var d := n / m - q;
    assert n == (n / m) * m + n % m;
    assert d * m == r - n % m by {
      assert d * m == (n / m) * m - q * m;
    }
    assert d >= 1 ==> d * m >= m;
    assert d <= -1 ==> d * m <= -1 * m;
  }

  lemma RoundScales(n: nat, m: nat)
    requires m > 0
    ensures RoundHalfEven(10 * n, 10 * m) == RoundHalfEven(n, m)
  {
    var q, r := n / m, n % m;
    assert 10 * n == q * (10 * m) + 10 * r by {
      assert n == q * m + r;
    }
    DivisionUnique(10 * n, 10 * m, q, 10 * r);
  }

  lemma RoundExact(n: nat, m: nat)
    requires m > 0
    ensures RoundHalfEven(n * m, m) == n
  {
    DivisionUnique(n * m, m, n, 0);
  }

  /** Rounding is monotone. */
  lemma RoundMonotone(a: nat, b: nat, m: nat)
    requires m > 0 && a <= b
    ensures RoundHalfEven(a, m) <= RoundHalfEven(b, m)
  {
    var p, q := a / m, b / m;
    assert a == p * m + a % m && b == q * m + b % m;
    assert p > q ==> p * m >= (q + 1) * m;
    assert (q + 1) * m == q * m + m;
  }

  /** Of all the ways to spell a number, `str` is the shortest. */
  lemma {:induction false} NatTextShortest(digits: string)
    requires digits != [] && AllDigits(digits)
    ensures |NatText(Value(digits))| <= |digits|
    ensures |NatText(Value(digits))| == |digits| ==> NatText(Value(digits)) == digits
  {
    var n := |digits| - 1;
    var front, last := digits[..n], digits[n];
    assert digits == front + [last];
    if front == [] {
      assert Value(front) == 0;
    } else {
      NatTextShortest(front);
      var v := Value(digits);
      assert v / 10 == Value(front) && v % 10 == DigitOf(last);
    }
  }
}
