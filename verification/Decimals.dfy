/** Exact decimals as Python's `Decimal.as_tuple` shows them: a sign, a coefficient written as
    digits, and a power of ten. 64, 64.0 and 6.4e1 are three different decimals of one value. */
module Decimals {
  import opened Text

  type Digit = d: nat | d < 10

  datatype Triple = Triple(negative: bool, digits: seq<Digit>, exponent: int)

  predicate NoLeadingZero(digits: seq<Digit>) {
    |digits| > 0 && (digits[0] == 0 ==> |digits| == 1)
  }

  // The constructor drops leading zeros, so only zero itself starts with the digit 0.
  type Decimal = t: Triple | NoLeadingZero(t.digits) witness Triple(false, [0], 0)

  function Coefficient(digits: seq<Digit>): nat {
    if digits == [] then 0
    else Coefficient(digits[..|digits| - 1]) * 10 + digits[|digits| - 1]
  }

  // x times the e-th power of ten.
  function Shift(x: real, e: int): real
    decreases if e < 0 then -e else e
  {
    if e == 0 then x else if e > 0 then 10.0 * Shift(x, e - 1) else Shift(x, e + 1) / 10.0
  }

  function Magnitude(digits: seq<Digit>, exponent: int): real {
    Shift(Coefficient(digits) as real, exponent)
  }

  // The number a decimal denotes; Python compares decimals by it.
  function Value(d: Decimal): real {
    if d.negative then -Magnitude(d.digits, d.exponent) else Magnitude(d.digits, d.exponent)
  }

  // `value == value.to_integral_value()`
  predicate Integral(d: Decimal) {
    Value(d).Floor as real == Value(d)
  }

  function Strip(digits: seq<Digit>, exponent: int): (seq<Digit>, int)
    decreases |digits|
  {
    if digits != [] && digits[|digits| - 1] == 0 then Strip(digits[..|digits| - 1], exponent + 1)
    else (digits, exponent)
  }

  function DigitText(digits: seq<Digit>): (t: string)
    ensures |t| == |digits|
    ensures forall i :: 0 <= i < |t| ==> t[i] == DigitChar(digits[i])
  {
    seq(|digits|, i requires 0 <= i < |digits| => DigitChar(digits[i]))
  }

  function KeyText(negative: bool, digits: seq<Digit>, exponent: int): string {
    [if negative then '1' else '0'] + ":" + (DigitText(digits) + ":" + IntText(exponent))
  }

  function NumberKey(d: Decimal): string {
    if Value(d) == 0.0 then "0"
    else var (digits, exponent) := Strip(d.digits, d.exponent);
         KeyText(d.negative, digits, exponent)
  }

  /** `number_key` as the source writes it: pop trailing zero digits, bump the exponent. */
  method ComputeNumberKey(d: Decimal) returns (key: string)
    ensures key == NumberKey(d)
  {
    if Value(d) == 0.0 {
      return "0";
    }
    var digits, exponent := d.digits, d.exponent;
    while digits != [] && digits[|digits| - 1] == 0
      invariant Strip(digits, exponent) == Strip(d.digits, d.exponent)
      decreases |digits|
    {
      digits, exponent := digits[..|digits| - 1], exponent + 1;
    }
    key := KeyText(d.negative, digits, exponent);
  }

  lemma {:induction false} ShiftTen(x: real, e: int)
    ensures Shift(10.0 * x, e) == Shift(x, e + 1)
    decreases if e < 0 then -e else e
  {
    if e > 0 {
      ShiftTen(x, e - 1);
    } else if e < -1 {
      ShiftTen(x, e + 1);
    } else if e == -1 {
      assert Shift(10.0 * x, -1) == Shift(10.0 * x, 0) / 10.0;
    }
  }

  lemma {:induction false} ShiftInjective(x: real, y: real, e: int)
    requires Shift(x, e) == Shift(y, e)
    ensures x == y
    decreases if e < 0 then -e else e
  {
    if e > 0 {
      ShiftInjective(x, y, e - 1);
    } else if e < 0 {
      ShiftInjective(x, y, e + 1);
    }
  }

  lemma {:induction false} ShiftSign(x: real, e: int)
    ensures x == 0.0 <==> Shift(x, e) == 0.0
    ensures x > 0.0 <==> Shift(x, e) > 0.0
    decreases if e < 0 then -e else e
  {
    if e > 0 {
      ShiftSign(x, e - 1);
    } else if e < 0 {
      ShiftSign(x, e + 1);
    }
  }

  lemma {:induction false} StripKeepsMagnitude(digits: seq<Digit>, exponent: int)
    ensures var (s, e) := Strip(digits, exponent); Magnitude(s, e) == Magnitude(digits, exponent)
    decreases |digits|
  {
    if digits != [] && digits[|digits| - 1] == 0 {
      var front := digits[..|digits| - 1];
      StripKeepsMagnitude(front, exponent + 1);
      ShiftTen(Coefficient(front) as real, exponent);
      assert Coefficient(digits) as real == 10.0 * Coefficient(front) as real;
    }
  }

  lemma {:induction false} StripShape(digits: seq<Digit>, exponent: int)
    ensures var (s, e) := Strip(digits, exponent);
      s <= digits && (s != [] ==> s[|s| - 1] != 0)
    decreases |digits|
  {
    if digits != [] && digits[|digits| - 1] == 0 {
      StripShape(digits[..|digits| - 1], exponent + 1);
    }
  }

  function TenTimes(c: nat, k: nat): nat {
    if k == 0 then c else 10 * TenTimes(c, k - 1)
  }

  lemma {:induction false} ShiftUp(c: nat, e: int, k: nat)
    ensures Shift(c as real, e + k) == Shift(TenTimes(c, k) as real, e)
    decreases k
  {
    if k > 0 {
      ShiftUp(c, e + 1, k - 1);
      ShiftTen(TenTimes(c, k - 1) as real, e);
      assert TenTimes(c, k) as real == 10.0 * TenTimes(c, k - 1) as real;
    }
  }

  lemma {:induction false} CoefficientPositive(digits: seq<Digit>)
    requires digits != [] && digits[0] != 0
    ensures Coefficient(digits) > 0
    decreases |digits|
  {
    if |digits| > 1 {
      CoefficientPositive(digits[..|digits| - 1]);
    }
  }

  // Without leading zeros the digits are determined by the coefficient.
  lemma {:induction false} CoefficientInjective(a: seq<Digit>, b: seq<Digit>)
    requires a != [] ==> a[0] != 0
    requires b != [] ==> b[0] != 0
    requires Coefficient(a) == Coefficient(b)
    ensures a == b
    decreases |a|
  {
    if a == [] || b == [] {
      if a != [] { CoefficientPositive(a); }
      if b != [] { CoefficientPositive(b); }
    } else {
      var a', b' := a[..|a| - 1], b[..|b| - 1];
      assert Coefficient(a') == Coefficient(b');
      CoefficientInjective(a', b');
      assert a == a' + [a[|a| - 1]] && b == b' + [b[|b| - 1]];
    }
  }

  // Magnitudes agree across a gap of k powers of ten only if the gap is empty.
  lemma {:induction false} NoSpareTen(a: seq<Digit>, e: int, b: seq<Digit>, k: nat)
    requires a != [] && a[|a| - 1] != 0
    requires Magnitude(a, e) == Magnitude(b, e + k)
    ensures k == 0
  {
    ShiftUp(Coefficient(b), e, k);
    ShiftInjective(Coefficient(a) as real, TenTimes(Coefficient(b), k) as real, e);
    assert Coefficient(a) % 10 == a[|a| - 1];
  }

  lemma {:induction false} SameMagnitude(a: seq<Digit>, e: int, b: seq<Digit>, f: int)
    requires a != [] && a[0] != 0 && a[|a| - 1] != 0
    requires b != [] && b[0] != 0 && b[|b| - 1] != 0
    requires Magnitude(a, e) == Magnitude(b, f)
    ensures a == b && e == f
  {
    if e <= f {
      NoSpareTen(a, e, b, f - e);
    } else {
      NoSpareTen(b, f, a, e - f);
    }
    ShiftInjective(Coefficient(a) as real, Coefficient(b) as real, e);
    CoefficientInjective(a, b);
  }

  lemma {:induction false} KeyTextInjective(n: bool, a: seq<Digit>, e: int, m: bool, b: seq<Digit>, f: int)
    requires KeyText(n, a, e) == KeyText(m, b, f)
    ensures n == m && a == b && e == f
  {
    var s, t := KeyText(n, a, e), KeyText(m, b, f);
    assert s[0] == t[0];
    var x, y := DigitText(a) + ":" + IntText(e), DigitText(b) + ":" + IntText(f);
    assert s[2..] == x && t[2..] == y;
    SplitUnique(DigitText(a), IntText(e), DigitText(b), IntText(f), ':');
    forall i | 0 <= i < |a| ensures a[i] == b[i] {
      assert DigitText(a)[i] == DigitText(b)[i];
    }
    IntTextInjective(e, f);
  }

  lemma {:induction false} NonZeroStripped(d: Decimal)
    requires Value(d) != 0.0
    ensures var (s, e) := Strip(d.digits, d.exponent);
      s != [] && s[0] != 0 && s[|s| - 1] != 0 && Magnitude(s, e) == Magnitude(d.digits, d.exponent)
  {
    var (s, e) := Strip(d.digits, d.exponent);
    StripKeepsMagnitude(d.digits, d.exponent);
    StripShape(d.digits, d.exponent);
    ShiftSign(Coefficient(s) as real, e);
    ShiftSign(Coefficient(d.digits) as real, d.exponent);
  }

  /** Two decimals share a key exactly when they are numerically equal: any coefficient, any
      trailing zeros, any exponent, and either sign of zero. */
  lemma {:induction false} NumberKeyExact(a: Decimal, b: Decimal)
    ensures NumberKey(a) == NumberKey(b) <==> Value(a) == Value(b)
  {
    if Value(a) != 0.0 && Value(b) != 0.0 {
      NonZeroStripped(a);
      NonZeroStripped(b);
      ShiftSign(Coefficient(a.digits) as real, a.exponent);
      ShiftSign(Coefficient(b.digits) as real, b.exponent);
      var (s, e) := Strip(a.digits, a.exponent);
      var (t, f) := Strip(b.digits, b.exponent);
      if Value(a) == Value(b) {
        SameMagnitude(s, e, t, f);
      }
      if NumberKey(a) == NumberKey(b) {
        KeyTextInjective(a.negative, s, e, b.negative, t, f);
      }
    }
  }

  /** A decimal is an integer exactly when it is zero or needs no negative power of ten once its
      trailing zeros are stripped. */
  lemma {:induction false} IntegralExact(d: Decimal)
    ensures Integral(d) <==> Value(d) == 0.0 || Strip(d.digits, d.exponent).1 >= 0
  {
    if Value(d) != 0.0 {
      NonZeroStripped(d);
      var (s, e) := Strip(d.digits, d.exponent);
      var c := Coefficient(s);
      if e >= 0 {
        ShiftUp(c, 0, e);
        IntegralSign(d, TenTimes(c, e));
      } else if Integral(d) {
        var whole := if d.negative then -Value(d).Floor else Value(d).Floor;
        ShiftSign(c as real, e);
        ShiftUp(whole, e, -e);
        assert c % 10 == s[|s| - 1];
        ShiftInjective(c as real, TenTimes(whole, -e) as real, e);
      }
    }
  }

  lemma IntegralSign(d: Decimal, n: nat)
    requires Magnitude(d.digits, d.exponent) == n as real
    ensures Integral(d)
  {
    assert Value(d) == if d.negative then (-(n as int)) as real else n as real;
  }

  lemma {:induction false} DigitsRead(digits: seq<Digit>)
    ensures ReadNat(DigitText(digits)) == Coefficient(digits)
    decreases |digits|
  {
    if digits != [] {
      var front := digits[..|digits| - 1];
      DigitsRead(front);
      assert DigitText(digits)[..|digits| - 1] == DigitText(front);
    }
  }

  /** A key spells its number: the sign digit, the digits without zeros at either end, and the power of ten
      that scales them to the number's magnitude. Zero is spelled "0". */
  lemma {:induction false} KeyReads(d: Decimal) returns (digits: string, exponent: int)
    ensures Value(d) == 0.0 ==> NumberKey(d) == "0"
    ensures Value(d) != 0.0 ==>
      NumberKey(d) == (if Value(d) < 0.0 then "1:" else "0:") + (digits + ":" + IntText(exponent))
      && digits != "" && digits[0] != '0' && digits[|digits| - 1] != '0'
      && (forall i :: 0 <= i < |digits| ==> '0' <= digits[i] <= '9')
      && Shift(ReadNat(digits) as real, exponent) == if Value(d) < 0.0 then -Value(d) else Value(d)
  {
    digits, exponent := "", 0;
    if Value(d) != 0.0 {
      NonZeroStripped(d);
      var (s, e) := Strip(d.digits, d.exponent);
      digits, exponent := DigitText(s), e;
      DigitsRead(s);
      CoefficientPositive(s);
      ShiftSign(Coefficient(s) as real, e);
    }
  }

  // Decimal(n) of a Python int: the exact digits, exponent zero.
  function DigitsOf(n: nat): (r: seq<Digit>)
    ensures NoLeadingZero(r) && Coefficient(r) == n
  {
    if n < 10 then [n] else
      var front := DigitsOf(n / 10);
      assert (front + [n % 10])[..|front|] == front;
      front + [n % 10]
  }

  function OfNat(n: nat): (d: Decimal)
    ensures Value(d) == n as real
  {
    Triple(false, DigitsOf(n), 0)
  }

  function OfInt(n: int): (d: Decimal)
    ensures Value(d) == n as real
  {
    if n < 0 then Triple(true, DigitsOf(-n), 0) else OfNat(n)
  }
}
