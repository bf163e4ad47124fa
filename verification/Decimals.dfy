/** Whole numbers in decimal, as Rust prints and parses them. */
module Decimals {
  import opened Wrappers

  predicate IsDigit(c: char) {
    '0' <= c <= '9'
  }

  predicate AllDigits(text: string) {
    forall i :: 0 <= i < |text| ==> IsDigit(text[i])
  }

  function DigitValue(c: char): (d: nat)
    requires IsDigit(c)
    ensures d < 10
  {
    c as int - '0' as int
  }

  function DigitChar(d: nat): (c: char)
    requires d < 10
    ensures IsDigit(c) && DigitValue(c) == d
  {
    ('0' as int + d) as char
  }

  /** The number some digits stand for. */
  function NumberOf(text: string): nat
    requires AllDigits(text)
    decreases |text|
  {
    if text == "" then 0
    else 10 * NumberOf(text[..|text| - 1]) + DigitValue(text[|text| - 1])
  }

  /** `to_string()` of an unsigned number. */
  function Decimal(n: nat): (text: string)
    ensures text != "" && AllDigits(text)
  {
    if n < 10 then [DigitChar(n)] else Decimal(n / 10) + [DigitChar(n % 10)]
  }

  /** Digits with no zero before others. */
  predicate Canonical(text: string) {
    text != "" && AllDigits(text) && (text[0] == '0' ==> |text| == 1)
  }

  /** `parse()` to an unsigned number below `bound`: digits, after a `+` if there
      is one. */
  function ParseUnsigned(text: string, bound: nat): (r: Option<nat>)
    ensures r.Some? ==> r.value < bound
  {
    var digits := if text != "" && text[0] == '+' then text[1..] else text;
    if digits == "" || !AllDigits(digits) || NumberOf(digits) >= bound then None
    else Some(NumberOf(digits))
  }

  lemma {:induction false} NumberOfDecimal(n: nat)
    ensures NumberOf(Decimal(n)) == n
  {
    if n >= 10 {
      var text := Decimal(n);
      assert text[..|text| - 1] == Decimal(n / 10);
      NumberOfDecimal(n / 10);
    } else {
      assert Decimal(n)[..0] == "";
    }
  }

  lemma {:induction false} DecimalIsCanonical(n: nat)
    ensures Canonical(Decimal(n))
    ensures Decimal(n)[0] == '0' <==> n == 0
  {
    if n >= 10 {
      DecimalIsCanonical(n / 10);
      assert Decimal(n)[0] == Decimal(n / 10)[0];
    }
  }

  function Pow10(k: nat): (p: nat)
    ensures p > 0
  {
    if k == 0 then 1 else 10 * Pow10(k - 1)
  }

  lemma {:induction false} NumberBound(text: string)
    requires AllDigits(text)
    ensures NumberOf(text) < Pow10(|text|)
    decreases |text|
  {
    if text != "" {
      NumberBound(text[..|text| - 1]);
    }
  }

  /** A canonical numeral of `k + 1` digits is at least `10^k`. */
  lemma {:induction false} CanonicalBound(text: string)
    requires Canonical(text) && text != "0"
    ensures NumberOf(text) >= Pow10(|text| - 1)
    decreases |text|
  {
    var init := text[..|text| - 1];
    if |text| == 1 {
      assert text == [text[0]];
      assert NumberOf(init) == 0;
    } else {
      assert init[0] == text[0];
      CanonicalBound(init);
    }
  }

  lemma {:induction false} Pow10Monotone(a: nat, b: nat)
    requires a <= b
    ensures Pow10(a) <= Pow10(b)
  {
    if a < b {
      Pow10Monotone(a, b - 1);
    }
  }

  /** The longer canonical numeral is the larger number. */
  lemma LongerIsLarger(a: string, b: string)
    requires Canonical(a) && Canonical(b) && |a| < |b|
    ensures NumberOf(a) < NumberOf(b)
  {
    NumberBound(a);
    CanonicalBound(b);
    Pow10Monotone(|a|, |b| - 1);
  }

  /** Canonical numerals are told apart by their numbers. */
  lemma {:induction false} SameNumeral(a: string, b: string)
    requires AllDigits(a) && AllDigits(b) && |a| == |b| && NumberOf(a) == NumberOf(b)
    ensures a == b
    decreases |a|
  {
    if a != "" {
      var n := |a| - 1;
      SameNumeral(a[..n], b[..n]);
      assert a == a[..n] + [a[n]] && b == b[..n] + [b[n]];
    }
  }

  lemma CanonicalIsDecimal(text: string)
    requires Canonical(text)
    ensures Decimal(NumberOf(text)) == text
  {
    var d := Decimal(NumberOf(text));
    NumberOfDecimal(NumberOf(text));
    DecimalIsCanonical(NumberOf(text));
    if |d| < |text| {
      LongerIsLarger(d, text);
    } else if |text| < |d| {
      LongerIsLarger(text, d);
    }
    SameNumeral(text, d);
  }

  /** Printing then parsing gives the number back. */
  lemma ParseDecimal(n: nat, bound: nat)
    requires n < bound
    ensures ParseUnsigned(Decimal(n), bound) == Some(n)
  {
    NumberOfDecimal(n);
    assert IsDigit(Decimal(n)[0]);
  }
}
