/** The comparison by which `meanings_text` (`common/src/snmp.rs`) sorts the keys
    of the meanings it prints. */
module SnmpMeanings {
  import opened Wrappers
  import opened Decimals
  import opened Orders

  const I64: nat := 0x8000_0000_0000_0000

  /** `parse::<i64>()`. */
  function ParseSigned(text: string): Option<int> {
    if text != "" && text[0] == '-' then
      var digits := text[1..];
      if digits == "" || !AllDigits(digits) || NumberOf(digits) > I64 then None else Some(-(NumberOf(digits) as int))
    else
      match ParseUnsigned(text, I64)
      case None => None
      case Some(n) => Some(n)
  }

  /** Numbers by size; as soon as one of two keys isn't a number, as texts. */
  function CompareKeys(a: string, b: string): Ordering {
    match (ParseSigned(a), ParseSigned(b))
    case (Some(m), Some(n)) => CompareNumbers(m, n)
    case _ => CompareTexts(a, b)
  }

  /** The comparison isn't an order: `10` comes before `1x`, that before `9`, and `9`
      before `10`. */
  lemma NotAnOrder()
    ensures CompareKeys("10", "1x") == Less
    ensures CompareKeys("1x", "9") == Less
    ensures CompareKeys("9", "10") == Less
  {
    Reads("10", 10);
    Reads("9", 9);
    hide ParseSigned;
    assert "10"[1..] == "0" && "1x"[1..] == "x";
  }

  /** The comparison is an order of these keys: of any two, one comes first or they
      are equal, and it is transitive. */
  ghost predicate OrdersKeys(keys: set<string>) {
    && (forall a, b :: a in keys && b in keys ==> CompareKeys(a, b) == CompareKeys(b, a).Reverse())
    && (forall a, b, c :: a in keys && b in keys && c in keys && InOrder(a, b) && InOrder(b, c) ==> InOrder(a, c))
  }

  predicate InOrder(a: string, b: string) {
    CompareKeys(a, b) != Greater
  }

  /** `t`, no number, stands as a text after the larger of two numbers and before
      the smaller one. */
  predicate Between(x: string, t: string, y: string) {
    && ParseSigned(x).Some? && ParseSigned(y).Some? && ParseSigned(t).None?
    && ParseSigned(x).value <= ParseSigned(y).value
    && CompareTexts(y, t) == Less && CompareTexts(t, x) == Less
  }

  lemma KeysAreOrdered(a: string, b: string)
    ensures CompareKeys(a, b) == CompareKeys(b, a).Reverse()
  {
    hide ParseSigned, CompareTexts;
    TextsAreOrdered(a, b);
  }

  /** Where three keys go in a circle, one of them stands so between the others. */
  lemma CircleHasBetween(a: string, b: string, c: string)
    requires InOrder(a, b) && InOrder(b, c) && !InOrder(a, c)
    ensures Between(a, c, b) || Between(b, a, c) || Between(c, b, a)
  {
    hide ParseSigned, CompareTexts;
    TextsAreOrdered(a, b);
    TextsAreOrdered(b, c);
    TextsAreOrdered(c, a);
    if CompareTexts(a, b) != Greater && CompareTexts(b, c) != Greater {
      TextsAreTransitive(a, b, c);
    }
    if CompareTexts(a, b) == Less && CompareTexts(c, a) == Less {
      TextsAreTransitive(c, a, b);
    }
    if CompareTexts(c, a) == Less && CompareTexts(b, c) == Less {
      TextsAreTransitive(b, c, a);
    }
  }

  /** The comparison is an order of some keys exactly when no key that isn't a
      number stands, as a text, after one number and before another that isn't
      larger. */
  lemma OrdersExactly(keys: set<string>)
    ensures OrdersKeys(keys) <==>
              forall x, t, y :: x in keys && t in keys && y in keys ==> !Between(x, t, y)
  {
    hide ParseSigned, CompareTexts;
    forall a, b | a in keys && b in keys ensures CompareKeys(a, b) == CompareKeys(b, a).Reverse() {
      KeysAreOrdered(a, b);
    }
    if x, t, y :| x in keys && t in keys && y in keys && Between(x, t, y) {
      BetweenIsCircle(x, t, y);
    } else {
      forall a, b, c | a in keys && b in keys && c in keys && InOrder(a, b) && InOrder(b, c) ensures InOrder(a, c) {
        if !InOrder(a, c) {
          CircleHasBetween(a, b, c);
        }
      }
    }
  }

  lemma BetweenIsCircle(x: string, t: string, y: string)
    requires Between(x, t, y)
    ensures InOrder(x, y) && InOrder(y, t) && !InOrder(x, t)
  {
    hide ParseSigned, CompareTexts;
    TextsAreOrdered(x, t);
  }

  lemma Reads(text: string, n: nat)
    requires (text == "10" && n == 10) || (text == "9" && n == 9)
    ensures ParseSigned(text) == Some(n)
  {
    if text == "10" {
      assert text[..1] == "1" && text[..1][..0] == "";
      assert NumberOf("1") == 1;
    } else {
      assert text[..0] == "";
    }
  }

  predicate IsNumeral(text: string) {
    text != "" && AllDigits(text)
  }

  /** A key is a number exactly when it is digits, after a plus or a minus if there is
      one, for a number from -2^63 to 2^63 - 1. */
  lemma NumbersExactly(text: string)
    ensures IsNumeral(text) ==>
              ParseSigned(text) == if NumberOf(text) <= 9_223_372_036_854_775_807 then Some(NumberOf(text)) else None
    ensures text != "" && text[0] == '+' ==>
              ParseSigned(text) == if IsNumeral(text[1..]) then ParseSigned(text[1..]) else None
    ensures text != "" && text[0] == '-' ==>
              ParseSigned(text) ==
                if !IsNumeral(text[1..]) || NumberOf(text[1..]) > 9_223_372_036_854_775_808 then None
                else Some(-(NumberOf(text[1..]) as int))
    ensures !IsNumeral(text) && (text == "" || text[0] !in "+-") ==> ParseSigned(text) == None
  {
    hide NumberOf;
    assert IsNumeral(text) ==> IsDigit(text[0]);
    assert text != "" && IsNumeral(text[1..]) ==> IsDigit(text[1]);
  }
}
