/** The text operations of Rust's standard library that the sources use. */
module Text {
  import opened Wrappers

  /** `char::is_whitespace`: Unicode's White_Space. */
  predicate IsWhitespace(c: char) {
    var n := c as int;
    || 0x09 <= n <= 0x0D || n == 0x20 || n == 0x85 || n == 0xA0 || n == 0x1680
    || 0x2000 <= n <= 0x200A || n == 0x2028 || n == 0x2029 || n == 0x202F
    || n == 0x205F || n == 0x3000
  }

  function ToAsciiUppercase(c: char): char {
    if 'a' <= c <= 'z' then (c as int - 32) as char else c
  }

  function ToAsciiLowercase(c: char): char {
    if 'A' <= c <= 'Z' then (c as int + 32) as char else c
  }

  /** The index of the first `c` in `text`. */
  function Position(text: string, c: char): (i: Option<nat>)
    ensures i.Some? ==> i.value < |text| && text[i.value] == c && c !in text[..i.value]
    ensures i.None? ==> c !in text
  {
    if text == [] then None
    else if text[0] == c then Some(0)
    else
      match Position(text[1..], c)
      case None => None
      case Some(i) => Some(i + 1)
  }

  predicate EqIgnoreAsciiCase(a: string, b: string) {
    && |a| == |b|
    && forall i :: 0 <= i < |a| ==> ToAsciiLowercase(a[i]) == ToAsciiLowercase(b[i])
  }

  function TrimStart(text: string): (r: string)
    ensures r == [] || !IsWhitespace(r[0])
  {
    if text != [] && IsWhitespace(text[0]) then TrimStart(text[1..]) else text
  }

  function TrimEnd(text: string): (r: string)
    ensures r <= text
    ensures r == [] || !IsWhitespace(r[|r| - 1])
    decreases |text|
  {
    if text != [] && IsWhitespace(text[|text| - 1]) then TrimEnd(text[..|text| - 1]) else text
  }

  /** `str::trim`. */
  function Trim(text: string): string {
    TrimEnd(TrimStart(text))
  }

  /** A text with no white space at its ends stays as it is. */
  lemma TrimPlain(text: string)
    requires text != [] && !IsWhitespace(text[0]) && !IsWhitespace(text[|text| - 1])
    ensures Trim(text) == text
  {
  }

  ghost predicate AllWhitespace(text: string) {
    forall i :: 0 <= i < |text| ==> IsWhitespace(text[i])
  }

  lemma {:induction false} TrimStartDrops(before: string, text: string)
    requires AllWhitespace(before)
    requires text == [] || !IsWhitespace(text[0])
    ensures TrimStart(before + text) == text
  {
    if before == [] {
      assert before + text == text;
    } else {
      assert (before + text)[1..] == before[1..] + text;
      TrimStartDrops(before[1..], text);
    }
  }

  lemma {:induction false} TrimEndDrops(text: string, after: string)
    requires AllWhitespace(after)
    ensures TrimEnd(text + after) == TrimEnd(text)
    decreases |after|
  {
    if after == [] {
      assert text + after == text;
    } else {
      var n := |after| - 1;
      assert (text + after)[..|text| + n] == text + after[..n];
      TrimEndDrops(text, after[..n]);
    }
  }

  /** White space around a text that starts with none. */
  lemma TrimAround(before: string, text: string, after: string)
    requires AllWhitespace(before) && AllWhitespace(after)
    requires text != [] && !IsWhitespace(text[0])
    ensures Trim(before + text + after) == TrimEnd(text) == Trim(text)
  {
    assert before + text + after == before + (text + after);
    TrimStartDrops(before, text + after);
    TrimEndDrops(text, after);
  }

  /** What is trimmed from the end is white space. */
  lemma {:induction false} TrimEndCut(text: string)
    ensures AllWhitespace(text[|TrimEnd(text)|..])
    decreases |text|
  {
    if text != [] && IsWhitespace(text[|text| - 1]) {
      var n := |text| - 1;
      TrimEndCut(text[..n]);
      assert text[|TrimEnd(text)|..] == text[..n][|TrimEnd(text)|..] + [text[n]];
    }
  }

  /** Trimming the end keeps everything up to the last character that isn't
      white space. */
  lemma {:induction false} TrimEndKeeps(text: string, i: nat)
    requires i < |text| && !IsWhitespace(text[i])
    ensures i < |TrimEnd(text)|
    decreases |text|
  {
    if IsWhitespace(text[|text| - 1]) {
      TrimEndKeeps(text[..|text| - 1], i);
    }
  }
}
