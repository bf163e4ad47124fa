/** Splitting and joining texts as Rust's standard library does. */
module Splitting {
  import opened Wrappers
  import opened Sequences
  import opened Text

  /** `split_once(c)`. */
  function SplitOnce(text: string, c: char): (r: Option<(string, string)>)
    ensures r.None? <==> c !in text
    ensures r.Some? ==> text == r.value.0 + [c] + r.value.1 && c !in r.value.0
  {
    match Position(text, c)
    case None => None
    case Some(i) => Some((text[..i], text[i + 1..]))
  }

  /** `split(c)`. */
  function Split(text: string, c: char): (parts: seq<string>)
    ensures |parts| >= 1
    decreases |text|
  {
    match SplitOnce(text, c)
    case None => [text]
    case Some((before, after)) => [before] + Split(after, c)
  }

  /** `join`. */
  function Join(parts: seq<string>, separator: string): string {
    if parts == [] then ""
    else if |parts| == 1 then parts[0]
    else parts[0] + separator + Join(parts[1..], separator)
  }

  function TrimAll(parts: seq<string>): (r: seq<string>)
    ensures |r| == |parts|
    ensures forall i :: 0 <= i < |parts| ==> r[i] == Trim(parts[i])
  {
    seq(|parts|, i requires 0 <= i < |parts| => Trim(parts[i]))
  }

  function NonEmpty(parts: seq<string>): seq<string> {
    if parts == [] then []
    else if parts[0] == "" then NonEmpty(parts[1..])
    else [parts[0]] + NonEmpty(parts[1..])
  }

  /** `lines()`: a line ends with a line feed, which a carriage return may
      precede; a last line may go without. */
  function Lines(text: string): seq<string>
    decreases |text|
  {
    match SplitOnce(text, '\n')
    case None => if text == "" then [] else [text]
    case Some((line, rest)) => [WithoutReturn(line)] + Lines(rest)
  }

  function WithoutReturn(line: string): string {
    if line != "" && line[|line| - 1] == '\r' then line[..|line| - 1] else line
  }

  // ----- Laws ----------------------------------------------------------------

  lemma SplitOnceAt(before: string, c: char, after: string)
    requires c !in before
    ensures SplitOnce(before + [c] + after, c) == Some((before, after))
  {
    var text := before + [c] + after;
    assert text[|before|] == c;
    forall j | 0 <= j < |before| ensures text[j] != c {
      assert text[j] == before[j];
    }
    assert text[..|before|] == before && text[|before| + 1..] == after;
  }

  lemma SplitAt(before: string, c: char, after: string)
    requires c !in before
    ensures Split(before + [c] + after, c) == [before] + Split(after, c)
  {
    SplitOnceAt(before, c, after);
  }

  /** A separator splits whatever stands on both sides. */
  lemma {:induction false} SplitAppend(a: string, c: char, b: string)
    ensures Split(a + [c] + b, c) == Split(a, c) + Split(b, c)
    decreases |a|
  {
    match SplitOnce(a, c)
    case None =>
      SplitAt(a, c, b);
    case Some((first, rest)) =>
      hide SplitOnce;
      assert a + [c] + b == first + [c] + (rest + [c] + b);
      SplitAt(first, c, rest + [c] + b);
      SplitAppend(rest, c, b);
  }

  /** No white space at either end, and something between. */
  predicate Neat(text: string) {
    text != "" && !IsWhitespace(text[0]) && !IsWhitespace(text[|text| - 1])
  }

  lemma NeatIsTrimmed(text: string)
    ensures Neat(text) <==> Trim(text) == text && text != ""
  {
    if Neat(text) {
      TrimPlain(text);
    }
  }

  lemma TrimPadded(left: string, text: string, right: string)
    requires AllWhitespace(left) && AllWhitespace(right) && Neat(text)
    ensures Trim(left + text + right) == text
  {
    TrimAround(left, text, right);
    TrimPlain(text);
  }

  /** Each part after a separator: `left`, `c`, `right`. */
  function Tail(left: string, c: char, right: string, parts: seq<string>): string {
    if parts == [] then ""
    else left + [c] + right + parts[0] + Tail(left, c, right, parts[1..])
  }

  lemma {:induction false} JoinIsTail(parts: seq<string>, left: string, c: char, right: string)
    requires parts != []
    ensures Join(parts, left + [c] + right) == parts[0] + Tail(left, c, right, parts[1..])
    decreases |parts|
  {
    if |parts| == 1 {
      assert parts[0] + "" == parts[0];
    } else {
      JoinIsTail(parts[1..], left, c, right);
      var sep := left + [c] + right;
      assert parts[0] + sep + Join(parts[1..], sep) == parts[0] + (sep + Join(parts[1..], sep));
      assert parts[1..][1..] == parts[2..];
      assert Tail(left, c, right, parts[1..]) == sep + parts[1] + Tail(left, c, right, parts[2..]);
      assert sep + (parts[1] + Tail(left, c, right, parts[2..])) == sep + parts[1] + Tail(left, c, right, parts[2..]);
    }
  }

  /** Parts put together with a separator and white space around it come apart
      the same. */
  lemma {:induction false} SplitTail(head: string, left: string, c: char, right: string, parts: seq<string>)
    requires AllWhitespace(left) && AllWhitespace(right) && !IsWhitespace(c)
    requires c !in head && forall part :: part in parts ==> Neat(part) && c !in part
    ensures TrimAll(Split(head + Tail(left, c, right, parts), c)) == [Trim(head)] + parts
    decreases |parts|
  {
    hide Trim, Split, TrimAll, Tail, Neat;
    if parts == [] {
      NoTail(left, c, right);
      SplitNone(head, c);
      assert head + "" == head;
      TrimAllOne(head);
      assert [Trim(head)] + [] == [Trim(head)];
    } else {
      var rest := Tail(left, c, right, parts[1..]);
      var next := right + parts[0];
      TailFirst(head, left, c, right, parts);
      NotInTail(head, left, c);
      SplitAt(head + left, c, next + rest);
      SplitTail(next, left, c, right, parts[1..]);
      TrimPadded(right, parts[0], "");
      assert right + parts[0] + "" == next;
      TrimEndOnly(head, left);
      TrimAllFirst(head + left, Split(next + rest, c));
      assert parts == [parts[0]] + parts[1..];
    }
  }

  lemma TailFirst(head: string, left: string, c: char, right: string, parts: seq<string>)
    requires parts != []
    ensures head + Tail(left, c, right, parts)
         == (head + left) + [c] + (right + parts[0] + Tail(left, c, right, parts[1..]))
  {
    Regroup(head, left, [c], right, parts[0], Tail(left, c, right, parts[1..]));
  }

  lemma Regroup(head: string, left: string, c: string, right: string, part: string, rest: string)
    ensures head + (left + c + right + part + rest) == (head + left) + c + (right + part + rest)
  {
    var more := right + part + rest;
    Assoc(left + c, right, part);
    Assoc(left + c, right + part, rest);
    Assoc(left, c, more);
    Assoc(head, left, c + more);
    Assoc(head + left, c, more);
  }

  lemma NoTail(left: string, c: char, right: string)
    ensures Tail(left, c, right, []) == ""
  {
  }

  lemma NotInTail(head: string, left: string, c: char)
    requires AllWhitespace(left) && !IsWhitespace(c) && c !in head
    ensures c !in head + left
  {
    assert forall i :: 0 <= i < |left| ==> left[i] != c;
  }

  lemma TrimAllOne(text: string)
    ensures TrimAll([text]) == [Trim(text)]
  {
  }

  lemma TrimAllFirst(first: string, rest: seq<string>)
    ensures TrimAll([first] + rest) == [Trim(first)] + TrimAll(rest)
  {
  }

  lemma SplitNone(text: string, c: char)
    requires c !in text
    ensures Split(text, c) == [text]
  {
  }

  lemma TrimEndOnly(head: string, right: string)
    requires AllWhitespace(right)
    ensures Trim(head + right) == Trim(head)
  {
    var start := TrimStart(head);
    TrimStartCut(head);
    var cut := head[..|head| - |start|];
    if start == "" {
      assert AllWhitespace(head + right);
      TrimBlank(head + right);
    } else {
      assert head + right == cut + start + right;
      TrimAround(cut, start, right);
    }
  }

  lemma {:induction false} TrimStartCut(text: string)
    ensures |TrimStart(text)| <= |text|
    ensures text[|text| - |TrimStart(text)|..] == TrimStart(text)
    ensures AllWhitespace(text[..|text| - |TrimStart(text)|])
  {
    if text != "" && IsWhitespace(text[0]) {
      TrimStartCut(text[1..]);
      var n := |text| - |TrimStart(text)|;
      assert text[..n] == [text[0]] + text[1..][..n - 1];
    }
  }

  lemma {:induction false} TrimBlank(text: string)
    requires AllWhitespace(text)
    ensures Trim(text) == ""
  {
    if text != "" {
      TrimBlank(text[1..]);
    }
  }

  // ----- Characters that splitting and trimming don't add --------------------

  /** `c` is in none of `texts`. */
  ghost predicate NoneHas(texts: seq<string>, c: char) {
    forall text :: text in texts ==> c !in text
  }

  lemma {:induction false} TrimStartWithout(text: string, c: char)
    requires c !in text
    ensures c !in TrimStart(text)
  {
    if text != "" && IsWhitespace(text[0]) {
      TrimStartWithout(text[1..], c);
    }
  }

  lemma TrimWithout(text: string, c: char)
    requires c !in text
    ensures c !in Trim(text)
  {
    TrimStartWithout(text, c);
  }

  lemma {:induction false} SplitWithout(text: string, separator: char, c: char)
    requires c !in text || c == separator
    ensures NoneHas(Split(text, separator), c)
    decreases |text|
  {
    match SplitOnce(text, separator)
    case None =>
    case Some((before, after)) =>
      assert c in before ==> c in text;
      assert c in after ==> c in text;
      SplitWithout(after, separator, c);
  }

  lemma TrimAllWithout(texts: seq<string>, c: char)
    requires NoneHas(texts, c)
    ensures NoneHas(TrimAll(texts), c)
  {
    forall text | text in TrimAll(texts) ensures c !in text {
      var i :| 0 <= i < |texts| && text == TrimAll(texts)[i];
      assert texts[i] in texts;
      TrimWithout(texts[i], c);
    }
  }

  lemma {:induction false} NonEmptyWithout(texts: seq<string>, c: char)
    requires NoneHas(texts, c)
    ensures NoneHas(NonEmpty(texts), c)
    decreases |texts|
  {
    if texts != [] {
      assert texts[0] in texts;
      assert NoneHas(texts[1..], c);
      NonEmptyWithout(texts[1..], c);
    }
  }

  lemma {:induction false} LinesWithout(text: string)
    ensures NoneHas(Lines(text), '\n')
    decreases |text|
  {
    match SplitOnce(text, '\n')
    case None =>
    case Some((line, rest)) => LinesWithout(rest);
  }

  /** Joining with the separator undoes splitting at it. */
  lemma {:induction false} JoinOfSplit(text: string, c: char)
    ensures Join(Split(text, c), [c]) == text
    decreases |text|
  {
    match SplitOnce(text, c)
    case None =>
    case Some((before, after)) =>
      JoinOfSplit(after, c);
      assert Split(text, c)[1..] == Split(after, c);
  }
}
