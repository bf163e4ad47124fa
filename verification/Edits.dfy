/** Finding, replacing and splitting at a pattern, and lines with their ends
    (`str::replacen`, `str::split`, `str::split_inclusive`). */
module Edits {
  import opened Wrappers
  import opened Text
  import opened Sequences
  import opened Splitting

  predicate StartsWith(text: string, pattern: string) {
    |pattern| <= |text| && text[..|pattern|] == pattern
  }

  /** Where `pattern` first stands in `text`. */
  function Find(text: string, pattern: string): (i: Option<nat>)
    ensures i.Some? ==> i.value + |pattern| <= |text| && StartsWith(text[i.value..], pattern)
    ensures i.Some? ==> forall j :: 0 <= j < i.value ==> !StartsWith(text[j..], pattern)
    ensures i.None? ==> forall j :: 0 <= j <= |text| ==> !StartsWith(text[j..], pattern)
    decreases |text|
  {
    if StartsWith(text, pattern) then
      assert text[0..] == text;
      Some(0)
    else if text == "" then
      assert text[0..] == text;
      None
    else
      assert forall j :: 0 < j <= |text| ==> text[j..] == text[1..][j - 1..];
      assert text[0..] == text;
      match Find(text[1..], pattern)
      case None => None
      case Some(i) => Some(i + 1)
  }

  predicate Contains(text: string, pattern: string) {
    Find(text, pattern).Some?
  }

  /** `replacen(pattern, with, 1)`. */
  function ReplaceFirst(text: string, pattern: string, with: string): string {
    match Find(text, pattern)
    case None => text
    case Some(i) => text[..i] + with + text[i + |pattern|..]
  }

  /** `split(pattern)`. */
  function SplitOn(text: string, pattern: string): (parts: seq<string>)
    requires pattern != ""
    ensures |parts| >= 1
    decreases |text|
  {
    match Find(text, pattern)
    case None => [text]
    case Some(i) => [text[..i]] + SplitOn(text[i + |pattern|..], pattern)
  }

  /** `split_inclusive('\n')`: lines with their line feeds. */
  function SplitInclusive(text: string): seq<string>
    decreases |text|
  {
    match Position(text, '\n')
    case None => if text == "" then [] else [text]
    case Some(i) => [text[..i + 1]] + SplitInclusive(text[i + 1..])
  }

  function Concat(parts: seq<string>): string {
    if parts == [] then "" else parts[0] + Concat(parts[1..])
  }

  // ----- Finding -------------------------------------------------------------

  /** A pattern whose first character doesn't stand before it is found where it
      is. */
  lemma ReplaceAt(before: string, pattern: string, after: string, with: string)
    requires pattern != "" && pattern[0] !in before
    ensures ReplaceFirst(before + pattern + after, pattern, with) == before + with + after
  {
    hide Find;
    FindAt(before, pattern, after);
    AroundMiddle(before, pattern, after);
  }

  lemma FindAt(before: string, pattern: string, after: string)
    requires pattern != "" && pattern[0] !in before
    ensures Find(before + pattern + after, pattern) == Some(|before|)
  {
    hide Find;
    var text, i := before + pattern + after, |before|;
    assert text[i..] == pattern + after;
    forall j | 0 <= j < i ensures !StartsWith(text[j..], pattern) {
      assert text[j..][0] == before[j];
    }
  }

  // ----- Splitting at a pattern ----------------------------------------------

  /** The pattern's first character stands in it only once, so no two occurrences
      overlap. */
  predicate Leads(pattern: string) {
    pattern != "" && pattern[0] !in pattern[1..]
  }

  /** A part without the pattern, then the pattern: it is first found there. */
  lemma FoundAfter(part: string, pattern: string, rest: string)
    requires Leads(pattern) && !Contains(part, pattern)
    ensures Find(part + pattern + rest, pattern) == Some(|part|)
  {
    var text, i := part + pattern + rest, |part|;
    assert text[i..] == pattern + rest;
    forall j | 0 <= j < i ensures !StartsWith(text[j..], pattern) {
      if j + |pattern| <= i {
        assert text[j..][..|pattern|] == part[j..][..|pattern|];
      } else if j + |pattern| <= |text| {
        assert pattern[i - j] == pattern[1..][i - j - 1];
        assert text[j..][..|pattern|][i - j] == pattern[0];
      }
    }
  }

  lemma {:induction false} SplitOnJoin(parts: seq<string>, pattern: string)
    requires Leads(pattern) && parts != []
    requires forall i :: 0 <= i < |parts| ==> !Contains(parts[i], pattern)
    ensures SplitOn(Join(parts, pattern), pattern) == parts
    decreases |parts|
  {
    hide Contains, Find, SplitOn, Join;
    JoinFirst(parts, pattern);
    if |parts| == 1 {
      SplitOnNone(parts[0], pattern);
      assert parts == [parts[0]];
    } else {
      var rest := Join(parts[1..], pattern);
      FoundAfter(parts[0], pattern, rest);
      AroundMiddle(parts[0], pattern, rest);
      SplitOnFirst(parts[0] + pattern + rest, pattern, |parts[0]|);
      SplitOnJoin(parts[1..], pattern);
      SplitFirst(parts);
    }
  }

  lemma JoinFirst(parts: seq<string>, pattern: string)
    requires parts != []
    ensures Join(parts, pattern) ==
              if |parts| == 1 then parts[0] else parts[0] + pattern + Join(parts[1..], pattern)
  {
  }

  lemma SplitOnNone(text: string, pattern: string)
    requires pattern != "" && !Contains(text, pattern)
    ensures SplitOn(text, pattern) == [text]
  {
  }

  lemma SplitOnFirst(text: string, pattern: string, i: nat)
    requires pattern != "" && Find(text, pattern) == Some(i)
    ensures i + |pattern| <= |text|
    ensures SplitOn(text, pattern) == [text[..i]] + SplitOn(text[i + |pattern|..], pattern)
  {
    hide Find, StartsWith;
  }

  lemma {:induction false} JoinOfSplitOn(text: string, pattern: string)
    requires pattern != ""
    ensures Join(SplitOn(text, pattern), pattern) == text
    decreases |text|
  {
    match Find(text, pattern)
    case None =>
    case Some(i) =>
      var rest := text[i + |pattern|..];
      JoinOfSplitOn(rest, pattern);
      SplitAtFound(text, pattern, i);
  }

  lemma SplitAtFound(text: string, pattern: string, i: nat)
    requires i + |pattern| <= |text| && StartsWith(text[i..], pattern)
    ensures text == text[..i] + pattern + text[i + |pattern|..]
  {
    assert text[i..][..|pattern|] == text[i..i + |pattern|];
  }

  lemma {:induction false} PartsHaveNone(text: string, pattern: string)
    requires Leads(pattern)
    ensures forall i :: 0 <= i < |SplitOn(text, pattern)| ==> !Contains(SplitOn(text, pattern)[i], pattern)
    decreases |text|
  {
    hide Contains, StartsWith, Find;
    match Find(text, pattern)
    case None =>
      NotFound(text, pattern);
    case Some(i) =>
      var part, rest := text[..i], SplitOn(text[i + |pattern|..], pattern);
      PartsHaveNone(text[i + |pattern|..], pattern);
      NoneBefore(text, pattern, i);
  }

  lemma NotFound(text: string, pattern: string)
    requires Find(text, pattern).None?
    ensures !Contains(text, pattern)
  {
  }

  lemma NoneBefore(text: string, pattern: string, i: nat)
    requires pattern != "" && Find(text, pattern) == Some(i)
    ensures !Contains(text[..i], pattern)
  {
    hide Find;
    var part := text[..i];
    forall j | 0 <= j <= |part| ensures !StartsWith(part[j..], pattern) {
      if j + |pattern| <= |part| {
        NotAt(text, pattern, i, j);
        assert text[j..][..|pattern|] == part[j..][..|pattern|];
      }
    }
  }

  lemma NotAt(text: string, pattern: string, i: nat, j: nat)
    requires Find(text, pattern) == Some(i) && j < i
    ensures i <= |text| && !StartsWith(text[j..], pattern)
  {
    hide Find, StartsWith;
  }

  // ----- Lines with their ends -----------------------------------------------

  /** Each line but the last ends with a line feed, and has no other. */
  predicate AreLines(lines: seq<string>) {
    && (forall i :: 0 <= i < |lines| ==> IsLine(lines[i]))
    && (forall i :: 0 <= i < |lines| - 1 ==> lines[i][|lines[i]| - 1] == '\n')
  }

  predicate IsLine(line: string) {
    line != "" && '\n' !in line[..|line| - 1]
  }

  lemma {:induction false} LinesAreLines(text: string)
    ensures AreLines(SplitInclusive(text)) && Concat(SplitInclusive(text)) == text
    decreases |text|
  {
    hide Concat, AreLines, IsLine;
    match Position(text, '\n')
    case None =>
      NoLines();
      if text != "" {
        LinesMore(text, []);
        assert [text] + [] == [text] && text + "" == text;
      }
    case Some(i) =>
      LinesAreLines(text[i + 1..]);
      LinesMore(text[..i + 1], SplitInclusive(text[i + 1..]));
      assert text[..i + 1][..i] == text[..i];
      assert text == text[..i + 1] + text[i + 1..];
  }

  lemma NoLines()
    ensures AreLines([]) && Concat([]) == ""
  {
  }

  lemma LinesMore(first: string, rest: seq<string>)
    requires AreLines(rest) && first != "" && '\n' !in first[..|first| - 1]
    requires rest != [] ==> first[|first| - 1] == '\n'
    ensures AreLines([first] + rest) && Concat([first] + rest) == first + Concat(rest)
  {
    var lines := [first] + rest;
    assert lines[1..] == rest;
    forall i | 0 <= i < |lines| ensures IsLine(lines[i]) {
      assert i > 0 ==> lines[i] == rest[i - 1];
    }
    forall i | 0 <= i < |lines| - 1 ensures lines[i][|lines[i]| - 1] == '\n' {
      assert i > 0 ==> lines[i] == rest[i - 1];
    }
  }

  lemma {:induction false} SplitOfLines(lines: seq<string>)
    requires AreLines(lines)
    ensures SplitInclusive(Concat(lines)) == lines
    decreases |lines|
  {
    if lines != [] {
      var first, rest := lines[0], Concat(lines[1..]);
      LaterLines(lines);
      SplitOfLines(lines[1..]);
      FirstOfLines(first, rest, |lines| == 1);
      assert lines == [first] + lines[1..];
    }
  }

  lemma LaterLines(lines: seq<string>)
    requires AreLines(lines) && lines != []
    ensures AreLines(lines[1..])
  {
    assert forall i :: 0 <= i < |lines| - 1 ==> lines[1..][i] == lines[i + 1];
  }

  lemma FirstOfLines(first: string, rest: string, only: bool)
    requires IsLine(first) && (only ==> rest == "") && (!only ==> first[|first| - 1] == '\n')
    ensures SplitInclusive(first + rest) == [first] + SplitInclusive(rest)
  {
    var n := |first| - 1;
    assert first == first[..n] + [first[n]];
    if first[n] == '\n' {
      assert first + rest == first[..n] + ['\n'] + rest;
      SplitOnceAt(first[..n], '\n', rest);
      assert (first + rest)[..n + 1] == first && (first + rest)[n + 1..] == rest;
    } else {
      assert first + rest == first;
      assert '\n' !in first;
    }
  }

  lemma {:induction false} ConcatParts(a: seq<string>, b: seq<string>)
    ensures Concat(a + b) == Concat(a) + Concat(b)
    decreases |a|
  {
    if a == [] {
      assert a + b == b;
      assert Concat(a) + Concat(b) == Concat(b);
    } else {
      assert (a + b)[1..] == a[1..] + b;
      ConcatParts(a[1..], b);
      assert a[0] + (Concat(a[1..]) + Concat(b)) == (a[0] + Concat(a[1..])) + Concat(b);
    }
  }

  lemma ConcatOne(a: seq<string>, text: string)
    ensures Concat(a + [text]) == Concat(a) + text
  {
    ConcatParts(a, [text]);
    assert [text][1..] == [];
    assert text + "" == text;
  }

  /** A pattern that begins with a line feed and goes on within a line stands in
      some lines exactly when a line after the first starts with its rest. */
  lemma {:induction false} LineStarts(lines: seq<string>, rest: string)
    requires AreLines(lines) && rest != "" && '\n' !in rest
    ensures Contains(Concat(lines), ['\n'] + rest) <==>
              exists i :: 1 <= i < |lines| && StartsWith(lines[i], rest)
    decreases |lines|
  {
    if lines == [] {
    } else {
      var first, after := lines[0], Concat(lines[1..]);
      LaterLines(lines);
      LineStarts(lines[1..], rest);
      FirstLine(first, lines[1..], rest);
      if |lines| > 1 && StartsWith(lines[1], rest) {
      } else if Contains(after, ['\n'] + rest) {
        var i :| 1 <= i < |lines[1..]| && StartsWith(lines[1..][i], rest);
        assert StartsWith(lines[i + 1], rest);
      }
      if i :| 1 <= i < |lines| && StartsWith(lines[i], rest) {
        if i > 1 {
          assert StartsWith(lines[1..][i - 1], rest);
        }
      }
    }
  }

  lemma FirstLine(first: string, others: seq<string>, rest: string)
    requires AreLines([first] + others) && rest != "" && '\n' !in rest
    ensures Contains(first + Concat(others), ['\n'] + rest) <==>
              (others != [] && StartsWith(others[0], rest)) || Contains(Concat(others), ['\n'] + rest)
  {
    var pattern, after, n := ['\n'] + rest, Concat(others), |first|;
    var text := first + after;
    assert ([first] + others)[0] == first;
    assert ([first] + others)[1..] == others;
    LaterLines([first] + others);
    AtLineEnd(first, others, rest);
    NotWithin(first, after, pattern);
    hide Concat, AreLines, StartsWith;
    forall j | n <= j <= |text| ensures text[j..] == after[j - n..] {}
    if i :| 0 <= i <= |after| && StartsWith(after[i..], pattern) {
      assert StartsWith(text[n + i..], pattern);
    }
  }

  /** A line feed stands in a line only at its end. */
  lemma NotWithin(line: string, after: string, pattern: string)
    requires IsLine(line) && pattern != "" && pattern[0] == '\n'
    ensures forall j :: 0 <= j < |line| - 1 ==> !StartsWith((line + after)[j..], pattern)
  {
    forall j | 0 <= j < |line| - 1 ensures !StartsWith((line + after)[j..], pattern) {
      assert (line + after)[j..][0] == line[..|line| - 1][j];
    }
  }

  /** At the first line's end, the pattern stands exactly when the next line
      starts with its rest. */
  lemma AtLineEnd(first: string, others: seq<string>, rest: string)
    requires IsLine(first) && AreLines(others) && (others != [] ==> first[|first| - 1] == '\n')
    requires rest != "" && '\n' !in rest
    ensures
      var text := first + Concat(others);
      StartsWith(text[|first| - 1..], ['\n'] + rest) <==> others != [] && StartsWith(others[0], rest)
  {
    var after, n := Concat(others), |first|;
    var text := first + after;
    assert text[n - 1..] == [first[n - 1]] + after;
    if others != [] {
      StartOfConcat(others, rest);
      StartsAfter('\n', after, rest);
    }
  }

  lemma StartsAfter(c: char, text: string, pattern: string)
    ensures StartsWith([c] + text, [c] + pattern) <==> StartsWith(text, pattern)
  {
    if |pattern| <= |text| {
      assert ([c] + text)[..|pattern| + 1] == [c] + text[..|pattern|];
      assert ([c] + text[..|pattern|])[1..] == text[..|pattern|];
      assert ([c] + pattern)[1..] == pattern;
    }
  }

  /** What some lines start with, if it is within a line, the first starts with. */
  lemma StartOfConcat(lines: seq<string>, rest: string)
    requires AreLines(lines) && lines != [] && '\n' !in rest
    ensures StartsWith(Concat(lines), rest) <==> StartsWith(lines[0], rest)
  {
    var first, text := lines[0], Concat(lines);
    if |rest| <= |first| {
      assert text[..|rest|] == first[..|rest|];
    } else if |lines| == 1 {
      assert lines[1..] == [];
      assert |text| == |first|;
    } else if |rest| <= |text| {
      assert text[..|rest|][|first| - 1] == first[|first| - 1] == '\n';
      assert rest[|first| - 1] != '\n';
    }
  }
}
