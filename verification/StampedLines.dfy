/** What stamping does to a single line, and to the lines of a text. */
module StampedLines {
  import opened Sequences
  import opened Text
  import opened Splitting
  import opened Edits
  import opened Stamp

  function VersionLine(version: string): string {
    "version = " + Quoted(version)
  }

  /** `line` is the version line of `base` with white space around it, and
      `changed` that of `version` with the same white space. */
  ghost predicate Rewritten(line: string, changed: string, base: string, version: string) {
    exists left, right :: IsRewritten(line, changed, base, version, left, right)
  }

  ghost predicate IsRewritten(line: string, changed: string, base: string, version: string, left: string,
                              right: string) {
    && AllWhitespace(left) && AllWhitespace(right)
    && line == left + VersionLine(base) + right
    && changed == left + VersionLine(version) + right
  }

  /** Trimming takes white space from both ends. */
  lemma TrimmedFrom(line: string) returns (left: string, right: string)
    ensures AllWhitespace(left) && AllWhitespace(right) && line == left + Trim(line) + right
  {
    hide TrimStart, TrimEnd, AllWhitespace;
    var start := TrimStart(line);
    TrimStartCut(line);
    TrimEndCut(start);
    var trimmed := TrimEnd(start);
    left, right := line[..|line| - |start|], start[|trimmed|..];
    assert start == trimmed + right;
    Assoc(left, trimmed, right);
  }

  lemma ReplacedIs(left: string, right: string, base: string, version: string)
    requires AllWhitespace(left)
    ensures Replaced(left + VersionLine(base) + right, base, version) == left + VersionLine(version) + right
  {
    hide ReplaceFirst, AllWhitespace;
    var before := left + "version = ";
    NoQuote(left);
    QuoteFirst(base);
    hide Quoted;
    ReplaceAt(before, Quoted(base), right, Quoted(version));
    Assoc(left, "version = ", Quoted(base));
    Assoc(left, "version = ", Quoted(version));
  }

  lemma NoQuote(left: string)
    requires AllWhitespace(left)
    ensures '"' !in left + "version = "
  {
    assert forall c :: c in left ==> IsWhitespace(c);
  }

  lemma QuoteFirst(base: string)
    ensures Quoted(base) != "" && Quoted(base)[0] == '"'
  {
  }

  lemma TrimVersionLine(left: string, right: string, version: string)
    requires AllWhitespace(left) && AllWhitespace(right)
    ensures Trim(left + VersionLine(version) + right) == VersionLine(version)
  {
    var line := VersionLine(version);
    assert line[0] == 'v' && line[|line| - 1] == '"';
    TrimPadded(left, line, right);
  }

  /** Stamping a version line rewrites it, and stamping it back undoes that. */
  lemma StampedLine(line: string, base: string, version: string)
    requires IsVersionLine(Trim(line), base)
    ensures Rewritten(line, Replaced(line, base, version), base, version)
    ensures Trim(Replaced(line, base, version)) == VersionLine(version)
    ensures Replaced(Replaced(line, base, version), version, base) == line
    ensures |Replaced(line, base, version)| > 0
    ensures Replaced(line, base, version)[0] == 'v' || IsWhitespace(Replaced(line, base, version)[0])
    ensures IsLine(line) && '\n' !in version ==> IsLine(Replaced(line, base, version))
    ensures line != "" && Last(Replaced(line, base, version)) == Last(line)
  {
    var left, right := TrimmedFrom(line);
    ReplacedIs(left, right, base, version);
    ReplacedIs(left, right, version, base);
    TrimVersionLine(left, right, version);
    var changed := left + VersionLine(version) + right;
    hide ReplaceFirst, Trim;
    assert IsRewritten(line, changed, base, version, left, right);
    assert line == left + VersionLine(base) + right;
    StillALine(left, right, base, version);
  }

  function Last(text: string): char
    requires text != ""
  {
    text[|text| - 1]
  }

  lemma StillALine(left: string, right: string, base: string, version: string)
    requires AllWhitespace(left)
    ensures
      var line, changed := left + VersionLine(base) + right, left + VersionLine(version) + right;
      && (IsLine(line) && '\n' !in version ==> IsLine(changed))
      && Last(changed) == Last(line)
      && (changed[0] == 'v' || IsWhitespace(changed[0]))
  {
    var line, changed := left + VersionLine(base) + right, left + VersionLine(version) + right;
    assert VersionLine(version)[0] == 'v';
    if right == "" {
      assert VersionLine(version)[|VersionLine(version)| - 1] == '"' == VersionLine(base)[|VersionLine(base)| - 1];
    } else {
      assert Last(changed) == Last(right) == Last(line);
    }
    if IsLine(line) && '\n' !in version {
      var n := |left| + |VersionLine(version)|;
      forall j | 0 <= j < |changed| - 1 ensures changed[j] != '\n' {
        if j < |left| {
          assert changed[j] == line[..|line| - 1][j];
        } else if j < n {
          assert changed[j] == VersionLine(version)[j - |left|];
        } else {
          var k := j + |VersionLine(base)| - |VersionLine(version)|;
          assert changed[j] == right[j - n] == line[..|line| - 1][k];
        }
      }
    }
  }

  /** Lines that differ from lines of a text only where they were stamped are the
      lines of their text. */
  lemma StampedAreLines(lines: seq<string>, changed: seq<string>, base: string, version: string)
    requires AreLines(lines) && |changed| == |lines| && '\n' !in version
    requires forall i :: 0 <= i < |lines| ==>
               || changed[i] == lines[i]
               || (IsVersionLine(Trim(lines[i]), base) && changed[i] == Replaced(lines[i], base, version))
    ensures AreLines(changed)
  {
    hide Trim, Replaced, IsLine;
    forall i | 0 <= i < |lines|
      ensures IsLine(changed[i]) && lines[i] != "" && changed[i] != "" && Last(changed[i]) == Last(lines[i])
    {
      assert IsLine(lines[i]);
      LineIsNotEmpty(lines[i]);
      if changed[i] != lines[i] {
        StampedLine(lines[i], base, version);
      }
    }
    forall i | 0 <= i < |changed| - 1 ensures changed[i][|changed[i]| - 1] == '\n' {
      assert Last(lines[i]) == '\n' && Last(changed[i]) == Last(lines[i]);
    }
  }

  lemma LineIsNotEmpty(line: string)
    requires IsLine(line)
    ensures line != ""
  {
  }

  /** A line is the version line of no two versions. */
  lemma OneVersion(trimmed: string, base: string, version: string)
    requires IsVersionLine(trimmed, base) && IsVersionLine(trimmed, version)
    ensures base == version
  {
    var n := |"version = "|;
    assert trimmed[n..] == Quoted(base) && trimmed[n..] == Quoted(version);
    assert Quoted(base)[1..|Quoted(base)| - 1] == base;
    assert Quoted(version)[1..|Quoted(version)| - 1] == version;
  }
}
