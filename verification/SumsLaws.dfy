/** When a list of files reads back as it was written. */
module SumsLaws {
  import opened Wrappers
  import opened Text
  import opened Splitting
  import opened Edits
  import opened Sorting
  import opened Reordering
  import opened Orders
  import opened Sums

  // ----- One line ------------------------------------------------------------

  lemma HexDigitsAre(sha: string)
    requires IsSha(sha)
    ensures ' ' !in sha && '\n' !in sha && '\r' !in sha
    ensures sha != "" && !IsWhitespace(sha[0])
  {
    assert forall c :: c in sha ==> IsHexDigit(c);
    assert IsHexDigit(sha[0]);
  }

  /** A written line reads as its hash and name, if the name is plain. */
  lemma LineReads(sha: string, name: string)
    requires IsSha(sha)
    ensures ParseLine(sha + SEPARATOR + name) == if IsPlain(name) then Some((sha, name)) else None
  {
    HexDigitsAre(sha);
    var line := sha + SEPARATOR + name;
    hide IsSha, IsPlain;
    var n := |sha|;
    assert SEPARATOR == [' ', ' '];
    assert line[n..] == SEPARATOR + name;
    assert line[n..][..2] == SEPARATOR;
    forall j | 0 <= j < n ensures !StartsWith(line[j..], SEPARATOR) {
      assert line[j..][0] == sha[j];
    }
    assert line[..n] == sha && line[n + 2..] == name;
  }

  /** No white space at its start: such a line isn't blank. */
  lemma LineIsFilled(sha: string, name: string)
    requires IsSha(sha)
    ensures Trim(sha + SEPARATOR + name) != ""
  {
    HexDigitsAre(sha);
    var line := sha + SEPARATOR + name;
    assert line[0] == sha[0];
    TrimEndKeeps(line, 0);
  }

  // ----- The lines of a list -------------------------------------------------

  function Read(name: string): string {
    WithoutReturn(name)
  }

  predicate OneLine(name: string) {
    '\n' !in name
  }

  /** The lines as they are read: without a return at their end. */
  function LinesOf(files: seq<File>, sha: Digest): (r: seq<string>)
    ensures |r| == |files|
    ensures forall i :: 0 <= i < |files| ==> r[i] == sha(files[i].1) + SEPARATOR + Read(files[i].0)
  {
    seq(|files|, i requires 0 <= i < |files| => sha(files[i].1) + SEPARATOR + Read(files[i].0))
  }

  lemma ReturnAtEnd(sha: string, name: string)
    requires IsSha(sha)
    ensures WithoutReturn(sha + SEPARATOR + name) == sha + SEPARATOR + Read(name)
  {
    var line := sha + SEPARATOR + name;
    if name == "" {
      assert line[|line| - 1] == ' ';
    } else {
      assert line[|line| - 1] == name[|name| - 1];
      assert line[..|line| - 1] == sha + SEPARATOR + name[..|name| - 1];
    }
  }

  lemma {:induction false} LinesRead(files: seq<File>, sha: Digest)
    requires IsDigest(sha) && forall i :: 0 <= i < |files| ==> OneLine(files[i].0)
    ensures Lines(SumLines(files, sha)) == LinesOf(files, sha)
    ensures Filled(SumLines(files, sha)) == LinesOf(files, sha)
    decreases |files|
  {
    hide Trim, IsDigest, ToLower, WithoutReturn;
    if files != [] {
      var (name, bytes) := files[0];
      var line, rest := SumLine(files[0], sha), SumLines(files[1..], sha);
      LinesRead(files[1..], sha);
      Digits(sha, bytes);
      HexDigitsAre(sha(bytes));
      hide IsSha;
      assert SEPARATOR == [' ', ' '];
      assert '\n' !in line;
      assert SumLines(files, sha) == line + ['\n'] + rest;
      SplitOnceAt(line, '\n', rest);
      ReturnAtEnd(sha(bytes), name);
      LineIsFilled(sha(bytes), Read(name));
      assert LinesOf(files, sha) == [WithoutReturn(line)] + LinesOf(files[1..], sha);
    }
  }

  lemma Digits(sha: Digest, bytes: Content)
    requires IsDigest(sha)
    ensures IsSha(sha(bytes)) && ToLower(sha(bytes)) == sha(bytes)
  {
  }

  // ----- The whole list ------------------------------------------------------

  /** No name has two contents. */
  ghost predicate Consistent(files: seq<File>) {
    forall f, g :: f in files && g in files && f.0 == g.0 ==> f == g
  }

  /** `sums` holds the names of the files, each with its file's hash. */
  ghost predicate Lists(sums: SumsMap, files: seq<File>, sha: Digest) {
    && (forall f :: f in files ==> f.0 in sums && sums[f.0] == sha(f.1))
    && (forall name :: name in sums ==> exists f :: f in files && f.0 == name)
  }

  predicate EndsInReturn(name: string) {
    name != "" && name[|name| - 1] == '\r'
  }

  /** A name that the list can hold. */
  predicate Writable(name: string) {
    IsPlain(name) && OneLine(name) && !EndsInReturn(name)
  }

  lemma SortedAreSame(files: seq<File>)
    ensures forall f :: f in Sort(ByName, files) <==> f in files
  {
    SortKeeps(ByName, files);
    forall f ensures f in Sort(ByName, files) <==> f in files {
      assert f in files <==> f in multiset(files);
    }
  }

  lemma LineOfFile(files: seq<File>, sha: Digest, i: nat)
    requires IsDigest(sha) && i < |files|
    ensures
      var line, name := LinesOf(files, sha)[i], Read(files[i].0);
      && (ParseLine(line).Some? <==> IsPlain(name))
      && (IsPlain(name) ==> NameOf(line) == name && ShaOf(line) == sha(files[i].1))
  {
    Digits(sha, files[i].1);
    hide IsDigest, IsSha, IsPlain, WithoutReturn;
    LineReads(sha(files[i].1), Read(files[i].0));
    hide Find;
  }

  lemma WritableReads(name: string)
    requires Writable(name)
    ensures Read(name) == name
  {
  }

  lemma LinesSay(files: seq<File>, sha: Digest)
    requires IsDigest(sha) && forall f :: f in files ==> Writable(f.0)
    ensures AllParse(LinesOf(files, sha))
    ensures forall i :: 0 <= i < |files| ==>
              NameOf(LinesOf(files, sha)[i]) == files[i].0 && ShaOf(LinesOf(files, sha)[i]) == sha(files[i].1)
  {
    var lines := LinesOf(files, sha);
    hide LinesOf, Writable, ParseLine, NameOf, ShaOf, IsDigest;
    forall i | 0 <= i < |files|
      ensures ParseLine(lines[i]).Some? && NameOf(lines[i]) == files[i].0 && ShaOf(lines[i]) == sha(files[i].1)
    {
      assert files[i] in files;
      LineOfFile(files, sha, i);
      WritableReads(files[i].0);
      WritableIsPlain(files[i].0);
    }
  }

  lemma WritableIsPlain(name: string)
    requires Writable(name)
    ensures IsPlain(name)
  {
  }

  lemma LastOfLines(files: seq<File>, sha: Digest, f: File, said: string)
    requires IsDigest(sha) && Consistent(files) && f in files && forall f :: f in files ==> Writable(f.0)
    requires LastSays(LinesOf(files, sha), f.0, said)
    ensures said == sha(f.1)
  {
    LinesSay(files, sha);
    hide Writable, NameOf, ShaOf, IsDigest, LinesOf;
    var lines := LinesOf(files, sha);
    var k :| 0 <= k < |lines| && NameOf(lines[k]) == f.0 && ShaOf(lines[k]) == said;
    assert files[k] in files;
  }

  lemma NamesOfLines(files: seq<File>, sha: Digest, name: string)
    requires IsDigest(sha) && forall f :: f in files ==> Writable(f.0)
    ensures name in Names(LinesOf(files, sha)) <==> exists f :: f in files && f.0 == name
  {
    LinesSay(files, sha);
    hide Writable, NameOf, ShaOf, IsDigest, LinesOf, AllParse;
    var names := Names(LinesOf(files, sha));
    if name in names {
      var i :| 0 <= i < |names| && names[i] == name;
      assert files[i] in files && files[i].0 == name;
    }
    if f :| f in files && f.0 == name {
      var i :| 0 <= i < |files| && files[i] == f;
      assert names[i] == name;
    }
  }

  /** Files with writable names are listed by the lines written for them. */
  lemma ListReads(files: seq<File>, sha: Digest)
    requires IsDigest(sha) && Consistent(files) && forall f :: f in files ==> Writable(f.0)
    ensures SumsFrom(LinesOf(files, sha), map[]).Ok?
    ensures Lists(SumsFrom(LinesOf(files, sha), map[]).value, files, sha)
  {
    hide SumsFrom, LinesOf, Writable, IsDigest, AllParse, LastSays, Consistent, Names;
    var lines := LinesOf(files, sha);
    LinesSay(files, sha);
    SumsAre(lines, map[]);
    var sums := SumsFrom(lines, map[]).value;
    forall f | f in files ensures f.0 in sums && sums[f.0] == sha(f.1) {
      NamesOfLines(files, sha, f.0);
      LastOfLines(files, sha, f, sums[f.0]);
    }
    forall name | name in sums ensures exists f :: f in files && f.0 == name {
      NamesOfLines(files, sha, name);
    }
  }

  /** What is read has plain names on one line. */
  lemma NamesRead(text: string, name: string)
    requires SumsOf(text).Ok? && name in SumsOf(text).value
    ensures IsPlain(name) && OneLine(name)
  {
    var lines := Filled(text);
    hide SumsFrom, Trim, Lines;
    SumsAre(lines, map[]);
    var i :| 0 <= i < |lines| && Names(lines)[i] == name;
    LinesWithout(text);
    RetainIs(line => Trim(line) != "", Lines(text), lines[i]);
    assert lines[i] in Lines(text);
    assert ParseLine(lines[i]).Some?;
  }

  function Longest(files: seq<File>): (n: nat)
    ensures forall f :: f in files ==> |f.0| <= n
  {
    if files == [] then 0
    else
      var n := Longest(files[1..]);
      assert forall f :: f in files ==> f == files[0] || f in files[1..];
      if |files[0].0| > n then |files[0].0| else n
  }

  /** A name that ends in a return is read only of a longer one. */
  lemma ReturnOfLonger(files: seq<File>, sha: Digest, name: string) returns (g: File)
    requires IsDigest(sha) && AllParse(LinesOf(files, sha))
    requires name in Names(LinesOf(files, sha)) && EndsInReturn(name)
    ensures g in files && g.0 == name + "\r"
  {
    var lines := LinesOf(files, sha);
    var i :| 0 <= i < |lines| && Names(lines)[i] == name;
    hide ParseLine, IsPlain, ShaOf, LinesOf, IsDigest;
    LineOfFile(files, sha, i);
    g := files[i];
    assert name == NameOf(lines[i]) == Read(g.0);
    hide *;
    ReadOf(g.0);
  }

  lemma ReadOf(name: string)
    ensures name == Read(name) + "\r" || (name == Read(name) && !EndsInReturn(name))
  {
  }

  /** If the list of some files is read back, no name ends in a return. */
  lemma {:induction false} NoReturn(files: seq<File>, sha: Digest, name: string)
    requires IsDigest(sha) && AllParse(LinesOf(files, sha))
    requires forall f :: f in files ==> f.0 in Names(LinesOf(files, sha))
    requires exists f :: f in files && f.0 == name
    ensures !EndsInReturn(name)
    decreases Longest(files) - |name|
  {
    hide LinesOf, IsDigest, AllParse, Names, EndsInReturn;
    if EndsInReturn(name) {
      var g := ReturnOfLonger(files, sha, name);
      NoReturn(files, sha, g.0);
      ReturnAdded(name);
    }
  }

  lemma ReturnAdded(name: string)
    ensures EndsInReturn(name + "\r")
  {
  }

  /** The list of some files reads back as their names and hashes exactly when
      every name is plain, on one line, and doesn't end in a carriage return. */
  lemma SumsRoundTrip(files: seq<File>, sha: Digest)
    requires IsDigest(sha) && Consistent(files)
    ensures
      (SumsOf(SumsText(files, sha)).Ok? && Lists(SumsOf(SumsText(files, sha)).value, files, sha)) <==>
      forall f :: f in files ==> Writable(f.0)
  {
    hide IsDigest, Sort, Lines, Trim, SumLines, SumsFrom, IsPlain, ParseLine, EndsInReturn;
    var sorted, text := Sort(ByName, files), SumsText(files, sha);
    SortedAreSame(files);
    if SumsOf(text).Ok? && Lists(SumsOf(text).value, files, sha) {
      forall f | f in files ensures IsPlain(f.0) && OneLine(f.0) {
        NamesRead(text, f.0);
      }
      hide OneLine;
      ReadBack(files, sha);
    } else if forall f :: f in files ==> Writable(f.0) {
      LinesRead(sorted, sha);
      ListReads(sorted, sha);
    }
  }

  /** The file `a` with a carriage return after it is listed, and read as `a`. */
  lemma ReturnIsLost(sha: Digest, bytes: Content)
    requires IsDigest(sha)
    ensures SumsOf(SumsText([("a\r", bytes)], sha)) == Ok(map["a" := sha(bytes)])
  {
    var files := [("a\r", bytes)];
    assert Read("a\r") == "a";
    assert Sort(ByName, files) == files;
    assert IsPlain("a");
    hide IsDigest, Lines, Trim, SumLines, ParseLine, WithoutReturn, Sort, IsPlain, ToLower;
    LinesRead(files, sha);
    var line := sha(bytes) + SEPARATOR + "a";
    assert LinesOf(files, sha) == [line];
    Digits(sha, bytes);
    LineReads(sha(bytes), "a");
    OneLineFrom(line, sha(bytes), "a");
  }

  lemma OneLineFrom(line: string, sha: string, name: string)
    requires ParseLine(line) == Some((sha, name)) && ToLower(sha) == sha
    ensures SumsFrom([line], map[]) == Ok(map[name := sha])
  {
    hide ParseLine, ToLower;
    assert [line][1..] == [];
    assert SumsFrom([], map[name := sha]) == Ok(map[name := sha]);
    assert map[][name := sha] == map[name := sha];
  }

  lemma ReadBack(files: seq<File>, sha: Digest)
    requires IsDigest(sha) && forall f :: f in files ==> OneLine(f.0)
    requires SumsOf(SumsText(files, sha)).Ok? && Lists(SumsOf(SumsText(files, sha)).value, files, sha)
    ensures forall f :: f in files ==> !EndsInReturn(f.0)
  {
    hide IsDigest, Sort, Lines, Trim, SumLines, SumsFrom, IsPlain, ParseLine, EndsInReturn, OneLine, LinesOf;
    var sorted := Sort(ByName, files);
    SortedAreSame(files);
    LinesRead(sorted, sha);
    SumsAre(LinesOf(sorted, sha), map[]);
    forall f | f in files ensures !EndsInReturn(f.0) {
      NoReturn(sorted, sha, f.0);
    }
  }

  // ----- Hashes in any case --------------------------------------------------

  lemma LowerOf(text: string)
    ensures |ToLower(text)| == |text| && EqIgnoreAsciiCase(ToLower(text), text)
    ensures forall c :: c in ToLower(text) ==> !('A' <= c <= 'Z')
  {
    forall i | 0 <= i < |text| ensures !('A' <= ToLower(text)[i] <= 'Z') {
      assert ToLower(text)[i] == ToAsciiLowercase(text[i]);
    }
  }

  /** A line whose hash is written in any case lists it in lower case. */
  lemma HashInAnyCase(hash: string, name: string)
    requires IsSha(hash) && Writable(name)
    ensures var r := SumsOf(hash + "  " + name);
            && r.Ok? && r.value.Keys == {name}
            && |r.value[name]| == 64 && EqIgnoreAsciiCase(r.value[name], hash)
            && forall c :: c in r.value[name] ==> !('A' <= c <= 'Z')
  {
    var line := hash + SEPARATOR + name;
    LineReads(hash, name);
    LineIsFilled(hash, name);
    HexDigitsAre(hash);
    LowerOf(hash);
    assert line == hash + "  " + name && line != "";
    assert '\n' !in line;
    hide IsSha, Trim, ParseLine, ToLower, EqIgnoreAsciiCase;
    assert Lines(line) == [line];
    OneFilled(line);
    OneSum(line, hash, name);
  }

  lemma OneFilled(line: string)
    requires Lines(line) == [line] && Trim(line) != ""
    ensures Filled(line) == [line]
  {
    hide Lines, Trim;
    assert [line][1..] == [];
  }

  lemma OneSum(line: string, hash: string, name: string)
    requires Filled(line) == [line] && ParseLine(line) == Some((hash, name))
    ensures SumsOf(line) == Ok(map[name := ToLower(hash)])
  {
    hide Filled, ParseLine, ToLower;
    assert [line][1..] == [];
    assert SumsFrom([], map[name := ToLower(hash)]) == Ok(map[name := ToLower(hash)]);
    assert map[][name := ToLower(hash)] == map[name := ToLower(hash)];
  }

  // ----- Lines ---------------------------------------------------------------

  /** A file's name: neither empty nor the parent folder, and no path. */
  predicate NoPath(name: string) {
    name != "" && name != ".." && forall i :: 0 <= i < |name| ==> name[i] !in "/\\"
  }

  lemma HexDigits(c: char)
    ensures IsHexDigit(c) <==> c in "0123456789abcdefABCDEF"
  {
  }

  lemma PlainIsNoPath(name: string)
    ensures IsPlain(name) <==> NoPath(name)
  {
  }

  lemma ShaIs(line: string)
    requires |line| >= 64
    ensures IsSha(line[..64]) <==> forall i :: 0 <= i < 64 ==> line[i] in "0123456789abcdefABCDEF"
  {
    hide IsHexDigit;
    forall c ensures IsHexDigit(c) <==> c in "0123456789abcdefABCDEF" {
      HexDigits(c);
    }
    if IsSha(line[..64]) {
      assert forall i :: 0 <= i < 64 ==> line[i] == line[..64][i];
    }
  }

  /** A line is read exactly when it is 64 hex digits in any case, two spaces and a
      name. */
  lemma LineIsRead(line: string)
    ensures ParseLine(line).Some? <==>
              && |line| > 66 && (forall i :: 0 <= i < 64 ==> line[i] in "0123456789abcdefABCDEF")
              && line[64] == ' ' && line[65] == ' ' && NoPath(line[66..])
    ensures ParseLine(line).Some? ==> ParseLine(line).value == (line[..64], line[66..])
  {
    hide Find, IsHexDigit, NoPath, IsSha;
    if |line| > 66 {
      ShaIs(line);
      PlainIsNoPath(line[66..]);
      if line[64] == ' ' && line[65] == ' ' && IsSha(line[..64]) {
        assert line == line[..64] + SEPARATOR + line[66..];
        LineReads(line[..64], line[66..]);
      }
    }
    if ParseLine(line).Some? {
      ParsedLineIs(line);
    }
  }

  lemma ParsedLineIs(line: string)
    requires ParseLine(line).Some?
    ensures |line| > 66 && line[64] == ' ' && line[65] == ' '
    ensures ParseLine(line).value == (line[..64], line[66..]) && IsSha(line[..64]) && IsPlain(line[66..])
  {
    hide Find;
    assert line[64..][..2] == SEPARATOR;
    assert line[64] == line[64..][0] && line[65] == line[64..][1];
  }

  /** The first line that isn't one is named. */
  lemma {:induction false} FirstBadLine(lines: seq<string>, sums: SumsMap, i: nat)
    requires i < |lines| && ParseLine(lines[i]).None?
    requires forall j :: 0 <= j < i ==> ParseLine(lines[j]).Some?
    ensures SumsFrom(lines, sums) == Err(lines[i])
  {
    hide ParseLine, ToLower;
    if i > 0 {
      var (sha, name) := ParseLine(lines[0]).value;
      assert lines[1..][i - 1] == lines[i];
      FirstBadLine(lines[1..], sums[name := ToLower(sha)], i - 1);
    }
  }

  // ----- The order -----------------------------------------------------------

  lemma ByNameIsOrder()
    ensures TotalPreorder(ByName)
  {
    hide CompareTexts;
    forall a: File, b: File ensures ByName(a, b) || ByName(b, a) {
      TextsAreOrdered(a.0, b.0);
    }
    forall a: File, b: File, c: File | ByName(a, b) && ByName(b, c) ensures ByName(a, c) {
      TextsAreTransitive(a.0, b.0, c.0);
    }
  }

  /** The files of a list stand by name. */
  lemma WrittenByName(files: seq<File>, ascending: seq<File>, sha: Digest)
    requires multiset(files) == multiset(ascending)
    requires forall i, j :: 0 <= i < j < |ascending| ==> TextBefore(ascending[i].0, ascending[j].0)
    ensures SumsText(files, sha) == SumLines(ascending, sha)
  {
    hide SumLines, Sort, TextBefore, CompareTexts;
    SortedByName(ascending);
    ByNameIsOrder();
    hide TotalPreorder;
    SortOfSorted(ByName, ascending);
    SortedRanksAgree(ByName, files, ascending);
    SortKeeps(ByName, files);
    var sorted := Sort(ByName, files);
    forall i | 0 <= i < |sorted| ensures sorted[i] == ascending[i] {
      assert sorted[i] in multiset(sorted) && sorted[i] in multiset(ascending);
      var j :| 0 <= j < |ascending| && ascending[j] == sorted[i];
      TextsAreOrdered(sorted[i].0, ascending[i].0);
      OneOfName(ascending, i, j);
    }
    assert sorted == ascending;
  }

  lemma SortedByName(files: seq<File>)
    requires forall i, j :: 0 <= i < j < |files| ==> TextBefore(files[i].0, files[j].0)
    ensures Sorted(ByName, files)
  {
    hide TextBefore, CompareTexts;
    forall i, j | 0 <= i < j < |files| ensures ByName(files[i], files[j]) {
      TextsByPlace(files[i].0, files[j].0);
    }
  }

  lemma OneOfName(files: seq<File>, i: nat, j: nat)
    requires forall i, j :: 0 <= i < j < |files| ==> TextBefore(files[i].0, files[j].0)
    requires i < |files| && j < |files| && files[i].0 == files[j].0
    ensures i == j
  {
    hide TextBefore, CompareTexts;
    TextsByPlace(files[i].0, files[j].0);
    TextsAreOrdered(files[i].0, files[j].0);
    TextsByPlace(files[j].0, files[i].0);
  }
}
