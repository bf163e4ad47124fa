/** Reading a folder of binaries against its list (`read_binaries` in
    `blentinelmake/src/hub_release.rs`). The folder is the list of its entries, in
    any order, without read errors. */
module Binaries {
  import opened Wrappers
  import opened Text
  import opened Sorting
  import opened Sums
  import opened SumsLaws

  const SUMS_FILE := "SHA256SUMS"

  datatype BinariesError =
    | NotSums(line: string)
    | NotABinary(name: string)
    | NotListed(name: string)
    | Missing

  ghost predicate Distinct<T(!new)>(s: seq<T>) {
    forall i, j :: 0 <= i < j < |s| ==> s[i] != s[j]
  }

  function FileNames(files: seq<File>): (r: seq<string>)
    ensures |r| == |files|
    ensures forall i :: 0 <= i < |files| ==> r[i] == files[i].0
  {
    seq(|files|, i requires 0 <= i < |files| => files[i].0)
  }

  /** The entries other than the list itself. */
  function Others(folder: seq<File>): (r: seq<File>)
    ensures |r| <= |folder|
  {
    if folder == [] then []
    else
      var n := |folder| - 1;
      Others(folder[..n]) + if folder[n].0 == SUMS_FILE then [] else [folder[n]]
  }

  predicate Good(file: File, sums: SumsMap, known: set<string>, sha: Digest) {
    file.0 in known && Matches(sums, file.0, file.1, sha)
  }

  /** The folder holds what its list says: each other entry is a binary of the
      release with the listed hash; each line of the list names an entry, no two
      the same. */
  ghost predicate Exact(text: string, folder: seq<File>, known: set<string>, sha: Digest) {
    && SumsOf(text).Ok?
    && (forall f :: f in Others(folder) ==> Good(f, SumsOf(text).value, known, sha))
    && Distinct(Names(Filled(text)))
    && forall name :: name in Names(Filled(text)) <==> name in FileNames(Others(folder))
  }

  // ----- Counting ------------------------------------------------------------

  function Elements<T>(s: seq<T>): set<T> {
    set x | x in s
  }

  lemma {:induction false} ElementCount<T(!new)>(s: seq<T>)
    ensures |Elements(s)| <= |s|
    ensures |Elements(s)| == |s| <==> Distinct(s)
    decreases |s|
  {
    if s != [] {
      var n := |s| - 1;
      var init, last := s[..n], s[n];
      ElementCount(init);
      assert s == init + [last];
      assert Elements(s) == Elements(init) + {last};
      if last in init {
        var i :| 0 <= i < n && s[i] == last;
        assert Elements(s) == Elements(init);
      } else {
        assert Distinct(s) <==> Distinct(init) by {
          assert forall i :: 0 <= i < n ==> s[i] == init[i] && init[i] in init;
        }
      }
    }
  }

  /** A list without repetitions within another has as many elements exactly when
      the other has no repetitions either, and the same elements. */
  lemma Counting<T(!new)>(a: seq<T>, b: seq<T>)
    requires Distinct(a) && forall x :: x in a ==> x in b
    ensures |a| == |b| <==> Distinct(b) && forall x :: x in b ==> x in a
  {
    ElementCount(a);
    ElementCount(b);
    var x, y := Elements(a), Elements(b);
    assert x <= y;
    assert |y - x| == |y| - |x|;
    if |a| == |b| {
      assert y - x == {};
      assert forall e :: e in b ==> e in y;
    } else if forall e :: e in b ==> e in a {
      assert x == y;
    }
  }

  // ----- The source ----------------------------------------------------------

  lemma {:induction false} OthersAre(folder: seq<File>, f: File)
    ensures f in Others(folder) <==> f in folder && f.0 != "SHA256SUMS"
    decreases |folder|
  {
    if folder != [] {
      var n := |folder| - 1;
      OthersAre(folder[..n], f);
      assert folder == folder[..n] + [folder[n]];
    }
  }

  lemma {:induction false} OthersDistinct(folder: seq<File>)
    requires Distinct(FileNames(folder))
    ensures Distinct(FileNames(Others(folder)))
    decreases |folder|
  {
    if folder != [] {
      var n := |folder| - 1;
      var rest := Others(folder[..n]);
      assert forall i :: 0 <= i < n ==> FileNames(folder[..n])[i] == FileNames(folder)[i];
      OthersDistinct(folder[..n]);
      forall i | 0 <= i < |rest| ensures rest[i].0 != folder[n].0 {
        OthersAre(folder[..n], rest[i]);
        var k :| 0 <= k < n && folder[..n][k] == rest[i];
        assert FileNames(folder)[k] != FileNames(folder)[n];
      }
      if folder[n].0 != SUMS_FILE {
        assert FileNames(Others(folder)) == FileNames(rest) + [folder[n].0];
      }
    }
  }

  /** Once every entry is listed, the number of lines decides. */
  lemma CountDecides(text: string, folder: seq<File>, known: set<string>, sha: Digest)
    requires Distinct(FileNames(folder)) && SumsOf(text).Ok?
    requires forall f :: f in Others(folder) ==> Good(f, SumsOf(text).value, known, sha)
    ensures |Others(folder)| == |Filled(text)| <==> Exact(text, folder, known, sha)
  {
    hide Filled, SumsFrom, Names, Others, Good, Distinct;
    var lines, files := Filled(text), Others(folder);
    OthersDistinct(folder);
    forall name | name in FileNames(files) ensures name in Names(lines) {
      var i :| 0 <= i < |files| && FileNames(files)[i] == name;
      assert files[i] in files;
      GoodIsNamed(text, files[i], known, sha);
    }
    Counting(FileNames(files), Names(lines));
  }

  lemma GoodIsNamed(text: string, file: File, known: set<string>, sha: Digest)
    requires SumsOf(text).Ok? && Good(file, SumsOf(text).value, known, sha)
    ensures file.0 in Names(Filled(text))
  {
    hide Filled, SumsFrom, NameOf;
    SumsAre(Filled(text), map[]);
  }

  /** What each refusal says of the folder. */
  ghost predicate Wrong(text: string, folder: seq<File>, known: set<string>, sha: Digest, error: BinariesError) {
    match error
    case NotSums(line) => SumsOf(text) == Err(line)
    case NotABinary(name) => name !in known && exists f :: f in Others(folder) && f.0 == name
    case NotListed(name) =>
      SumsOf(text).Ok? && exists f :: f in Others(folder) && f.0 == name && !Matches(SumsOf(text).value, name, f.1, sha)
    case Missing =>
      && SumsOf(text).Ok? && (forall f :: f in Others(folder) ==> Good(f, SumsOf(text).value, known, sha))
      && |Others(folder)| != |Filled(text)|
  }

  /** A refusal is never of an exact folder, and any other can be refused. */
  lemma RefusedExactly(text: string, folder: seq<File>, known: set<string>, sha: Digest)
    requires Distinct(FileNames(folder))
    ensures (exists error :: Wrong(text, folder, known, sha, error)) <==> !Exact(text, folder, known, sha)
  {
    hide Filled, SumsOf, Matches, Names, FileNames, Others, Distinct;
    if SumsOf(text).Err? {
      assert Wrong(text, folder, known, sha, NotSums(SumsOf(text).error));
    } else if f :| f in Others(folder) && !Good(f, SumsOf(text).value, known, sha) {
      assert Wrong(text, folder, known, sha, if f.0 in known then NotListed(f.0) else NotABinary(f.0));
    } else {
      CountDecides(text, folder, known, sha);
      if |Others(folder)| != |Filled(text)| {
        assert Wrong(text, folder, known, sha, Missing);
      }
    }
  }

  /** `read_binaries`: it succeeds exactly when the folder holds what its list
      says, and then gives its files by name. */
  method ReadBinaries(text: string, folder: seq<File>, known: set<string>, sha: Digest)
    returns (r: Result<seq<File>, BinariesError>)
    requires Distinct(FileNames(folder))
    ensures r.Ok? <==> Exact(text, folder, known, sha)
    ensures r.Ok? ==> r.value == Sort(ByName, Others(folder))
    ensures r.Err? ==> Wrong(text, folder, known, sha, r.error)
  {
    hide Filled, SumsFrom, Matches, Sort, Names;
    var sums := ParseSums(text);
    if sums.Err? {
      return Err(NotSums(sums.error));
    }
    var files := [];
    for i := 0 to |folder|
      invariant files == Others(folder[..i])
      invariant forall f :: f in files ==> Good(f, sums.value, known, sha)
    {
      var (name, bytes) := folder[i];
      assert folder[..i + 1][..i] == folder[..i];
      OthersAre(folder, folder[i]);
      assert name != SUMS_FILE ==> folder[i] in Others(folder) && folder[i].0 == name;
      if name == SUMS_FILE {
        continue;
      }
      if name !in known {
        return Err(NotABinary(name));
      }
      if !Matches(sums.value, name, bytes, sha) {
        return Err(NotListed(name));
      }
      files := files + [(name, bytes)];
    }
    assert folder[..|folder|] == folder;
    CountDecides(text, folder, known, sha);
    if |files| != |Filled(text)| {
      return Err(Missing);
    }
    r := Ok(Sort(ByName, files));
  }

  // ----- Written and read ----------------------------------------------------

  lemma SameHash(text: string)
    ensures EqIgnoreAsciiCase(text, text)
  {
  }

  /** A folder that holds some binaries, and the list written for them, is read,
      if the names of binaries can be listed. */
  lemma WrittenIsExact(folder: seq<File>, known: set<string>, sha: Digest)
    requires IsDigest(sha) && Distinct(FileNames(folder))
    requires forall f :: f in Others(folder) ==> f.0 in known
    requires forall name :: name in known ==> Writable(name)
    ensures Exact(SumsText(Others(folder), sha), folder, known, sha)
  {
    hide IsDigest, IsPlain, OneLine, EndsInReturn, SumsFrom, Filled, SumLines, Sort, Others, LinesOf, EqIgnoreAsciiCase;
    var files := Others(folder);
    var text, sorted := SumsText(files, sha), Sort(ByName, files);
    OthersDistinct(folder);
    DistinctIsConsistent(files);
    SortedAreSame(files);
    SumsRoundTrip(files, sha);
    LinesRead(sorted, sha);
    forall f | f in files ensures Good(f, SumsOf(text).value, known, sha) {
      SameHash(sha(f.1));
    }
    hide Good, Writable;
    CountDecides(text, folder, known, sha);
  }

  lemma DistinctIsConsistent(files: seq<File>)
    requires Distinct(FileNames(files))
    ensures Consistent(files)
  {
    forall f, g | f in files && g in files && f.0 == g.0 ensures f == g {
      var i :| 0 <= i < |files| && files[i] == f;
      var j :| 0 <= j < |files| && files[j] == g;
      assert FileNames(files)[i] == FileNames(files)[j];
    }
  }

  // ----- The hashes ----------------------------------------------------------

  /** The same text but for the case of letters. */
  ghost predicate SameButCase(a: string, b: string) {
    |a| == |b| && forall i :: 0 <= i < |a| ==> a[i] == b[i] || ToAsciiLowercase(a[i]) == ToAsciiLowercase(b[i])
  }

  /** In an exact folder each other entry is a known binary whose hash is, but for
      case, the one that the last line with its name gives. */
  lemma HashesAreListed(text: string, folder: seq<File>, known: set<string>, sha: Digest, f: File)
    requires Exact(text, folder, known, sha) && f in Others(folder)
    ensures f.0 in known && f.0 in SumsOf(text).value
    ensures SameButCase(sha(f.1), SumsOf(text).value[f.0])
    ensures LastSays(Filled(text), f.0, SumsOf(text).value[f.0])
  {
    hide SumsFrom, Filled, Others, LastSays;
    SumsAre(Filled(text), map[]);
  }

  lemma LowerCaseIsSame(a: string, b: string)
    requires ToLower(a) == a && ToLower(b) == b
    ensures EqIgnoreAsciiCase(a, b) <==> a == b
  {
    if EqIgnoreAsciiCase(a, b) {
      forall i | 0 <= i < |a| ensures a[i] == b[i] {
        assert ToLower(a)[i] == a[i] && ToLower(b)[i] == b[i];
      }
    }
  }

  /** One of the files has this name, and this hash. */
  ghost predicate HasHash(files: seq<File>, sha: Digest, name: string, hash: string) {
    exists g :: g in files && g.0 == name && sha(g.1) == hash
  }

  ghost predicate HasName(files: seq<File>, name: string) {
    exists g :: g in files && g.0 == name
  }

  /** An entry matches a written list exactly when one of the files it was written
      for has its name and its hash. */
  lemma MatchesWritten(files: seq<File>, sha: Digest, f: File)
    requires IsDigest(sha) && Consistent(files) && forall g :: g in files ==> Writable(g.0)
    ensures SumsOf(SumsText(files, sha)).Ok?
    ensures Matches(SumsOf(SumsText(files, sha)).value, f.0, f.1, sha) <==> HasHash(files, sha, f.0, sha(f.1))
  {
    hide SumsOf, SumsText, Writable, IsSha, EqIgnoreAsciiCase, ToLower, Consistent;
    SumsRoundTrip(files, sha);
    var sums := SumsOf(SumsText(files, sha)).value;
    if f.0 in sums {
      var g :| g in files && g.0 == f.0;
      assert sums[f.0] == sha(g.1);
      LowerCaseIsSame(sha(f.1), sha(g.1));
    }
    if HasHash(files, sha, f.0, sha(f.1)) {
      var g :| g in files && g.0 == f.0 && sha(g.1) == sha(f.1);
      LowerCaseIsSame(sha(f.1), sha(g.1));
    }
  }

  lemma LinesOfWritten(files: seq<File>, sha: Digest)
    requires IsDigest(sha) && forall g :: g in files ==> Writable(g.0)
    ensures |Filled(SumsText(files, sha))| == |files|
  {
    hide IsDigest, IsPlain, EndsInReturn, Filled, SumLines, Sort, LinesOf;
    SortedAreSame(files);
    LinesRead(Sort(ByName, files), sha);
  }

  lemma NamesHave(files: seq<File>, name: string)
    ensures name in FileNames(files) <==> HasName(files, name)
  {
    if name in FileNames(files) {
      var i :| 0 <= i < |files| && FileNames(files)[i] == name;
      assert files[i] in files;
    }
    if g :| g in files && g.0 == name {
      var i :| 0 <= i < |files| && files[i] == g;
      assert FileNames(files)[i] == name;
    }
  }

  /** A folder is what the list written for some files says exactly when its other
      entries are known binaries with the names of the files and the same hashes. */
  lemma WrittenExactly(files: seq<File>, folder: seq<File>, known: set<string>, sha: Digest)
    requires IsDigest(sha) && Distinct(FileNames(files)) && Distinct(FileNames(folder))
    requires forall g :: g in files ==> Writable(g.0)
    ensures Exact(SumsText(files, sha), folder, known, sha) <==>
              && (forall f :: f in Others(folder) ==> f.0 in known && HasHash(files, sha, f.0, sha(f.1)))
              && (forall g :: g in files ==> HasName(Others(folder), g.0))
  {
    hide IsDigest, Writable, Filled, SumsText, Others, SumsOf, Matches, HasHash, Consistent, Names, FileNames, Distinct;
    var text, entries := SumsText(files, sha), Others(folder);
    DistinctIsConsistent(files);
    OthersDistinct(folder);
    LinesOfWritten(files, sha);
    SumsRoundTripIsOk(files, sha);
    forall f: File ensures Matches(SumsOf(text).value, f.0, f.1, sha) <==> HasHash(files, sha, f.0, sha(f.1)) {
      MatchesWritten(files, sha, f);
    }
    if forall f :: f in entries ==> Good(f, SumsOf(text).value, known, sha) {
      CountDecides(text, folder, known, sha);
      AsManyAsFiles(files, entries, sha);
    }
  }

  lemma SumsRoundTripIsOk(files: seq<File>, sha: Digest)
    requires IsDigest(sha) && Consistent(files) && forall g :: g in files ==> Writable(g.0)
    ensures SumsOf(SumsText(files, sha)).Ok?
  {
    hide SumsOf, SumsText, Writable, IsDigest, Lists;
    SumsRoundTrip(files, sha);
  }

  /** Entries with distinct names among those of the files are as many as the files
      exactly when every file's name is among them. */
  lemma AsManyAsFiles(files: seq<File>, entries: seq<File>, sha: Digest)
    requires Distinct(FileNames(files)) && Distinct(FileNames(entries))
    requires forall f :: f in entries ==> HasHash(files, sha, f.0, sha(f.1))
    ensures |entries| == |files| <==> forall g :: g in files ==> HasName(entries, g.0)
  {
    hide FileNames, Distinct;
    forall name | name in FileNames(entries) ensures name in FileNames(files) {
      NamesHave(entries, name);
      NamesHave(files, name);
    }
    Counting(FileNames(entries), FileNames(files));
    forall g | g in files ensures g.0 in FileNames(entries) <==> HasName(entries, g.0) {
      NamesHave(entries, g.0);
    }
    forall g | g in files ensures g.0 in FileNames(files) {
      NamesHave(files, g.0);
    }
    forall name | name in FileNames(files) ensures HasName(files, name) {
      NamesHave(files, name);
    }
  }

  /** So an entry that was changed is refused. */
  lemma ChangedIsRefused(files: seq<File>, folder: seq<File>, known: set<string>, sha: Digest, f: File, g: File)
    requires IsDigest(sha) && Distinct(FileNames(files)) && Distinct(FileNames(folder))
    requires forall h :: h in files ==> Writable(h.0)
    requires f in Others(folder) && g in files && f.0 == g.0 && sha(f.1) != sha(g.1)
    ensures !Exact(SumsText(files, sha), folder, known, sha)
  {
    hide IsDigest, Writable, Others, Exact, SumsText, Distinct;
    WrittenExactly(files, folder, known, sha);
    DistinctIsConsistent(files);
  }

  /** What it takes for an entry to be good. */
  lemma GoodExactly(f: File, sums: SumsMap, known: set<string>, sha: Digest)
    ensures Good(f, sums, known, sha) <==> f.0 in known && f.0 in sums && SameButCase(sha(f.1), sums[f.0])
  {
  }
}
