/** What is stamped in a small manifest and a small lock file
    (`blentinelmake/src/stamp.rs`). */
module StampExamples {
  import opened Wrappers
  import opened Text
  import opened Splitting
  import opened Edits
  import opened Stamp
  import opened StampedLines
  import opened LockLaws

  predicate OneLine(text: string) {
    '\n' !in text
  }

  /** The line of a version in a manifest or a lock file. */
  function VersionText(version: string): string {
    "version = \"" + version + "\"\n"
  }

  lemma VersionTextIs(version: string)
    requires OneLine(version)
    ensures VersionText(version) == VersionLine(version) + "\n"
    ensures Trim(VersionText(version)) == VersionLine(version)
    ensures IsLine(VersionText(version)) && VersionText(version)[|VersionText(version)| - 1] == '\n'
  {
    var line := VersionLine(version);
    assert VersionText(version) == line + "\n";
    assert line[0] == 'v' && line[|line| - 1] == '"';
    TrimPadded("", line, "\n");
    assert "" + line + "\n" == line + "\n";
    hide Trim;
    assert VersionText(version)[..|VersionText(version)| - 1] == line;
    assert forall i :: 0 <= i < |line| ==> line[i] != '\n';
  }

  lemma VersionTextReplaced(base: string, version: string)
    ensures Replaced(VersionText(base), base, version) == VersionText(version)
  {
    hide ReplaceFirst;
    ReplacedIs("", "\n", base, version);
    assert "" + VersionLine(base) + "\n" == VersionText(base);
    assert "" + VersionLine(version) + "\n" == VersionText(version);
  }

  // ----- A manifest ----------------------------------------------------------

  /** A manifest of one section that holds a version. */
  function Manifest(section: string, version: string): string {
    "[" + section + "]\n" + VersionText(version)
  }

  lemma SectionLine(section: string)
    requires OneLine(section)
    ensures var line := "[" + section + "]\n";
            && Trim(line) == "[" + section + "]" && StartsWith(Trim(line), "[")
            && IsLine(line) && line[|line| - 1] == '\n'
  {
    hide Trim;
    var name, line := "[" + section + "]", "[" + section + "]\n";
    EndsWithFeed("[", section, "]");
    assert line == "" + name + "\n";
    assert name[0] == '[' && name[|name| - 1] == ']';
    TrimPadded("", name, "\n");
    assert name[..1] == "[";
  }

  lemma EndsWithFeed(left: string, text: string, right: string)
    requires OneLine(left) && OneLine(text) && OneLine(right)
    ensures IsLine(left + text + right + "\n")
  {
    var line := left + text + right + "\n";
    assert line[..|line| - 1] == left + text + right;
  }

  lemma TwoLines(a: string, b: string)
    requires IsLine(a) && a[|a| - 1] == '\n' && IsLine(b)
    ensures SplitInclusive(a + b) == [a, b]
  {
    hide SplitInclusive, Concat;
    ConcatTwo(a, b);
    SplitOfLines([a, b]);
  }

  lemma IsNoSection(version: string)
    ensures !StartsWith(VersionLine(version), "[")
  {
    assert VersionLine(version)[0] == 'v';
  }

  lemma SectionNames(section: string)
    ensures "[" + section + "]" == WORKSPACE_SECTION <==> section == "workspace.package"
  {
    var line := "[" + section + "]";
    assert line[1..|line| - 1] == section;
    assert WORKSPACE_SECTION[1..|WORKSPACE_SECTION| - 1] == "workspace.package";
    assert "[" + "workspace.package" + "]" == WORKSPACE_SECTION;
  }

  /** Which lines of a small manifest are designated. */
  lemma SmallLines(section: string, base: string)
    requires OneLine(section) && OneLine(base)
    ensures
      var lines := ["[" + section + "]\n", VersionText(base)];
      && !Designated(lines, 0, base)
      && (Designated(lines, 1, base) <==> section == "workspace.package")
      && DesignatedBefore(lines, 2, base) == if section == "workspace.package" then 1 else 0
  {
    SectionLine(section);
    VersionTextIs(base);
    IsNoSection(base);
    SectionNames(section);
    hide Trim, StartsWith, VersionText, Quoted;
    var lines := ["[" + section + "]\n", VersionText(base)];
    assert SectionAt(lines, 1) == "[" + section + "]";
    assert IsVersionLine(Trim(lines[1]), base);
    assert DesignatedBefore(lines, 1, base) == 0;
  }

  /** A version is stamped in the section `[workspace.package]`, and in no other. */
  lemma SectionDecides(section: string, base: string, version: string)
    requires OneLine(section) && OneLine(base)
    ensures StampedManifest(Manifest(section, base), base, version) ==
              if section == "workspace.package" then Ok(Manifest(section, version)) else Err(WrongCount(1, 0))
  {
    hide SplitInclusive, Designated, DesignatedBefore, VersionText, Replaced, Trim, StartsWith, Concat, IsLine;
    var first, second := "[" + section + "]\n", VersionText(base);
    SectionLine(section);
    VersionTextIs(base);
    TwoLines(first, second);
    SmallLines(section, base);
    VersionTextReplaced(base, version);
    var lines := ManifestLines([first, second], base, version);
    if section == "workspace.package" {
      assert lines == [first, VersionText(version)];
      ConcatTwo(first, VersionText(version));
    }
  }

  lemma ConcatTwo(a: string, b: string)
    ensures Concat([a, b]) == a + b
  {
    hide Concat;
    ConcatSingle(a);
    ConcatOne([a], b);
    assert [a] + [b] == [a, b];
  }

  // ----- A lock file ---------------------------------------------------------

  /** A lock file with a version before its one package, which comes from a registry
      or is the workspace's own. */
  function Lock(first: string, version: string, local: bool): string {
    VersionText(first) + "\n[[package]]" + Package(version, local)
  }

  function Package(version: string, local: bool): string {
    "\n" + VersionText(version) + if local then "" else "source = \"registry\"\n"
  }

  function PackageLines(version: string, local: bool): seq<string> {
    ["\n", VersionText(version)] + if local then [] else ["source = \"registry\"\n"]
  }

  lemma PackageIs(version: string, local: bool)
    requires OneLine(version)
    ensures AreLines(PackageLines(version, local)) && Concat(PackageLines(version, local)) == Package(version, local)
    ensures SplitInclusive(Package(version, local)) == PackageLines(version, local)
  {
    hide VersionText, SplitInclusive, Trim, Concat;
    var start, lines, source := ["\n", VersionText(version)], PackageLines(version, local), "source = \"registry\"\n";
    VersionTextIs(version);
    SourceIsLine();
    ConcatTwo("\n", VersionText(version));
    ConcatOne(start, source);
    assert start + [] == start;
    assert "\n" + VersionText(version) + "" == "\n" + VersionText(version);
    hide IsLine;
    LinesOfPackage(VersionText(version), local);
    SplitOfLines(lines);
  }

  lemma LinesOfPackage(text: string, local: bool)
    requires IsLine(text) && text[|text| - 1] == '\n'
    ensures AreLines(["\n", text] + if local then [] else ["source = \"registry\"\n"])
  {
    SourceIsLine();
  }

  lemma SourceIsLine()
    ensures IsLine("source = \"registry\"\n") && IsLine("\n")
  {
    var source := "source = \"registry\"\n";
    assert forall i :: 0 <= i < |source| - 1 ==> source[i] != '\n';
  }

  lemma PackageIsLocal(version: string, local: bool)
    requires OneLine(version)
    ensures IsLocal(Package(version, local)) <==> local
  {
    hide SplitInclusive, IsLocal, VersionText, Trim;
    PackageIs(version, local);
    LocalByLines(Package(version, local));
    var lines := PackageLines(version, local);
    VersionTextStarts(version);
    assert !StartsWith(lines[0], SOURCE) && !StartsWith(lines[1], SOURCE);
    if !local {
      assert StartsWith(lines[2], SOURCE) by {
        assert "source = \"registry\"\n"[..9] == "source = ";
      }
    }
  }

  lemma VersionTextStarts(version: string)
    ensures !StartsWith(VersionText(version), SOURCE) && !StartsWith(VersionText(version), "[[package]]")
  {
    assert VersionText(version)[0] == 'v';
    assert forall n :: 0 < n <= |VersionText(version)| ==> VersionText(version)[..n][0] == 'v';
  }

  lemma NoPackageIn(lines: seq<string>)
    requires AreLines(lines) && forall i :: 0 <= i < |lines| ==> !StartsWith(lines[i], "[[package]]")
    ensures !Contains(Concat(lines), PACKAGE)
  {
    hide Contains, Concat, StartsWith, AreLines;
    PackageText();
    LineStarts(lines, "[[package]]");
  }

  lemma PackageText()
    ensures PACKAGE == ['\n'] + "[[package]]" && '\n' !in "[[package]]"
  {
  }

  lemma SmallBlocks(first: string, version: string, local: bool)
    requires OneLine(first) && OneLine(version)
    ensures SplitOn(Lock(first, version, local), PACKAGE) == [VersionText(first), Package(version, local)]
  {
    hide Contains, SplitOn, Concat, VersionText, StartsWith, Trim, SplitInclusive;
    VersionTextIs(first);
    PackageIs(version, local);
    VersionTextStarts(first);
    VersionTextStarts(version);
    NoneStarts();
    NoPackageIn([VersionText(first)]);
    ConcatSingle(VersionText(first));
    NoPackageIn(PackageLines(version, local));
    PackageLeads();
    var parts := [VersionText(first), Package(version, local)];
    SplitOnJoin(parts, PACKAGE);
    JoinTwo(VersionText(first), Package(version, local));
  }

  lemma NoneStarts()
    ensures !StartsWith("\n", "[[package]]") && !StartsWith("source = \"registry\"\n", "[[package]]")
  {
    assert "source = \"registry\"\n"[..11][0] == 's';
  }

  lemma ConcatSingle(text: string)
    ensures Concat([text]) == text
  {
    assert [text][1..] == [] && Concat([]) == "" && text + "" == text;
  }

  lemma JoinTwo(a: string, b: string)
    ensures Join([a, b], PACKAGE) == a + PACKAGE + b
  {
    assert [a, b][1..] == [b];
  }

  lemma SmallPackage(base: string, version: string)
    requires OneLine(base)
    ensures VersionLines(PackageLines(base, true), base) == 1
    ensures Concat(BlockLines(PackageLines(base, true), base, version)) == Package(version, true)
  {
    VersionTextIs(base);
    VersionTextReplaced(base, version);
    BlankIsNoVersion(base);
    hide VersionText, Trim, Replaced, Quoted;
    var lines := PackageLines(base, true);
    assert lines == ["\n", VersionText(base)];
    assert lines[..1] == ["\n"] && ["\n"][..0] == [];
    assert VersionLines([], base) == 0 && VersionLines(["\n"], base) == 0;
    assert IsVersionLine(Trim(lines[1]), base);
    var changed := BlockLines(lines, base, version);
    assert changed == ["\n", VersionText(version)];
    ConcatTwo("\n", VersionText(version));
  }

  lemma BlankIsNoVersion(base: string)
    ensures !IsVersionLine(Trim("\n"), base)
  {
    TrimBlank("\n");
  }

  /** The version of a package is stamped exactly when no source line follows its
      name; what stands before the first package is never stamped. */
  lemma SourceDecides(base: string, version: string, local: bool, members: nat)
    requires OneLine(base)
    ensures
      var found := if local then 1 else 0;
      StampedLock(Lock(base, base, local), base, version, members) ==
        if members == found then Ok(Lock(base, if local then version else base, local))
        else Err(WrongCount(members, found))
  {
    hide SplitOn, SplitInclusive, VersionText, Package, IsLocal, BlockLines, VersionLines, Concat, PackageLines, Join;
    SmallBlocks(base, base, local);
    PackageIsLocal(base, local);
    PackageIs(base, local);
    SmallPackage(base, version);
    var blocks := [VersionText(base), Package(base, local)];
    assert StampsBefore(blocks, 1, base) == 0;
    assert StampsBefore(blocks, 2, base) == if local then 1 else 0;
    var changed := StampedBlocks(blocks, base, version);
    assert changed == [VersionText(base), Package(if local then version else base, local)];
    JoinTwo(VersionText(base), Package(if local then version else base, local));
  }
}
