/** Stamping a manifest and a lock file (`blentinelmake/src/stamp.rs`): what
    changes, what stays, and what stamping once more does. */
module StampLaws {
  import opened Wrappers
  import opened Text
  import opened Edits
  import opened Stamp
  import opened StampedLines

  // ----- The manifest, line by line ------------------------------------------

  lemma DesignatedIsVersionLine(lines: seq<string>, i: nat, base: string)
    requires i < |lines| && Designated(lines, i, base)
    ensures IsVersionLine(Trim(lines[i]), base) && !StartsWith(Trim(lines[i]), "[")
  {
  }

  /** Stamping leaves every line in its section. */
  lemma {:induction false} SectionsStay(lines: seq<string>, base: string, version: string, i: nat)
    requires i <= |lines|
    ensures SectionAt(ManifestLines(lines, base, version), i) == SectionAt(lines, i)
  {
    hide Trim, Replaced, Designated, IsVersionLine;
    if i > 0 {
      var changed := ManifestLines(lines, base, version);
      SectionsStay(lines, base, version, i - 1);
      if Designated(lines, i - 1, base) {
        DesignatedIsVersionLine(lines, i - 1, base);
        StampedLine(lines[i - 1], base, version);
        OpensNone(Trim(changed[i - 1]), version);
      } else {
        assert changed[i - 1] == lines[i - 1];
      }
    }
  }

  lemma OpensNone(trimmed: string, version: string)
    requires trimmed == VersionLine(version)
    ensures !StartsWith(trimmed, "[")
  {
    assert trimmed[0] == 'v';
  }

  /** Of the stamped lines, those designated for the new version are those that
      were for either; none is for the old one. */
  lemma DesignatedAfter(lines: seq<string>, base: string, version: string, i: nat)
    requires i < |lines| && base != version
    ensures
      var changed := ManifestLines(lines, base, version);
      && (Designated(changed, i, version) <==> Designated(lines, i, base) || Designated(lines, i, version))
      && !Designated(changed, i, base)
      && !(Designated(lines, i, base) && Designated(lines, i, version))
      && (Designated(lines, i, base) ==> Replaced(changed[i], version, base) == lines[i])
  {
    hide SectionAt, Trim, Replaced, IsVersionLine, StartsWith;
    SectionsStay(lines, base, version, i);
    if Designated(lines, i, base) {
      LineAfter(lines[i], base, version);
    } else if IsVersionLine(Trim(lines[i]), base) {
      LineAfter(lines[i], base, version);
    }
  }

  lemma NoSection(version: string)
    ensures !StartsWith(VersionLine(version), "[")
  {
    assert VersionLine(version)[0] == 'v';
  }

  /** A stamped version line is one of the new version alone. */
  lemma LineAfter(line: string, base: string, version: string)
    requires base != version && IsVersionLine(Trim(line), base)
    ensures !IsVersionLine(Trim(line), version)
    ensures var changed := Replaced(line, base, version);
            && IsVersionLine(Trim(changed), version) && !IsVersionLine(Trim(changed), base)
            && !StartsWith(Trim(changed), "[") && Replaced(changed, version, base) == line
  {
    hide Trim, Replaced, Rewritten, IsLine, Last, AllWhitespace;
    StampedLine(line, base, version);
    var changed := Replaced(line, base, version);
    if IsVersionLine(Trim(changed), base) {
      OneVersion(Trim(changed), base, version);
    }
    if IsVersionLine(Trim(line), version) {
      OneVersion(Trim(line), base, version);
    }
    NoSection(version);
  }

  lemma {:induction false} DesignatedCounts(lines: seq<string>, base: string, version: string, n: nat)
    requires n <= |lines| && base != version
    ensures
      var changed := ManifestLines(lines, base, version);
      && DesignatedBefore(changed, n, version)
         == DesignatedBefore(lines, n, base) + DesignatedBefore(lines, n, version)
      && DesignatedBefore(changed, n, base) == 0
  {
    hide Designated, Trim, Replaced, SectionAt;
    if n > 0 {
      DesignatedCounts(lines, base, version, n - 1);
      DesignatedAfter(lines, base, version, n - 1);
    }
  }

  lemma {:induction false} NoneDesignated(lines: seq<string>, base: string, n: nat)
    requires n <= |lines|
    ensures DesignatedBefore(lines, n, base) == 0 <==> forall i :: 0 <= i < n ==> !Designated(lines, i, base)
  {
    hide Designated;
    if n > 0 {
      NoneDesignated(lines, base, n - 1);
    }
  }

  /** Of the first `n` lines, line `i` alone is designated. */
  ghost predicate OnlyDesignated(lines: seq<string>, i: nat, n: nat, base: string)
    requires n <= |lines|
  {
    && i < n && Designated(lines, i, base)
    && forall j :: 0 <= j < n && j != i ==> !Designated(lines, j, base)
  }

  lemma {:induction false} OneDesignated(lines: seq<string>, base: string, n: nat) returns (i: nat)
    requires n <= |lines| && DesignatedBefore(lines, n, base) == 1
    ensures OnlyDesignated(lines, i, n, base)
  {
    hide Designated;
    NoneDesignated(lines, base, n - 1);
    i := n - 1;
    if !Designated(lines, n - 1, base) {
      i := OneDesignated(lines, base, n - 1);
    }
  }

  lemma {:induction false} OnlyOneCounts(lines: seq<string>, i: nat, n: nat, base: string)
    requires n <= |lines| && OnlyDesignated(lines, i, n, base)
    ensures DesignatedBefore(lines, n, base) == 1
  {
    hide Designated;
    if i == n - 1 {
      NoneDesignated(lines, base, n - 1);
    } else {
      OnlyOneCounts(lines, i, n - 1, base);
    }
  }

  /** The lines of a stamped manifest. */
  lemma StampedManifestLines(text: string, base: string, version: string)
    requires '\n' !in version && StampedManifest(text, base, version).Ok?
    ensures SplitInclusive(StampedManifest(text, base, version).value)
         == ManifestLines(SplitInclusive(text), base, version)
  {
    var lines := SplitInclusive(text);
    var changed := ManifestLines(lines, base, version);
    LinesAreLines(text);
    forall i | 0 <= i < |lines| && Designated(lines, i, base) ensures IsVersionLine(Trim(lines[i]), base) {
      DesignatedIsVersionLine(lines, i, base);
    }
    hide Trim, Replaced, Designated, AreLines, SplitInclusive;
    StampedAreLines(lines, changed, base, version);
    SplitOfLines(changed);
  }

  /** Line `i` alone is designated and is rewritten; the others stay. */
  ghost predicate OneRewritten(lines: seq<string>, changed: seq<string>, i: nat, base: string, version: string) {
    && OnlyDesignated(lines, i, |lines|, base) && |changed| == |lines|
    && Rewritten(lines[i], changed[i], base, version)
    && forall j :: 0 <= j < |lines| && j != i ==> changed[j] == lines[j]
  }

  /** A manifest is stamped exactly when one line is designated; that line is
      rewritten, and every other stays. */
  lemma ManifestStamped(text: string, base: string, version: string)
    requires '\n' !in version
    ensures
      var lines, r := SplitInclusive(text), StampedManifest(text, base, version);
      && (r.Ok? <==> exists i: nat :: OnlyDesignated(lines, i, |lines|, base))
      && (r.Ok? ==> exists i: nat :: OneRewritten(lines, SplitInclusive(r.value), i, base, version))
  {
    var lines, r := SplitInclusive(text), StampedManifest(text, base, version);
    hide Designated, Trim, Replaced, SplitInclusive, Rewritten;
    if r.Ok? {
      var i := OneDesignated(lines, base, |lines|);
      hide DesignatedBefore;
      DesignatedIsVersionLine(lines, i, base);
      StampedLine(lines[i], base, version);
      StampedManifestLines(text, base, version);
      assert OneRewritten(lines, SplitInclusive(r.value), i, base, version);
    } else if i: nat :| OnlyDesignated(lines, i, |lines|, base) {
      OnlyOneCounts(lines, i, |lines|, base);
      assert false;
    }
  }

  lemma ManifestUndone(lines: seq<string>, base: string, version: string)
    requires base != version
    ensures
      ManifestLines(ManifestLines(lines, base, version), version, base) == lines
      <== DesignatedBefore(lines, |lines|, version) == 0
  {
    var changed := ManifestLines(lines, base, version);
    NoneDesignated(lines, version, |lines|);
    if DesignatedBefore(lines, |lines|, version) == 0 {
      forall i | 0 <= i < |lines| ensures ManifestLines(changed, version, base)[i] == lines[i] {
        DesignatedAfter(lines, base, version, i);
        hide Designated, Replaced;
      }
    }
  }

  /** Stamping a stamped manifest back gives the text it came from, exactly when
      no designated line of that text held the new version already; else it is
      refused. */
  lemma ManifestStampedBack(text: string, base: string, version: string)
    requires '\n' !in version && base != version && StampedManifest(text, base, version).Ok?
    ensures
      var held := DesignatedBefore(SplitInclusive(text), |SplitInclusive(text)|, version);
      StampedManifest(StampedManifest(text, base, version).value, version, base)
      == if held == 0 then Ok(text) else Err(WrongCount(1, 1 + held))
  {
    var lines := SplitInclusive(text);
    StampedManifestLines(text, base, version);
    DesignatedCounts(lines, base, version, |lines|);
    ManifestUndone(lines, base, version);
    LinesAreLines(text);
    hide Designated, Replaced, SplitInclusive, DesignatedBefore, AreLines;
  }

  /** A stamped manifest isn't stamped again from the same base. */
  lemma ManifestRestamped(text: string, base: string, version: string, next: string)
    requires '\n' !in version && base != version && StampedManifest(text, base, version).Ok?
    ensures StampedManifest(StampedManifest(text, base, version).value, base, next) == Err(WrongCount(1, 0))
  {
    var lines := SplitInclusive(text);
    StampedManifestLines(text, base, version);
    DesignatedCounts(lines, base, version, |lines|);
    hide Designated, Replaced, SplitInclusive, DesignatedBefore;
  }
}
