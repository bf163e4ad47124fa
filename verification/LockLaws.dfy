/** Stamping the lock file (`stamp_lock` in `blentinelmake/src/stamp.rs`). */
module LockLaws {
  import opened Wrappers
  import opened Text
  import opened Splitting
  import opened Edits
  import opened Stamp
  import opened StampedLines

  // ----- One block -----------------------------------------------------------

  /** A line of the block starts as a source line does. */
  ghost predicate HasSource(lines: seq<string>) {
    exists i :: 0 <= i < |lines| && StartsWith(lines[i], SOURCE)
  }

  /** Whether a block is local can be seen from its lines with their ends. */
  lemma {:induction false} LocalByLines(block: string)
    ensures IsLocal(block) <==> !HasSource(SplitInclusive(block))
    decreases |block|
  {
    var lines, kept := Split(block, '\n'), SplitInclusive(block);
    match SplitOnce(block, '\n')
    case None =>
      assert lines == [block];
      if block == "" {
        assert !StartsWith("", SOURCE);
      } else {
        assert kept == [block];
      }
    case Some((line, rest)) =>
      LocalByLines(rest);
      FirstPart(block, line, rest);
      var restLines, restKept := Split(rest, '\n'), SplitInclusive(rest);
      hide Split, SplitInclusive;
      SourceWithEnd(line);
      SourceOfMore(line + ['\n'], restKept);
      LocalOfMore(line, restLines);
  }

  lemma FirstPart(block: string, line: string, rest: string)
    requires block == line + ['\n'] + rest && '\n' !in line
    ensures Split(block, '\n') == [line] + Split(rest, '\n')
    ensures SplitInclusive(block) == [line + ['\n']] + SplitInclusive(rest)
  {
    SplitAt(line, '\n', rest);
    assert block[|line|] == '\n';
    assert forall j :: 0 <= j < |line| ==> block[j] == line[j];
    assert block[..|line| + 1] == line + ['\n'] && block[|line| + 1..] == rest;
  }

  lemma SourceWithEnd(line: string)
    ensures StartsWith(line + ['\n'], SOURCE) <==> StartsWith(line, SOURCE)
  {
    var n := |SOURCE|;
    if n <= |line| {
      assert (line + ['\n'])[..n] == line[..n];
    } else if |line| + 1 == n {
      assert (line + ['\n'])[..n][n - 1] == '\n';
      assert SOURCE[n - 1] == ' ';
    }
  }

  lemma SourceOfMore(line: string, lines: seq<string>)
    ensures HasSource([line] + lines) <==> StartsWith(line, SOURCE) || HasSource(lines)
  {
    hide StartsWith;
    var all := [line] + lines;
    if StartsWith(line, SOURCE) {
      assert StartsWith(all[0], SOURCE);
    }
    if i :| 0 <= i < |lines| && StartsWith(lines[i], SOURCE) {
      assert StartsWith(all[i + 1], SOURCE);
    }
  }

  lemma LocalOfMore(line: string, lines: seq<string>)
    ensures (forall i :: 0 <= i < |[line] + lines| ==> !StartsWith(([line] + lines)[i], SOURCE)) <==>
            !StartsWith(line, SOURCE) && forall i :: 0 <= i < |lines| ==> !StartsWith(lines[i], SOURCE)
  {
    SourceOfMore(line, lines);
  }

  /** Line `i` of a stamped block starts as before, if not white space or `v`. */
  lemma BlockLineStarts(lines: seq<string>, base: string, version: string, pattern: string, i: nat)
    requires i < |lines| && pattern != "" && !IsWhitespace(pattern[0]) && pattern[0] != 'v'
    ensures StartsWith(BlockLines(lines, base, version)[i], pattern) <==> StartsWith(lines[i], pattern)
  {
    hide Find;
  }

  lemma BlockLinesAreLines(block: string, base: string, version: string)
    requires '\n' !in version
    ensures AreLines(BlockLines(SplitInclusive(block), base, version))
    ensures SplitInclusive(Concat(BlockLines(SplitInclusive(block), base, version)))
         == BlockLines(SplitInclusive(block), base, version)
  {
    var lines := SplitInclusive(block);
    LinesAreLines(block);
    hide Trim, Replaced, AreLines, SplitInclusive;
    StampedAreLines(lines, BlockLines(lines, base, version), base, version);
    SplitOfLines(BlockLines(lines, base, version));
  }

  /** The same lines start with the pattern. */
  ghost predicate SameStarts(lines: seq<string>, changed: seq<string>, pattern: string) {
    && |changed| == |lines|
    && forall i :: 0 <= i < |lines| ==> (StartsWith(changed[i], pattern) <==> StartsWith(lines[i], pattern))
  }

  lemma BlockStarts(lines: seq<string>, base: string, version: string, pattern: string)
    requires pattern != "" && !IsWhitespace(pattern[0]) && pattern[0] != 'v'
    ensures SameStarts(lines, BlockLines(lines, base, version), pattern)
  {
    hide StartsWith, Replaced, IsVersionLine;
    forall i | 0 <= i < |lines|
      ensures StartsWith(BlockLines(lines, base, version)[i], pattern) <==> StartsWith(lines[i], pattern)
    {
      BlockLineStarts(lines, base, version, pattern, i);
    }
  }

  lemma SameSource(lines: seq<string>, changed: seq<string>)
    requires SameStarts(lines, changed, SOURCE)
    ensures HasSource(lines) <==> HasSource(changed)
  {
    hide StartsWith;
    if i :| 0 <= i < |lines| && StartsWith(lines[i], SOURCE) {
      assert StartsWith(changed[i], SOURCE);
    }
  }

  lemma SamePackages(lines: seq<string>, changed: seq<string>)
    requires AreLines(lines) && AreLines(changed) && SameStarts(lines, changed, "[[package]]")
    ensures Contains(Concat(lines), PACKAGE) <==> Contains(Concat(changed), PACKAGE)
  {
    assert PACKAGE == ['\n'] + "[[package]]";
    LineStarts(lines, "[[package]]");
    LineStarts(changed, "[[package]]");
    hide StartsWith, AreLines, Contains, Concat;
    if i :| 1 <= i < |lines| && StartsWith(lines[i], "[[package]]") {
      assert StartsWith(changed[i], "[[package]]");
    }
    if i :| 1 <= i < |changed| && StartsWith(changed[i], "[[package]]") {
      assert StartsWith(lines[i], "[[package]]");
    }
  }

  /** A stamped block stays local, and no package starts in it. */
  lemma BlockStays(block: string, base: string, version: string)
    requires '\n' !in version && !Contains(block, PACKAGE)
    ensures
      var changed := Concat(BlockLines(SplitInclusive(block), base, version));
      && (IsLocal(changed) <==> IsLocal(block))
      && !Contains(changed, PACKAGE)
  {
    hide *;
    var lines := SplitInclusive(block);
    var changed := BlockLines(lines, base, version);
    LinesAreLines(block);
    BlockLinesAreLines(block, base, version);
    LocalByLines(block);
    LocalByLines(Concat(changed));
    Blank();
    BlockStarts(lines, base, version, SOURCE);
    BlockStarts(lines, base, version, "[[package]]");
    SameSource(lines, changed);
    SamePackages(lines, changed);
  }

  lemma Blank()
    ensures SOURCE != "" && !IsWhitespace(SOURCE[0]) && SOURCE[0] != 'v'
    ensures !IsWhitespace("[[package]]"[0])
  {
  }

  /** Line `i` of a stamped block is the version line of the new version if it
      was that of either, and of the old one never. */
  lemma BlockLineAfter(lines: seq<string>, base: string, version: string, i: nat)
    requires i < |lines| && base != version
    ensures
      var changed := BlockLines(lines, base, version);
      var was, now := Trim(lines[i]), Trim(changed[i]);
      && (IsVersionLine(now, version) <==> IsVersionLine(was, base) || IsVersionLine(was, version))
      && !(IsVersionLine(was, base) && IsVersionLine(was, version))
      && !IsVersionLine(now, base)
      && (IsVersionLine(was, base) ==> Replaced(changed[i], version, base) == lines[i])
  {
    hide Trim, Replaced, IsVersionLine;
    var changed := BlockLines(lines, base, version);
    if IsVersionLine(Trim(lines[i]), base) {
      StampedLine(lines[i], base, version);
      IsOwnVersionLine(Trim(changed[i]), version);
      if IsVersionLine(Trim(changed[i]), base) {
        OneVersion(Trim(changed[i]), base, version);
      }
      if IsVersionLine(Trim(lines[i]), version) {
        OneVersion(Trim(lines[i]), base, version);
      }
    }
  }

  lemma IsOwnVersionLine(trimmed: string, version: string)
    requires trimmed == VersionLine(version)
    ensures IsVersionLine(trimmed, version)
  {
  }

  lemma {:induction false} VersionLineCounts(lines: seq<string>, base: string, version: string)
    requires base != version
    ensures
      var changed := BlockLines(lines, base, version);
      && VersionLines(changed, version) == VersionLines(lines, base) + VersionLines(lines, version)
      && VersionLines(changed, base) == 0
    decreases |lines|
  {
    hide Trim, Replaced, IsVersionLine;
    if lines != [] {
      var n := |lines| - 1;
      VersionLineCounts(lines[..n], base, version);
      BlockLineAfter(lines, base, version, n);
      assert BlockLines(lines, base, version)[..n] == BlockLines(lines[..n], base, version);
      hide BlockLines;
    }
  }

  lemma {:induction false} NoVersionLine(lines: seq<string>, version: string)
    ensures VersionLines(lines, version) == 0 <==>
              forall i :: 0 <= i < |lines| ==> !IsVersionLine(Trim(lines[i]), version)
    decreases |lines|
  {
    hide Trim, IsVersionLine;
    if lines != [] {
      var n := |lines| - 1;
      NoVersionLine(lines[..n], version);
      assert forall i :: 0 <= i < n ==> lines[..n][i] == lines[i];
    }
  }

  /** Stamping a block's lines back, when none held the new version. */
  lemma BlockLinesUndone(lines: seq<string>, base: string, version: string)
    requires base != version && VersionLines(lines, version) == 0
    ensures BlockLines(BlockLines(lines, base, version), version, base) == lines
  {
    NoVersionLine(lines, version);
    hide Trim, Replaced, IsVersionLine, VersionLines;
    var changed := BlockLines(lines, base, version);
    forall i | 0 <= i < |lines| ensures BlockLines(changed, version, base)[i] == lines[i] {
      BlockLineAfter(lines, base, version, i);
    }
  }

  /** Stamping once more what holds no version line of `base` changes nothing. */
  lemma BlockLinesKept(lines: seq<string>, base: string, version: string)
    requires VersionLines(lines, base) == 0
    ensures BlockLines(lines, base, version) == lines
  {
    NoVersionLine(lines, base);
  }

  // ----- The whole file ------------------------------------------------------

  /** The blocks of a stamped lock file are the stamped blocks. */
  lemma StampedLockBlocks(text: string, base: string, version: string)
    requires '\n' !in version
    ensures SplitOn(Join(StampedBlocks(SplitOn(text, PACKAGE), base, version), PACKAGE), PACKAGE)
         == StampedBlocks(SplitOn(text, PACKAGE), base, version)
  {
    var blocks := SplitOn(text, PACKAGE);
    var changed := StampedBlocks(blocks, base, version);
    PackageLeads();
    PartsHaveNone(text, PACKAGE);
    hide SplitOn, Contains, SplitInclusive, BlockLines, Concat, IsLocal, Join, Leads;
    forall i | 0 <= i < |changed| ensures !Contains(changed[i], PACKAGE) {
      BlockStays(blocks[i], base, version);
    }
    SplitOnJoin(changed, PACKAGE);
  }

  lemma PackageLeads()
    ensures Leads(PACKAGE) && PACKAGE != ""
  {
  }

  /** Stamping block `i` again, from the new version or from the old one. */
  lemma StampsAgain(block: string, i: nat, base: string, version: string, next: string)
    requires '\n' !in version && base != version && !Contains(block, PACKAGE)
    ensures
      var changed := StampedBlock(block, i, base, version);
      && StampsIn(changed, i, version) == StampsIn(block, i, base) + StampsIn(block, i, version)
      && StampsIn(changed, i, base) == 0
      && StampedBlock(changed, i, base, next) == changed
      && (StampsIn(block, i, version) == 0 ==> StampedBlock(changed, i, version, base) == block)
  {
    if i > 0 && IsLocal(block) {
      var lines := SplitInclusive(block);
      BlockStays(block, base, version);
      BlockLinesAreLines(block, base, version);
      VersionLineCounts(lines, base, version);
      LinesAreLines(block);
      hide SplitInclusive, BlockLines, Concat, IsLocal, AreLines, VersionLines;
      BlockLinesKept(BlockLines(lines, base, version), base, next);
      if VersionLines(lines, version) == 0 {
        BlockLinesUndone(lines, base, version);
      }
    }
  }

  lemma {:induction false} StampCounts(blocks: seq<string>, base: string, version: string, n: nat)
    requires '\n' !in version && base != version && n <= |blocks|
    requires forall i :: 0 <= i < |blocks| ==> !Contains(blocks[i], PACKAGE)
    ensures
      var changed := StampedBlocks(blocks, base, version);
      && StampsBefore(changed, n, version) == StampsBefore(blocks, n, base) + StampsBefore(blocks, n, version)
      && StampsBefore(changed, n, base) == 0
  {
    hide StampedBlock, StampsIn, Contains;
    if n > 0 {
      StampCounts(blocks, base, version, n - 1);
      StampsAgain(blocks[n - 1], n - 1, base, version, version);
    }
  }

  lemma {:induction false} NoStamps(blocks: seq<string>, version: string, n: nat)
    requires n <= |blocks|
    ensures StampsBefore(blocks, n, version) == 0 <==> forall i :: 0 <= i < n ==> StampsIn(blocks[i], i, version) == 0
  {
    hide StampsIn;
    if n > 0 {
      NoStamps(blocks, version, n - 1);
    }
  }

  /** When a lock file is stamped, its local packages' version lines, as many as
      there are members, are rewritten; every other line stays, in its block. */
  lemma LockStamped(text: string, base: string, version: string, members: nat)
    requires '\n' !in version && StampedLock(text, base, version, members).Ok?
    ensures
      var blocks, changed := SplitOn(text, PACKAGE), SplitOn(StampedLock(text, base, version, members).value, PACKAGE);
      && |changed| == |blocks|
      && StampsBefore(blocks, |blocks|, base) == members
      && forall i :: 0 <= i < |blocks| ==> BlockRewritten(blocks[i], changed[i], i, base, version)
  {
    var blocks := SplitOn(text, PACKAGE);
    StampedLockBlocks(text, base, version);
    PackageLeads();
    PartsHaveNone(text, PACKAGE);
    hide SplitOn, Contains, StampedBlock, BlockRewritten, Join, Leads;
    forall i | 0 <= i < |blocks|
      ensures BlockRewritten(blocks[i], StampedBlock(blocks[i], i, base, version), i, base, version)
    {
      StampedBlockRewritten(blocks[i], i, base, version);
    }
  }

  /** Block `i` before and after: nothing changes before the first package and in
      packages with a source; of the others only the version lines. */
  ghost predicate BlockRewritten(block: string, changed: string, i: nat, base: string, version: string) {
    var lines, after := SplitInclusive(block), SplitInclusive(changed);
    if i == 0 || !IsLocal(block) then changed == block
    else
      && IsLocal(changed) && |after| == |lines|
      && forall k :: 0 <= k < |lines| ==>
           if IsVersionLine(Trim(lines[k]), base) then Rewritten(lines[k], after[k], base, version)
           else after[k] == lines[k]
  }

  lemma StampedBlockRewritten(block: string, i: nat, base: string, version: string)
    requires '\n' !in version && !Contains(block, PACKAGE)
    ensures BlockRewritten(block, StampedBlock(block, i, base, version), i, base, version)
  {
    if i > 0 && IsLocal(block) {
      var lines := SplitInclusive(block);
      BlockStays(block, base, version);
      BlockLinesAreLines(block, base, version);
      hide SplitInclusive, Concat, IsLocal, AreLines, Trim, IsVersionLine, Replaced, Rewritten;
      forall k | 0 <= k < |lines| && IsVersionLine(Trim(lines[k]), base)
        ensures Rewritten(lines[k], BlockLines(lines, base, version)[k], base, version)
      {
        StampedLine(lines[k], base, version);
      }
    }
  }

  lemma LockUndone(blocks: seq<string>, base: string, version: string)
    requires '\n' !in version && base != version
    requires forall i :: 0 <= i < |blocks| ==> !Contains(blocks[i], PACKAGE)
    requires StampsBefore(blocks, |blocks|, version) == 0
    ensures StampedBlocks(StampedBlocks(blocks, base, version), version, base) == blocks
  {
    NoStamps(blocks, version, |blocks|);
    hide StampedBlock, StampsIn, StampsBefore, Contains;
    var changed := StampedBlocks(blocks, base, version);
    forall i | 0 <= i < |blocks| ensures StampedBlocks(changed, version, base)[i] == blocks[i] {
      StampsAgain(blocks[i], i, base, version, version);
    }
  }

  lemma LockFacts(text: string, base: string, version: string)
    requires '\n' !in version && base != version
    ensures
      var blocks := SplitOn(text, PACKAGE);
      var changed := StampedBlocks(blocks, base, version);
      && |changed| == |blocks| && Join(blocks, PACKAGE) == text
      && SplitOn(Join(changed, PACKAGE), PACKAGE) == changed
      && StampsBefore(changed, |blocks|, version)
         == StampsBefore(blocks, |blocks|, base) + StampsBefore(blocks, |blocks|, version)
      && StampsBefore(changed, |blocks|, base) == 0
      && (StampsBefore(blocks, |blocks|, version) == 0 ==> StampedBlocks(changed, version, base) == blocks)
  {
    var blocks := SplitOn(text, PACKAGE);
    StampedLockBlocks(text, base, version);
    PackageLeads();
    PartsHaveNone(text, PACKAGE);
    JoinOfSplitOn(text, PACKAGE);
    hide SplitOn, Contains, Join, StampsBefore, Leads, StampedBlock;
    StampCounts(blocks, base, version, |blocks|);
    if StampsBefore(blocks, |blocks|, version) == 0 {
      LockUndone(blocks, base, version);
    }
  }

  lemma LockOf(text: string, blocks: seq<string>, base: string, version: string, members: nat)
    requires blocks == SplitOn(text, PACKAGE)
    ensures
      var found := StampsBefore(blocks, |blocks|, base);
      StampedLock(text, base, version, members)
      == if found == members then Ok(Join(StampedBlocks(blocks, base, version), PACKAGE))
         else Err(WrongCount(members, found))
  {
    hide SplitOn, StampsBefore, StampedBlocks, Join;
  }

  /** Stamping a stamped lock file back gives the text it came from, exactly when
      no local package of that text was at the new version already; else it is
      refused. */
  lemma LockStampedBack(text: string, base: string, version: string, members: nat)
    requires '\n' !in version && base != version && StampedLock(text, base, version, members).Ok?
    ensures
      var blocks := SplitOn(text, PACKAGE);
      var held := StampsBefore(blocks, |blocks|, version);
      StampedLock(StampedLock(text, base, version, members).value, version, base, members)
      == if held == 0 then Ok(text) else Err(WrongCount(members, members + held))
  {
    hide *;
    PackageLeads();
    var blocks := SplitOn(text, PACKAGE);
    var changed := StampedBlocks(blocks, base, version);
    var out := Join(changed, PACKAGE);
    LockFacts(text, base, version);
    LockOf(text, blocks, base, version, members);
    assert StampedLock(text, base, version, members) == Ok(out);
    LockOf(out, changed, version, base, members);
  }

  /** A stamped lock file isn't stamped again from the same base, unless there is
      no member, when nothing changes. */
  lemma LockRestamped(text: string, base: string, version: string, next: string, members: nat)
    requires '\n' !in version && base != version && StampedLock(text, base, version, members).Ok?
    ensures
      var out := StampedLock(text, base, version, members).value;
      StampedLock(out, base, next, members) == if members == 0 then Ok(out) else Err(WrongCount(members, 0))
  {
    var blocks := SplitOn(text, PACKAGE);
    var changed := StampedBlocks(blocks, base, version);
    StampedLockBlocks(text, base, version);
    PackageLeads();
    PartsHaveNone(text, PACKAGE);
    StampCounts(blocks, base, version, |blocks|);
    hide SplitOn, Contains, Join, StampsBefore, Leads, StampedBlock;
    forall i | 0 <= i < |blocks| ensures StampedBlocks(changed, base, next)[i] == changed[i] {
      StampsAgain(blocks[i], i, base, version, next);
    }
    assert StampedBlocks(changed, base, next) == changed;
  }
}
