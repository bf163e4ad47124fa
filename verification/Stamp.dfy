/** Stamping a development version into the workspace
    (`blentinelmake/src/stamp.rs`). */
module Stamp {
  import opened Wrappers
  import opened Text
  import opened Splitting
  import opened Edits
  import opened Decimals
  import V = Version

  datatype StampError =
    | NotPlain(base: string)
    | BadBuild(build: string)
    | NotAVersion(version: string)
    | WrongCount(expected: nat, found: nat)

  // ----- The development version ---------------------------------------------

  /** `dev_version`: `<base>-dev.<build>`, of a plain base and a positive build
      number without a leading zero. */
  function DevVersion(base: string, build: string): Result<string, StampError> {
    if V.Parse(base).None? || '-' in base || '+' in base then Err(NotPlain(base))
    else
      match ParseUnsigned(build, V.U64)
      case None => Err(BadBuild(build))
      case Some(n) =>
        if n == 0 || Decimal(n) != build then Err(BadBuild(build))
        else
          var version := base + "-dev." + build;
          if V.Parse(version).None? then Err(NotAVersion(version)) else Ok(version)
  }

  // ----- The line that is stamped --------------------------------------------

  const WORKSPACE_SECTION := "[workspace.package]"
  const PACKAGE := "\n[[package]]"
  const SOURCE := "source = "

  function Quoted(version: string): string {
    "\"" + version + "\""
  }

  /** `is_version_line`. */
  predicate IsVersionLine(trimmed: string, base: string) {
    trimmed == "version = " + Quoted(base)
  }

  function Replaced(line: string, base: string, version: string): string {
    ReplaceFirst(line, Quoted(base), Quoted(version))
  }

  // ----- The manifest --------------------------------------------------------

  /** The section line `i` is in: the last line before it that opens one. */
  function SectionAt(lines: seq<string>, i: nat): string
    requires i <= |lines|
  {
    if i == 0 then ""
    else
      var trimmed := Trim(lines[i - 1]);
      if StartsWith(trimmed, "[") then trimmed else SectionAt(lines, i - 1)
  }

  /** Is line `i` the workspace's version line? */
  predicate Designated(lines: seq<string>, i: nat, base: string)
    requires i < |lines|
  {
    && !StartsWith(Trim(lines[i]), "[")
    && SectionAt(lines, i) == WORKSPACE_SECTION
    && IsVersionLine(Trim(lines[i]), base)
  }

  /** The lines with the designated ones stamped. */
  function ManifestLines(lines: seq<string>, base: string, version: string): (r: seq<string>)
    ensures |r| == |lines|
    ensures forall i :: 0 <= i < |lines| ==>
              r[i] == if Designated(lines, i, base) then Replaced(lines[i], base, version) else lines[i]
  {
    seq(|lines|, i requires 0 <= i < |lines| =>
      if Designated(lines, i, base) then Replaced(lines[i], base, version) else lines[i])
  }

  /** How many of the first `n` lines are designated. */
  function DesignatedBefore(lines: seq<string>, n: nat, base: string): (count: nat)
    requires n <= |lines|
    ensures count <= n
  {
    if n == 0 then 0
    else DesignatedBefore(lines, n - 1, base) + if Designated(lines, n - 1, base) then 1 else 0
  }

  /** What `stamp_manifest` gives. */
  function StampedManifest(text: string, base: string, version: string): Result<string, StampError> {
    var lines := SplitInclusive(text);
    var found := DesignatedBefore(lines, |lines|, base);
    if found == 1 then Ok(Concat(ManifestLines(lines, base, version))) else Err(WrongCount(1, found))
  }

  lemma NothingConcatenated()
    ensures Concat([]) == ""
  {
  }

  lemma ConcatNext(parts: seq<string>, i: nat)
    requires i < |parts|
    ensures Concat(parts[..i + 1]) == Concat(parts[..i]) + parts[i]
  {
    hide Concat;
    assert parts[..i + 1] == parts[..i] + [parts[i]];
    ConcatOne(parts[..i], parts[i]);
  }

  lemma NothingDesignated(lines: seq<string>, base: string)
    ensures SectionAt(lines, 0) == "" && DesignatedBefore(lines, 0, base) == 0
  {
  }

  /** What line `i` does to the section, the count and the lines. */
  lemma ManifestNext(lines: seq<string>, i: nat, base: string, version: string)
    requires i < |lines|
    ensures
      var trimmed, section := Trim(lines[i]), SectionAt(lines, i);
      var designated := !StartsWith(trimmed, "[") && section == WORKSPACE_SECTION && IsVersionLine(trimmed, base);
      && SectionAt(lines, i + 1) == (if StartsWith(trimmed, "[") then trimmed else section)
      && DesignatedBefore(lines, i + 1, base) == DesignatedBefore(lines, i, base) + (if designated then 1 else 0)
      && ManifestLines(lines, base, version)[i] ==
           if designated then Replaced(lines[i], base, version) else lines[i]
  {
    hide Trim, StartsWith, IsVersionLine, Replaced;
  }

  /** `stamp_manifest`. */
  method StampManifest(text: string, base: string, version: string) returns (r: Result<string, StampError>)
    ensures r == StampedManifest(text, base, version)
  {
    hide Trim, Replaced, SplitInclusive, IsVersionLine, StartsWith, Concat;
    hide SectionAt, Designated, DesignatedBefore, ManifestLines;
    NothingConcatenated();
    var section := "";
    var stamped := 0;
    var out := "";
    var lines := SplitInclusive(text);
    NothingDesignated(lines, base);
    ghost var wanted := ManifestLines(lines, base, version);
    for i := 0 to |lines|
      invariant section == SectionAt(lines, i)
      invariant stamped == DesignatedBefore(lines, i, base)
      invariant out == Concat(wanted[..i])
    {
      var trimmed := Trim(lines[i]);
      ConcatNext(wanted, i);
      ManifestNext(lines, i, base, version);
      if StartsWith(trimmed, "[") {
        section := trimmed;
      } else if section == WORKSPACE_SECTION && IsVersionLine(trimmed, base) {
        stamped := stamped + 1;
        out := out + Replaced(lines[i], base, version);
        continue;
      }
      out := out + lines[i];
    }
    assert wanted[..|lines|] == wanted;
    r := if stamped == 1 then Ok(out) else Err(WrongCount(1, stamped));
  }

  // ----- The lock file -------------------------------------------------------

  /** A block of the lock file is local if none of its lines names a source. */
  predicate IsLocal(block: string) {
    var lines := Split(block, '\n');
    forall i :: 0 <= i < |lines| ==> !StartsWith(lines[i], SOURCE)
  }

  /** The lines of a local block with the version lines stamped. */
  function BlockLines(lines: seq<string>, base: string, version: string): (r: seq<string>)
    ensures |r| == |lines|
    ensures forall i :: 0 <= i < |lines| ==>
              r[i] == if IsVersionLine(Trim(lines[i]), base) then Replaced(lines[i], base, version) else lines[i]
  {
    seq(|lines|, i requires 0 <= i < |lines| =>
      if IsVersionLine(Trim(lines[i]), base) then Replaced(lines[i], base, version) else lines[i])
  }

  function VersionLines(lines: seq<string>, base: string): nat {
    if lines == [] then 0
    else VersionLines(lines[..|lines| - 1], base)
         + if IsVersionLine(Trim(lines[|lines| - 1]), base) then 1 else 0
  }

  /** Block `i` of the lock file after stamping: the part before the first
      package, and the packages with a source, stay as they are. */
  function StampedBlock(block: string, i: nat, base: string, version: string): string {
    if i > 0 && IsLocal(block) then Concat(BlockLines(SplitInclusive(block), base, version)) else block
  }

  /** How many lines stamping block `i` changes. */
  function StampsIn(block: string, i: nat, base: string): nat {
    if i > 0 && IsLocal(block) then VersionLines(SplitInclusive(block), base) else 0
  }

  function StampedBlocks(blocks: seq<string>, base: string, version: string): (r: seq<string>)
    ensures |r| == |blocks|
    ensures forall i :: 0 <= i < |blocks| ==> r[i] == StampedBlock(blocks[i], i, base, version)
  {
    seq(|blocks|, i requires 0 <= i < |blocks| => StampedBlock(blocks[i], i, base, version))
  }

  /** How many lines stamping the first `n` blocks changes. */
  function StampsBefore(blocks: seq<string>, n: nat, base: string): nat
    requires n <= |blocks|
  {
    if n == 0 then 0 else StampsBefore(blocks, n - 1, base) + StampsIn(blocks[n - 1], n - 1, base)
  }

  /** What `stamp_lock` gives. */
  function StampedLock(text: string, base: string, version: string, members: nat): Result<string, StampError> {
    var blocks := SplitOn(text, PACKAGE);
    var found := StampsBefore(blocks, |blocks|, base);
    if found == members then Ok(Join(StampedBlocks(blocks, base, version), PACKAGE))
    else Err(WrongCount(members, found))
  }

  /** The first `n` blocks joined as the loop writes them: the separator before
      each but the first. */
  function Written(blocks: seq<string>): string {
    if blocks == [] then ""
    else if |blocks| == 1 then blocks[0]
    else Written(blocks[..|blocks| - 1]) + PACKAGE + blocks[|blocks| - 1]
  }

  lemma NothingWritten()
    ensures Written([]) == ""
  {
  }

  lemma WrittenNext(blocks: seq<string>, i: nat)
    requires i < |blocks|
    ensures Written(blocks[..i + 1]) == Written(blocks[..i]) + (if i > 0 then PACKAGE else "") + blocks[i]
  {
    assert blocks[..i + 1][..i] == blocks[..i];
    assert i == 0 ==> "" + "" + blocks[0] == blocks[0];
  }

  lemma {:induction false} WrittenIsJoined(blocks: seq<string>)
    ensures Written(blocks) == Join(blocks, PACKAGE)
    decreases |blocks|
  {
    if |blocks| == 2 {
      assert blocks[1..] == [blocks[1]];
      assert blocks[..1] == [blocks[0]];
    } else if |blocks| > 2 {
      var n := |blocks| - 1;
      var mid := blocks[1..n];
      WrittenIsJoined(blocks[..n]);
      WrittenIsJoined(blocks[1..]);
      WrittenIsJoined(mid);
      assert blocks[..n][1..] == mid && blocks[1..][..n - 1] == mid;
      assert blocks[0] + PACKAGE + (Written(mid) + PACKAGE + blocks[n])
          == (blocks[0] + PACKAGE + Written(mid)) + PACKAGE + blocks[n];
    }
  }

  /** The loop over the lines of a local block. */
  method StampBlock(block: string, base: string, version: string) returns (out: string, stamped: nat)
    ensures out == Concat(BlockLines(SplitInclusive(block), base, version))
    ensures stamped == VersionLines(SplitInclusive(block), base)
  {
    hide Trim, ReplaceFirst, SplitInclusive, Concat;
    NothingConcatenated();
    out, stamped := "", 0;
    var lines := SplitInclusive(block);
    ghost var wanted := BlockLines(lines, base, version);
    for i := 0 to |lines|
      invariant out == Concat(wanted[..i])
      invariant stamped == VersionLines(lines[..i], base)
    {
      assert lines[..i + 1][..i] == lines[..i];
      ConcatNext(wanted, i);
      if IsVersionLine(Trim(lines[i]), base) {
        stamped := stamped + 1;
        out := out + Replaced(lines[i], base, version);
      } else {
        out := out + lines[i];
      }
    }
    assert wanted[..|lines|] == wanted && lines[..|lines|] == lines;
  }

  /** `stamp_lock`. */
  method StampLock(text: string, base: string, version: string, members: nat) returns (r: Result<string, StampError>)
    ensures r == StampedLock(text, base, version, members)
  {
    hide SplitOn, IsLocal, BlockLines, VersionLines, SplitInclusive, Concat, Join, Written;
    var out := "";
    var stamped := 0;
    var blocks := SplitOn(text, PACKAGE);
    ghost var wanted := StampedBlocks(blocks, base, version);
    NothingWritten();
    for i := 0 to |blocks|
      invariant out == Written(wanted[..i])
      invariant stamped == StampsBefore(blocks, i, base)
    {
      WrittenNext(wanted, i);
      if i > 0 {
        out := out + PACKAGE;
      }
      if i > 0 && IsLocal(blocks[i]) {
        var changed, count := StampBlock(blocks[i], base, version);
        out := out + changed;
        stamped := stamped + count;
      } else {
        out := out + blocks[i];
      }
    }
    assert wanted[..|blocks|] == wanted;
    WrittenIsJoined(wanted);
    r := if stamped != members then Err(WrongCount(members, stamped)) else Ok(out);
  }
}
