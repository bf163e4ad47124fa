/** `SHA256SUMS`, the list of a release's files: `parse_sums` in
    `common/src/hub_release.rs` and `sha256_sums` in
    `blentinelmake/src/hub_release.rs`. SHA-256 is any function `sha` that gives
    64 lower-case hex digits. */
module Sums {
  import opened Wrappers
  import opened Text
  import opened Splitting
  import opened Edits
  import opened Sorting
  import opened Orders

  type Content = seq<bv8>
  type File = (string, Content)
  type Digest = Content -> string
  type SumsMap = map<string, string>

  const SEPARATOR := "  "

  predicate IsHexDigit(c: char) {
    '0' <= c <= '9' || 'a' <= c <= 'f' || 'A' <= c <= 'F'
  }

  predicate IsSha(text: string) {
    |text| == 64 && forall i :: 0 <= i < |text| ==> IsHexDigit(text[i])
  }

  ghost predicate IsDigest(sha: Digest) {
    forall bytes :: IsSha(sha(bytes)) && ToLower(sha(bytes)) == sha(bytes)
  }

  /** `to_ascii_lowercase`. */
  function ToLower(text: string): (r: string)
    ensures |r| == |text|
  {
    seq(|text|, i requires 0 <= i < |text| => ToAsciiLowercase(text[i]))
  }

  // ----- Reading -------------------------------------------------------------

  /** A file's name, not a path. */
  predicate IsPlain(name: string) {
    name != "" && '/' !in name && '\\' !in name && name != ".."
  }

  /** One line: the hash and the name. */
  function ParseLine(line: string): Option<(string, string)> {
    match Find(line, SEPARATOR)
    case None => None
    case Some(i) =>
      var (sha, name) := (line[..i], line[i + 2..]);
      if IsSha(sha) && IsPlain(name) then Some((sha, name)) else None
  }

  /** The lines that aren't blank. */
  function Filled(text: string): seq<string> {
    Retain(line => Trim(line) != "", Lines(text))
  }

  /** What the lines add to `sums`; a line that isn't one makes it all invalid. */
  function SumsFrom(lines: seq<string>, sums: SumsMap): Result<SumsMap, string>
    decreases |lines|
  {
    if lines == [] then Ok(sums)
    else
      match ParseLine(lines[0])
      case None => Err(lines[0])
      case Some((sha, name)) => SumsFrom(lines[1..], sums[name := ToLower(sha)])
  }

  function SumsOf(text: string): Result<SumsMap, string> {
    SumsFrom(Filled(text), map[])
  }

  /** `parse_sums`. */
  method ParseSums(text: string) returns (r: Result<SumsMap, string>)
    ensures r == SumsOf(text)
  {
    hide ParseLine;
    var sums: SumsMap := map[];
    var lines := Filled(text);
    assert lines[0..] == lines;
    for i := 0 to |lines|
      invariant SumsFrom(lines, map[]) == SumsFrom(lines[i..], sums)
    {
      var parsed := ParseLine(lines[i]);
      assert lines[i..][1..] == lines[i + 1..];
      if parsed.None? {
        return Err(lines[i]);
      }
      sums := sums[parsed.value.1 := ToLower(parsed.value.0)];
    }
    r := Ok(sums);
  }

  /** `Sums::matches`. */
  predicate Matches(sums: SumsMap, name: string, bytes: Content, sha: Digest) {
    name in sums && EqIgnoreAsciiCase(sha(bytes), sums[name])
  }

  // ----- Writing -------------------------------------------------------------

  predicate ByName(a: File, b: File) {
    CompareTexts(a.0, b.0) != Greater
  }

  function SumLine(file: File, sha: Digest): string {
    sha(file.1) + SEPARATOR + file.0
  }

  function SumLines(files: seq<File>, sha: Digest): string {
    if files == [] then "" else SumLine(files[0], sha) + "\n" + SumLines(files[1..], sha)
  }

  /** `sha256_sums`. */
  function SumsText(files: seq<File>, sha: Digest): string {
    SumLines(Sort(ByName, files), sha)
  }

  // ----- What is read --------------------------------------------------------

  ghost predicate AllParse(lines: seq<string>) {
    forall i :: 0 <= i < |lines| ==> ParseLine(lines[i]).Some?
  }

  function NameOf(line: string): string {
    match ParseLine(line) case Some((_, name)) => name case None => ""
  }

  function ShaOf(line: string): string {
    match ParseLine(line) case Some((sha, _)) => ToLower(sha) case None => ""
  }

  function Names(lines: seq<string>): (r: seq<string>)
    ensures |r| == |lines|
    ensures forall i :: 0 <= i < |lines| ==> r[i] == NameOf(lines[i])
  {
    seq(|lines|, i requires 0 <= i < |lines| => NameOf(lines[i]))
  }

  /** The last line that names `name` gives its hash. */
  ghost predicate LastSays(lines: seq<string>, name: string, sha: string) {
    exists i :: 0 <= i < |lines| && NameOf(lines[i]) == name && ShaOf(lines[i]) == sha
                && forall k :: i < k < |lines| ==> NameOf(lines[k]) != name
  }

  lemma {:induction false} SumsAre(lines: seq<string>, sums: SumsMap)
    ensures SumsFrom(lines, sums).Ok? <==> AllParse(lines)
    ensures SumsFrom(lines, sums).Ok? ==>
              forall name :: name in SumsFrom(lines, sums).value <==> name in sums || name in Names(lines)
    ensures SumsFrom(lines, sums).Ok? ==>
              forall name :: name in SumsFrom(lines, sums).value ==>
                var sha := SumsFrom(lines, sums).value[name];
                LastSays(lines, name, sha) || (name !in Names(lines) && name in sums && sums[name] == sha)
    decreases |lines|
  {
    hide ParseLine, ToLower;
    if lines != [] && ParseLine(lines[0]).Some? {
      var rest := lines[1..];
      var next := sums[NameOf(lines[0]) := ShaOf(lines[0])];
      SumsAre(rest, next);
      assert lines == [lines[0]] + rest;
      assert AllParse(rest) <==> AllParse(lines);
      if SumsFrom(lines, sums).Ok? {
        var r := SumsFrom(lines, sums).value;
        forall name ensures name in Names(lines) <==> name == NameOf(lines[0]) || name in Names(rest) {
          NamesFirst(lines[0], rest, name);
        }
        forall name | name in r
          ensures LastSays(lines, name, r[name]) || (name !in Names(lines) && name in sums && sums[name] == r[name])
        {
          if LastSays(rest, name, r[name]) || name == NameOf(lines[0]) {
            LastOfMore(lines[0], rest, name, r[name]);
          }
        }
      }
    }
  }

  lemma NamesFirst(line: string, rest: seq<string>, name: string)
    ensures name in Names([line] + rest) <==> name == NameOf(line) || name in Names(rest)
  {
    hide NameOf;
    assert Names([line] + rest) == [NameOf(line)] + Names(rest);
  }

  lemma LastOfMore(line: string, rest: seq<string>, name: string, sha: string)
    requires LastSays(rest, name, sha) || (name !in Names(rest) && NameOf(line) == name && ShaOf(line) == sha)
    ensures LastSays([line] + rest, name, sha)
  {
    hide NameOf, ShaOf;
    var lines := [line] + rest;
    if LastSays(rest, name, sha) {
      var i :| 0 <= i < |rest| && NameOf(rest[i]) == name && ShaOf(rest[i]) == sha
               && forall k :: i < k < |rest| ==> NameOf(rest[k]) != name;
      assert NameOf(lines[i + 1]) == name && ShaOf(lines[i + 1]) == sha;
      assert forall k :: i + 1 < k < |lines| ==> lines[k] == rest[k - 1];
    } else {
      assert forall k :: 0 < k < |lines| ==> lines[k] == rest[k - 1] && Names(rest)[k - 1] in Names(rest);
      assert NameOf(lines[0]) == name;
    }
  }
}
