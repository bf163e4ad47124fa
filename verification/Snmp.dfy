/** The values of an `snmp` check as people write them, one a line
    (`common/src/snmp.rs`), and which values are valid (`SnmpOid::validate` in
    `common/src/checks.rs`). */
module Snmp {
  import opened Wrappers
  import opened Text
  import opened Splitting
  import opened Oids

  const MAX_SNMP_NAME_CHARS := 60
  const MAX_SNMP_WORDS := 30
  const MAX_SNMP_UNIT_CHARS := 12
  const MAX_SNMP_MEANING_CHARS := 40
  const MAX_KEYWORD_CHARS := 200

  // ----- Values --------------------------------------------------------------

  /** A 64-bit float, by its bits. */
  datatype F64 = F64(bits: nat)

  /** What the platform does with floats: parsing and printing, and the
      arithmetic the printer uses. */
  datatype Floats = Floats(
    parse: string -> Option<F64>,
    show: F64 -> string,
    finite: F64 -> bool,
    zero: F64 -> bool,
    inverse: F64 -> F64,
    round: F64 -> F64,
    small: F64 -> bool,
    atMost: (F64, F64) -> bool)

  datatype SnmpLimit = Over(at: F64) | Under(at: F64)

  datatype SnmpOid = SnmpOid(
    oid: string,
    name: string,
    wanted: seq<string>,
    unwanted: seq<string>,
    walk: bool,
    rows: Option<string>,
    share: Option<string>,
    rate: bool,
    scale: Option<F64>,
    unit: string,
    names: map<string, string>,
    warn: Option<SnmpLimit>,
    down: Option<SnmpLimit>)

  /** A value by its OID, its name and what it must be. */
  function Plain(oid: string, name: string, wanted: seq<string>): SnmpOid {
    SnmpOid(oid, name, wanted, [], false, None, None, false, None, "", map[], None, None)
  }

  // ----- Which values are valid ----------------------------------------------

  predicate IsControl(c: char) {
    c as int < 0x20 || 0x7F <= c as int <= 0x9F
  }

  predicate NoControl(text: string) {
    forall i :: 0 <= i < |text| ==> !IsControl(text[i])
  }

  predicate ValidWord(word: string) {
    Trim(word) == word && word != "" && |word| <= MAX_KEYWORD_CHARS
  }

  predicate ValidMeaning(text: string) {
    text != "" && Trim(text) == text && |text| <= MAX_SNMP_MEANING_CHARS && NoControl(text)
  }

  predicate ValidLimits(fl: Floats, warn: Option<SnmpLimit>, down: Option<SnmpLimit>) {
    && (warn.Some? ==> fl.finite(warn.value.at))
    && (down.Some? ==> fl.finite(down.value.at))
    && (warn.Some? && down.Some? ==>
          && warn.value.Under? == down.value.Under?
          && if warn.value.Under? then fl.atMost(down.value.at, warn.value.at)
             else fl.atMost(warn.value.at, down.value.at))
  }

  /** `SnmpOid::validate` is `Ok`. */
  ghost predicate Valid(fl: Floats, v: SnmpOid) {
    && IsOid(v.oid)
    && Trim(v.name) == v.name && |v.name| <= MAX_SNMP_NAME_CHARS && NoControl(v.name)
    && (v.rows.Some? ==> IsOid(v.rows.value))
    && (v.share.Some? ==> IsOid(v.share.value))
    && (v.rows.Some? ==> v.walk)
    && !(v.rate && v.share.Some?)
    && (v.scale.Some? ==> fl.finite(v.scale.value) && !fl.zero(v.scale.value))
    && Trim(v.unit) == v.unit && |v.unit| <= MAX_SNMP_UNIT_CHARS && NoControl(v.unit)
    && (v.wanted == [] || v.unwanted == [])
    && |v.wanted| <= MAX_SNMP_WORDS && |v.unwanted| <= MAX_SNMP_WORDS
    && (forall word :: word in v.wanted + v.unwanted ==> ValidWord(word))
    && |v.names| <= MAX_SNMP_WORDS
    && (forall k :: k in v.names ==> ValidMeaning(k) && ValidMeaning(v.names[k]))
    && ValidLimits(fl, v.warn, v.down)
  }

  // ----- Reading a line ------------------------------------------------------

  function Words(text: string, separator: char): seq<string> {
    TrimAll(Split(text, separator))
  }

  /** `splitn(3, '=')`, each part trimmed. */
  function Fields(head: string): (fields: seq<string>)
    ensures 1 <= |fields| <= 3
  {
    match SplitOnce(head, '=')
    case None => [Trim(head)]
    case Some((first, rest)) =>
      match SplitOnce(rest, '=')
      case None => [Trim(first), Trim(rest)]
      case Some((second, third)) => [Trim(first), Trim(second), Trim(third)]
  }

  /** What stands before the options: `Name = OID = what it must be`, the name
      and the expectation optional. */
  function HeadOf(head: string): SnmpOid {
    var fields := Fields(head);
    if |fields| == 3 then Plain(fields[1], fields[0], Words(fields[2], '|'))
    else if |fields| == 2 && IsOid(fields[0]) then Plain(fields[0], "", Words(fields[1], '|'))
    else if |fields| == 2 then Plain(fields[1], fields[0], [])
    else Plain(head, "", [])
  }

  /** `split_once(char::is_whitespace)`. */
  function SplitOnceBlank(text: string): (r: Option<(string, string)>)
    ensures r.Some? ==>
              exists c :: IsWhitespace(c) && text == r.value.0 + [c] + r.value.1
    ensures r.Some? ==> forall i :: 0 <= i < |r.value.0| ==> !IsWhitespace(r.value.0[i])
    ensures r.None? ==> forall i :: 0 <= i < |text| ==> !IsWhitespace(text[i])
  {
    if text == "" then None
    else if IsWhitespace(text[0]) then
      assert text == "" + [text[0]] + text[1..];
      Some(("", text[1..]))
    else
      match SplitOnceBlank(text[1..])
      case None => None
      case Some((before, after)) =>
        ghost var c :| IsWhitespace(c) && text[1..] == before + [c] + after;
        assert text == ([text[0]] + before) + [c] + after;
        Some(([text[0]] + before, after))
  }

  function Lowercase(text: string): (r: string)
    ensures |r| == |text|
  {
    seq(|text|, i requires 0 <= i < |text| => ToAsciiLowercase(text[i]))
  }

  function Number(fl: Floats, text: string): Option<F64> {
    match fl.parse(Trim(text))
    case None => None
    case Some(n) => if fl.finite(n) then Some(n) else None
  }

  /** The pairs of a `means` option on top of `names`. */
  function Meanings(pairs: seq<string>, names: map<string, string>): Option<map<string, string>> {
    if pairs == [] then Some(names)
    else
      match SplitOnce(pairs[0], '=')
      case None => None
      case Some((key, meaning)) => Meanings(pairs[1..], names[Trim(key) := Trim(meaning)])
  }

  function Wrong(subject: string, option: string, why: string): string {
    subject + ": \"" + option + "\": " + why
  }

  /** A keyword and what follows it. */
  function KeywordOf(option: string): (string, string) {
    match SplitOnceBlank(option)
    case Some((keyword, rest)) => (Lowercase(keyword), Trim(rest))
    case None => (Lowercase(option), "")
  }

  function LimitOf(fl: Floats, rest: string): Result<SnmpLimit, string> {
    if rest == "" || (rest[0] != '<' && rest[0] != '>') then Err("a limit is written < 20 or > 60")
    else
      match Number(fl, rest[1..])
      case None => Err("a number is expected")
      case Some(at) => Ok(if rest[0] == '<' then Under(at) else Over(at))
  }

  datatype Kind = Walk | Rows | Of | Per | Times | Divide | Unit | Means | Not | Warn | Down | Unknown

  function KindOf(keyword: string): Kind {
    if keyword == "walk" then Walk
    else if keyword == "rows" then Rows
    else if keyword == "of" then Of
    else if keyword == "per" then Per
    else if keyword == "x" || keyword == "*" then Times
    else if keyword == "/" then Divide
    else if keyword == "unit" then Unit
    else if keyword == "means" then Means
    else if keyword == "not" then Not
    else if keyword == "warn" then Warn
    else if keyword == "down" then Down
    else Unknown
  }

  const NOT_AN_OPTION := "not an option (walk, rows, of, per second, x, /, unit, means, not, warn, down)"

  /** `v` with an option of a kind and its argument applied, or why it can't
      be. */
  function ApplyKind(fl: Floats, v: SnmpOid, kind: Kind, rest: string): Result<SnmpOid, string> {
    match kind
    case Walk => if rest == "" then Ok(v.(walk := true)) else Err(NOT_AN_OPTION)
    case Rows =>
      if rest == "" then Err("the OID of the column that names the rows is missing")
      else Ok(v.(walk := true, rows := Some(rest)))
    case Of =>
      if rest == "" then Err("the OID of what it is a share of is missing")
      else Ok(v.(share := Some(rest)))
    case Per => if EqIgnoreAsciiCase(rest, "second") then Ok(v.(rate := true)) else Err(NOT_AN_OPTION)
    case Times =>
      (match Number(fl, rest)
       case None => Err("a number is expected")
       case Some(n) => Ok(v.(scale := Some(n))))
    case Divide =>
      (match Number(fl, rest)
       case None => Err("a number is expected")
       case Some(divisor) =>
         if fl.zero(divisor) then Err("nothing is divided by 0")
         else Ok(v.(scale := Some(fl.inverse(divisor)))))
    case Unit => if rest == "" then Err("the unit is missing") else Ok(v.(unit := rest))
    case Means =>
      (match Meanings(NonEmpty(Words(rest, ',')), v.names)
       case None => Err("meanings are written 1=up, 2=down")
       case Some(names) =>
         if names == map[] then Err("meanings are written 1=up, 2=down") else Ok(v.(names := names)))
    case Not =>
      if rest == "" then Err("what it must not be is missing")
      else Ok(v.(unwanted := Words(rest, '|')))
    case Warn =>
      (match LimitOf(fl, rest)
       case Err(why) => Err(why)
       case Ok(limit) => Ok(v.(warn := Some(limit))))
    case Down =>
      (match LimitOf(fl, rest)
       case Err(why) => Err(why)
       case Ok(limit) => Ok(v.(down := Some(limit))))
    case Unknown => Err(NOT_AN_OPTION)
  }

  /** `v` with one option applied, or why it can't be. */
  function Apply(fl: Floats, v: SnmpOid, option: string): Result<SnmpOid, string> {
    var (keyword, rest) := KeywordOf(option);
    ApplyKind(fl, v, KindOf(keyword), rest)
  }

  function Label(v: SnmpOid): string {
    if v.name == "" then v.oid else v.name
  }

  function ApplyAll(fl: Floats, v: SnmpOid, options: seq<string>): Result<SnmpOid, string>
    decreases |options|
  {
    if options == [] then Ok(v)
    else
      match Apply(fl, v, options[0])
      case Err(why) => Err(Wrong(Label(v), options[0], why))
      case Ok(w) => ApplyAll(fl, w, options[1..])
  }

  /** What a line says. */
  function ValueOf(fl: Floats, line: string): Result<SnmpOid, string> {
    var parts := TrimAll(Split(line, ';'));
    ApplyAll(fl, HeadOf(parts[0]), NonEmpty(parts[1..]))
  }

  /** `parse_value`. */
  method ParseValue(fl: Floats, line: string) returns (r: Result<SnmpOid, string>)
    ensures r == ValueOf(fl, line)
  {
    var parts := TrimAll(Split(line, ';'));
    var options := parts[1..];
    var value := HeadOf(parts[0]);
    for i := 0 to |options|
      invariant ValueOf(fl, line) == ApplyAll(fl, value, NonEmpty(options[i..]))
    {
      assert options[i..][1..] == options[i + 1..];
      if options[i] == "" {
        continue;
      }
      assert NonEmpty(options[i..])[1..] == NonEmpty(options[i + 1..]);
      var next := Apply(fl, value, options[i]);
      if next.Err? {
        return Err(Wrong(Label(value), options[i], next.error));
      }
      value := next.value;
    }
    r := Ok(value);
  }

  function AllValues(fl: Floats, lines: seq<string>): Result<seq<SnmpOid>, string>
    decreases |lines|
  {
    if lines == [] then Ok([])
    else
      match ValueOf(fl, lines[0])
      case Err(why) => Err(why)
      case Ok(v) =>
        match AllValues(fl, lines[1..])
        case Err(why) => Err(why)
        case Ok(vs) => Ok([v] + vs)
  }

  /** `parse_values`. */
  function ParseValues(fl: Floats, text: string): Result<seq<SnmpOid>, string> {
    AllValues(fl, NonEmpty(TrimAll(Lines(text))))
  }

  // ----- Writing a line ------------------------------------------------------

  function LimitText(fl: Floats, limit: SnmpLimit): string {
    (if limit.Over? then "> " else "< ") + fl.show(limit.at)
  }

  /** `/ 60` for a small whole divisor, else `x 0.000008`. */
  function ScaleText(fl: Floats, scale: F64): string {
    var divisor := fl.round(fl.inverse(scale));
    if fl.small(divisor) && fl.inverse(divisor) == scale then "/ " + fl.show(divisor)
    else "x " + fl.show(scale)
  }

  function PairTexts(names: map<string, string>, keys: seq<string>): (texts: seq<string>)
    requires forall k :: k in keys ==> k in names
    ensures |texts| == |keys|
    ensures forall i :: 0 <= i < |keys| ==> texts[i] == keys[i] + "=" + names[keys[i]]
  {
    seq(|keys|, i requires 0 <= i < |keys| => keys[i] + "=" + names[keys[i]])
  }

  /** Every key once. */
  ghost predicate Enumerates(keys: seq<string>, names: map<string, string>) {
    && (forall k :: k in keys <==> k in names)
    && (forall i, j :: 0 <= i < j < |keys| ==> keys[i] != keys[j])
  }

  /** A value and the order its meanings are printed in: any order, since the
      comparison `meanings_text` sorts by is not an order of all texts
      (`SnmpMeanings.NotAnOrder`). */
  datatype Printed = Printed(v: SnmpOid, keys: seq<string>)

  ghost predicate Ordered(p: Printed) {
    Enumerates(p.keys, p.v.names)
  }

  function HeadText(v: SnmpOid): string {
    (if v.name == "" then "" else v.name + " = ") + v.oid
    + (if v.wanted == [] then "" else " = " + Join(v.wanted, " | "))
  }

  function TableTexts(v: SnmpOid): seq<string> {
    match v.rows
    case Some(rows) => ["rows " + rows]
    case None => if v.walk then ["walk"] else []
  }

  /** The options that say how a value is measured. */
  function MeasureTexts(fl: Floats, v: SnmpOid): seq<string> {
    TableTexts(v)
    + (if v.share.Some? then ["of " + v.share.value] else [])
    + (if v.rate then ["per second"] else [])
    + (if v.scale.Some? then [ScaleText(fl, v.scale.value)] else [])
  }

  /** The options that say how it is shown and judged. */
  function JudgeTexts(fl: Floats, p: Printed): seq<string>
    requires forall k :: k in p.keys ==> k in p.v.names
  {
    var v := p.v;
    (if v.unit != "" then ["unit " + v.unit] else [])
    + (if v.names != map[] then ["means " + Join(PairTexts(v.names, p.keys), ", ")] else [])
    + (if v.unwanted != [] then ["not " + Join(v.unwanted, " | ")] else [])
    + (if v.warn.Some? then ["warn " + LimitText(fl, v.warn.value)] else [])
    + (if v.down.Some? then ["down " + LimitText(fl, v.down.value)] else [])
  }

  /** The options of a value, in the order they are written. */
  function OptionTexts(fl: Floats, p: Printed): seq<string>
    requires forall k :: k in p.keys ==> k in p.v.names
  {
    MeasureTexts(fl, p.v) + JudgeTexts(fl, p)
  }

  /** One value as a line: its head, then each option after ` ; `. */
  function LineText(fl: Floats, p: Printed): string
    requires forall k :: k in p.keys ==> k in p.v.names
  {
    HeadText(p.v) + Tail(" ", ';', " ", OptionTexts(fl, p))
  }

  /** `value_text`. */
  method ValueText(fl: Floats, p: Printed) returns (line: string)
    requires Ordered(p)
    ensures line == LineText(fl, p)
  {
    var v := p.v;
    line := "";
    if v.name != "" {
      line := line + (v.name + " = ");
    }
    line := line + v.oid;
    if v.wanted != [] {
      line := line + (" = " + Join(v.wanted, " | "));
    }
    assert line == HeadText(v);
    var options := MeasureOptions(fl, v);
    var judging := JudgeOptions(fl, p);
    options := options + judging;
    ghost var head := line;
    assert options[0..] == options;
    for i := 0 to |options|
      invariant line + Tail(" ", ';', " ", options[i..]) == head + Tail(" ", ';', " ", options)
    {
      NextOption(line, options, i);
      line := line + (" ; " + options[i]);
    }
    assert options[|options|..] == [];
    assert line + "" == line;
  }

  lemma NextOption(line: string, options: seq<string>, i: nat)
    requires i < |options|
    ensures line + (" ; " + options[i]) + Tail(" ", ';', " ", options[i + 1..])
         == line + Tail(" ", ';', " ", options[i..])
  {
    assert options[i..][1..] == options[i + 1..];
    assert " " + [';'] + " " + options[i] == " ; " + options[i];
    var rest := Tail(" ", ';', " ", options[i + 1..]);
    assert line + (" ; " + options[i] + rest) == (line + (" ; " + options[i])) + rest;
  }

  /** The options `value_text` collects, up to the factor. */
  method MeasureOptions(fl: Floats, v: SnmpOid) returns (options: seq<string>)
    ensures options == MeasureTexts(fl, v)
  {
    options := [];
    match v.rows {
      case Some(rows) => options := options + ["rows " + rows];
      case None =>
        if v.walk {
          options := options + ["walk"];
        }
    }
    assert options == TableTexts(v);
    hide TableTexts, ScaleText;
    if v.share.Some? {
      options := options + ["of " + v.share.value];
    }
    if v.rate {
      options := options + ["per second"];
    }
    if v.scale.Some? {
      options := options + [ScaleText(fl, v.scale.value)];
    }
  }

  /** The options it collects after those. */
  method JudgeOptions(fl: Floats, p: Printed) returns (options: seq<string>)
    requires Ordered(p)
    ensures options == JudgeTexts(fl, p)
  {
    hide LimitText, Join, PairTexts;
    var v := p.v;
    options := [];
    if v.unit != "" {
      options := options + ["unit " + v.unit];
    }
    ghost var shown := if v.unit != "" then ["unit " + v.unit] else [];
    assert options == shown;
    if v.names != map[] {
      options := options + ["means " + Join(PairTexts(v.names, p.keys), ", ")];
    }
    shown := shown + (if v.names != map[] then ["means " + Join(PairTexts(v.names, p.keys), ", ")] else []);
    assert options == shown;
    if v.unwanted != [] {
      options := options + ["not " + Join(v.unwanted, " | ")];
    }
    shown := shown + (if v.unwanted != [] then ["not " + Join(v.unwanted, " | ")] else []);
    assert options == shown;
    if v.warn.Some? {
      options := options + ["warn " + LimitText(fl, v.warn.value)];
    }
    shown := shown + (if v.warn.Some? then ["warn " + LimitText(fl, v.warn.value)] else []);
    assert options == shown;
    if v.down.Some? {
      options := options + ["down " + LimitText(fl, v.down.value)];
    }
  }

  function LineTexts(fl: Floats, ps: seq<Printed>): (lines: seq<string>)
    requires forall p :: p in ps ==> forall k :: k in p.keys ==> k in p.v.names
    ensures |lines| == |ps|
    ensures forall i :: 0 <= i < |ps| ==> lines[i] == LineText(fl, ps[i])
  {
    seq(|ps|, i requires 0 <= i < |ps| => LineText(fl, ps[i]))
  }

  /** `values_text`. */
  function ValuesText(fl: Floats, ps: seq<Printed>): string
    requires forall p :: p in ps ==> forall k :: k in p.keys ==> k in p.v.names
  {
    Join(LineTexts(fl, ps), "\n")
  }
}
