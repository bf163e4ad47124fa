/** What an option says however its keyword is written, and what makes it be refused
    (`common/src/snmp.rs`). */
module SnmpKeywords {
  import opened Wrappers
  import opened Text
  import opened Sequences
  import opened Splitting
  import opened Snmp

  // ----- Keywords in any case ------------------------------------------------

  ghost predicate NoBlank(text: string) {
    forall i :: 0 <= i < |text| ==> !IsWhitespace(text[i])
  }

  lemma {:induction false} FirstBlank(word: string, c: char, after: string)
    requires NoBlank(word) && IsWhitespace(c)
    ensures SplitOnceBlank(word + [c] + after) == Some((word, after))
  {
    var text := word + [c] + after;
    if word == "" {
      assert text[0] == c && text[1..] == after;
    } else {
      assert text[0] == word[0] && text[1..] == word[1..] + [c] + after;
      FirstBlank(word[1..], c, after);
      SplitFirst(word);
    }
  }

  lemma {:induction false} NoneBlank(word: string)
    requires NoBlank(word)
    ensures SplitOnceBlank(word) == None
  {
    if word != "" {
      NoneBlank(word[1..]);
    }
  }

  lemma SameLowercase(a: string, b: string)
    ensures EqIgnoreAsciiCase(a, b) <==> Lowercase(a) == Lowercase(b)
  {
    if Lowercase(a) == Lowercase(b) {
      assert |a| == |b|;
      forall i | 0 <= i < |a| ensures ToAsciiLowercase(a[i]) == ToAsciiLowercase(b[i]) {
        assert Lowercase(a)[i] == Lowercase(b)[i];
      }
    }
  }

  lemma SameBlanks(a: string, b: string)
    requires EqIgnoreAsciiCase(a, b) && NoBlank(a)
    ensures NoBlank(b)
  {
    forall i | 0 <= i < |b| ensures !IsWhitespace(b[i]) {
      assert ToAsciiLowercase(a[i]) == ToAsciiLowercase(b[i]) && !IsWhitespace(a[i]);
    }
  }

  /** The option is a keyword, alone or with something after white space. */
  ghost predicate IsOption(option: string, word: string, rest: string) {
    NoBlank(word) && ((option == word && rest == "") || exists c, after :: IsArgument(option, word, c, after, rest))
  }

  ghost predicate IsArgument(option: string, word: string, c: char, after: string, rest: string) {
    IsWhitespace(c) && option == word + [c] + after && rest == Trim(after)
  }

  /** The option is the keyword in any case, with this argument. */
  ghost predicate Says(option: string, keyword: string, rest: string) {
    exists word :: EqIgnoreAsciiCase(word, keyword) && IsOption(option, word, rest)
  }

  lemma OptionReads(option: string, word: string, rest: string)
    requires IsOption(option, word, rest)
    ensures KeywordOf(option) == (Lowercase(word), rest)
    ensures Trim(rest) == rest
  {
    hide Trim, Lowercase, SplitOnceBlank;
    TrimAgain("");
    EmptyTrimmed();
    if option == word && rest == "" {
      NoneBlank(word);
    } else {
      var c, after :| IsArgument(option, word, c, after, rest);
      FirstBlank(word, c, after);
      TrimAgain(after);
    }
  }

  lemma EmptyTrimmed()
    ensures Trim("") == ""
  {
  }

  lemma TrimAgain(text: string)
    ensures Trim(Trim(text)) == Trim(text)
  {
    var start := TrimStart(text);
    var trimmed := TrimEnd(start);
    if trimmed != "" {
      assert trimmed[0] == start[0];
      TrimPlain(trimmed);
    }
  }

  /** Two ways of writing one keyword say the same, whatever the argument: they apply
      to the same value, or fail with the same reason. */
  lemma AnyCase(fl: Floats, v: SnmpOid, a: string, b: string, one: string, other: string, rest: string)
    requires EqIgnoreAsciiCase(a, b) && IsOption(one, a, rest) && IsOption(other, b, rest)
    ensures Apply(fl, v, one) == Apply(fl, v, other)
  {
    hide ApplyKind, KindOf, KeywordOf, Lowercase, IsOption;
    OptionReads(one, a, rest);
    OptionReads(other, b, rest);
    SameLowercase(a, b);
  }

  lemma SaysReads(fl: Floats, v: SnmpOid, option: string, keyword: string, rest: string)
    requires Says(option, keyword, rest)
    ensures Apply(fl, v, option) == ApplyKind(fl, v, KindOf(Lowercase(keyword)), rest)
    ensures Trim(rest) == rest
  {
    hide ApplyKind, KindOf, Lowercase, IsOption, Trim, EqIgnoreAsciiCase;
    var word :| EqIgnoreAsciiCase(word, keyword) && IsOption(option, word, rest);
    OptionReads(option, word, rest);
    SameLowercase(word, keyword);
  }

  // ----- What each option says -----------------------------------------------

  lemma WalkMeans(fl: Floats, v: SnmpOid, option: string, rest: string)
    requires Says(option, "walk", rest)
    ensures Apply(fl, v, option) == if rest == "" then Ok(v.(walk := true)) else Err(NOT_AN_OPTION)
  {
    hide Apply, Says, Trim;
    SaysReads(fl, v, option, "walk", rest);
    assert Lowercase("walk") == "walk";
  }

  lemma RowsMeans(fl: Floats, v: SnmpOid, option: string, rest: string)
    requires Says(option, "rows", rest)
    ensures Apply(fl, v, option) ==
              if rest == "" then Err("the OID of the column that names the rows is missing")
              else Ok(v.(walk := true, rows := Some(rest)))
  {
    hide Apply, Says, Trim;
    SaysReads(fl, v, option, "rows", rest);
    assert Lowercase("rows") == "rows";
  }

  lemma ShareMeans(fl: Floats, v: SnmpOid, option: string, rest: string)
    requires Says(option, "of", rest)
    ensures Apply(fl, v, option) ==
              if rest == "" then Err("the OID of what it is a share of is missing")
              else Ok(v.(share := Some(rest)))
  {
    hide Apply, Says, Trim;
    SaysReads(fl, v, option, "of", rest);
    assert Lowercase("of") == "of";
  }

  lemma RateMeans(fl: Floats, v: SnmpOid, option: string, rest: string)
    requires Says(option, "per", rest)
    ensures Apply(fl, v, option) ==
              if EqIgnoreAsciiCase(rest, "second") then Ok(v.(rate := true)) else Err(NOT_AN_OPTION)
  {
    hide Apply, Says, Trim, EqIgnoreAsciiCase;
    SaysReads(fl, v, option, "per", rest);
    assert Lowercase("per") == "per";
  }

  /** Both `x` and `*` multiply, by a finite number only. */
  lemma TimesMeans(fl: Floats, v: SnmpOid, option: string, sign: string, rest: string)
    requires (sign == "x" || sign == "*") && Says(option, sign, rest)
    ensures Apply(fl, v, option) ==
              match fl.parse(rest)
              case None => Err("a number is expected")
              case Some(n) => if fl.finite(n) then Ok(v.(scale := Some(n))) else Err("a number is expected")
  {
    hide Apply, Says, Trim;
    SaysReads(fl, v, option, sign, rest);
    assert Lowercase("x") == "x" && Lowercase("*") == "*";
  }

  /** Nothing is divided by 0, nor by what isn't a finite number. */
  lemma DivideMeans(fl: Floats, v: SnmpOid, option: string, rest: string)
    requires Says(option, "/", rest)
    ensures Apply(fl, v, option) ==
              match fl.parse(rest)
              case None => Err("a number is expected")
              case Some(n) =>
                if !fl.finite(n) then Err("a number is expected")
                else if fl.zero(n) then Err("nothing is divided by 0")
                else Ok(v.(scale := Some(fl.inverse(n))))
  {
    hide Apply, Says, Trim;
    SaysReads(fl, v, option, "/", rest);
    assert Lowercase("/") == "/";
  }

  lemma UnitMeans(fl: Floats, v: SnmpOid, option: string, rest: string)
    requires Says(option, "unit", rest)
    ensures Apply(fl, v, option) == if rest == "" then Err("the unit is missing") else Ok(v.(unit := rest))
  {
    hide Apply, Says, Trim;
    SaysReads(fl, v, option, "unit", rest);
    assert Lowercase("unit") == "unit";
  }

  lemma UnwantedMeans(fl: Floats, v: SnmpOid, option: string, rest: string)
    requires Says(option, "not", rest)
    ensures Apply(fl, v, option) ==
              if rest == "" then Err("what it must not be is missing")
              else Ok(v.(unwanted := TrimAll(Split(rest, '|'))))
  {
    hide Apply, Says, Trim, Split;
    SaysReads(fl, v, option, "not", rest);
    assert Lowercase("not") == "not";
  }

  /** A limit is `<` or `>` and a finite number. */
  function LimitSaid(fl: Floats, rest: string): Result<SnmpLimit, string> {
    if rest == "" || rest[0] !in "<>" then Err("a limit is written < 20 or > 60")
    else
      match fl.parse(Trim(rest[1..]))
      case None => Err("a number is expected")
      case Some(n) =>
        if !fl.finite(n) then Err("a number is expected")
        else if rest[0] == '<' then Ok(Under(n)) else Ok(Over(n))
  }

  lemma WarnMeans(fl: Floats, v: SnmpOid, option: string, rest: string)
    requires Says(option, "warn", rest)
    ensures Apply(fl, v, option) ==
              match LimitSaid(fl, rest) case Err(why) => Err(why) case Ok(limit) => Ok(v.(warn := Some(limit)))
  {
    hide Apply, Says, Trim;
    SaysReads(fl, v, option, "warn", rest);
    assert Lowercase("warn") == "warn";
  }

  lemma DownMeans(fl: Floats, v: SnmpOid, option: string, rest: string)
    requires Says(option, "down", rest)
    ensures Apply(fl, v, option) ==
              match LimitSaid(fl, rest) case Err(why) => Err(why) case Ok(limit) => Ok(v.(down := Some(limit)))
  {
    hide Apply, Says, Trim;
    SaysReads(fl, v, option, "down", rest);
    assert Lowercase("down") == "down";
  }

  const KEYWORDS: set<string> :=
    {"walk", "rows", "of", "per", "x", "*", "/", "unit", "means", "not", "warn", "down"}

  /** Any other word is no option. */
  lemma OthersMean(fl: Floats, v: SnmpOid, option: string, word: string, rest: string)
    requires IsOption(option, word, rest) && forall k :: k in KEYWORDS ==> !EqIgnoreAsciiCase(word, k)
    ensures Apply(fl, v, option)
         == Err("not an option (walk, rows, of, per second, x, /, unit, means, not, warn, down)")
  {
    hide Trim, IsOption, EqIgnoreAsciiCase, KeywordOf;
    OptionReads(option, word, rest);
    LowercaseKeywords();
    forall k | k in KEYWORDS ensures Lowercase(word) != k {
      SameLowercase(word, k);
    }
    hide Lowercase;
    assert KindOf(Lowercase(word)) == Unknown;
  }

  lemma LowercaseKeywords()
    ensures forall k :: k in KEYWORDS ==> Lowercase(k) == k
  {
    forall k | k in KEYWORDS ensures Lowercase(k) == k {
      assert forall i :: 0 <= i < |k| ==> ToAsciiLowercase(k[i]) == k[i];
    }
  }

  // ----- Meanings ------------------------------------------------------------

  predicate IsPair(pair: string) {
    '=' in pair
  }

  function KeyOf(pair: string): string
    requires IsPair(pair)
  {
    Trim(SplitOnce(pair, '=').value.0)
  }

  function MeaningOf(pair: string): string
    requires IsPair(pair)
  {
    Trim(SplitOnce(pair, '=').value.1)
  }

  /** Pair `i` is the last that says what `key` means. */
  ghost predicate LastFor(pairs: seq<string>, key: string, i: nat) {
    && i < |pairs| && (forall j :: 0 <= j < |pairs| ==> IsPair(pairs[j]))
    && KeyOf(pairs[i]) == key && forall j :: i < j < |pairs| ==> KeyOf(pairs[j]) != key
  }

  ghost predicate Mentioned(pairs: seq<string>, key: string) {
    exists i :: 0 <= i < |pairs| && IsPair(pairs[i]) && KeyOf(pairs[i]) == key
  }

  /** Pairs without a `=` are refused; else each key means what the last pair with it
      says, or what it meant before. */
  ghost predicate MeansAsLast(pairs: seq<string>, names: map<string, string>, r: Option<map<string, string>>) {
    && (r.None? <==> exists i :: 0 <= i < |pairs| && !IsPair(pairs[i]))
    && (r.Some? ==> forall key :: key in r.value <==> key in names || Mentioned(pairs, key))
    && (r.Some? ==> forall key, i: nat :: LastFor(pairs, key, i) ==>
                      key in r.value && r.value[key] == MeaningOf(pairs[i]))
    && (r.Some? ==> forall key :: key in names && !Mentioned(pairs, key) ==> r.value[key] == names[key])
  }

  lemma {:induction false} MeaningsAre(pairs: seq<string>, names: map<string, string>)
    ensures MeansAsLast(pairs, names, Meanings(pairs, names))
    decreases |pairs|
  {
    hide Trim, SplitOnce, KeyOf, MeaningOf;
    if pairs != [] {
      var first, rest := pairs[0], pairs[1..];
      assert pairs == [first] + rest;
      if IsPair(first) {
        var next := names[KeyOf(first) := MeaningOf(first)];
        MeaningsStart(first, rest, names);
        MeaningsAre(rest, next);
        OneMorePair(first, rest, names, Meanings(rest, next));
      } else {
        NoPair(first, rest, names);
      }
    }
  }

  lemma MeaningsStart(first: string, rest: seq<string>, names: map<string, string>)
    requires IsPair(first)
    ensures Meanings([first] + rest, names) == Meanings(rest, names[KeyOf(first) := MeaningOf(first)])
  {
    hide Trim;
    assert ([first] + rest)[1..] == rest;
  }

  lemma NoPair(first: string, rest: seq<string>, names: map<string, string>)
    requires !IsPair(first)
    ensures Meanings([first] + rest, names) == None
  {
    hide Trim;
  }

  lemma OneMorePair(first: string, rest: seq<string>, names: map<string, string>, r: Option<map<string, string>>)
    requires IsPair(first) && MeansAsLast(rest, names[KeyOf(first) := MeaningOf(first)], r)
    ensures MeansAsLast([first] + rest, names, r)
  {
    hide KeyOf, MeaningOf, IsPair, Mentioned, LastFor;
    var pairs := [first] + rest;
    AllPairs(first, rest);
    forall key ensures Mentioned(pairs, key) <==> KeyOf(first) == key || Mentioned(rest, key) {
      MentionedMore(first, rest, key);
    }
    if r.Some? {
      forall key, i: nat | LastFor(pairs, key, i)
        ensures key in r.value && i < |pairs| && IsPair(pairs[i]) && r.value[key] == MeaningOf(pairs[i])
      {
        LastOfMore(first, rest, key, i);
      }
    }
  }

  lemma AllPairs(first: string, rest: seq<string>)
    requires IsPair(first)
    ensures var pairs := [first] + rest;
            (exists i :: 0 <= i < |pairs| && !IsPair(pairs[i])) <==> exists i :: 0 <= i < |rest| && !IsPair(rest[i])
  {
    hide IsPair;
    var pairs := [first] + rest;
    assert forall i :: 0 < i < |pairs| ==> pairs[i] == rest[i - 1];
    assert forall i :: 0 <= i < |rest| ==> rest[i] == pairs[i + 1];
  }

  lemma LastOfMore(first: string, rest: seq<string>, key: string, i: nat)
    requires IsPair(first) && LastFor([first] + rest, key, i)
    ensures i < |rest| + 1 && IsPair(([first] + rest)[i])
    ensures i > 0 ==> ([first] + rest)[i] == rest[i - 1] && LastFor(rest, key, i - 1)
    ensures i == 0 ==> KeyOf(first) == key && !Mentioned(rest, key)
  {
    hide KeyOf, IsPair;
    var pairs := [first] + rest;
    assert forall j :: 0 <= j < |rest| ==> rest[j] == pairs[j + 1];
  }

  lemma MentionedMore(first: string, rest: seq<string>, key: string)
    requires IsPair(first)
    ensures Mentioned([first] + rest, key) <==> KeyOf(first) == key || Mentioned(rest, key)
  {
    hide KeyOf, IsPair;
    var pairs := [first] + rest;
    if KeyOf(first) == key {
      assert pairs[0] == first;
    } else if i :| 0 <= i < |rest| && IsPair(rest[i]) && KeyOf(rest[i]) == key {
      assert pairs[i + 1] == rest[i];
    }
  }

  /** Meanings are pairs between commas, blank ones left out; there must be one. */
  lemma MeaningsMean(fl: Floats, v: SnmpOid, option: string, rest: string)
    requires Says(option, "means", rest)
    ensures
      var pairs := NonEmpty(TrimAll(Split(rest, ',')));
      && MeansAsLast(pairs, v.names, Meanings(pairs, v.names))
      && Apply(fl, v, option) ==
           match Meanings(pairs, v.names)
           case None => Err("meanings are written 1=up, 2=down")
           case Some(names) =>
             if names == map[] then Err("meanings are written 1=up, 2=down") else Ok(v.(names := names))
  {
    hide Apply, Says, Trim, Split, Meanings, NonEmpty, MeansAsLast;
    SaysReads(fl, v, option, "means", rest);
    assert Lowercase("means") == "means";
    MeaningsAre(NonEmpty(Words(rest, ',')), v.names);
  }

  // ----- Lines ---------------------------------------------------------------

  lemma {:induction false} NonEmptyAppend(a: seq<string>, b: seq<string>)
    ensures NonEmpty(a + b) == NonEmpty(a) + NonEmpty(b)
  {
    if a == [] {
      assert a + b == b;
    } else {
      assert (a + b)[1..] == a[1..] + b;
      NonEmptyAppend(a[1..], b);
    }
  }

  lemma TrimAllAppend(a: seq<string>, b: seq<string>)
    ensures TrimAll(a + b) == TrimAll(a) + TrimAll(b)
  {
    hide Trim;
  }

  lemma BlankIsEmpty(blank: string)
    requires AllWhitespace(blank)
    ensures TrimAll(Split(blank, ';')) == [""]
  {
    TrimBlank(blank);
    assert forall i :: 0 <= i < |blank| ==> blank[i] != ';';
    SplitNone(blank, ';');
    hide Trim, Split;
    assert TrimAll([blank]) == [Trim(blank)];
  }

  /** An empty option changes nothing, wherever it stands. */
  lemma EmptyOption(fl: Floats, a: string, blank: string, b: string)
    requires AllWhitespace(blank)
    ensures ValueOf(fl, a + ";" + blank + ";" + b) == ValueOf(fl, a + ";" + b)
    ensures ValueOf(fl, a + ";" + blank) == ValueOf(fl, a)
  {
    hide Trim, Split, TrimAll, NonEmpty, ApplyAll, HeadOf;
    LinesReadAlike(a, blank, b);
    SplitAppend(a, ';', blank);
    TrimAllAppend(Split(a, ';'), Split(blank, ';'));
    BlankIsEmpty(blank);
    EmptyAtEnd(TrimAll(Split(a, ';')));
  }

  lemma LinesReadAlike(a: string, blank: string, b: string)
    requires AllWhitespace(blank)
    ensures
      var x, y := TrimAll(Split(a + ";" + blank + ";" + b, ';')), TrimAll(Split(a + ";" + b, ';'));
      x[0] == y[0] && NonEmpty(x[1..]) == NonEmpty(y[1..])
  {
    hide Trim, Split, TrimAll, NonEmpty;
    SplitAppend(a + ";" + blank, ';', b);
    SplitAppend(a, ';', blank);
    SplitAppend(a, ';', b);
    BlankIsEmpty(blank);
    var p, q, r := Split(a, ';'), Split(blank, ';'), Split(b, ';');
    TrimAllAppend(p + q, r);
    TrimAllAppend(p, q);
    TrimAllAppend(p, r);
    EmptyBetween(TrimAll(p), TrimAll(r));
  }

  lemma EmptyBetween(p: seq<string>, r: seq<string>)
    requires p != []
    ensures (p + [""] + r)[0] == (p + r)[0] && NonEmpty((p + [""] + r)[1..]) == NonEmpty((p + r)[1..])
  {
    assert (p + [""] + r)[1..] == p[1..] + ([""] + r) && (p + r)[1..] == p[1..] + r;
    NonEmptyAppend(p[1..], [""] + r);
    NonEmptyAppend([""], r);
    NonEmptyAppend(p[1..], r);
    assert NonEmpty([""]) == [];
  }

  lemma EmptyAtEnd(p: seq<string>)
    requires p != []
    ensures (p + [""])[0] == p[0] && NonEmpty((p + [""])[1..]) == NonEmpty(p[1..])
  {
    assert (p + [""])[1..] == p[1..] + [""];
    NonEmptyAppend(p[1..], [""]);
    assert NonEmpty([""]) == [];
  }

  /** The first option that can't be applied is named, after the name or, without
      one, the OID of the value. */
  lemma {:induction false} FirstWrong(fl: Floats, v: SnmpOid, before: seq<string>, option: string,
                                      after: seq<string>, u: SnmpOid, why: string)
    requires ApplyAll(fl, v, before) == Ok(u) && Apply(fl, u, option) == Err(why)
    ensures ApplyAll(fl, v, before + [option] + after)
         == Err((if u.name == "" then u.oid else u.name) + ": \"" + option + "\": " + why)
    decreases |before|
  {
    hide Apply;
    var all := before + [option] + after;
    if before == [] {
      assert all[0] == option;
    } else {
      assert all[0] == before[0] && all[1..] == before[1..] + [option] + after;
      FirstWrong(fl, Apply(fl, v, before[0]).value, before[1..], option, after, u, why);
    }
  }

  /** Blank lines change nothing. */
  lemma BlankLine(fl: Floats, a: string, blank: string, b: string)
    requires AllWhitespace(blank) && '\n' !in blank
    ensures ParseValues(fl, a + "\n" + blank + "\n" + b) == ParseValues(fl, a + "\n" + b)
  {
    hide Trim, Lines, TrimAll, NonEmpty, AllValues;
    LinesAppend(a, blank + "\n" + b);
    LinesAppend(a, b);
    LinesAppend(blank, b);
    assert a + "\n" + blank + "\n" + b == a + "\n" + (blank + "\n" + b);
    var p, q, r := Lines(a + "\n"), Lines(blank + "\n"), Lines(b);
    BlankLineIs(blank);
    TrimAllAppend(p, q + r);
    TrimAllAppend(q, r);
    TrimAllAppend(p, r);
    NonEmptyAppend(TrimAll(p), TrimAll(q) + TrimAll(r));
    NonEmptyAppend(TrimAll(q), TrimAll(r));
    NonEmptyAppend(TrimAll(p), TrimAll(r));
    assert [] + NonEmpty(TrimAll(r)) == NonEmpty(TrimAll(r));
  }

  lemma BlankLineIs(blank: string)
    requires AllWhitespace(blank) && '\n' !in blank
    ensures NonEmpty(TrimAll(Lines(blank + "\n"))) == []
  {
    hide Trim, Lines;
    var line := WithoutReturn(blank);
    OneLineWithFeed(blank);
    assert AllWhitespace(line);
    TrimBlank(line);
    assert TrimAll([line]) == [""];
    assert NonEmpty([""]) == [];
  }

  lemma OneLineWithFeed(line: string)
    requires '\n' !in line
    ensures Lines(line + "\n") == [WithoutReturn(line)]
  {
    hide SplitOnce, WithoutReturn;
    assert line + "\n" == line + ['\n'] + "";
    SplitOnceAt(line, '\n', "");
    NoLinesIn();
  }

  lemma NoLinesIn()
    ensures Lines("") == []
  {
  }

  lemma {:induction false} LinesAppend(a: string, b: string)
    ensures Lines(a + "\n" + b) == Lines(a + "\n") + Lines(b)
    decreases |a|
  {
    hide WithoutReturn;
    match SplitOnce(a, '\n')
    case None =>
      SplitOnceAt(a, '\n', b);
      SplitOnceAt(a, '\n', "");
      assert a + "\n" == a + ['\n'] + "" && Lines("") == [];
    case Some((line, rest)) =>
      assert a + "\n" + b == line + ['\n'] + (rest + "\n" + b);
      assert a + "\n" == line + ['\n'] + (rest + "\n");
      SplitOnceAt(line, '\n', rest + "\n" + b);
      SplitOnceAt(line, '\n', rest + "\n");
      LinesAppend(rest, b);
  }

  // ----- What is written -----------------------------------------------------

  /** A factor is shown as the divisor it is the inverse of, if that is a small whole
      number, and as a multiplier otherwise. */
  lemma ScaleIsShown(fl: Floats, scale: F64, n: F64)
    requires n == fl.round(fl.inverse(scale))
    ensures fl.small(n) && fl.inverse(n) == scale ==> ScaleText(fl, scale) == "/ " + fl.show(n)
    ensures !fl.small(n) || fl.inverse(n) != scale ==> ScaleText(fl, scale) == "x " + fl.show(scale)
  {
  }

  lemma JoinOfTwo(a: string, b: string, separator: string)
    ensures Join([a, b], separator) == a + separator + b
  {
    assert [a, b][1..] == [b];
  }

  /** A value of a table that is judged by upper limits. */
  function Table(scale: F64, warn: F64, down: F64): SnmpOid {
    SnmpOid("1.3.6", "Load", ["up", "ok"], [], true, Some("1.3.7"), Some("1.3.8"), false, Some(scale),
            "ms", map["1" := "up", "2" := "ok"], Some(Over(warn)), Some(Over(down)))
  }

  lemma TableMeasures(fl: Floats, scale: F64, warn: F64, down: F64)
    ensures MeasureTexts(fl, Table(scale, warn, down)) == ["rows 1.3.7", "of 1.3.8", ScaleText(fl, scale)]
  {
    hide ScaleText;
    var v := Table(scale, warn, down);
    assert "rows " + "1.3.7" == "rows 1.3.7" && "of " + "1.3.8" == "of 1.3.8";
    assert TableTexts(v) == ["rows 1.3.7"];
  }

  lemma TwoPairs(names: map<string, string>)
    requires names == map["1" := "up", "2" := "ok"]
    ensures "1" in names && "2" in names && PairTexts(names, ["1", "2"]) == ["1=up", "2=ok"]
  {
    assert "1"[0] != "2"[0];
    assert names["1"] == "up" && names["2"] == "ok";
    assert "1" + "=" + "up" == "1=up" && "2" + "=" + "ok" == "2=ok";
  }

  lemma LimitsAreWritten(sign: string, warn: string, down: string)
    ensures "warn " + (sign + warn) == "warn " + sign + warn && "down " + (sign + down) == "down " + sign + down
    ensures "warn " + "> " == "warn > " && "down " + "> " == "down > "
    ensures "warn " + "< " == "warn < " && "down " + "< " == "down < "
  {
  }

  lemma TableJudges(fl: Floats, scale: F64, warn: F64, down: F64)
    ensures
      JudgeTexts(fl, Printed(Table(scale, warn, down), ["1", "2"]))
      == ["unit ms", "means 1=up, 2=ok", "warn > " + fl.show(warn), "down > " + fl.show(down)]
  {
    hide Join, PairTexts;
    var p := Printed(Table(scale, warn, down), ["1", "2"]);
    JoinOfTwo("1=up", "2=ok", ", ");
    TwoPairs(p.v.names);
    LimitsAreWritten("> ", fl.show(warn), fl.show(down));
    assert "means " + ("1=up" + ", " + "2=ok") == "means 1=up, 2=ok" && "unit " + "ms" == "unit ms";
  }

  /** How such a value is written. */
  lemma TableIsWritten(fl: Floats, scale: F64, warn: F64, down: F64)
    ensures
      var p := Printed(Table(scale, warn, down), ["1", "2"]);
      && HeadText(p.v) == "Load = 1.3.6 = up | ok"
      && OptionTexts(fl, p) == ["rows 1.3.7", "of 1.3.8", ScaleText(fl, scale), "unit ms", "means 1=up, 2=ok",
                                "warn > " + fl.show(warn), "down > " + fl.show(down)]
      && LineText(fl, p) == "Load = 1.3.6 = up | ok" + Tail(" ", ';', " ", OptionTexts(fl, p))
  {
    hide ScaleText, Tail, Join, MeasureTexts, JudgeTexts;
    var p := Printed(Table(scale, warn, down), ["1", "2"]);
    JoinOfTwo("up", "ok", " | ");
    assert "Load" + " = " + "1.3.6" + " = " + ("up" + " | " + "ok") == "Load = 1.3.6 = up | ok";
    TableMeasures(fl, scale, warn, down);
    TableJudges(fl, scale, warn, down);
  }

  /** A value without a name that is judged by lower limits. */
  function Rate(warn: F64, down: F64): SnmpOid {
    SnmpOid("1.3.6", "", [], ["off", "bad"], true, None, None, true, None, "", map[],
            Some(Under(warn)), Some(Under(down)))
  }

  lemma RateIsWritten(fl: Floats, warn: F64, down: F64)
    ensures
      var p := Printed(Rate(warn, down), []);
      && HeadText(p.v) == "1.3.6"
      && OptionTexts(fl, p) == ["walk", "per second", "not off | bad",
                                "warn < " + fl.show(warn), "down < " + fl.show(down)]
      && LineText(fl, p) == "1.3.6" + Tail(" ", ';', " ", OptionTexts(fl, p))
  {
    hide Tail, Join;
    var p := Printed(Rate(warn, down), []);
    JoinOfTwo("off", "bad", " | ");
    LimitsAreWritten("< ", fl.show(warn), fl.show(down));
    assert "not " + ("off" + " | " + "bad") == "not off | bad";
    assert TableTexts(p.v) == ["walk"];
    assert MeasureTexts(fl, p.v) == ["walk", "per second"];
    assert JudgeTexts(fl, p) == [] + [] + ["not off | bad"]
                                + ["warn < " + fl.show(warn)] + ["down < " + fl.show(down)];
  }
}
