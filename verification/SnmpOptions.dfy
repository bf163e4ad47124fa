/** Each option of an SNMP value, read as it is written (`common/src/snmp.rs`). */
module SnmpOptions {
  import opened Wrappers
  import opened Text
  import opened Splitting
  import opened Oids
  import opened Snmp
  import opened SnmpLaws

  // ----- Keywords ------------------------------------------------------------

  predicate Lower(text: string) {
    forall i :: 0 <= i < |text| ==> !IsWhitespace(text[i]) && !('A' <= text[i] <= 'Z')
  }

  lemma LowercaseKeeps(text: string)
    requires Lower(text)
    ensures Lowercase(text) == text
  {
  }

  lemma {:induction false} SplitOnceBlankAt(keyword: string, rest: string)
    requires Lower(keyword)
    ensures SplitOnceBlank(keyword + " " + rest) == Some((keyword, rest))
  {
    var text := keyword + " " + rest;
    if keyword == "" {
      assert text[0] == ' ' && text[1..] == rest;
    } else {
      assert text[0] == keyword[0] && text[1..] == keyword[1..] + " " + rest;
      SplitOnceBlankAt(keyword[1..], rest);
      assert [keyword[0]] + keyword[1..] == keyword;
    }
  }

  lemma {:induction false} SplitOnceBlankNone(text: string)
    requires Lower(text)
    ensures SplitOnceBlank(text) == None
  {
    if text != "" {
      SplitOnceBlankNone(text[1..]);
    }
  }

  /** An option's keyword and its argument. */
  lemma Keyword(keyword: string, rest: string)
    requires Lower(keyword) && Neat(rest)
    ensures KeywordOf(keyword + " " + rest) == (keyword, rest)
  {
    SplitOnceBlankAt(keyword, rest);
    LowercaseKeeps(keyword);
    TrimPlain(rest);
  }

  lemma KeywordAlone(keyword: string)
    requires Lower(keyword)
    ensures KeywordOf(keyword) == (keyword, "")
  {
    SplitOnceBlankNone(keyword);
    LowercaseKeeps(keyword);
  }

  // ----- Numbers -------------------------------------------------------------

  lemma NumberReads(fl: Floats, x: F64)
    requires Faithful(fl) && fl.finite(x)
    ensures Neat(fl.show(x)) && Number(fl, fl.show(x)) == Some(x) && Number(fl, " " + fl.show(x)) == Some(x)
  {
    var text := fl.show(x);
    assert text[0] in text && text[|text| - 1] in text;
    TrimPlain(text);
    TrimPadded(" ", text, "");
    assert " " + text + "" == " " + text;
  }

  lemma LimitReads(fl: Floats, limit: SnmpLimit)
    requires Faithful(fl) && fl.finite(limit.at)
    ensures Neat(LimitText(fl, limit)) && LimitOf(fl, LimitText(fl, limit)) == Ok(limit)
  {
    var number, text := fl.show(limit.at), LimitText(fl, limit);
    NumberReads(fl, limit.at);
    assert text[1..] == " " + number;
    assert text[|text| - 1] == number[|number| - 1];
  }

  // ----- Meanings ------------------------------------------------------------

  lemma PairReads(key: string, meaning: string)
    requires CleanPair(key, meaning) && Neat(key) && Neat(meaning)
    ensures Neat(key + "=" + meaning) && ',' !in key + "=" + meaning && ';' !in key + "=" + meaning
    ensures SplitOnce(key + "=" + meaning, '=') == Some((key, meaning))
    ensures Trim(key) == key && Trim(meaning) == meaning
  {
    var text := key + "=" + meaning;
    assert text == key + ['='] + meaning;
    SplitOnceAt(key, '=', meaning);
    assert text[0] == key[0] && text[|text| - 1] == meaning[|meaning| - 1];
    TrimPlain(key);
    TrimPlain(meaning);
  }

  ghost predicate NeatNames(names: map<string, string>) {
    forall k :: k in names ==> Neat(k) && Neat(names[k]) && CleanPair(k, names[k])
  }

  lemma PairTextsAreClean(names: map<string, string>, keys: seq<string>)
    requires NeatNames(names) && forall k :: k in keys ==> k in names
    ensures forall text :: text in PairTexts(names, keys) ==> Neat(text) && ',' !in text && ';' !in text
  {
    forall text | text in PairTexts(names, keys) ensures Neat(text) && ',' !in text && ';' !in text {
      var i :| 0 <= i < |keys| && text == PairTexts(names, keys)[i];
      assert keys[i] in keys;
      PairReads(keys[i], names[keys[i]]);
    }
  }

  /** `names` restricted to `keys`, on top of `base`. */
  function Added(base: map<string, string>, names: map<string, string>, keys: seq<string>): map<string, string>
    requires forall k :: k in keys ==> k in names
    decreases |keys|
  {
    if keys == [] then base else Added(base[keys[0] := names[keys[0]]], names, keys[1..])
  }

  lemma {:induction false} MeaningsRead(base: map<string, string>, names: map<string, string>, keys: seq<string>)
    requires NeatNames(names) && forall k :: k in keys ==> k in names
    ensures Meanings(PairTexts(names, keys), base) == Some(Added(base, names, keys))
    decreases |keys|
  {
    if keys != [] {
      var k := keys[0];
      assert k in keys;
      PairReads(k, names[k]);
      assert PairTexts(names, keys)[1..] == PairTexts(names, keys[1..]);
      MeaningsRead(base[k := names[k]], names, keys[1..]);
    }
  }

  lemma {:induction false} AddedIs(base: map<string, string>, names: map<string, string>, keys: seq<string>)
    requires forall k :: k in keys ==> k in names
    ensures forall k :: k in Added(base, names, keys) <==> k in base || k in keys
    ensures forall k :: k in keys ==> Added(base, names, keys)[k] == names[k]
    ensures forall k :: k in base && k !in keys ==> Added(base, names, keys)[k] == base[k]
    decreases |keys|
  {
    if keys != [] {
      AddedIs(base[keys[0] := names[keys[0]]], names, keys[1..]);
      assert keys == [keys[0]] + keys[1..];
    }
  }

  lemma {:induction false} NonEmptyKeeps(parts: seq<string>)
    requires forall i :: 0 <= i < |parts| ==> parts[i] != ""
    ensures NonEmpty(parts) == parts
    decreases |parts|
  {
    if parts != [] {
      NonEmptyKeeps(parts[1..]);
      assert parts == [parts[0]] + parts[1..];
    }
  }

  /** The printed meanings come apart. */
  lemma MeaningsSplit(texts: seq<string>)
    requires texts != [] && forall text :: text in texts ==> Neat(text) && ',' !in text && ';' !in text
    ensures Neat(Join(texts, ", ")) && ';' !in Join(texts, ", ")
    ensures NonEmpty(Words(Join(texts, ", "), ',')) == texts
  {
    JoinNeat(texts, ", ");
    JoinWithout(texts, ", ", ';');
    assert "" + [','] + " " == ", ";
    JoinIsTail(texts, "", ',', " ");
    SplitTail(texts[0], "", ',', " ", texts[1..]);
    TrimPlain(texts[0]);
    assert texts == [texts[0]] + texts[1..];
    NonEmptyKeeps(texts);
  }

  /** The meanings come back, in whatever order they were printed. */
  lemma MeansReads(names: map<string, string>, keys: seq<string>)
    requires NeatNames(names) && Enumerates(keys, names) && names != map[]
    ensures Neat(Join(PairTexts(names, keys), ", ")) && ';' !in Join(PairTexts(names, keys), ", ")
    ensures Meanings(NonEmpty(Words(Join(PairTexts(names, keys), ", "), ',')), map[]) == Some(names)
  {
    hide PairTexts, Join, Words, NonEmpty, Meanings, NeatNames;
    var key :| key in names;
    assert key in keys;
    PairTextsAreClean(names, keys);
    MeaningsRead(map[], names, keys);
    AddedAll(names, keys);
    MeaningsSplit(PairTexts(names, keys));
  }

  lemma AddedAll(names: map<string, string>, keys: seq<string>)
    requires Enumerates(keys, names)
    ensures Added(map[], names, keys) == names
  {
    AddedIs(map[], names, keys);
  }

  // ----- The options one by one ----------------------------------------------

  /** An option's text is fit to stand between semicolons. */
  predicate Fit(option: string) {
    Neat(option) && ';' !in option
  }

  lemma Kinds()
    ensures KindOf("walk") == Walk && KindOf("rows") == Rows && KindOf("of") == Of && KindOf("per") == Per
    ensures KindOf("x") == Times && KindOf("/") == Divide && KindOf("unit") == Unit && KindOf("means") == Means
    ensures KindOf("not") == Not && KindOf("warn") == Warn && KindOf("down") == Down
  {
  }

  /** An option of a keyword and an argument is fit, and applies as its kind. */
  lemma Applies(fl: Floats, u: SnmpOid, option: string, keyword: string, rest: string)
    requires option == keyword + " " + rest
    requires Lower(keyword) && keyword != "" && ';' !in keyword && Neat(rest) && ';' !in rest
    ensures Fit(option) && Apply(fl, u, option) == ApplyKind(fl, u, KindOf(keyword), rest)
  {
    hide ApplyKind, KindOf;
    Keyword(keyword, rest);
  }

  lemma RowsReads(fl: Floats, u: SnmpOid, oid: string)
    requires IsOid(oid)
    ensures Fit("rows " + oid) && Apply(fl, u, "rows " + oid) == Ok(u.(walk := true, rows := Some(oid)))
  {
    hide IsOid, Neat, Apply, KindOf, Fit;
    OidIsNeat(oid);
    Kinds();
    Applies(fl, u, "rows " + oid, "rows", oid);
  }

  lemma WalkReads(fl: Floats, u: SnmpOid)
    ensures Fit("walk") && Apply(fl, u, "walk") == Ok(u.(walk := true))
  {
    hide KeywordOf, KindOf;
    KeywordAlone("walk");
    Kinds();
  }

  lemma ShareReads(fl: Floats, u: SnmpOid, oid: string)
    requires IsOid(oid)
    ensures Fit("of " + oid) && Apply(fl, u, "of " + oid) == Ok(u.(share := Some(oid)))
  {
    hide IsOid, Neat, Apply, KindOf, Fit;
    OidIsNeat(oid);
    Kinds();
    Applies(fl, u, "of " + oid, "of", oid);
  }

  lemma RateReads(fl: Floats, u: SnmpOid)
    ensures Fit("per second") && Apply(fl, u, "per second") == Ok(u.(rate := true))
  {
    hide Apply, KindOf, Fit;
    Kinds();
    Applies(fl, u, "per second", "per", "second");
  }

  lemma ScaleReads(fl: Floats, u: SnmpOid, scale: F64)
    requires Faithful(fl) && fl.finite(scale)
    ensures Fit(ScaleText(fl, scale)) && Apply(fl, u, ScaleText(fl, scale)) == Ok(u.(scale := Some(scale)))
  {
    hide Apply, KindOf, Fit, Number, Neat;
    var divisor := fl.round(fl.inverse(scale));
    Kinds();
    if fl.small(divisor) && fl.inverse(divisor) == scale {
      NumberReads(fl, divisor);
      Applies(fl, u, ScaleText(fl, scale), "/", fl.show(divisor));
    } else {
      NumberReads(fl, scale);
      Applies(fl, u, ScaleText(fl, scale), "x", fl.show(scale));
    }
  }

  lemma UnitReads(fl: Floats, u: SnmpOid, text: string)
    requires Neat(text) && ';' !in text
    ensures Fit("unit " + text) && Apply(fl, u, "unit " + text) == Ok(u.(unit := text))
  {
    hide Apply, KindOf, Fit;
    Kinds();
    Applies(fl, u, "unit " + text, "unit", text);
  }

  lemma NamesApply(fl: Floats, u: SnmpOid, text: string, names: map<string, string>)
    requires Neat(text) && ';' !in text && u.names == map[] && names != map[]
    requires Meanings(NonEmpty(Words(text, ',')), map[]) == Some(names)
    ensures Fit("means " + text) && Apply(fl, u, "means " + text) == Ok(u.(names := names))
  {
    hide Apply, KindOf, Fit, Meanings, NonEmpty, Words;
    Kinds();
    Applies(fl, u, "means " + text, "means", text);
  }

  lemma NamesRead(fl: Floats, u: SnmpOid, names: map<string, string>, keys: seq<string>)
    requires NeatNames(names) && Enumerates(keys, names) && names != map[] && u.names == map[]
    ensures
      var option := "means " + Join(PairTexts(names, keys), ", ");
      Fit(option) && Apply(fl, u, option) == Ok(u.(names := names))
  {
    hide Join, PairTexts, Meanings, NonEmpty, Words, Neat, NeatNames, Fit, Apply;
    MeansReads(names, keys);
    NamesApply(fl, u, Join(PairTexts(names, keys), ", "), names);
  }

  lemma UnwantedReads(fl: Floats, u: SnmpOid, words: seq<string>)
    requires words != [] && NoneHas(words, '|') && NoneHas(words, ';') && forall word :: word in words ==> Neat(word)
    ensures
      var option := "not " + Join(words, " | ");
      Fit(option) && Apply(fl, u, option) == Ok(u.(unwanted := words))
  {
    hide Apply, KindOf, Fit, Join, Words;
    var text := Join(words, " | ");
    JoinNeat(words, " | ");
    JoinWithout(words, " | ", ';');
    WordsOfJoin(words);
    Kinds();
    Applies(fl, u, "not " + text, "not", text);
  }

  lemma LimitHasNoSemicolon(fl: Floats, limit: SnmpLimit)
    requires Faithful(fl) && fl.finite(limit.at)
    ensures ';' !in LimitText(fl, limit)
  {
  }

  lemma WarnReads(fl: Floats, u: SnmpOid, limit: SnmpLimit)
    requires Faithful(fl) && fl.finite(limit.at)
    ensures
      var option := "warn " + LimitText(fl, limit);
      Fit(option) && Apply(fl, u, option) == Ok(u.(warn := Some(limit)))
  {
    hide LimitText, LimitOf, Neat, Faithful, Apply, KindOf, Fit;
    LimitReads(fl, limit);
    LimitHasNoSemicolon(fl, limit);
    Kinds();
    Applies(fl, u, "warn " + LimitText(fl, limit), "warn", LimitText(fl, limit));
  }

  lemma DownReads(fl: Floats, u: SnmpOid, limit: SnmpLimit)
    requires Faithful(fl) && fl.finite(limit.at)
    ensures
      var option := "down " + LimitText(fl, limit);
      Fit(option) && Apply(fl, u, option) == Ok(u.(down := Some(limit)))
  {
    hide LimitText, LimitOf, Neat, Faithful, Apply, KindOf, Fit;
    LimitReads(fl, limit);
    LimitHasNoSemicolon(fl, limit);
    Kinds();
    Applies(fl, u, "down " + LimitText(fl, limit), "down", LimitText(fl, limit));
  }
}
