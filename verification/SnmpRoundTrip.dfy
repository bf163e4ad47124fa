/** The round trip of SNMP values (`common/src/snmp.rs`): a valid value's line
    says the value exactly when the value is separable, and so do the lines of a
    whole check when no word breaks its line. */
module SnmpRoundTrip {
  import opened Wrappers
  import opened Text
  import opened Splitting
  import opened Oids
  import opened Snmp
  import opened SnmpLaws
  import opened SnmpOptions

  // ----- All options of a value ----------------------------------------------

  lemma {:induction false} ApplyConcat(fl: Floats, u: SnmpOid, a: seq<string>, b: seq<string>, w: SnmpOid)
    requires ApplyAll(fl, u, a) == Ok(w)
    ensures ApplyAll(fl, u, a + b) == ApplyAll(fl, w, b)
    decreases |a|
  {
    hide Apply;
    if a == [] {
      assert a + b == b;
    } else {
      assert (a + b)[1..] == a[1..] + b;
      ApplyConcat(fl, Apply(fl, u, a[0]).value, a[1..], b, w);
    }
  }

  lemma ApplyOne(fl: Floats, u: SnmpOid, option: string)
    ensures Apply(fl, u, option).Ok? ==> ApplyAll(fl, u, [option]) == Apply(fl, u, option)
  {
    hide Apply;
    if Apply(fl, u, option).Ok? {
      assert [option][1..] == [];
      assert ApplyAll(fl, Apply(fl, u, option).value, []) == Apply(fl, u, option);
    }
  }

  /** Each of `options` is fit to stand between semicolons (and, if `tidy`, holds
      no line feed), and together they take `u` to `w`. */
  ghost predicate Takes(fl: Floats, u: SnmpOid, options: seq<string>, w: SnmpOid, tidy: bool) {
    && ApplyAll(fl, u, options) == Ok(w)
    && (forall option :: option in options ==> Fit(option))
    && (tidy ==> NoneHas(options, '\n'))
  }

  lemma TakesThen(fl: Floats, u: SnmpOid, a: seq<string>, v: SnmpOid, b: seq<string>, w: SnmpOid, tidy: bool)
    requires Takes(fl, u, a, v, tidy) && Takes(fl, v, b, w, tidy)
    ensures Takes(fl, u, a + b, w, tidy)
  {
    hide Fit;
    ApplyConcat(fl, u, a, b, v);
  }

  lemma TakesNone(fl: Floats, u: SnmpOid, tidy: bool)
    ensures Takes(fl, u, [], u, tidy)
  {
    hide Apply, Fit;
  }

  lemma TakesOne(fl: Floats, u: SnmpOid, option: string, w: SnmpOid, tidy: bool)
    requires Fit(option) && Apply(fl, u, option) == Ok(w) && (tidy ==> '\n' !in option)
    ensures Takes(fl, u, [option], w, tidy)
  {
    ApplyOne(fl, u, option);
  }

  ghost predicate Printable(fl: Floats, p: Printed) {
    Faithful(fl) && Valid(fl, p.v) && Clean(p.v) && Ordered(p)
  }

  lemma PrintableIsOrdered(fl: Floats, p: Printed)
    requires Printable(fl, p)
    ensures Ordered(p)
  {
  }

  lemma NumberOnOne(fl: Floats, x: F64)
    requires Faithful(fl) && fl.finite(x)
    ensures '\n' !in fl.show(x)
  {
    assert IsWhitespace('\n');
  }

  lemma ScaleOnOne(fl: Floats, scale: F64)
    requires Faithful(fl) && fl.finite(scale)
    ensures '\n' !in ScaleText(fl, scale)
  {
    var divisor := fl.round(fl.inverse(scale));
    NumberOnOne(fl, scale);
    if fl.small(divisor) {
      NumberOnOne(fl, divisor);
    }
  }

  lemma LimitOnOne(fl: Floats, limit: SnmpLimit)
    requires Faithful(fl) && fl.finite(limit.at)
    ensures '\n' !in LimitText(fl, limit)
  {
    NumberOnOne(fl, limit.at);
  }

  lemma PairsOnOne(v: SnmpOid, keys: seq<string>)
    requires forall k :: k in keys ==> k in v.names
    requires forall k :: k in v.names ==> NoControl(k) && NoControl(v.names[k])
    ensures '\n' !in Join(PairTexts(v.names, keys), ", ")
  {
    forall text | text in PairTexts(v.names, keys) ensures '\n' !in text {
      var i :| 0 <= i < |keys| && text == PairTexts(v.names, keys)[i];
      assert keys[i] in keys;
      assert IsControl('\n');
    }
    JoinWithout(PairTexts(v.names, keys), ", ", '\n');
  }

  // Each option of a printable value takes a value without that field to one
  // with it.

  lemma PrintableLimits(fl: Floats, p: Printed)
    requires Printable(fl, p)
    ensures Faithful(fl)
    ensures p.v.warn.Some? ==> fl.finite(p.v.warn.value.at)
    ensures p.v.down.Some? ==> fl.finite(p.v.down.value.at)
  {
    hide Faithful;
  }

  lemma PrintableTable(fl: Floats, p: Printed)
    requires Printable(fl, p)
    ensures p.v.rows.Some? ==> IsOid(p.v.rows.value) && p.v.walk
  {
    hide Faithful, IsOid;
  }

  lemma TableTakes(fl: Floats, p: Printed, u: SnmpOid)
    requires Printable(fl, p) && u.rows == None && !u.walk
    ensures Takes(fl, u, TableTexts(p.v), u.(walk := p.v.walk, rows := p.v.rows), OneLine(p.v))
  {
    hide Apply, ApplyAll, Fit, Takes, Printable, OneLine, IsOid;
    var v := p.v;
    PrintableTable(fl, p);
    if v.rows.Some? {
      OidIsNeat(v.rows.value);
      RowsReads(fl, u, v.rows.value);
      TakesOne(fl, u, "rows " + v.rows.value, u.(walk := v.walk, rows := v.rows), OneLine(v));
    } else if v.walk {
      WalkReads(fl, u);
      TakesOne(fl, u, "walk", u.(walk := v.walk, rows := v.rows), OneLine(v));
    } else {
      TakesNone(fl, u, OneLine(v));
      assert u.(walk := v.walk, rows := v.rows) == u;
    }
  }

  lemma ShareTakes(fl: Floats, p: Printed, u: SnmpOid)
    requires Printable(fl, p) && u.share == None
    ensures
      var v := p.v;
      Takes(fl, u, if v.share.Some? then ["of " + v.share.value] else [], u.(share := v.share), OneLine(v))
  {
    hide Apply, ApplyAll, Fit, Takes;
    var v := p.v;
    if v.share.Some? {
      OidIsNeat(v.share.value);
      ShareReads(fl, u, v.share.value);
      TakesOne(fl, u, "of " + v.share.value, u.(share := v.share), OneLine(v));
    } else {
      TakesNone(fl, u, OneLine(v));
      assert u.(share := v.share) == u;
    }
  }

  lemma RateTakes(fl: Floats, p: Printed, u: SnmpOid)
    requires Printable(fl, p) && u.rate == false
    ensures
      var v := p.v;
      Takes(fl, u, if v.rate then ["per second"] else [], u.(rate := v.rate), OneLine(v))
  {
    hide Apply, ApplyAll, Fit, Takes, Printable, OneLine;
    var v := p.v;
    if v.rate {
      RateReads(fl, u);
      assert '\n' !in "per second";
      TakesOne(fl, u, "per second", u.(rate := v.rate), OneLine(v));
    } else {
      TakesNone(fl, u, OneLine(v));
      assert u.(rate := v.rate) == u;
    }
  }

  lemma ScaleTakes(fl: Floats, p: Printed, u: SnmpOid)
    requires Printable(fl, p) && u.scale == None
    ensures
      var v := p.v;
      Takes(fl, u, if v.scale.Some? then [ScaleText(fl, v.scale.value)] else [], u.(scale := v.scale), OneLine(v))
  {
    hide Apply, ApplyAll, Fit, Takes;
    var v := p.v;
    if v.scale.Some? {
      ScaleReads(fl, u, v.scale.value);
      ScaleOnOne(fl, v.scale.value);
      TakesOne(fl, u, ScaleText(fl, v.scale.value), u.(scale := v.scale), OneLine(v));
    } else {
      TakesNone(fl, u, OneLine(v));
      assert u.(scale := v.scale) == u;
    }
  }

  lemma UnitTakes(fl: Floats, p: Printed, u: SnmpOid)
    requires Printable(fl, p) && u.unit == ""
    ensures
      var v := p.v;
      Takes(fl, u, if v.unit != "" then ["unit " + v.unit] else [], u.(unit := v.unit), OneLine(v))
  {
    hide Apply, ApplyAll, Fit, Takes;
    var v := p.v;
    if v.unit != "" {
      UnitReads(fl, u, v.unit);
      assert '\n' !in v.unit by { assert IsControl('\n'); }
      TakesOne(fl, u, "unit " + v.unit, u.(unit := v.unit), OneLine(v));
    } else {
      TakesNone(fl, u, OneLine(v));
      assert u.(unit := v.unit) == u;
    }
  }

  lemma NamesAreNeat(fl: Floats, p: Printed)
    requires Printable(fl, p)
    ensures NeatNames(p.v.names) && Enumerates(p.keys, p.v.names)
    ensures forall k :: k in p.v.names ==> NoControl(k) && NoControl(p.v.names[k])
  {
    ValidTexts(fl, p.v);
  }

  lemma NamesTake(fl: Floats, p: Printed, u: SnmpOid)
    requires Printable(fl, p) && u.names == map[]
    ensures
      var v := p.v;
      Takes(fl, u, if v.names != map[] then ["means " + Join(PairTexts(v.names, p.keys), ", ")] else [],
            u.(names := v.names), OneLine(v))
  {
    hide Apply, ApplyAll, Fit, Takes, Printable, Join, PairTexts, OneLine, NeatNames, NoControl;
    var v := p.v;
    if v.names != map[] {
      NamesAreNeat(fl, p);
      NamesRead(fl, u, v.names, p.keys);
      PairsOnOne(v, p.keys);
      TakesOne(fl, u, "means " + Join(PairTexts(v.names, p.keys), ", "), u.(names := v.names), OneLine(v));
    } else {
      TakesNone(fl, u, OneLine(v));
      assert u.(names := v.names) == u;
    }
  }

  lemma UnwantedTakes(fl: Floats, p: Printed, u: SnmpOid)
    requires Printable(fl, p) && u.unwanted == []
    ensures
      var v := p.v;
      Takes(fl, u, if v.unwanted != [] then ["not " + Join(v.unwanted, " | ")] else [],
            u.(unwanted := v.unwanted), OneLine(v))
  {
    hide Apply, ApplyAll, Fit, Takes;
    var v := p.v;
    if v.unwanted != [] {
      ValidTexts(fl, v);
      UnwantedReads(fl, u, v.unwanted);
      if OneLine(v) { JoinWithout(v.unwanted, " | ", '\n'); }
      TakesOne(fl, u, "not " + Join(v.unwanted, " | "), u.(unwanted := v.unwanted), OneLine(v));
    } else {
      TakesNone(fl, u, OneLine(v));
      assert u.(unwanted := v.unwanted) == u;
    }
  }

  lemma WarnTakes(fl: Floats, p: Printed, u: SnmpOid)
    requires Printable(fl, p) && u.warn == None
    ensures
      var v := p.v;
      Takes(fl, u, if v.warn.Some? then ["warn " + LimitText(fl, v.warn.value)] else [], u.(warn := v.warn), OneLine(v))
  {
    hide Apply, ApplyAll, Fit, Takes, Printable, OneLine, Faithful;
    var v := p.v;
    PrintableLimits(fl, p);
    if v.warn.Some? {
      WarnReads(fl, u, v.warn.value);
      LimitOnOne(fl, v.warn.value);
      TakesOne(fl, u, "warn " + LimitText(fl, v.warn.value), u.(warn := v.warn), OneLine(v));
    } else {
      TakesNone(fl, u, OneLine(v));
      assert u.(warn := v.warn) == u;
    }
  }

  lemma DownTakes(fl: Floats, p: Printed, u: SnmpOid)
    requires Printable(fl, p) && u.down == None
    ensures
      var v := p.v;
      Takes(fl, u, if v.down.Some? then ["down " + LimitText(fl, v.down.value)] else [], u.(down := v.down), OneLine(v))
  {
    hide Apply, ApplyAll, Fit, Takes, Printable, OneLine, Faithful;
    var v := p.v;
    PrintableLimits(fl, p);
    if v.down.Some? {
      DownReads(fl, u, v.down.value);
      LimitOnOne(fl, v.down.value);
      TakesOne(fl, u, "down " + LimitText(fl, v.down.value), u.(down := v.down), OneLine(v));
    } else {
      TakesNone(fl, u, OneLine(v));
      assert u.(down := v.down) == u;
    }
  }

  /** The options up to the factor take a bare value to one with those fields. */
  lemma MeasureTakes(fl: Floats, p: Printed, u: SnmpOid)
    requires Printable(fl, p) && u == Plain(u.oid, u.name, u.wanted)
    ensures
      var v := p.v;
      Takes(fl, u, MeasureTexts(fl, v),
            u.(walk := v.walk, rows := v.rows, share := v.share, rate := v.rate, scale := v.scale), OneLine(v))
  {
    hide Printable, OneLine, ScaleText, TableTexts, Takes;
    var v := p.v;
    var u1 := u.(walk := v.walk, rows := v.rows);
    var u2 := u1.(share := v.share);
    var u3 := u2.(rate := v.rate);
    var u4 := u3.(scale := v.scale);
    var o1 := TableTexts(v);
    var o2 := if v.share.Some? then ["of " + v.share.value] else [];
    var o3 := if v.rate then ["per second"] else [];
    var o4 := if v.scale.Some? then [ScaleText(fl, v.scale.value)] else [];
    TableTakes(fl, p, u);
    ShareTakes(fl, p, u1);
    RateTakes(fl, p, u2);
    ScaleTakes(fl, p, u3);
    TakesThen(fl, u, o1, u1, o2, u2, OneLine(v));
    TakesThen(fl, u, o1 + o2, u2, o3, u3, OneLine(v));
    TakesThen(fl, u, o1 + o2 + o3, u3, o4, u4, OneLine(v));
  }

  /** The other options complete the value. */
  lemma JudgeTakes(fl: Floats, p: Printed, u: SnmpOid)
    requires Printable(fl, p)
    requires u == p.v.(unit := "", names := map[], unwanted := [], warn := None, down := None)
    ensures Takes(fl, u, JudgeTexts(fl, p), p.v, OneLine(p.v))
  {
    hide Printable, OneLine, LimitText, PairTexts, Join, Takes;
    PrintableIsOrdered(fl, p);
    var v := p.v;
    var u1 := u.(unit := v.unit);
    var u2 := u1.(names := v.names);
    var u3 := u2.(unwanted := v.unwanted);
    var u4 := u3.(warn := v.warn);
    var u5 := u4.(down := v.down);
    var o1 := if v.unit != "" then ["unit " + v.unit] else [];
    var o2 := if v.names != map[] then ["means " + Join(PairTexts(v.names, p.keys), ", ")] else [];
    var o3 := if v.unwanted != [] then ["not " + Join(v.unwanted, " | ")] else [];
    var o4 := if v.warn.Some? then ["warn " + LimitText(fl, v.warn.value)] else [];
    var o5 := if v.down.Some? then ["down " + LimitText(fl, v.down.value)] else [];
    UnitTakes(fl, p, u);
    NamesTake(fl, p, u1);
    UnwantedTakes(fl, p, u2);
    WarnTakes(fl, p, u3);
    DownTakes(fl, p, u4);
    TakesThen(fl, u, o1, u1, o2, u2, OneLine(v));
    TakesThen(fl, u, o1 + o2, u2, o3, u3, OneLine(v));
    TakesThen(fl, u, o1 + o2 + o3, u3, o4, u4, OneLine(v));
    TakesThen(fl, u, o1 + o2 + o3 + o4, u4, o5, u5, OneLine(v));
    assert u5 == v;
  }

  function Bare(v: SnmpOid): SnmpOid {
    Plain(v.oid, v.name, v.wanted)
  }

  /** All options of a printable value, on top of its head. */
  lemma OptionsComplete(fl: Floats, p: Printed)
    requires Printable(fl, p)
    ensures Takes(fl, Bare(p.v), OptionTexts(fl, p), p.v, OneLine(p.v))
  {
    var v := p.v;
    var u := Bare(v).(walk := v.walk, rows := v.rows, share := v.share, rate := v.rate, scale := v.scale);
    MeasureTakes(fl, p, Bare(v));
    JudgeTakes(fl, p, u);
    hide Takes, MeasureTexts, JudgeTexts, Printable;
    TakesThen(fl, Bare(v), MeasureTexts(fl, v), u, JudgeTexts(fl, p), v, OneLine(v));
  }

  /** A head and options come apart at their semicolons. */
  lemma OptionsSplit(head: string, options: seq<string>)
    requires Neat(head) && ';' !in head && forall option :: option in options ==> Fit(option)
    ensures TrimAll(Split(head + Tail(" ", ';', " ", options), ';')) == [head] + options
    ensures NonEmpty(options) == options
  {
    SplitTail(head, " ", ';', " ", options);
    TrimPlain(head);
    forall i | 0 <= i < |options| ensures options[i] != "" {
      assert Fit(options[i]);
    }
    NonEmptyKeeps(options);
  }

  /** A printable value's line comes apart into its head and its options. */
  lemma LineSplits(fl: Floats, p: Printed)
    requires Printable(fl, p)
    ensures ValueOf(fl, LineText(fl, p)) == ApplyAll(fl, HeadOf(HeadText(p.v)), OptionTexts(fl, p))
  {
    OptionsComplete(fl, p);
    HeadIsNeat(fl, p.v);
    OptionsSplit(HeadText(p.v), OptionTexts(fl, p));
    hide OptionTexts, HeadText, ApplyAll, HeadOf, Takes, Split, TrimAll, NonEmpty, Tail, Valid, Clean, Faithful;
    assert ([HeadText(p.v)] + OptionTexts(fl, p))[1..] == OptionTexts(fl, p);
  }

  /** A separable value is what its line says. */
  lemma SeparableReads(fl: Floats, p: Printed)
    requires Faithful(fl) && Valid(fl, p.v) && Ordered(p) && Separable(p.v)
    ensures ValueOf(fl, LineText(fl, p)) == Ok(p.v)
  {
    LineSplits(fl, p);
    HeadReads(fl, p.v);
    OptionsComplete(fl, p);
  }

  // ----- What a line can say -------------------------------------------------

  /** The part of `Clean` that options decide. */
  ghost predicate CleanOptions(v: SnmpOid) {
    && NoneHas(v.unwanted, ';') && NoneHas(v.unwanted, '|')
    && ';' !in v.unit
    && (forall k :: k in v.names ==> CleanPair(k, v.names[k]))
  }

  lemma WordsWithout(text: string, separator: char, c: char)
    requires c !in text || c == separator
    ensures NoneHas(Words(text, separator), c)
  {
    SplitWithout(text, separator, c);
    TrimAllWithout(Split(text, separator), c);
  }

  lemma KeywordWithout(option: string, c: char)
    requires c !in option
    ensures c !in KeywordOf(option).1
  {
    match SplitOnceBlank(option)
    case Some((keyword, rest)) =>
      var b :| IsWhitespace(b) && option == keyword + [b] + rest;
      assert c in rest ==> c in option;
      TrimWithout(rest, c);
    case None =>
  }

  lemma {:induction false} MeaningsClean(pairs: seq<string>, names: map<string, string>)
    requires NoneHas(pairs, ';') && NoneHas(pairs, ',')
    requires forall k :: k in names ==> CleanPair(k, names[k])
    requires Meanings(pairs, names).Some?
    ensures forall k :: k in Meanings(pairs, names).value ==> CleanPair(k, Meanings(pairs, names).value[k])
    decreases |pairs|
  {
    if pairs != [] {
      var (key, meaning) := SplitOnce(pairs[0], '=').value;
      assert pairs[0] in pairs;
      assert ';' !in key && ',' !in key && ';' !in meaning && ',' !in meaning by {
        assert forall c :: c in key || c in meaning ==> c in pairs[0];
      }
      TrimWithout(key, ';');
      TrimWithout(key, ',');
      TrimWithout(key, '=');
      TrimWithout(meaning, ';');
      TrimWithout(meaning, ',');
      MeaningsClean(pairs[1..], names[Trim(key) := Trim(meaning)]);
    }
  }

  lemma MeansClean(rest: string, names: map<string, string>)
    requires ';' !in rest && forall k :: k in names ==> CleanPair(k, names[k])
    requires Meanings(NonEmpty(Words(rest, ',')), names).Some?
    ensures
      var got := Meanings(NonEmpty(Words(rest, ',')), names).value;
      forall k :: k in got ==> CleanPair(k, got[k])
  {
    WordsWithout(rest, ',', ',');
    WordsWithout(rest, ',', ';');
    NonEmptyWithout(Words(rest, ','), ',');
    NonEmptyWithout(Words(rest, ','), ';');
    MeaningsClean(NonEmpty(Words(rest, ',')), names);
  }

  /** An option leaves the head as it is; the texts it sets come from what
      follows its keyword. */
  lemma ApplySets(fl: Floats, u: SnmpOid, option: string)
    requires Apply(fl, u, option).Ok?
    ensures
      var w, rest := Apply(fl, u, option).value, KeywordOf(option).1;
      && w.oid == u.oid && w.name == u.name && w.wanted == u.wanted
      && (w.unit == u.unit || w.unit == rest)
      && (w.unwanted == u.unwanted || w.unwanted == Words(rest, '|'))
      && (w.names == u.names || Meanings(NonEmpty(Words(rest, ',')), u.names) == Some(w.names))
  {
    hide *;
    ApplyIsKind(fl, u, option);
    KindSets(fl, u, KindOf(KeywordOf(option).0), KeywordOf(option).1);
  }

  lemma ApplyIsKind(fl: Floats, u: SnmpOid, option: string)
    ensures Apply(fl, u, option) == ApplyKind(fl, u, KindOf(KeywordOf(option).0), KeywordOf(option).1)
  {
    hide ApplyKind, KindOf, KeywordOf;
  }

  lemma KindSets(fl: Floats, u: SnmpOid, kind: Kind, rest: string)
    requires ApplyKind(fl, u, kind, rest).Ok?
    ensures
      var w := ApplyKind(fl, u, kind, rest).value;
      && w.oid == u.oid && w.name == u.name && w.wanted == u.wanted
      && (w.unit == u.unit || w.unit == rest)
      && (w.unwanted == u.unwanted || w.unwanted == Words(rest, '|'))
      && (w.names == u.names || Meanings(NonEmpty(Words(rest, ',')), u.names) == Some(w.names))
  {
    hide Words, Number, LimitOf, NonEmpty, Meanings, EqIgnoreAsciiCase;
  }

  /** An option adds only clean texts. */
  lemma ApplyClean(fl: Floats, u: SnmpOid, option: string)
    requires ';' !in option && CleanOptions(u) && Apply(fl, u, option).Ok?
    ensures CleanOptions(Apply(fl, u, option).value)
  {
    hide Words, Apply, KeywordOf, NonEmpty, Meanings;
    var rest := KeywordOf(option).1;
    ApplySets(fl, u, option);
    KeywordWithout(option, ';');
    WordsWithout(rest, '|', ';');
    WordsWithout(rest, '|', '|');
    if Meanings(NonEmpty(Words(rest, ',')), u.names).Some? {
      MeansClean(rest, u.names);
    }
  }

  lemma {:induction false} ApplyAllClean(fl: Floats, u: SnmpOid, options: seq<string>)
    requires NoneHas(options, ';') && CleanOptions(u) && ApplyAll(fl, u, options).Ok?
    ensures
      var w := ApplyAll(fl, u, options).value;
      CleanOptions(w) && w.oid == u.oid && w.name == u.name && w.wanted == u.wanted
    decreases |options|
  {
    hide Apply;
    if options != [] {
      assert options[0] in options;
      ApplySets(fl, u, options[0]);
      ApplyClean(fl, u, options[0]);
      ApplyAllClean(fl, Apply(fl, u, options[0]).value, options[1..]);
    }
  }

  lemma HeadClean(head: string)
    requires ';' !in head
    ensures Clean(HeadOf(head))
  {
    hide Fields, Words, IsOid;
    var fields := Fields(head);
    FieldsWithout(head, ';');
    NamedField(head);
    WordsWithout(fields[|fields| - 1], '|', ';');
    WordsWithout(fields[|fields| - 1], '|', '|');
  }

  lemma FieldsWithout(head: string, c: char)
    requires c !in head
    ensures NoneHas(Fields(head), c)
  {
    hide SplitOnce, Trim;
    match SplitOnce(head, '=')
    case None => TrimWithout(head, c);
    case Some((first, rest)) =>
      PartsWithout(head, '=', c);
      TrimWithout(first, c);
      TrimWithout(rest, c);
      match SplitOnce(rest, '=')
      case None =>
      case Some((second, third)) =>
        PartsWithout(rest, '=', c);
        TrimWithout(second, c);
        TrimWithout(third, c);
  }

  lemma PartsWithout(text: string, separator: char, c: char)
    requires c !in text && SplitOnce(text, separator).Some?
    ensures var (first, rest) := SplitOnce(text, separator).value; c !in first && c !in rest
  {
    hide SplitOnce;
    var (first, rest) := SplitOnce(text, separator).value;
    assert forall d :: d in first || d in rest ==> d in text;
  }

  lemma NamedField(head: string)
    ensures |Fields(head)| > 1 ==> '=' !in Fields(head)[0]
  {
    hide Trim;
    match SplitOnce(head, '=')
    case None =>
    case Some((first, rest)) => TrimWithout(first, '=');
  }

  /** Whatever a line says is clean, and has the name its head says. */
  lemma LineIsClean(fl: Floats, line: string)
    requires ValueOf(fl, line).Ok?
    ensures Clean(ValueOf(fl, line).value)
    ensures ValueOf(fl, line).value.name == HeadOf(TrimAll(Split(line, ';'))[0]).name
  {
    var parts := TrimAll(Split(line, ';'));
    SplitWithout(line, ';', ';');
    TrimAllWithout(Split(line, ';'), ';');
    assert parts[0] in parts;
    HeadClean(parts[0]);
    assert NoneHas(parts[1..], ';') by {
      assert forall part :: part in parts[1..] ==> part in parts;
    }
    NonEmptyWithout(parts[1..], ';');
    ApplyAllClean(fl, HeadOf(parts[0]), NonEmpty(parts[1..]));
  }

  /** A valid value's line says the value exactly when the value is separable. */
  lemma LineRoundTrip(fl: Floats, p: Printed)
    requires Faithful(fl) && Valid(fl, p.v) && Ordered(p)
    ensures ValueOf(fl, LineText(fl, p)) == Ok(p.v) <==> Separable(p.v)
  {
    if Separable(p.v) {
      SeparableReads(fl, p);
    }
    if ValueOf(fl, LineText(fl, p)) == Ok(p.v) {
      LineIsClean(fl, LineText(fl, p));
      if !Unambiguous(p.v) {
        AmbiguousHead(fl, p.v);
        LineSplits(fl, p);
        OptionsComplete(fl, p);
        FitOptions(fl, p);
        ApplyAllClean(fl, HeadOf(HeadText(p.v)), OptionTexts(fl, p));
      }
    }
  }

  lemma FitOptions(fl: Floats, p: Printed)
    requires Printable(fl, p)
    ensures NoneHas(OptionTexts(fl, p), ';') && CleanOptions(HeadOf(HeadText(p.v)))
  {
    OptionsComplete(fl, p);
    HeadIsNeat(fl, p.v);
    HeadClean(HeadText(p.v));
  }

  // ----- The lines of a check ------------------------------------------------

  ghost predicate WordsAvoid(v: SnmpOid, c: char) {
    NoneHas(v.wanted, c) && NoneHas(v.unwanted, c)
  }

  lemma ApplyAvoids(fl: Floats, u: SnmpOid, option: string, c: char)
    requires c !in option && WordsAvoid(u, c) && Apply(fl, u, option).Ok?
    ensures WordsAvoid(Apply(fl, u, option).value, c)
  {
    hide Words, Apply, KeywordOf, NonEmpty, Meanings;
    KeywordWithout(option, c);
    WordsWithout(KeywordOf(option).1, '|', c);
    ApplySets(fl, u, option);
  }

  lemma {:induction false} ApplyAllAvoids(fl: Floats, u: SnmpOid, options: seq<string>, c: char)
    requires NoneHas(options, c) && WordsAvoid(u, c) && ApplyAll(fl, u, options).Ok?
    ensures WordsAvoid(ApplyAll(fl, u, options).value, c)
    decreases |options|
  {
    hide Apply;
    if options != [] {
      assert options[0] in options;
      ApplyAvoids(fl, u, options[0], c);
      ApplyAllAvoids(fl, Apply(fl, u, options[0]).value, options[1..], c);
    }
  }

  /** The words of a line's value hold only the line's characters. */
  lemma LineAvoids(fl: Floats, line: string, c: char)
    requires c !in line && ValueOf(fl, line).Ok?
    ensures WordsAvoid(ValueOf(fl, line).value, c)
  {
    hide Split, TrimAll, HeadOf, NonEmpty, ApplyAll;
    var parts := TrimAll(Split(line, ';'));
    SplitWithout(line, ';', c);
    TrimAllWithout(Split(line, ';'), c);
    assert parts[0] in parts;
    HeadAvoids(parts[0], c);
    assert NoneHas(parts[1..], c) by {
      assert forall part :: part in parts[1..] ==> part in parts;
    }
    NonEmptyWithout(parts[1..], c);
    ApplyAllAvoids(fl, HeadOf(parts[0]), NonEmpty(parts[1..]), c);
  }

  lemma HeadAvoids(head: string, c: char)
    requires c !in head
    ensures WordsAvoid(HeadOf(head), c)
  {
    hide Fields, Words;
    var fields := Fields(head);
    FieldsWithout(head, c);
    assert fields[|fields| - 1] in fields;
    WordsWithout(fields[|fields| - 1], '|', c);
  }

  ghost predicate AllOrdered(ps: seq<Printed>) {
    forall p :: p in ps ==> Ordered(p)
  }

  function ValuesIn(ps: seq<Printed>): (vs: seq<SnmpOid>)
    ensures |vs| == |ps|
    ensures forall i :: 0 <= i < |ps| ==> vs[i] == ps[i].v
  {
    seq(|ps|, i requires 0 <= i < |ps| => ps[i].v)
  }

  /** Lines that hold no line feed, and are neat, come apart the same. */
  lemma {:induction false} LinesOfJoin(lines: seq<string>)
    requires NoneHas(lines, '\n') && forall line :: line in lines ==> Neat(line)
    ensures NonEmpty(TrimAll(Lines(Join(lines, "\n")))) == lines
    decreases |lines|
  {
    if lines == [] {
    } else if |lines| == 1 {
      assert lines[0] in lines;
      TrimPlain(lines[0]);
      assert Lines(lines[0]) == [lines[0]];
      assert TrimAll([lines[0]]) == [lines[0]] == lines;
      NonEmptyKeeps(lines);
    } else {
      var first, rest := lines[0], Join(lines[1..], "\n");
      assert first in lines;
      TrimPlain(first);
      assert Join(lines, "\n") == first + ['\n'] + rest;
      SplitOnceAt(first, '\n', rest);
      assert WithoutReturn(first) == first;
      LinesOfJoin(lines[1..]);
      TrimAllFirst(first, Lines(rest));
      assert ([first] + TrimAll(Lines(rest)))[1..] == TrimAll(Lines(rest));
      assert lines == [first] + lines[1..];
    }
  }

  lemma {:induction false} AllValuesAre(fl: Floats, lines: seq<string>, vs: seq<SnmpOid>)
    ensures AllValues(fl, lines) == Ok(vs) <==>
              |lines| == |vs| && forall i :: 0 <= i < |vs| ==> ValueOf(fl, lines[i]) == Ok(vs[i])
    decreases |lines|
  {
    hide ValueOf;
    if lines != [] {
      if vs == [] {
      } else {
        AllValuesAre(fl, lines[1..], vs[1..]);
        assert vs == [vs[0]] + vs[1..];
        if |lines| == |vs| && forall i :: 0 <= i < |vs| ==> ValueOf(fl, lines[i]) == Ok(vs[i]) {
          forall i | 0 <= i < |vs| - 1 ensures ValueOf(fl, lines[1..][i]) == Ok(vs[1..][i]) {
            assert lines[1..][i] == lines[i + 1];
          }
        }
        if AllValues(fl, lines) == Ok(vs) {
          assert AllValues(fl, lines[1..]) == Ok(vs[1..]);
          forall i | 0 <= i < |vs| ensures ValueOf(fl, lines[i]) == Ok(vs[i]) {
            if i > 0 {
              assert lines[i] == lines[1..][i - 1];
            }
          }
        }
      }
    }
  }

  /** A valid, clean value on one line: its line holds no line feed. */
  lemma LineIsOne(fl: Floats, p: Printed)
    requires Faithful(fl) && Valid(fl, p.v) && Clean(p.v) && Ordered(p) && OneLine(p.v)
    ensures Neat(LineText(fl, p)) && '\n' !in LineText(fl, p)
  {
    HeadIsNeat(fl, p.v);
    HeadOnOne(fl, p.v);
    OptionsComplete(fl, p);
    TailOnOne(HeadText(p.v), OptionTexts(fl, p));
  }

  lemma {:induction false} TailOnOne(head: string, options: seq<string>)
    requires Neat(head) && '\n' !in head && NoneHas(options, '\n')
    requires forall option :: option in options ==> Neat(option)
    ensures Neat(head + Tail(" ", ';', " ", options)) && '\n' !in head + Tail(" ", ';', " ", options)
    decreases |options|
  {
    if options == [] {
      assert head + "" == head;
    } else {
      var next := head + " ; " + options[0];
      assert options[0] in options;
      assert next[0] == head[0] && next[|next| - 1] == options[0][|options[0]| - 1];
      TailOnOne(next, options[1..]);
      assert " " + [';'] + " " == " ; ";
      assert next + Tail(" ", ';', " ", options[1..]) == head + Tail(" ", ';', " ", options);
    }
  }

  lemma NameOnOne(fl: Floats, v: SnmpOid)
    requires Valid(fl, v)
    ensures '\n' !in v.name
  {
    assert IsControl('\n');
  }

  lemma HeadOnOne(fl: Floats, v: SnmpOid)
    requires Valid(fl, v) && OneLine(v)
    ensures '\n' !in HeadText(v)
  {
    hide Valid, Join, Neat;
    ValidTexts(fl, v);
    NameOnOne(fl, v);
    JoinWithout(v.wanted, " | ", '\n');
    hide NoneHas;
    assert '\n' !in " = ";
  }

  /** The values of a check, written as lines, read back the same exactly when
      each is separable and none has a word that breaks its line. */
  lemma ValuesRoundTrip(fl: Floats, ps: seq<Printed>)
    requires Faithful(fl) && AllOrdered(ps)
    requires forall p :: p in ps ==> Valid(fl, p.v)
    ensures ParseValues(fl, ValuesText(fl, ps)) == Ok(ValuesIn(ps))
       <==> forall p :: p in ps ==> Separable(p.v) && OneLine(p.v)
  {
    hide ParseValues, ValuesText, Valid, Separable, OneLine, Faithful;
    if ParseValues(fl, ValuesText(fl, ps)) == Ok(ValuesIn(ps)) {
      ReadBack(fl, ps);
    }
    if forall p :: p in ps ==> Separable(p.v) && OneLine(p.v) {
      ReadsBack(fl, ps);
    }
  }

  lemma ReadsBack(fl: Floats, ps: seq<Printed>)
    requires Faithful(fl) && AllOrdered(ps)
    requires forall p :: p in ps ==> Valid(fl, p.v) && Separable(p.v) && OneLine(p.v)
    ensures ParseValues(fl, ValuesText(fl, ps)) == Ok(ValuesIn(ps))
  {
    hide ValueOf, LineText, Valid, Unambiguous, OneLine, ValuesText, Faithful;
    var lines, vs := LineTexts(fl, ps), ValuesIn(ps);
    forall i | 0 <= i < |ps| ensures Valid(fl, ps[i].v) && Clean(ps[i].v) && OneLine(ps[i].v) {
      assert ps[i] in ps;
    }
    LinesAreRead(fl, ps);
    forall i | 0 <= i < |ps| ensures ValueOf(fl, lines[i]) == Ok(vs[i]) {
      assert ps[i] in ps;
      LineRoundTrip(fl, ps[i]);
    }
    AllValuesAre(fl, lines, vs);
  }

  lemma ReadBack(fl: Floats, ps: seq<Printed>)
    requires Faithful(fl) && AllOrdered(ps)
    requires forall p :: p in ps ==> Valid(fl, p.v)
    requires ParseValues(fl, ValuesText(fl, ps)) == Ok(ValuesIn(ps))
    ensures forall p :: p in ps ==> Separable(p.v) && OneLine(p.v)
  {
    hide ValueOf, LineText, Valid, Unambiguous, Clean, ValuesText, Faithful;
    var lines, vs := LineTexts(fl, ps), ValuesIn(ps);
    var read := NonEmpty(TrimAll(Lines(ValuesText(fl, ps))));
    AllValuesAre(fl, read, vs);
    ReadsAreOnOne(ValuesText(fl, ps));
    forall i | 0 <= i < |ps| ensures Valid(fl, ps[i].v) && Clean(ps[i].v) && OneLine(ps[i].v) {
      assert ps[i] in ps && read[i] in read && vs[i] == ps[i].v;
      LineIsClean(fl, read[i]);
      LineAvoids(fl, read[i], '\n');
    }
    LinesAreRead(fl, ps);
    forall i | 0 <= i < |ps| ensures Separable(ps[i].v) {
      assert ps[i] in ps;
      LineRoundTrip(fl, ps[i]);
    }
  }

  lemma ReadsAreOnOne(text: string)
    ensures NoneHas(NonEmpty(TrimAll(Lines(text))), '\n')
  {
    LinesWithout(text);
    TrimAllWithout(Lines(text), '\n');
    NonEmptyWithout(TrimAll(Lines(text)), '\n');
  }

  lemma LinesAreRead(fl: Floats, ps: seq<Printed>)
    requires Faithful(fl) && AllOrdered(ps)
    requires forall i :: 0 <= i < |ps| ==> Valid(fl, ps[i].v) && Clean(ps[i].v) && OneLine(ps[i].v)
    ensures NonEmpty(TrimAll(Lines(ValuesText(fl, ps)))) == LineTexts(fl, ps)
  {
    var lines := LineTexts(fl, ps);
    forall line | line in lines ensures Neat(line) && '\n' !in line {
      var i :| 0 <= i < |lines| && line == lines[i];
      assert ps[i] in ps;
      LineIsOne(fl, ps[i]);
    }
    LinesOfJoin(lines);
  }

  // ----- A value that doesn't read back --------------------------------------

  lemma ArcsMore(first: string, rest: seq<string>)
    requires Arc(first).Some? && Arcs(rest).Some?
    ensures Arcs([first] + rest) == Some([Arc(first).value] + Arcs(rest).value)
  {
    hide Arc;
    assert ([first] + rest)[1..] == rest;
  }

  lemma ShortOid()
    ensures IsOid("1.3")
  {
    assert "1" + ['.'] + "3" == "1.3";
    SplitAt("1", '.', "3");
    SplitNone("3", '.');
    hide Split;
    assert Arc("1") == Some(1) && Arc("3") == Some(3);
    assert Arcs([]) == Some([]);
    ArcsMore("3", []);
    ArcsMore("1", ["3"]);
    assert ["3"] + [] == ["3"];
  }

  /** A valid value with a semicolon in its name isn't read from its own line. */
  lemma SeparatorInName(fl: Floats)
    requires Faithful(fl)
    ensures var p := Printed(Plain("1.3", "a;b", []), []);
            && AllOrdered([p]) && Valid(fl, p.v)
            && ParseValues(fl, ValuesText(fl, [p])) != Ok([p.v])
  {
    hide ParseValues, ValuesText, Faithful, IsOid;
    var p := Printed(Plain("1.3", "a;b", []), []);
    ShortOid();
    TrimPlain("a;b");
    assert Trim("") == "";
    assert forall i :: 0 <= i < 3 ==> !IsControl("a;b"[i]);
    assert Valid(fl, p.v);
    assert "a;b"[1] == ';' && !Separable(p.v);
    ValuesRoundTrip(fl, [p]);
    assert ValuesIn([p]) == [p.v];
  }
}
