/** The promise of `common/src/snmp.rs`: the values of a check, written as lines,
    read back the same; and exactly which valid values keep it. */
module SnmpLaws {
  import opened Wrappers
  import opened Text
  import opened Splitting
  import opened Oids
  import opened Snmp

  /** A printed number: something, with no white space and no semicolon. */
  predicate PlainNumber(text: string) {
    text != "" && forall c :: c in text ==> !IsWhitespace(c) && c != ';'
  }

  /** What is taken for granted of floats: a finite one reads back as printed,
      and the small whole divisors are finite and not zero. */
  ghost predicate Faithful(fl: Floats) {
    && (forall x: F64 :: fl.finite(x) ==> fl.parse(fl.show(x)) == Some(x) && PlainNumber(fl.show(x)))
    && (forall x: F64 :: fl.small(x) ==> fl.finite(x) && !fl.zero(x))
  }

  // ----- Which values keep the promise ---------------------------------------

  /** No text of `v` holds the separator it is written with. */
  ghost predicate Clean(v: SnmpOid) {
    && ';' !in v.name && '=' !in v.name
    && NoneHas(v.wanted, ';') && NoneHas(v.wanted, '|')
    && NoneHas(v.unwanted, ';') && NoneHas(v.unwanted, '|')
    && ';' !in v.unit
    && (forall k :: k in v.names ==> CleanPair(k, v.names[k]))
  }

  ghost predicate CleanPair(key: string, meaning: string) {
    ';' !in key && ',' !in key && '=' !in key && ';' !in meaning && ',' !in meaning
  }

  /** The parts of the head can be told apart: a name alone before the OID isn't
      an OID itself, and an expectation without a name holds no `=`. */
  ghost predicate Unambiguous(v: SnmpOid) {
    && (v.wanted == [] ==> !IsOid(v.name))
    && (v.name == "" ==> NoneHas(v.wanted, '='))
  }

  /** The values a line can say. */
  ghost predicate Separable(v: SnmpOid) {
    Clean(v) && Unambiguous(v)
  }

  /** No word of `v` breaks its line. */
  ghost predicate OneLine(v: SnmpOid) {
    NoneHas(v.wanted, '\n') && NoneHas(v.unwanted, '\n')
  }

  // ----- Joined texts --------------------------------------------------------

  lemma {:induction false} JoinNeat(parts: seq<string>, separator: string)
    requires parts != [] && forall part :: part in parts ==> Neat(part)
    ensures Neat(Join(parts, separator))
    decreases |parts|
  {
    if |parts| > 1 {
      JoinNeat(parts[1..], separator);
      var rest := Join(parts[1..], separator);
      var text := parts[0] + separator + rest;
      assert parts[0] in parts;
      assert text[0] == parts[0][0] && text[|text| - 1] == rest[|rest| - 1];
    }
  }

  lemma {:induction false} JoinWithout(parts: seq<string>, separator: string, c: char)
    requires NoneHas(parts, c) && c !in separator
    ensures c !in Join(parts, separator)
    decreases |parts|
  {
    if |parts| > 1 {
      JoinWithout(parts[1..], separator, c);
    }
  }

  lemma ValidWordIsNeat(word: string)
    requires ValidWord(word)
    ensures Neat(word)
  {
    NeatIsTrimmed(word);
  }

  /** Words joined by ` | ` come apart. */
  lemma WordsOfJoin(words: seq<string>)
    requires words != [] && NoneHas(words, '|') && forall word :: word in words ==> Neat(word)
    ensures Words(Join(words, " | "), '|') == words
  {
    assert " " + ['|'] + " " == " | ";
    JoinIsTail(words, " ", '|', " ");
    SplitTail(words[0], " ", '|', " ", words[1..]);
    TrimPlain(words[0]);
    assert words == [words[0]] + words[1..];
  }

  // ----- The head ------------------------------------------------------------

  lemma NeatAfter(left: string, text: string, right: string)
    requires AllWhitespace(left) && AllWhitespace(right) && Neat(text)
    ensures Trim(left + text + right) == text && Trim(left + text) == text && Trim(text + right) == text
  {
    hide Trim, Neat, AllWhitespace;
    TrimPadded(left, text, right);
    TrimPadded(left, text, "");
    TrimPadded("", text, right);
    assert left + text + "" == left + text;
    assert "" + text + right == text + right;
  }

  lemma OidIsNeat(oid: string)
    requires IsOid(oid)
    ensures Neat(oid) && '=' !in oid && ';' !in oid && '\n' !in oid
  {
    OidCharacters(oid);
    assert oid[0] in oid && oid[|oid| - 1] in oid;
  }

  lemma SplitEquals(a: string, b: string)
    requires '=' !in a && Neat(a)
    ensures SplitOnce(a + " = " + b, '=') == Some((a + " ", " " + b)) && Trim(a + " ") == a
  {
    hide SplitOnce, Trim, Neat;
    assert a + " = " + b == (a + " ") + ['='] + (" " + b);
    SplitOnceAt(a + " ", '=', " " + b);
    NeatAfter("", a, " ");
  }

  lemma FieldsOfTwo(a: string, b: string)
    requires '=' !in a && Neat(a) && '=' !in b && Neat(b)
    ensures Fields(a + " = " + b) == [a, b]
  {
    SplitEquals(a, b);
    NeatAfter(" ", b, "");
  }

  lemma FieldsOfThree(a: string, b: string, c: string)
    requires '=' !in a && Neat(a) && '=' !in b && Neat(b) && Neat(c)
    ensures Fields(a + " = " + (b + " = " + c)) == [a, b, c]
  {
    hide Fields, SplitOnce, Trim, Neat;
    var rest := b + " = " + c;
    SplitEquals(a, rest);
    SecondEquals(b, c);
    FieldsAre(a + " = " + rest, a + " ", " " + rest, " " + b + " ", " " + c);
    NeatAfter(" ", c, "");
  }

  lemma FieldsAre(head: string, first: string, rest: string, second: string, third: string)
    requires SplitOnce(head, '=') == Some((first, rest)) && SplitOnce(rest, '=') == Some((second, third))
    ensures Fields(head) == [Trim(first), Trim(second), Trim(third)]
  {
    hide Trim;
  }

  lemma SecondEquals(b: string, c: string)
    requires '=' !in b && Neat(b)
    ensures SplitOnce(" " + (b + " = " + c), '=') == Some((" " + b + " ", " " + c)) && Trim(" " + b + " ") == b
  {
    hide SplitOnce, Trim, Neat;
    assert " " + (b + " = " + c) == (" " + b + " ") + ['='] + (" " + c);
    SplitOnceAt(" " + b + " ", '=', " " + c);
    NeatAfter(" ", b, " ");
    NeatAfter("", b, " ");
  }

  lemma FieldsOfOne(a: string)
    requires '=' !in a && Neat(a)
    ensures Fields(a) == [a]
  {
    TrimPlain(a);
  }

  /** What a validated value's texts look like. */
  lemma ValidTexts(fl: Floats, v: SnmpOid)
    requires Valid(fl, v)
    ensures Neat(v.oid) && '=' !in v.oid && ';' !in v.oid && '\n' !in v.oid
    ensures v.name != "" ==> Neat(v.name)
    ensures forall word :: word in v.wanted ==> Neat(word)
    ensures forall word :: word in v.unwanted ==> Neat(word)
    ensures v.unit != "" ==> Neat(v.unit)
    ensures forall k :: k in v.names ==> Neat(k) && Neat(v.names[k])
  {
    OidIsNeat(v.oid);
    NeatIsTrimmed(v.name);
    NeatIsTrimmed(v.unit);
    forall word | word in v.wanted + v.unwanted ensures Neat(word) {
      ValidWordIsNeat(word);
    }
    assert forall word :: word in v.wanted ==> word in v.wanted + v.unwanted;
    assert forall word :: word in v.unwanted ==> word in v.wanted + v.unwanted;
    forall k | k in v.names ensures Neat(k) && Neat(v.names[k]) {
      NeatIsTrimmed(k);
      NeatIsTrimmed(v.names[k]);
    }
  }

  function WantedText(v: SnmpOid): string {
    Join(v.wanted, " | ")
  }

  lemma HeadForms(v: SnmpOid)
    ensures v.name == "" && v.wanted == [] ==> HeadText(v) == v.oid
    ensures v.name == "" && v.wanted != [] ==> HeadText(v) == v.oid + " = " + WantedText(v)
    ensures v.name != "" && v.wanted == [] ==> HeadText(v) == v.name + " = " + v.oid
    ensures v.name != "" && v.wanted != [] ==> HeadText(v) == v.name + " = " + (v.oid + " = " + WantedText(v))
  {
    if v.name == "" {
      assert "" + v.oid == v.oid;
      if v.wanted == [] {
        assert v.oid + "" == v.oid;
      } else {
        assert v.oid + (" = " + WantedText(v)) == v.oid + " = " + WantedText(v);
      }
    } else if v.wanted == [] {
      assert v.name + " = " + v.oid + "" == v.name + " = " + v.oid;
    } else {
      assert v.name + " = " + v.oid + (" = " + WantedText(v)) == v.name + " = " + (v.oid + " = " + WantedText(v));
    }
  }

  lemma PairNeat(a: string, b: string)
    requires Neat(a) && Neat(b)
    ensures Neat(a + " = " + b)
  {
    var text := a + " = " + b;
    assert text[0] == a[0] && text[|text| - 1] == b[|b| - 1];
  }

  /** The head is neat, and holds no semicolon. */
  lemma HeadIsNeat(fl: Floats, v: SnmpOid)
    requires Valid(fl, v) && Clean(v)
    ensures Neat(HeadText(v)) && ';' !in HeadText(v)
  {
    hide Neat, Valid, Join, HeadText;
    ValidTexts(fl, v);
    HeadForms(v);
    if v.wanted != [] {
      JoinNeat(v.wanted, " | ");
      JoinWithout(v.wanted, " | ", ';');
      PairNeat(v.oid, WantedText(v));
      if v.name != "" {
        PairNeat(v.name, v.oid + " = " + WantedText(v));
      }
    } else if v.name != "" {
      PairNeat(v.name, v.oid);
    }
  }

  /** The head of an unambiguous value says it. */
  lemma HeadReads(fl: Floats, v: SnmpOid)
    requires Valid(fl, v) && Separable(v)
    ensures HeadOf(HeadText(v)) == Plain(v.oid, v.name, v.wanted)
  {
    hide Neat, HeadText, Valid, Words, IsOid, Fields, Join, HeadOf;
    ValidTexts(fl, v);
    HeadForms(v);
    IsOidOf(fl, v);
    if v.wanted == [] {
      if v.name == "" {
        FieldsOfOne(v.oid);
        HeadFrom(v.oid, [v.oid]);
      } else {
        FieldsOfTwo(v.name, v.oid);
        HeadFrom(v.name + " = " + v.oid, [v.name, v.oid]);
      }
    } else {
      var text := WantedText(v);
      JoinNeat(v.wanted, " | ");
      WordsOfJoin(v.wanted);
      if v.name == "" {
        JoinWithout(v.wanted, " | ", '=');
        FieldsOfTwo(v.oid, text);
        HeadFrom(v.oid + " = " + text, [v.oid, text]);
      } else {
        FieldsOfThree(v.name, v.oid, text);
        HeadFrom(v.name + " = " + (v.oid + " = " + text), [v.name, v.oid, text]);
      }
    }
  }

  lemma HeadFrom(head: string, fields: seq<string>)
    requires Fields(head) == fields
    ensures |fields| == 1 ==> HeadOf(head) == Plain(head, "", [])
    ensures |fields| == 2 && IsOid(fields[0]) ==> HeadOf(head) == Plain(fields[0], "", Words(fields[1], '|'))
    ensures |fields| == 2 && !IsOid(fields[0]) ==> HeadOf(head) == Plain(fields[1], fields[0], [])
    ensures |fields| == 3 ==> HeadOf(head) == Plain(fields[1], fields[0], Words(fields[2], '|'))
  {
    hide Fields, Words, IsOid;
  }

  lemma IsOidOf(fl: Floats, v: SnmpOid)
    requires Valid(fl, v)
    ensures IsOid(v.oid)
  {
  }

  /** The head of an ambiguous value says another name. */
  lemma AmbiguousHead(fl: Floats, v: SnmpOid)
    requires Valid(fl, v) && Clean(v) && !Unambiguous(v)
    ensures HeadOf(HeadText(v)).name != v.name
  {
    ValidTexts(fl, v);
    HeadForms(v);
    if v.wanted == [] {
      OidIsNeat(v.name);
      hide Neat, HeadText, Valid, Words, IsOid, Fields, Join;
      FieldsOfTwo(v.name, v.oid);
    } else {
      JoinHas(v.wanted, " | ", '=');
      EqualsLater(v.oid, WantedText(v));
    }
  }

  lemma EqualsLater(a: string, b: string)
    requires '=' !in a && Neat(a) && '=' in b
    ensures |Fields(a + " = " + b)| == 3 && Fields(a + " = " + b)[0] == a
  {
    SplitEquals(a, b);
    var i := Position(b, '=').value;
    assert (" " + b)[i + 1] == '=';
  }

  lemma {:induction false} JoinHas(parts: seq<string>, separator: string, c: char)
    requires !NoneHas(parts, c)
    ensures c in Join(parts, separator)
    decreases |parts|
  {
    if |parts| > 1 && c !in parts[0] {
      JoinHas(parts[1..], separator, c);
    }
  }
}
