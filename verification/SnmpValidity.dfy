/** Which values of an `snmp` check are valid (`SnmpOid::validate` in
    `common/src/checks.rs`), field by field: what each may be set to in any valid
    value. */
module SnmpValidity {
  import opened Wrappers
  import opened Text
  import opened Splitting
  import opened Oids
  import opened Snmp

  // ----- Texts ---------------------------------------------------------------

  /** No control character: neither of the first 32 nor delete nor of the 32 after
      it. */
  ghost predicate Printable(text: string) {
    forall c :: c in text ==> !('\U{00}' <= c <= '\U{1F}') && !('\U{7F}' <= c <= '\U{9F}')
  }

  /** No white space at either end. */
  predicate Trimmed(text: string) {
    text == "" || (!IsWhitespace(text[0]) && !IsWhitespace(text[|text| - 1]))
  }

  lemma TrimmedExactly(text: string)
    ensures Trim(text) == text <==> Trimmed(text)
  {
    hide Trim;
    NeatIsTrimmed(text);
    if text == "" {
      TrimBlank(text);
    }
  }

  lemma PrintableExactly(text: string)
    ensures NoControl(text) <==> Printable(text)
  {
    if !NoControl(text) {
      var i :| 0 <= i < |text| && IsControl(text[i]);
      assert text[i] in text;
    }
  }

  // ----- Fields --------------------------------------------------------------

  /** A value of which only the OID is said. */
  lemma OidDecides(fl: Floats, oid: string)
    ensures Valid(fl, Plain(oid, "", [])) <==> IsOid(oid)
  {
    hide IsOid;
    TrimmedExactly("");
  }

  /** A name takes at most 60 characters. */
  lemma NamesTaken(fl: Floats, v: SnmpOid, name: string)
    requires Valid(fl, v)
    ensures Valid(fl, v.(name := name)) <==> Trimmed(name) && |name| <= 60 && Printable(name)
  {
    hide IsOid, Trim, NoControl, Printable, ValidWord, ValidMeaning, ValidLimits;
    TrimmedExactly(name);
    PrintableExactly(name);
  }

  /** A unit takes at most 12 characters. */
  lemma UnitsTaken(fl: Floats, v: SnmpOid, unit: string)
    requires Valid(fl, v)
    ensures Valid(fl, v.(unit := unit)) <==> Trimmed(unit) && |unit| <= 12 && Printable(unit)
  {
    hide IsOid, Trim, NoControl, Printable, ValidWord, ValidMeaning, ValidLimits;
    TrimmedExactly(unit);
    PrintableExactly(unit);
  }

  /** Only a walk has rows, whose names stand under an OID. */
  lemma RowsTaken(fl: Floats, v: SnmpOid, walk: bool, rows: Option<string>)
    requires Valid(fl, v)
    ensures Valid(fl, v.(walk := walk, rows := rows)) <==> rows == None || (walk && IsOid(rows.value))
  {
    hide IsOid, Trim, NoControl, ValidWord, ValidMeaning, ValidLimits;
  }

  /** A value is a rate, a share of another, or neither. */
  lemma SharesTaken(fl: Floats, v: SnmpOid, rate: bool, share: Option<string>)
    requires Valid(fl, v)
    ensures Valid(fl, v.(rate := rate, share := share)) <==> share == None || (!rate && IsOid(share.value))
  {
    hide IsOid, Trim, NoControl, ValidWord, ValidMeaning, ValidLimits;
  }

  /** The factor is finite and isn't 0. */
  lemma FactorsTaken(fl: Floats, v: SnmpOid, scale: Option<F64>)
    requires Valid(fl, v)
    ensures Valid(fl, v.(scale := scale))
       <==> scale == None || (fl.finite(scale.value) && !fl.zero(scale.value))
  {
    hide IsOid, Trim, NoControl, ValidWord, ValidMeaning, ValidLimits;
  }

  ghost predicate WordsTaken(words: seq<string>) {
    |words| <= 30 && forall word :: word in words ==> word != "" && Trimmed(word) && |word| <= 200
  }

  /** What a value must be, or what it must not be: at most 30 words of 1 to 200
      characters. */
  lemma ExpectationsTaken(fl: Floats, v: SnmpOid, wanted: seq<string>, unwanted: seq<string>)
    requires Valid(fl, v)
    ensures Valid(fl, v.(wanted := wanted, unwanted := unwanted))
       <==> (WordsTaken(wanted) && unwanted == []) || (wanted == [] && WordsTaken(unwanted))
  {
    hide IsOid, Trim, Trimmed, NoControl, ValidMeaning, ValidLimits;
    forall word ensures ValidWord(word) <==> word != "" && Trimmed(word) && |word| <= 200 {
      TrimmedExactly(word);
    }
    hide ValidWord;
    assert wanted == [] ==> wanted + unwanted == unwanted;
    assert unwanted == [] ==> wanted + unwanted == wanted;
  }

  ghost predicate MeaningTaken(text: string) {
    text != "" && Trimmed(text) && |text| <= 40 && Printable(text)
  }

  /** At most 30 meanings, of 1 to 40 characters and for as many. */
  lemma MeaningsTaken(fl: Floats, v: SnmpOid, names: map<string, string>)
    requires Valid(fl, v)
    ensures Valid(fl, v.(names := names))
       <==> |names| <= 30 && forall k :: k in names ==> MeaningTaken(k) && MeaningTaken(names[k])
  {
    hide IsOid, Trim, Trimmed, NoControl, Printable, ValidWord, ValidLimits;
    forall text ensures ValidMeaning(text) <==> MeaningTaken(text) {
      TrimmedExactly(text);
      PrintableExactly(text);
    }
    hide ValidMeaning, MeaningTaken;
  }

  /** Limits are finite, and of two both are upper or both lower ones, the warning
      reached first. */
  lemma LimitsTaken(fl: Floats, v: SnmpOid, warn: Option<SnmpLimit>, down: Option<SnmpLimit>)
    requires Valid(fl, v)
    ensures Valid(fl, v.(warn := warn, down := down))
       <==> && (forall limit :: Some(limit) in [warn, down] ==> fl.finite(limit.at))
            && match (warn, down) {
                 case (Some(Over(a)), Some(Over(b))) => fl.atMost(a, b)
                 case (Some(Under(a)), Some(Under(b))) => fl.atMost(b, a)
                 case (Some(_), Some(_)) => false
                 case _ => true
               }
  {
    hide IsOid, Trim, NoControl, ValidWord, ValidMeaning;
    assert warn.Some? ==> Some(warn.value) in [warn, down];
    assert down.Some? ==> Some(down.value) in [warn, down];
  }
}
