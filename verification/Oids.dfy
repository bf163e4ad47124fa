/** Object identifiers in numbers (`oid_arcs` in `common/src/checks.rs`). */
module Oids {
  import opened Wrappers
  import opened Decimals
  import opened Splitting

  /** One number of an identifier: digits alone, below 2^32. */
  function Arc(text: string): Option<nat> {
    if text == "" || !AllDigits(text) then None else ParseUnsigned(text, 0x1_0000_0000)
  }

  function Arcs(parts: seq<string>): Option<seq<nat>> {
    if parts == [] then Some([])
    else
      match (Arc(parts[0]), Arcs(parts[1..]))
      case (Some(arc), Some(arcs)) => Some([arc] + arcs)
      case _ => None
  }

  /** `oid_arcs`: the numbers of an identifier, a leading dot allowed. */
  function OidArcs(oid: string): Option<seq<nat>> {
    var text := if oid != "" && oid[0] == '.' then oid[1..] else oid;
    match Arcs(Split(text, '.'))
    case None => None
    case Some(arcs) =>
      if 2 <= |arcs| <= 128 && arcs[0] <= 2 && (arcs[0] == 2 || arcs[1] < 40) then Some(arcs) else None
  }

  predicate IsOid(oid: string) {
    OidArcs(oid).Some?
  }

  /** An identifier is made of digits and dots only, and isn't empty. */
  lemma OidCharacters(oid: string)
    requires IsOid(oid)
    ensures oid != "" && forall c :: c in oid ==> IsDigit(c) || c == '.'
  {
    hide Arcs, Split, IsDigit;
    var text := if oid != "" && oid[0] == '.' then oid[1..] else oid;
    ArcsCharacters(text);
    NoArcs();
    assert text != oid ==> oid == ['.'] + text;
  }

  lemma NoArcs()
    ensures Arcs(Split("", '.')) == None
  {
    assert SplitOnce("", '.') == None;
    assert Split("", '.') == [""];
    assert Arc("") == None;
  }

  lemma {:induction false} ArcsCharacters(text: string)
    requires Arcs(Split(text, '.')).Some?
    ensures forall c :: c in text ==> IsDigit(c) || c == '.'
    decreases |text|
  {
    hide SplitOnce;
    var parts := Split(text, '.');
    match SplitOnce(text, '.')
    case None =>
      assert parts[0] == text;
    case Some((before, after)) =>
      assert parts[1..] == Split(after, '.');
      ArcsCharacters(after);
      forall c | c in text ensures IsDigit(c) || c == '.' {
        assert c in before || c == '.' || c in after;
      }
  }

  // ----- Which texts are identifiers -----------------------------------------

  /** Digits for a 32-bit number, any zeros before it included. */
  predicate IsArc(text: string) {
    text != "" && AllDigits(text) && NumberOf(text) <= 4_294_967_295
  }

  function NumbersOf(parts: seq<string>): (numbers: seq<nat>)
    requires forall i :: 0 <= i < |parts| ==> IsArc(parts[i])
    ensures |numbers| == |parts|
    ensures forall i :: 0 <= i < |parts| && IsArc(parts[i]) ==> numbers[i] == NumberOf(parts[i])
  {
    seq(|parts|, i requires 0 <= i < |parts| && IsArc(parts[i]) => NumberOf(parts[i]))
  }

  lemma ArcExactly(text: string)
    ensures Arc(text) == if IsArc(text) then Some(NumberOf(text)) else None
  {
    hide NumberOf;
  }

  lemma {:induction false} ArcsExactly(parts: seq<string>)
    ensures Arcs(parts).Some? <==> forall i :: 0 <= i < |parts| ==> IsArc(parts[i])
    ensures Arcs(parts).Some? ==> Arcs(parts).value == NumbersOf(parts)
  {
    hide AllDigits, Arc, NumberOf;
    if parts != [] {
      var first, rest := parts[0], parts[1..];
      assert parts == [first] + rest;
      ArcExactly(first);
      ArcsExactly(rest);
      if Arcs(parts).Some? {
        assert NumbersOf(parts)[1..] == NumbersOf(rest);
        assert NumbersOf(parts) == [NumberOf(first)] + NumbersOf(rest);
      } else if IsArc(first) {
        var i :| 0 <= i < |rest| && !IsArc(rest[i]);
        assert parts[i + 1] == rest[i];
      }
    }
  }

  /** Between dots stand 2 to 128 numbers of 32 bits; the first is 0, 1 or 2, and
      after 0 and 1 the second is at most 39. */
  ghost predicate AreArcs(parts: seq<string>) {
    && (|parts| >= 2 && |parts| <= 128)
    && (forall i :: 0 <= i < |parts| ==> IsArc(parts[i]))
    && (NumberOf(parts[0]) == 2 || (NumberOf(parts[0]) < 2 && NumberOf(parts[1]) <= 39))
  }

  /** Which texts are identifiers, and of which numbers; one dot before doesn't
      count. */
  lemma OidExactly(text: string)
    ensures var parts := Split(text, '.');
            && OidArcs("." + text) == (if AreArcs(parts) then Some(NumbersOf(parts)) else None)
            && (text == "" || text[0] != '.' ==> OidArcs(text) == OidArcs("." + text))
  {
    hide Split, Arcs, NumberOf, AllDigits;
    assert ("." + text)[1..] == text;
    ArcsExactly(Split(text, '.'));
  }
}
