/** The order of versions as section 11 of Semantic Versioning 2.0.0 words it, on the
    texts of the identifiers, and the standard's own examples. */
module VersionOrder {
  import opened Wrappers
  import opened Decimals
  import opened Splitting
  import opened Orders
  import opened Version

  // ----- Identifiers ---------------------------------------------------------

  /** Identifiers of digits only come before others, and are compared as numbers; the
      others in ASCII order. */
  ghost predicate IdBefore(x: string, y: string) {
    if AllDigits(x) then !AllDigits(y) || NumberOf(x) < NumberOf(y)
    else !AllDigits(y) && TextBefore(x, y)
  }

  lemma IdsByMeaning(x: string, y: string)
    ensures CompareIdentifiers(IdentifierOf(x), IdentifierOf(y)) == Less <==> IdBefore(x, y)
  {
    hide NumberOf, CompareTexts;
    TextsByPlace(x, y);
  }

  /** The first `i` identifiers are the same, and then the first list ends, or has the
      identifier that comes before. */
  ghost predicate ListDiffersAt(a: seq<string>, b: seq<string>, i: nat) {
    && i <= |a| && i < |b| && a[..i] == b[..i]
    && (i < |a| ==> IdBefore(a[i], b[i]))
  }

  ghost predicate ListBefore(a: seq<string>, b: seq<string>) {
    exists i: nat :: ListDiffersAt(a, b, i)
  }

  ghost predicate AllOk(ids: seq<string>) {
    forall i :: 0 <= i < |ids| ==> IdentifierOk(ids[i])
  }

  /** Valid identifiers are told apart by what they stand for. */
  lemma SameIdentifier(x: string, y: string)
    requires IdentifierOk(x) && IdentifierOk(y)
    ensures CompareIdentifiers(IdentifierOf(x), IdentifierOf(y)) == Equal <==> x == y
  {
    IdentifiersAreOrdered(IdentifierOf(x), IdentifierOf(y));
    if AllDigits(x) && AllDigits(y) && IdentifierOf(x) == IdentifierOf(y) {
      CanonicalIsDecimal(x);
      CanonicalIsDecimal(y);
    }
  }

  lemma IdBeforeIsStrict(x: string)
    ensures !IdBefore(x, x)
  {
    IdsByMeaning(x, x);
    IdentifiersAreOrdered(IdentifierOf(x), IdentifierOf(x));
  }

  lemma ListsStart(a: seq<string>, b: seq<string>)
    requires a != [] && b != []
    ensures CompareLists(Identifiers(a), Identifiers(b)) ==
              CompareIdentifiers(IdentifierOf(a[0]), IdentifierOf(b[0]))
              .Then(CompareLists(Identifiers(a[1..]), Identifiers(b[1..])))
  {
    hide CompareIdentifiers, IdentifierOf;
    assert Identifiers(a)[1..] == Identifiers(a[1..]) && Identifiers(b)[1..] == Identifiers(b[1..]);
  }

  lemma DiffersLater(a: seq<string>, b: seq<string>)
    requires a != [] && b != [] && a[0] == b[0]
    ensures ListBefore(a, b) <==> ListBefore(a[1..], b[1..])
  {
    hide IdBefore;
    IdBeforeIsStrict(a[0]);
    if i: nat :| ListDiffersAt(a[1..], b[1..], i) {
      assert a[..i + 1] == [a[0]] + a[1..][..i] && b[..i + 1] == [b[0]] + b[1..][..i];
      assert ListDiffersAt(a, b, i + 1);
    }
    if i: nat :| ListDiffersAt(a, b, i) {
      assert i > 0;
      assert a[1..][..i - 1] == a[..i][1..] && b[1..][..i - 1] == b[..i][1..];
      assert ListDiffersAt(a[1..], b[1..], i - 1);
    }
  }

  lemma DiffersFirst(a: seq<string>, b: seq<string>)
    requires a != [] && b != [] && a[0] != b[0]
    ensures ListBefore(a, b) <==> IdBefore(a[0], b[0])
  {
    hide IdBefore;
    if IdBefore(a[0], b[0]) {
      assert ListDiffersAt(a, b, 0);
    }
    if i: nat :| ListDiffersAt(a, b, i) {
      SameStart(a, b, i);
    }
  }

  lemma {:induction false} ListsByPlace(a: seq<string>, b: seq<string>)
    requires AllOk(a) && AllOk(b)
    ensures CompareLists(Identifiers(a), Identifiers(b)) == Less <==> ListBefore(a, b)
  {
    hide IdBefore, IdentifierOk, IdentifierOf, CompareIdentifiers;
    if a != [] && b != [] {
      ListsStart(a, b);
      ListsByPlace(a[1..], b[1..]);
      SameIdentifier(a[0], b[0]);
      IdsByMeaning(a[0], b[0]);
      if a[0] == b[0] {
        DiffersLater(a, b);
      } else {
        DiffersFirst(a, b);
      }
    } else if b != [] {
      assert ListDiffersAt(a, b, 0);
    }
  }

  // ----- Versions ------------------------------------------------------------

  /** The pre-release parts of versions with the same numbers: one with such a part
      comes before the one without; of two, the identifiers between dots decide. */
  ghost predicate PreBefore(a: Option<string>, b: Option<string>) {
    a.Some? && (b.None? || ListBefore(Split(a.value, '.'), Split(b.value, '.')))
  }

  /** Section 11: the major, minor and patch numbers decide in this order, then the
      pre-release parts. */
  ghost predicate Earlier(a: Version, b: Version) {
    || a.major < b.major
    || (a.major == b.major && a.minor < b.minor)
    || (a.major == b.major && a.minor == b.minor && a.patch < b.patch)
    || (a.major == b.major && a.minor == b.minor && a.patch == b.patch && PreBefore(a.pre, b.pre))
  }

  lemma PreByMeaning(a: Version, b: Version)
    requires Valid(a) && Valid(b)
    ensures ComparePre(a, b) == Less <==> PreBefore(a.pre, b.pre)
  {
    hide Split, ListBefore, IdentifierOk, CompareLists;
    if a.pre.Some? && b.pre.Some? {
      ListsByPlace(Split(a.pre.value, '.'), Split(b.pre.value, '.'));
    }
  }

  /** The comparison orders versions exactly as section 11 says. */
  lemma PrecedenceIsEarlier(a: Version, b: Version)
    requires Valid(a) && Valid(b)
    ensures Precedence(a, b) == Less <==> Earlier(a, b)
    ensures Precedence(a, b) == Greater <==> Earlier(b, a)
    ensures Precedence(a, b) == Equal <==> a == b
  {
    hide ComparePre, PreBefore, PreOk;
    VersionsAreOrdered(a, b);
    PreByMeaning(a, b);
    PreByMeaning(b, a);
    NumbersFirst(a, b);
    NumbersFirst(b, a);
  }

  lemma NumbersFirst(a: Version, b: Version)
    ensures Precedence(a, b) == Less <==>
              || a.major < b.major
              || (a.major == b.major && a.minor < b.minor)
              || (a.major == b.major && a.minor == b.minor && a.patch < b.patch)
              || (a.major == b.major && a.minor == b.minor && a.patch == b.patch && ComparePre(a, b) == Less)
  {
    hide ComparePre;
  }

  // ----- The standard's examples ---------------------------------------------

  /** 1.0.0 before 2.0.0 before 2.1.0 before 2.1.1. */
  lemma NumbersChain()
    ensures
      var a, b, c, d := Version(1, 0, 0, None), Version(2, 0, 0, None), Version(2, 1, 0, None), Version(2, 1, 1, None);
      Earlier(a, b) && Earlier(b, c) && Earlier(c, d)
  {
    hide PreBefore;
  }

  function First(pre: string): Version {
    Version(1, 0, 0, Some(pre))
  }

  lemma PartsOf(a: string, b: string)
    requires '.' !in a && '.' !in b
    ensures Split(a, '.') == [a] && Split(a + "." + b, '.') == [a, b]
  {
    hide Split;
    SplitNone(a, '.');
    SplitNone(b, '.');
    SplitAt(a, '.', b);
  }

  lemma OneBefore(a: seq<string>, b: seq<string>, i: nat)
    requires ListDiffersAt(a, b, i)
    ensures ListBefore(a, b)
  {
  }

  lemma TextDiffers(s: string, t: string, k: nat)
    requires DiffersAt(s, t, k) && !AllDigits(s) && !AllDigits(t)
    ensures IdBefore(s, t)
  {
  }

  lemma NotNumbers()
    ensures !AllDigits("alpha") && !AllDigits("beta") && !AllDigits("rc")
    ensures AllDigits("1") && AllDigits("2") && AllDigits("11")
    ensures NumberOf("1") == 1 && NumberOf("2") == 2 && NumberOf("11") == 11
  {
    assert !IsDigit("alpha"[0]) && !IsDigit("beta"[0]) && !IsDigit("rc"[0]);
    OneDigitIs('1');
    OneDigitIs('2');
    assert "11"[..1] == "1";
  }

  lemma OneDigitIs(c: char)
    requires IsDigit(c)
    ensures AllDigits([c]) && NumberOf([c]) == DigitValue(c)
  {
    assert [c][..0] == "";
  }

  /** 1.0.0-alpha before 1.0.0-alpha.1 before 1.0.0-alpha.beta before 1.0.0-beta
      before 1.0.0-beta.2 before 1.0.0-beta.11 before 1.0.0-rc.1 before 1.0.0. */
  lemma PreReleaseChain()
    ensures Earlier(First("alpha"), First("alpha.1")) && Earlier(First("alpha.1"), First("alpha.beta"))
    ensures Earlier(First("alpha.beta"), First("beta")) && Earlier(First("beta"), First("beta.2"))
    ensures Earlier(First("beta.2"), First("beta.11")) && Earlier(First("beta.11"), First("rc.1"))
    ensures Earlier(First("rc.1"), Version(1, 0, 0, None))
  {
    hide Split, ListBefore, NumberOf, IdBefore;
    ChainParts();
    ChainIds();
    OneBefore(["alpha"], ["alpha", "1"], 1);
    OneBefore(["alpha", "1"], ["alpha", "beta"], 1);
    OneBefore(["alpha", "beta"], ["beta"], 0);
    OneBefore(["beta"], ["beta", "2"], 1);
    OneBefore(["beta", "2"], ["beta", "11"], 1);
    OneBefore(["beta", "11"], ["rc", "1"], 0);
  }

  /** The texts are read as these versions. */
  lemma ChainIsRead(pre: string)
    requires PreOk(pre)
    ensures Parse("1.0.0-" + pre) == Some(First(pre))
  {
    hide PreOk, Parse;
    ShowParses(First(pre));
    assert Decimal(1) == "1" && Decimal(0) == "0";
    assert Show(First(pre)) == "1.0.0-" + pre;
  }

  lemma ChainParts()
    ensures Split("alpha", '.') == ["alpha"] && Split("alpha.1", '.') == ["alpha", "1"]
    ensures Split("alpha.beta", '.') == ["alpha", "beta"] && Split("beta", '.') == ["beta"]
    ensures Split("beta.2", '.') == ["beta", "2"] && Split("beta.11", '.') == ["beta", "11"]
    ensures Split("rc.1", '.') == ["rc", "1"]
  {
    hide Split;
    PartsOf("alpha", "1");
    PartsOf("alpha", "beta");
    PartsOf("beta", "2");
    PartsOf("beta", "11");
    PartsOf("rc", "1");
    assert "alpha" + "." + "1" == "alpha.1" && "alpha" + "." + "beta" == "alpha.beta";
    assert "beta" + "." + "2" == "beta.2" && "beta" + "." + "11" == "beta.11" && "rc" + "." + "1" == "rc.1";
  }

  lemma ChainIds()
    ensures IdBefore("1", "beta") && IdBefore("alpha", "beta") && IdBefore("2", "11") && IdBefore("beta", "rc")
  {
    hide NumberOf, TextBefore;
    NotNumbers();
    TextDiffers("alpha", "beta", 0);
    TextDiffers("beta", "rc", 0);
  }
}
