/** Version numbers (`common/src/release.rs`): how they are parsed, printed and
    ordered, and which versions a signed rollback leads to. */
module Version {
  import opened Wrappers
  import opened Decimals
  import opened Sequences
  import opened Splitting
  import opened Orders

  const U64: nat := 0x1_0000_0000_0000_0000

  datatype Version = Version(major: nat, minor: nat, patch: nat, pre: Option<string>)

  // ----- Parsing and printing ------------------------------------------------

  predicate IsAlphanumeric(c: char) {
    IsDigit(c) || 'a' <= c <= 'z' || 'A' <= c <= 'Z'
  }

  /** One identifier of a pre-release: not empty, letters, digits and dashes, a
      numeric one without a leading zero. */
  predicate IdentifierOk(id: string) {
    && id != ""
    && (forall i :: 0 <= i < |id| ==> IsAlphanumeric(id[i]) || id[i] == '-')
    && !(|id| > 1 && id[0] == '0' && AllDigits(id))
  }

  predicate PreOk(pre: string) {
    var ids := Split(pre, '.');
    forall i :: 0 <= i < |ids| ==> IdentifierOk(ids[i])
  }

  /** The versions there are: those that parse. */
  predicate Valid(v: Version) {
    && v.major < U64 && v.minor < U64 && v.patch < U64
    && (v.pre.Some? ==> PreOk(v.pre.value))
  }

  /** The three numbers before the pre-release part. */
  function ParseCore(core: string, pre: Option<string>): Option<Version> {
    var parts := Split(core, '.');
    if |parts| != 3 then None
    else
      match (ParseUnsigned(parts[0], U64), ParseUnsigned(parts[1], U64), ParseUnsigned(parts[2], U64))
      case (Some(major), Some(minor), Some(patch)) => Some(Version(major, minor, patch, pre))
      case _ => None
  }

  /** `Version::parse`. */
  function Parse(text: string): (v: Option<Version>)
    ensures v.Some? ==> Valid(v.value)
  {
    match SplitOnce(text, '-')
    case None => ParseCore(text, None)
    case Some((core, pre)) => if PreOk(pre) then ParseCore(core, Some(pre)) else None
  }

  /** `to_string()`. */
  function Show(v: Version): string {
    Core(v) + match v.pre case Some(pre) => "-" + pre case None => ""
  }

  lemma ThreeParts(a: string, b: string, c: string)
    requires '.' !in a && '.' !in b && '.' !in c
    ensures Split(a + "." + b + "." + c, '.') == [a, b, c]
  {
    hide Split, SplitOnce;
    Assoc(a + ".", b, ".");
    Assoc(a + ".", b + ".", c);
    SplitAt(a, '.', b + ['.'] + c);
    SplitAt(b, '.', c);
    SplitNone(c, '.');
  }

  lemma DecimalHasOnlyDigits(n: nat, c: char)
    requires !IsDigit(c)
    ensures c !in Decimal(n)
  {
  }

  function Core(v: Version): string {
    Decimal(v.major) + "." + Decimal(v.minor) + "." + Decimal(v.patch)
  }

  lemma CoreParses(v: Version)
    requires Valid(v)
    ensures '-' !in Core(v) && ParseCore(Core(v), v.pre) == Some(v)
  {
    hide Decimal, PreOk;
    var a, b, c := Decimal(v.major), Decimal(v.minor), Decimal(v.patch);
    DecimalHasOnlyDigits(v.major, '.');
    DecimalHasOnlyDigits(v.minor, '.');
    DecimalHasOnlyDigits(v.patch, '.');
    DecimalHasOnlyDigits(v.major, '-');
    DecimalHasOnlyDigits(v.minor, '-');
    DecimalHasOnlyDigits(v.patch, '-');
    ThreeParts(a, b, c);
    ParseDecimal(v.major, U64);
    ParseDecimal(v.minor, U64);
    ParseDecimal(v.patch, U64);
    hide Split, ParseUnsigned;
  }

  /** A version reads back as it is printed. */
  lemma ShowParses(v: Version)
    requires Valid(v)
    ensures Parse(Show(v)) == Some(v)
  {
    var core := Core(v);
    CoreParses(v);
    hide Core, ParseCore;
    match v.pre
    case None =>
      assert Show(v) == core;
    case Some(pre) =>
      assert Show(v) == core + ['-'] + pre;
      SplitOnceAt(core, '-', pre);
  }

  // ----- Precedence: section 11 of Semantic Versioning 2.0.0 -----------------

  /** A pre-release identifier: a number of any size, or a text. */
  datatype Identifier = Numeric(n: nat) | Alphanumeric(text: string)

  function IdentifierOf(id: string): Identifier {
    if AllDigits(id) then Numeric(NumberOf(id)) else Alphanumeric(id)
  }

  function Identifiers(ids: seq<string>): (r: seq<Identifier>)
    ensures |r| == |ids|
    ensures forall i :: 0 <= i < |ids| ==> r[i] == IdentifierOf(ids[i])
  {
    seq(|ids|, i requires 0 <= i < |ids| => IdentifierOf(ids[i]))
  }

  /** Numbers by size, texts in ASCII order, numbers before texts. */
  function CompareIdentifiers(a: Identifier, b: Identifier): Ordering {
    match (a, b)
    case (Numeric(m), Numeric(n)) => CompareNumbers(m, n)
    case (Numeric(_), Alphanumeric(_)) => Less
    case (Alphanumeric(_), Numeric(_)) => Greater
    case (Alphanumeric(s), Alphanumeric(t)) => CompareTexts(s, t)
  }

  /** Identifier by identifier; when all before are the same, the longer list is
      the larger. */
  function CompareLists(a: seq<Identifier>, b: seq<Identifier>): Ordering {
    if a == [] && b == [] then Equal
    else if a == [] then Less
    else if b == [] then Greater
    else CompareIdentifiers(a[0], b[0]).Then(CompareLists(a[1..], b[1..]))
  }

  function PreOf(v: Version): seq<Identifier>
    requires v.pre.Some?
  {
    Identifiers(Split(v.pre.value, '.'))
  }

  function ComparePre(a: Version, b: Version): Ordering {
    match (a.pre, b.pre)
    case (None, None) => Equal
    case (None, Some(_)) => Greater
    case (Some(_), None) => Less
    case (Some(_), Some(_)) => CompareLists(PreOf(a), PreOf(b))
  }

  /** The precedence of two versions. */
  function Precedence(a: Version, b: Version): Ordering {
    CompareNumbers(a.major, b.major)
    .Then(CompareNumbers(a.minor, b.minor))
    .Then(CompareNumbers(a.patch, b.patch))
    .Then(ComparePre(a, b))
  }

  // ----- The comparison in the source ----------------------------------------

  /** How `pre_release_order` compares two identifiers: digits by length, then as
      text, so that a number of any size can be compared. */
  function IdentifierOrder(x: string, y: string): Ordering {
    match (AllDigits(x), AllDigits(y))
    case (true, true) => CompareNumbers(|x|, |y|).Then(CompareTexts(x, y))
    case (true, false) => Less
    case (false, true) => Greater
    case (false, false) => CompareTexts(x, y)
  }

  /** Two numerals of the same length order as text the way their numbers do. */
  lemma {:induction false} NumeralsOrder(x: string, y: string)
    requires AllDigits(x) && AllDigits(y) && |x| == |y|
    ensures CompareTexts(x, y) == CompareNumbers(NumberOf(x), NumberOf(y))
    decreases |x|
  {
    if x != "" {
      FirstDigit(x);
      FirstDigit(y);
      NumeralsOrder(x[1..], y[1..]);
      NumberBound(x[1..]);
      NumberBound(y[1..]);
      LeadingDigit(DigitValue(x[0]), NumberOf(x[1..]), DigitValue(y[0]), NumberOf(y[1..]), Pow10(|x| - 1));
    }
  }

  lemma LeadingDigit(d: nat, r: nat, e: nat, q: nat, p: nat)
    requires r < p && q < p
    ensures CompareNumbers(d * p + r, e * p + q) == CompareNumbers(d, e).Then(CompareNumbers(r, q))
  {
    HigherDigit(d, r, e, p);
    HigherDigit(e, q, d, p);
  }

  lemma HigherDigit(d: nat, r: nat, e: nat, p: nat)
    requires r < p
    ensures d < e ==> d * p + r < e * p
  {
    if d < e {
      assert e * p == d * p + (e - d) * p;
      AtLeastOnce(e - d, p);
    }
  }

  lemma AtLeastOnce(k: nat, p: nat)
    requires k > 0
    ensures k * p >= p
  {
  }

  lemma {:induction false} FirstDigit(x: string)
    requires AllDigits(x) && x != ""
    ensures NumberOf(x) == DigitValue(x[0]) * Pow10(|x| - 1) + NumberOf(x[1..])
    decreases |x|
  {
    if |x| == 1 {
      assert x[..0] == "" && x[1..] == "";
    } else {
      var n := |x| - 1;
      FirstDigit(x[..n]);
      assert x[1..][..n - 1] == x[..n][1..];
      assert Pow10(n) == 10 * Pow10(n - 1);
      hide Pow10, DigitValue;
      TenTimes(DigitValue(x[0]), Pow10(n - 1), NumberOf(x[1..][..n - 1]), DigitValue(x[n]));
    }
  }

  lemma TenTimes(d: nat, p: nat, r: nat, last: nat)
    ensures 10 * (d * p + r) + last == d * (10 * p) + (10 * r + last)
  {
  }

  /** "Longer, then text" is the order of the numbers, because no numeral has a
      leading zero. */
  lemma IdentifierOrderIsPrecedence(x: string, y: string)
    requires IdentifierOk(x) && IdentifierOk(y)
    ensures IdentifierOrder(x, y) == CompareIdentifiers(IdentifierOf(x), IdentifierOf(y))
  {
    if AllDigits(x) && AllDigits(y) {
      if |x| < |y| {
        LongerIsLarger(x, y);
      } else if |y| < |x| {
        LongerIsLarger(y, x);
      } else {
        NumeralsOrder(x, y);
      }
    }
  }

  /** `pre_release_order`: the loop stepping through both parts. */
  method PreReleaseOrder(a: string, b: string) returns (r: Ordering)
    requires PreOk(a) && PreOk(b)
    ensures r == CompareLists(Identifiers(Split(a, '.')), Identifiers(Split(b, '.')))
  {
    var xs, ys := Split(a, '.'), Split(b, '.');
    ghost var us, vs := Identifiers(xs), Identifiers(ys);
    assert us[0..] == us && vs[0..] == vs;
    var i := 0;
    while true
      invariant i <= |xs| && i <= |ys|
      invariant CompareLists(us, vs) == CompareLists(us[i..], vs[i..])
      decreases |xs| - i
    {
      if i == |xs| && i == |ys| {
        return Equal;
      } else if i == |xs| {
        return Less;
      } else if i == |ys| {
        return Greater;
      }
      var order := IdentifierOrder(xs[i], ys[i]);
      IdentifierOrderIsPrecedence(xs[i], ys[i]);
      if order != Equal {
        return order;
      }
      assert us[i..][1..] == us[i + 1..] && vs[i..][1..] == vs[i + 1..];
      i := i + 1;
    }
  }

  /** `Version::cmp`. */
  method Compare(a: Version, b: Version) returns (r: Ordering)
    requires Valid(a) && Valid(b)
    ensures r == Precedence(a, b)
  {
    r := CompareNumbers(a.major, b.major)
         .Then(CompareNumbers(a.minor, b.minor))
         .Then(CompareNumbers(a.patch, b.patch));
    if r == Equal {
      match (a.pre, b.pre) {
        case (None, None) => r := Equal;
        case (None, Some(_)) => r := Greater;
        case (Some(_), None) => r := Less;
        case (Some(p), Some(q)) => r := PreReleaseOrder(p, q);
      }
    }
  }

  // ----- Precedence is a total order of the versions -------------------------

  lemma IdentifiersAreOrdered(a: Identifier, b: Identifier)
    ensures CompareIdentifiers(a, b) == CompareIdentifiers(b, a).Reverse()
    ensures CompareIdentifiers(a, b) == Equal <==> a == b
  {
    if a.Alphanumeric? && b.Alphanumeric? {
      TextsAreOrdered(a.text, b.text);
    }
  }

  lemma IdentifiersAreTransitive(a: Identifier, b: Identifier, c: Identifier)
    requires CompareIdentifiers(a, b) != Greater && CompareIdentifiers(b, c) != Greater
    ensures CompareIdentifiers(a, c) != Greater
    ensures CompareIdentifiers(a, c) == Equal ==> CompareIdentifiers(a, b) == Equal && CompareIdentifiers(b, c) == Equal
  {
    if a.Alphanumeric? && b.Alphanumeric? && c.Alphanumeric? {
      TextsAreTransitive(a.text, b.text, c.text);
    }
  }

  lemma {:induction false} ListsAreOrdered(a: seq<Identifier>, b: seq<Identifier>)
    ensures CompareLists(a, b) == CompareLists(b, a).Reverse()
    ensures CompareLists(a, b) == Equal <==> a == b
  {
    if a != [] && b != [] {
      IdentifiersAreOrdered(a[0], b[0]);
      ListsAreOrdered(a[1..], b[1..]);
      assert a == [a[0]] + a[1..] && b == [b[0]] + b[1..];
    }
  }

  lemma {:induction false} ListsAreTransitive(a: seq<Identifier>, b: seq<Identifier>, c: seq<Identifier>)
    requires CompareLists(a, b) != Greater && CompareLists(b, c) != Greater
    ensures CompareLists(a, c) != Greater
    ensures CompareLists(a, c) == Equal ==> CompareLists(a, b) == Equal && CompareLists(b, c) == Equal
  {
    if a != [] && b != [] && c != [] {
      IdentifiersAreTransitive(a[0], b[0], c[0]);
      if CompareIdentifiers(a[0], b[0]) == Equal && CompareIdentifiers(b[0], c[0]) == Equal {
        ListsAreTransitive(a[1..], b[1..], c[1..]);
      }
    }
  }

  /** Valid pre-release parts are told apart by their identifiers. */
  lemma SamePre(a: string, b: string)
    requires PreOk(a) && PreOk(b) && Identifiers(Split(a, '.')) == Identifiers(Split(b, '.'))
    ensures a == b
  {
    var xs, ys := Split(a, '.'), Split(b, '.');
    forall i | 0 <= i < |xs| ensures xs[i] == ys[i] {
      assert Identifiers(xs)[i] == Identifiers(ys)[i];
      if AllDigits(xs[i]) && AllDigits(ys[i]) {
        CanonicalIsDecimal(xs[i]);
        CanonicalIsDecimal(ys[i]);
      }
    }
    assert xs == ys;
    JoinOfSplit(a, '.');
    JoinOfSplit(b, '.');
  }

  /** Any two versions are ordered one way, and equal only if they are the same
      version. */
  lemma VersionsAreOrdered(a: Version, b: Version)
    requires Valid(a) && Valid(b)
    ensures Precedence(a, b) == Precedence(b, a).Reverse()
    ensures Precedence(a, b) == Equal <==> a == b
  {
    if a.pre.Some? && b.pre.Some? {
      ListsAreOrdered(PreOf(a), PreOf(b));
      if PreOf(a) == PreOf(b) {
        SamePre(a.pre.value, b.pre.value);
      }
    }
  }

  /** The order is transitive, strictly so where either step is strict. */
  lemma VersionsAreTransitive(a: Version, b: Version, c: Version)
    requires Precedence(a, b) != Greater && Precedence(b, c) != Greater
    ensures Precedence(a, c) != Greater
    ensures Precedence(a, c) == Equal ==> Precedence(a, b) == Equal && Precedence(b, c) == Equal
  {
    if a.pre.Some? && b.pre.Some? && c.pre.Some? {
      if ComparePre(a, b) != Greater && ComparePre(b, c) != Greater {
        ListsAreTransitive(PreOf(a), PreOf(b), PreOf(c));
      }
    }
  }
}
