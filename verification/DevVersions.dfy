/** What `dev_version` (`blentinelmake/src/stamp.rs`) accepts, and how the
    versions it gives are ordered. */
module DevVersions {
  import opened Wrappers
  import opened Sequences
  import opened Splitting
  import opened Decimals
  import opened Orders
  import opened Stamp
  import V = Version

  /** A base that `dev_version` takes. */
  predicate IsBase(base: string) {
    V.Parse(base).Some? && '-' !in base && '+' !in base
  }

  /** A build number that it takes: positive, of 64 bits, as it is printed. */
  predicate IsBuild(build: string) {
    Canonical(build) && build != "0" && NumberOf(build) < V.U64
  }

  function Pre(build: string): string {
    "dev." + build
  }

  lemma PreIsOk(build: string)
    requires Canonical(build)
    ensures Split(Pre(build), '.') == ["dev", build]
    ensures V.PreOk(Pre(build))
  {
    hide Split, SplitOnce;
    assert Pre(build) == "dev" + ['.'] + build;
    SplitAt("dev", '.', build);
    SplitNone(build, '.');
    assert V.IdentifierOk("dev") && V.IdentifierOk(build);
  }

  lemma AfterDash(base: string, build: string)
    ensures base + "-dev." + build == base + "-" + Pre(build)
  {
    assert "-" + "dev." == "-dev.";
    Assoc(base, "-dev.", build);
    Assoc("-", "dev.", build);
    Assoc(base, "-", Pre(build));
  }

  lemma DevVersionParses(base: string, build: string)
    requires IsBase(base) && Canonical(build)
    ensures V.Parse(base).value.pre == None
    ensures V.Parse(base + "-dev." + build) == Some(V.Parse(base).value.(pre := Some(Pre(build))))
  {
    hide V.Parse, V.PreOk, Canonical;
    PreIsOk(build);
    PlainParses(base);
    PreParses(base, Pre(build));
    AfterDash(base, build);
  }

  lemma PlainParses(base: string)
    requires '-' !in base
    ensures V.Parse(base) == V.ParseCore(base, None)
  {
    hide V.ParseCore;
  }

  lemma PreParses(base: string, pre: string)
    requires '-' !in base && V.PreOk(pre) && V.ParseCore(base, None).Some?
    ensures V.Parse(base + "-" + pre) == Some(V.ParseCore(base, None).value.(pre := Some(pre)))
  {
    hide V.PreOk, Split, SplitOnce, ParseUnsigned;
    SplitOnceAt(base, '-', pre);
  }

  lemma BuildAccepted(build: string)
    ensures
      IsBuild(build) <==>
        match ParseUnsigned(build, V.U64)
        case None => false
        case Some(n) => n != 0 && Decimal(n) == build
  {
    if Canonical(build) {
      assert IsDigit(build[0]);
      CanonicalIsDecimal(build);
      DecimalIsCanonical(NumberOf(build));
    }
    match ParseUnsigned(build, V.U64)
    case None =>
    case Some(n) =>
      DecimalIsCanonical(n);
      NumberOfDecimal(n);
  }

  /** What is accepted, what comes of it, and that the last check of the source
      never fails. */
  lemma DevVersionAccepts(base: string, build: string)
    ensures
      DevVersion(base, build) ==
      if !IsBase(base) then Err(NotPlain(base))
      else if !IsBuild(build) then Err(BadBuild(build))
      else Ok(base + "-dev." + build)
  {
    BuildAccepted(build);
    hide Decimal, ParseUnsigned;
    if IsBase(base) && IsBuild(build) {
      DevVersionParses(base, build);
    }
  }

  /** Development versions of one base are ordered as their build numbers are,
      and come before the base; none is taken as a base again. */
  lemma DevVersionsAscend(base: string, x: string, y: string)
    requires IsBase(base) && IsBuild(x) && IsBuild(y)
    ensures
      var a, b := V.Parse(base + "-dev." + x), V.Parse(base + "-dev." + y);
      && a.Some? && b.Some?
      && V.Precedence(a.value, b.value) == CompareNumbers(NumberOf(x), NumberOf(y))
      && V.Precedence(a.value, V.Parse(base).value) == Less
    ensures forall build :: DevVersion(base + "-dev." + x, build) == Err(NotPlain(base + "-dev." + x))
  {
    DevVersionParses(base, x);
    DevVersionParses(base, y);
    PreIsOk(x);
    PreIsOk(y);
    hide V.Parse, Split, V.PreOk, Canonical;
    BuildsOrder(x, y);
    assert '-' in base + "-dev." + x;
  }

  lemma BuildsOrder(x: string, y: string)
    requires Canonical(x) && Canonical(y)
    ensures V.CompareLists(V.Identifiers(["dev", x]), V.Identifiers(["dev", y]))
         == CompareNumbers(NumberOf(x), NumberOf(y))
  {
    var u, v := V.Identifiers(["dev", x]), V.Identifiers(["dev", y]);
    assert !IsDigit("dev"[0]);
    assert u[0] == v[0] == V.Alphanumeric("dev");
    V.IdentifiersAreOrdered(u[0], v[0]);
    var s, t := u[1..], v[1..];
    assert s[0] == V.Numeric(NumberOf(x)) && t[0] == V.Numeric(NumberOf(y));
    assert s[1..] == [] && t[1..] == [];
    assert V.CompareLists(s, t) == V.CompareIdentifiers(s[0], t[0]).Then(V.CompareLists(s[1..], t[1..]));
    assert V.CompareLists(u, v) == V.CompareIdentifiers(u[0], v[0]).Then(V.CompareLists(s, t));
  }

  // ----- The characters of a version -----------------------------------------

  predicate InVersions(c: char) {
    V.IsAlphanumeric(c) || c == '.' || c == '-' || c == '+'
  }

  lemma {:induction false} InSomePart(text: string, separator: char, c: char)
    requires c in text && c != separator
    ensures exists i :: 0 <= i < |Split(text, separator)| && c in Split(text, separator)[i]
    decreases |text|
  {
    match SplitOnce(text, separator)
    case None =>
      assert c in Split(text, separator)[0];
    case Some((before, after)) =>
      var parts, rest := Split(text, separator), Split(after, separator);
      assert parts == [before] + rest;
      if c in before {
        assert c in parts[0];
      } else {
        assert c in after;
        InSomePart(after, separator, c);
        hide Split, SplitOnce;
        var i :| 0 <= i < |rest| && c in rest[i];
        assert parts[i + 1] == rest[i];
      }
  }

  lemma InNumbers(text: string, c: char)
    requires ParseUnsigned(text, V.U64).Some? && c in text
    ensures InVersions(c)
  {
    var i :| 0 <= i < |text| && text[i] == c;
    if text[0] == '+' && i > 0 {
      assert IsDigit(text[1..][i - 1]);
    }
  }

  lemma DotInVersions()
    ensures InVersions('.')
  {
  }

  lemma InCore(core: string, pre: Option<string>, c: char)
    requires V.ParseCore(core, pre).Some? && c in core
    ensures InVersions(c)
  {
    hide Split, ParseUnsigned, InVersions;
    if c == '.' {
      DotInVersions();
    } else {
      InSomePart(core, '.', c);
      var parts := Split(core, '.');
      assert |parts| == 3 && forall k :: 0 <= k < 3 ==> ParseUnsigned(parts[k], V.U64).Some?;
      var i :| 0 <= i < |parts| && c in parts[i];
      InNumbers(parts[i], c);
    }
  }

  /** What parses as a version holds only letters, digits, dots, dashes and
      pluses: no quote and no line feed. */
  lemma VersionCharacters(text: string, c: char)
    requires V.Parse(text).Some? && c in text
    ensures InVersions(c)
  {
    match SplitOnce(text, '-')
    case None => InCore(text, None, c);
    case Some((core, pre)) =>
      if c in core {
        InCore(core, Some(pre), c);
      } else if c in pre && c != '.' {
        InSomePart(pre, '.', c);
        var ids := Split(pre, '.');
        var i :| 0 <= i < |ids| && c in ids[i];
        assert V.IdentifierOk(ids[i]);
      }
  }

  lemma AcceptedParses(base: string, build: string)
    requires DevVersion(base, build).Ok?
    ensures V.Parse(DevVersion(base, build).value).Some?
  {
    hide V.Parse, ParseUnsigned, Decimal;
  }

  /** A development version can be stamped for its base: it is another text, on
      one line. */
  lemma DevVersionStamps(base: string, build: string)
    requires DevVersion(base, build).Ok?
    ensures DevVersion(base, build).value != base && '\n' !in DevVersion(base, build).value
  {
    hide V.Parse, DevVersion, IsBase, IsBuild;
    DevVersionAccepts(base, build);
    AcceptedParses(base, build);
    var version := DevVersion(base, build).value;
    assert version[|base|] == '-';
    if '\n' in version {
      VersionCharacters(version, '\n');
    }
  }
}
