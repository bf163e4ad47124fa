/** Slugs of names (`slugify` and `is_valid_slug` in `hub/src/model.rs`).
    `char::to_lowercase` is any function `lower` that is ASCII's on ASCII and
    never gives an upper-case ASCII letter. */
module Slugs {
  import opened Text
  import opened Splitting

  const MAX_CHARS: nat := 64

  type Lower = char -> string

  predicate IsLowerAlphanumeric(c: char) {
    'a' <= c <= 'z' || '0' <= c <= '9'
  }

  predicate IsAlphanumeric(c: char) {
    IsLowerAlphanumeric(c) || 'A' <= c <= 'Z'
  }

  ghost predicate IsLower(lower: Lower) {
    && (forall c :: c as int < 128 ==> lower(c) == [ToAsciiLowercase(c)])
    && (forall c, d :: d in lower(c) ==> !('A' <= d <= 'Z'))
  }

  /** `is_valid_slug`; the valid characters are ASCII, so bytes are characters. */
  predicate IsValidSlug(id: string) {
    && id != "" && |id| <= MAX_CHARS
    && (forall i :: 0 <= i < |id| ==> IsLowerAlphanumeric(id[i]) || id[i] in "-_.")
    && IsAlphanumeric(id[0])
  }

  // ----- The words of a text -------------------------------------------------

  function Lowered(name: string, lower: Lower): string {
    if name == "" then "" else lower(name[0]) + Lowered(name[1..], lower)
  }

  predicate EndsInWord(text: string) {
    text != "" && IsAlphanumeric(text[|text| - 1])
  }

  /** The longest runs of ASCII letters and digits. */
  function Words(text: string): (words: seq<string>)
    ensures EndsInWord(text) ==> words != []
    decreases |text|
  {
    if text == "" then []
    else
      var n := |text| - 1;
      var words := Words(text[..n]);
      if !IsAlphanumeric(text[n]) then words
      else if EndsInWord(text[..n]) then words[|words| - 1 := words[|words| - 1] + [text[n]]]
      else words + [[text[n]]]
  }

  function Cut(text: string): (r: string)
    ensures r <= text && |r| <= MAX_CHARS
  {
    if |text| > MAX_CHARS then text[..MAX_CHARS] else text
  }

  /** What `slugify` gives: the words joined by dashes, cut. */
  function Slug(name: string, lower: Lower): string {
    Cut(Join(Words(Lowered(name, lower)), "-"))
  }

  // ----- The source ----------------------------------------------------------

  /** What the loop has built of `text`: a dash after the last word if something
      else follows it. */
  function Built(text: string): string {
    Join(Words(text), "-") + if Words(text) != [] && !EndsInWord(text) then "-" else ""
  }

  predicate EndsInDash(text: string) {
    text != "" && text[|text| - 1] == '-'
  }

  function TrimDashes(text: string): string {
    if EndsInDash(text) then TrimDashes(text[..|text| - 1]) else text
  }

  /** `slugify`. */
  method Slugify(name: string, lower: Lower) returns (r: string)
    ensures r == Slug(name, lower)
  {
    hide Words, Join, Built, Lowered, TrimDashes;
    var slug := "";
    var chars := Lowered(name, lower);
    assert chars[..0] == "";
    BuiltEmpty();
    for i := 0 to |chars|
      invariant slug == Built(chars[..i])
    {
      var c := chars[i];
      assert chars[..i + 1][..i] == chars[..i];
      BuiltNext(chars[..i + 1]);
      BuiltEnds(chars[..i]);
      if IsAlphanumeric(c) {
        slug := slug + [c];
      } else if slug != "" && !EndsInDash(slug) {
        slug := slug + "-";
      }
    }
    assert chars[..|chars|] == chars;
    Trimmed(chars);
    r := Cut(TrimDashes(slug));
  }

  lemma BuiltEmpty()
    ensures Built("") == ""
  {
  }

  ghost predicate AreWords(words: seq<string>) {
    forall i :: 0 <= i < |words| ==> words[i] != "" && AllAlphanumeric(words[i])
  }

  predicate AllAlphanumeric(text: string) {
    forall i :: 0 <= i < |text| ==> IsAlphanumeric(text[i])
  }

  lemma {:induction false} WordsAreWords(text: string)
    ensures AreWords(Words(text))
    decreases |text|
  {
    if text != "" {
      WordsAreWords(text[..|text| - 1]);
    }
  }

  lemma {:induction false} JoinMore(words: seq<string>, word: string)
    ensures Join(words + [word], "-") == Join(words, "-") + (if words == [] then "" else "-") + word
    decreases |words|
  {
    if words == [] {
      assert words + [word] == [word];
      assert "" + "" + word == word;
    } else {
      assert (words + [word])[1..] == words[1..] + [word];
      JoinMore(words[1..], word);
      if |words| == 1 {
        assert "" + "" + word == word;
      } else {
        var rest := Join(words[1..], "-");
        assert words[0] + "-" + (rest + "-" + word) == (words[0] + "-" + rest) + "-" + word;
      }
    }
  }

  lemma JoinLonger(words: seq<string>, c: char)
    requires words != []
    ensures Join(words[|words| - 1 := words[|words| - 1] + [c]], "-") == Join(words, "-") + [c]
  {
    var n := |words| - 1;
    var init, last := words[..n], words[n];
    JoinMore(init, last);
    JoinMore(init, last + [c]);
    assert words == init + [last];
    assert words[n := last + [c]] == init + [last + [c]];
  }

  /** One more character. */
  lemma BuiltNext(text: string)
    requires text != ""
    ensures
      var n := |text| - 1;
      var before := Built(text[..n]);
      Built(text) == if IsAlphanumeric(text[n]) then before + [text[n]]
                     else if Words(text[..n]) != [] && EndsInWord(text[..n]) then before + "-"
                     else before
  {
    var n := |text| - 1;
    var words := Words(text[..n]);
    hide Join;
    if IsAlphanumeric(text[n]) {
      if EndsInWord(text[..n]) {
        JoinLonger(words, text[n]);
      } else {
        JoinMore(words, [text[n]]);
      }
    }
  }

  /** What is built is empty or ends in a dash just when no word is open. */
  lemma BuiltEnds(text: string)
    ensures Built(text) == "" <==> Words(text) == []
    ensures EndsInDash(Built(text)) <==> Words(text) != [] && !EndsInWord(text)
    ensures Words(text) != [] ==> Join(Words(text), "-") != "" && !EndsInDash(Join(Words(text), "-"))
  {
    WordsAreWords(text);
    var words := Words(text);
    hide Words;
    if words != [] {
      var n := |words| - 1;
      assert words == words[..n] + [words[n]];
      JoinMore(words[..n], words[n]);
      hide Join;
      var joined := Join(words, "-");
      assert joined[|joined| - 1] == words[n][|words[n]| - 1];
    }
  }

  lemma Trimmed(text: string)
    ensures TrimDashes(Built(text)) == Join(Words(text), "-")
  {
    BuiltEnds(text);
    hide Words, Join;
    var joined := Join(Words(text), "-");
    assert (joined + "-")[..|joined|] == joined;
  }

  // ----- Laws ----------------------------------------------------------------

  /** Lower-case letters, digits and dashes, none at the start and no two in a
      row. */
  ghost predicate IsDashed(text: string) {
    && (forall i :: 0 <= i < |text| ==> IsLowerAlphanumeric(text[i]) || text[i] == '-')
    && (text != "" ==> text[0] != '-')
    && (forall i :: 0 <= i < |text| - 1 ==> !(text[i] == '-' && text[i + 1] == '-'))
  }

  ghost predicate AllLower(text: string) {
    forall i :: 0 <= i < |text| ==> IsAlphanumeric(text[i]) ==> IsLowerAlphanumeric(text[i])
  }

  lemma {:induction false} LoweredIsLower(name: string, lower: Lower)
    requires IsLower(lower)
    ensures AllLower(Lowered(name, lower))
  {
    if name != "" {
      LoweredIsLower(name[1..], lower);
      var first := lower(name[0]);
      assert forall i :: 0 <= i < |first| ==> first[i] in first;
    }
  }

  /** What the loop builds of lower-case text. */
  lemma {:induction false} BuiltIsDashed(text: string)
    requires AllLower(text)
    ensures IsDashed(Built(text))
    decreases |text|
  {
    hide Words, Join, Built;
    if text == "" {
      BuiltEmpty();
    } else {
      var n := |text| - 1;
      BuiltIsDashed(text[..n]);
      BuiltNext(text);
      BuiltEnds(text[..n]);
    }
  }

  /** Every slug is empty or valid, and has no two dashes in a row. */
  lemma SlugIsValid(name: string, lower: Lower)
    requires IsLower(lower)
    ensures Slug(name, lower) == "" || IsValidSlug(Slug(name, lower))
    ensures IsDashed(Slug(name, lower))
  {
    var text := Lowered(name, lower);
    LoweredIsLower(name, lower);
    BuiltIsDashed(text);
    hide Words, Join, Lowered, IsLower, AllLower;
    assert Join(Words(text), "-") <= Built(text);
    assert Slug(name, lower) <= Built(text);
  }

  /** A slug is empty only of a name without letters and digits. */
  lemma SlugIsEmpty(name: string, lower: Lower)
    ensures Slug(name, lower) == "" <==> forall i :: 0 <= i < |Lowered(name, lower)| ==>
                                          !IsAlphanumeric(Lowered(name, lower)[i])
  {
    hide Words, Lowered, Built, Join, Cut;
    var text := Lowered(name, lower);
    NoWords(text);
    BuiltEnds(text);
    JoinNone();
    CutKeeps(Join(Words(text), "-"));
  }

  lemma JoinNone()
    ensures Join([], "-") == ""
  {
  }

  lemma CutKeeps(text: string)
    ensures Cut(text) == "" <==> text == ""
  {
  }

  lemma {:induction false} NoWords(text: string)
    ensures Words(text) == [] <==> forall i :: 0 <= i < |text| ==> !IsAlphanumeric(text[i])
    decreases |text|
  {
    if text != "" {
      NoWords(text[..|text| - 1]);
    }
  }

  /** Dashed text is built again as it is. */
  lemma {:induction false} BuiltOfDashed(text: string)
    requires IsDashed(text)
    ensures Built(text) == text
    decreases |text|
  {
    if text == "" {
    } else {
      var n := |text| - 1;
      var init := text[..n];
      BuiltOfDashed(init);
      BuiltNext(text);
      BuiltEnds(init);
      hide Words, Join, Built;
      assert text == init + [text[n]];
      if text[n] == '-' {
        assert init != "" && init[n - 1] == text[n - 1] != '-';
      }
    }
  }

  lemma {:induction false} LoweredPlain(text: string, lower: Lower)
    requires IsLower(lower) && forall i :: 0 <= i < |text| ==> text[i] as int < 128 && !('A' <= text[i] <= 'Z')
    ensures Lowered(text, lower) == text
  {
    if text != "" {
      LoweredPlain(text[1..], lower);
      assert lower(text[0]) == [text[0]];
      assert text == [text[0]] + text[1..];
    }
  }

  /** The words of a name, joined and not cut. */
  function Whole(name: string, lower: Lower): string {
    Join(Words(Lowered(name, lower)), "-")
  }

  /** Does the cut fall just after a dash? */
  predicate CutAfterDash(name: string, lower: Lower) {
    |Whole(name, lower)| > MAX_CHARS && Whole(name, lower)[MAX_CHARS - 1] == '-'
  }

  /** A slug ends in a dash only when it was cut there. */
  lemma DashOnlyAtCut(name: string, lower: Lower)
    ensures EndsInDash(Slug(name, lower)) <==> CutAfterDash(name, lower)
  {
    BuiltEnds(Lowered(name, lower));
    hide Words, Join, Lowered;
    var whole := Whole(name, lower);
    assert Slug(name, lower) == Cut(whole);
    assert whole != "" ==> whole[|whole| - 1] != '-';
  }

  /** The slug of a slug is the slug, exactly when the cut of the name's words didn't
      fall just after a dash. */
  lemma SlugTwice(name: string, lower: Lower)
    requires IsLower(lower)
    ensures Slug(Slug(name, lower), lower) == Slug(name, lower) <==> !CutAfterDash(name, lower)
  {
    hide Slug, CutAfterDash, IsLower;
    DashOnlyAtCut(name, lower);
    DashedTwice(name, lower);
  }

  lemma DashedTwice(name: string, lower: Lower)
    requires IsLower(lower)
    ensures Slug(Slug(name, lower), lower) == Slug(name, lower) <==> !EndsInDash(Slug(name, lower))
  {
    var slug := Slug(name, lower);
    SlugIsValid(name, lower);
    LoweredPlain(slug, lower);
    BuiltOfDashed(slug);
    BuiltEnds(slug);
    hide Words, Join, Lowered, IsDashed, IsLower;
    var joined := Join(Words(slug), "-");
    assert joined + "" == joined;
    assert slug == if EndsInDash(slug) then joined + "-" else joined;
    assert Slug(slug, lower) == Cut(joined);
  }

  // ----- A slug that is cut after a dash -------------------------------------

  /** Letters `a`. */
  function Letters(n: nat): (r: string)
    ensures |r| == n && forall i :: 0 <= i < n ==> r[i] == 'a'
  {
    seq(n, _ => 'a')
  }

  lemma {:induction false} WordOfLetters(n: nat)
    requires n > 0
    ensures Words(Letters(n)) == [Letters(n)] && EndsInWord(Letters(n))
  {
    assert Letters(n)[..n - 1] == Letters(n - 1) && Letters(n - 1) + "a" == Letters(n);
    if n == 1 {
      assert Words("") == [];
    } else {
      WordOfLetters(n - 1);
    }
  }

  lemma WordsAround(n: nat)
    requires n > 0
    ensures Words(Letters(n) + " b") == [Letters(n), "b"]
  {
    var first := Letters(n) + " ";
    WordOfLetters(n);
    assert first[..n] == Letters(n) && first[n] == ' ';
    assert Words(first) == [Letters(n)] && !EndsInWord(first);
    var text := Letters(n) + " b";
    assert text[..n + 1] == first && text[n + 1] == 'b';
    assert Words(text) == Words(first) + [[text[n + 1]]];
  }

  /** The slug of 63 letters, a blank and another letter is cut after its dash, so
      its own slug is another. */
  lemma DashIsLost(lower: Lower)
    requires IsLower(lower)
    ensures var name := Letters(63) + " b";
            && Slug(name, lower) == Letters(63) + "-"
            && Slug(Slug(name, lower), lower) != Slug(name, lower)
  {
    var name := Letters(63) + " b";
    LoweredPlain(name, lower);
    WordsAround(63);
    hide Words, Lowered, IsLower;
    var whole := Letters(63) + "-" + "b";
    assert Whole(name, lower) == whole by {
      assert [Letters(63), "b"][1..] == ["b"];
    }
    assert whole[..64] == Letters(63) + "-" && whole[63] == '-';
    SlugTwice(name, lower);
  }

  // ----- Letters and digits --------------------------------------------------

  predicate IsDigitCode(n: int) {
    48 <= n <= 57
  }

  predicate IsSmallLetterCode(n: int) {
    97 <= n <= 122
  }

  /** Which characters stay, by their ASCII codes. */
  lemma CharactersAre(c: char)
    ensures IsLowerAlphanumeric(c) <==> IsDigitCode(c as int) || IsSmallLetterCode(c as int)
    ensures IsAlphanumeric(c) <==> IsLowerAlphanumeric(c) || IsSmallLetterCode(c as int + 32)
  {
  }

  /** A valid ID is 1 to 64 digits, small letters, dashes, underscores and dots, the
      first a digit or a letter. */
  lemma ValidExactly(id: string)
    ensures IsValidSlug(id) <==>
              && 1 <= |id| <= 64
              && (forall i :: 0 <= i < |id| ==>
                    IsDigitCode(id[i] as int) || IsSmallLetterCode(id[i] as int) || id[i] in {'-', '_', '.'})
              && id[0] !in {'-', '_', '.'}
  {
  }

  function OnlyAlphanumeric(text: string): string {
    if text == "" then ""
    else OnlyAlphanumeric(text[..|text| - 1]) + if IsAlphanumeric(text[|text| - 1]) then [text[|text| - 1]] else ""
  }

  lemma OneMore(text: string, c: char)
    ensures OnlyAlphanumeric(text + [c]) == OnlyAlphanumeric(text) + if IsAlphanumeric(c) then [c] else ""
  {
    assert (text + [c])[..|text|] == text;
  }

  lemma {:induction false} LettersBuilt(text: string)
    ensures OnlyAlphanumeric(Built(text)) == OnlyAlphanumeric(text)
    decreases |text|
  {
    hide Words, Join, Built;
    if text == "" {
      BuiltEmpty();
    } else {
      var n := |text| - 1;
      BuiltNext(text);
      LettersBuilt(text[..n]);
      OneMore(Built(text[..n]), text[n]);
      OneMore(Built(text[..n]), '-');
    }
  }

  /** Before the cut a slug has all letters and digits of the lower-cased name, in
      their order, and besides only dashes. */
  lemma LettersStay(name: string, lower: Lower)
    requires IsLower(lower)
    ensures Slug(name, lower) == Cut(Whole(name, lower))
    ensures OnlyAlphanumeric(Whole(name, lower)) == OnlyAlphanumeric(Lowered(name, lower))
    ensures forall c :: c in Whole(name, lower) ==> IsAlphanumeric(c) || c == '-'
  {
    var text := Lowered(name, lower);
    LettersBuilt(text);
    LoweredIsLower(name, lower);
    BuiltIsDashed(text);
    hide Words, Join, Lowered, IsLower, AllLower;
    var whole := Join(Words(text), "-");
    OneMore(whole, '-');
    assert Built(text) == whole || Built(text) == whole + "-";
    assert forall i :: 0 <= i < |whole| ==> whole[i] == Built(text)[i];
  }

  lemma NextCharacter(text: string, c: char, next: string)
    requires next == text + [c]
    ensures Built(next) == if IsAlphanumeric(c) then Built(text) + [c]
                           else if Words(text) != [] && EndsInWord(text) then Built(text) + "-"
                           else Built(text)
  {
    hide Words, Built;
    BuiltNext(next);
    assert next[..|text|] == text;
  }

  /** The documentation's example. */
  lemma AcmeLtd(lower: Lower)
    requires IsLower(lower)
    ensures Slug("ACME Ltd.", lower) == "acme-ltd"
  {
    AcmeLowered(lower);
    AcmeBuilt();
    hide Words, Join, Lowered, IsLower, Built, TrimDashes;
    Trimmed("acme ltd.");
    WithoutDash();
  }

  lemma WithoutDash()
    ensures TrimDashes("acme-ltd-") == "acme-ltd"
  {
    assert "acme-ltd-"[..8] == "acme-ltd";
  }

  lemma {:induction false} LoweredAscii(text: string, lower: Lower)
    requires IsLower(lower) && forall i :: 0 <= i < |text| ==> text[i] as int < 128
    ensures |Lowered(text, lower)| == |text|
    ensures forall i :: 0 <= i < |text| ==> Lowered(text, lower)[i] == ToAsciiLowercase(text[i])
  {
    if text != "" {
      LoweredAscii(text[1..], lower);
      assert lower(text[0]) == [ToAsciiLowercase(text[0])];
    }
  }

  lemma AcmeLowered(lower: Lower)
    requires IsLower(lower)
    ensures Lowered("ACME Ltd.", lower) == "acme ltd."
  {
    hide IsLower, Lowered;
    LoweredAscii("ACME Ltd.", lower);
  }

  lemma AcmeBuilt()
    ensures Built("acme ltd.") == "acme-ltd-"
  {
    FirstWord();
    NoWords("acme");
    NoWords("acme ltd");
    hide Words, Built;
    NextCharacter("acme", ' ', "acme ");
    NextCharacter("acme ", 'l', "acme l");
    NextCharacter("acme l", 't', "acme lt");
    NextCharacter("acme lt", 'd', "acme ltd");
    NextCharacter("acme ltd", '.', "acme ltd.");
    assert "acme" + "-" == "acme-" && "acme-" + "l" == "acme-l" && "acme-l" + "t" == "acme-lt";
    assert "acme-lt" + "d" == "acme-ltd" && "acme-ltd" + "-" == "acme-ltd-";
  }

  lemma FirstWord()
    ensures Built("acme") == "acme"
  {
    BuiltEmpty();
    hide Words, Built;
    NextCharacter("", 'a', "a");
    NextCharacter("a", 'c', "ac");
    NextCharacter("ac", 'm', "acm");
    NextCharacter("acm", 'e', "acme");
    assert "a" + "c" == "ac" && "ac" + "m" == "acm" && "acm" + "e" == "acme";
  }
}
