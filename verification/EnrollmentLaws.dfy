/** What an enrollment code promises its reader (`common/src/enrollment.rs`):
    it reads back as it was written however it is typed, and a mistyped or
    truncated one is damaged, never another code. */
module EnrollmentLaws {
  import opened Wrappers
  import opened BitStrings
  import opened Bytes
  import opened Sequences
  import opened Words
  import opened Base32
  import opened Crc32
  import opened ErrorDetection
  import opened Enrollment
  import Text
  import Utf8

  // ----- The payload ---------------------------------------------------------

  function Flag(code: EnrollmentCode): bv8 {
    if code.tlsPin.Some? then FLAG_TLS_PIN else 0
  }

  /** The payload after its four-byte header. */
  function Fields(code: EnrollmentCode): seq<bv8> {
    code.hubUrl + code.hubKey + code.hubSigningKey + PinBytes(code.tlsPin) + code.tokenId + code.secret
  }

  lemma PayloadParts(code: EnrollmentCode)
    ensures |Payload(code)| >= 92
    ensures Payload(code)[0] == VERSION && Payload(code)[1] == Flag(code)
    ensures Payload(code)[2] as nat * 256 + Payload(code)[3] as nat == |code.hubUrl| % 0x1_0000
    ensures Payload(code)[4..] == Fields(code)
  {
    var p, n := Payload(code), Length16(|code.hubUrl|);
    LengthReads(|code.hubUrl|);
    hide Length16;
    var header := [VERSION, Flag(code)] + n;
    assert p == header + Fields(code);
    hide Payload, Fields, Flag;
    TakeDrop(header, Fields(code));
    assert p[0] == header[0] && p[1] == header[1] && p[2] == header[2] && p[3] == header[3];
    FieldsLength(code);
  }

  lemma FieldsLength(code: EnrollmentCode)
    ensures |Fields(code)| == |code.hubUrl| + 88 + if code.tlsPin.Some? then 32 else 0
  {
  }

  lemma LengthReads(n: nat)
    ensures Length16(n)[0] as nat * 256 + Length16(n)[1] as nat == n % 0x1_0000
  {
    hide ByteOf;
    var bytes := Length16(n);
    assert bytes[0] as nat == n / 256 % 256 && bytes[1] as nat == n % 256;
    TwoDigits(n);
  }

  lemma TwoDigits(n: nat)
    ensures n / 256 % 256 * 256 + n % 256 == n % 0x1_0000
  {
    ModHalf256(n, n / 256);
  }

  lemma ModHalf256(n: nat, q: nat)
    requires q == n / 256
    ensures q % 256 * 256 + n % 256 == n % 0x1_0000
  {
    assert n == 256 * q + n % 256;
    assert q == 256 * (q / 256) + q % 256;
  }

  lemma FieldsParse(code: EnrollmentCode, n: nat)
    ensures n == |code.hubUrl| ==> ParseFields(code.tlsPin.Some?, n, Fields(code)) == Ok(code)
    ensures n != |code.hubUrl| ==> ParseFields(code.tlsPin.Some?, n, Fields(code)) == Err(Damaged)
  {
    var f, u, pin := Fields(code), |code.hubUrl|, if code.tlsPin.Some? then 32 else 0;
    assert |f| == u + 88 + pin;
    if n == u {
      assert f[..u] == code.hubUrl;
      assert f[u..u + 32] == code.hubKey;
      assert f[u + 32..u + 64] == code.hubSigningKey;
      assert code.tlsPin.Some? ==> f[u + 64..u + 96] == code.tlsPin.value;
      assert f[u + 64 + pin..u + 72 + pin] == code.tokenId;
      assert f[u + 72 + pin..] == code.secret;
    }
  }

  /** A payload says the code it was made from, as long as the URL's length fits
      in its two bytes; else it can't be read. */
  lemma PayloadParses(code: EnrollmentCode)
    ensures Parse(Payload(code)) == if |code.hubUrl| <= 0xFFFF then Ok(code) else Err(Damaged)
  {
    hide Parse, ParseFields, Payload, Fields, Flag;
    PayloadParts(code);
    FlagReads(code);
    LengthFits(|code.hubUrl|);
    var n := |code.hubUrl| % 0x1_0000;
    HeaderParses(Payload(code), code.tlsPin.Some?, n);
    FieldsParse(code, n);
  }

  lemma LengthFits(n: nat)
    ensures n % 0x1_0000 == n <==> n <= 0xFFFF
  {
  }

  lemma FlagReads(code: EnrollmentCode)
    ensures (Flag(code) & FLAG_TLS_PIN != 0) == code.tlsPin.Some?
  {
  }

  lemma HeaderParses(p: seq<bv8>, pinned: bool, n: nat)
    requires |p| >= 4 && p[0] == VERSION && (p[1] & FLAG_TLS_PIN != 0) == pinned
    requires p[2] as nat * 256 + p[3] as nat == n
    ensures Parse(p) == ParseFields(pinned, n, p[4..])
  {
    hide ParseFields;
  }

  lemma SealedOpens(payload: seq<bv8>)
    ensures Open(Sealed(payload)) == Parse(payload)
  {
    var n := |payload|;
    assert Sealed(payload)[..n] == payload;
    assert Sealed(payload)[n..] == BigEndian(Checksum(payload));
  }

  // ----- The text ------------------------------------------------------------

  /** What a body says after the prefix. */
  function ReadBody(body: string): Result<EnrollmentCode, CodeError> {
    match Reading(body)
    case Err(c) => Err(BadCharacter(c))
    case Ok(digits) => Open(Octets(digits))
  }

  lemma ReadsBody(text: string, prefix: string, body: string)
    requires Text.Trim(text) == prefix + body && Text.EqIgnoreAsciiCase(prefix, PREFIX)
    ensures Read(text) == ReadBody(body)
  {
    hide Open, Text.Trim, Reading;
    assert (prefix + body)[..|PREFIX|] == prefix && (prefix + body)[|PREFIX|..] == body;
  }

  /** What the text of some digits says. */
  lemma CodeIsTrimmed(digits: seq<Digit>)
    ensures Text.Trim(PREFIX + Symbols(digits)) == PREFIX + Symbols(digits)
  {
    if digits != [] {
      SymbolIsPlain(digits[|digits| - 1]);
    }
    Text.TrimPlain(PREFIX + Symbols(digits));
  }

  lemma ReadsDigits(digits: seq<Digit>)
    ensures Read(PREFIX + Symbols(digits)) == Open(Octets(digits))
  {
    hide Open, Octets, Read, Text.Trim, Symbols;
    var text := PREFIX + Symbols(digits);
    CodeIsTrimmed(digits);
    ReadsBody(text, PREFIX, Symbols(digits));
    ReadingOfSymbols(digits);
  }

  /** Encoding then decoding gives the code back exactly when its URL is at most
      65535 bytes long; a longer one makes a code that is always damaged. */
  lemma RoundTrip(code: EnrollmentCode)
    ensures Read(PREFIX + Symbols(Body(code))) == if |code.hubUrl| <= 0xFFFF then Ok(code) else Err(Damaged)
  {
    hide *;
    ReadsCode(code);
    SealedOpens(Payload(code));
    PayloadParses(code);
  }

  lemma ReadsCode(code: EnrollmentCode)
    ensures Read(PREFIX + Symbols(Body(code))) == Open(Sealed(Payload(code)))
  {
    hide Read, Open, Symbols, Digits, Octets, Sealed, Payload;
    OctetsOfDigits(Sealed(Payload(code)));
    ReadsDigits(Body(code));
  }

  // ----- A URL that is too long ----------------------------------------------

  /** Letters `a`. */
  function Letters(n: nat): seq<bv8> {
    seq(n, _ => 0x61)
  }

  lemma {:induction false} LettersAreText(n: nat)
    ensures Utf8.Valid(Letters(n))
  {
    if n > 0 {
      assert Letters(n)[0] == 0x61 && Letters(n)[1..] == Letters(n - 1);
      LettersAreText(n - 1);
    }
  }

  /** A code whose URL is 65536 letters is written, and can't be read. */
  lemma LongUrlIsLost(hubKey: Key, hubSigningKey: Key, tlsPin: Option<Key>, tokenId: TokenId, secret: Secret)
    ensures Utf8.Valid(Letters(0x1_0000))
    ensures var code := EnrollmentCode(Letters(0x1_0000), hubKey, hubSigningKey, tlsPin, tokenId, secret);
            Read(PREFIX + Symbols(Body(code))) == Err(Damaged)
  {
    LettersAreText(0x1_0000);
    assert |Letters(0x1_0000)| == 0x1_0000;
    hide *;
    RoundTrip(EnrollmentCode(Letters(0x1_0000), hubKey, hubSigningKey, tlsPin, tokenId, secret));
  }

  /** Any text that is accepted says a code that survives being written and
      read again. */
  lemma AcceptedRoundTrips(text: string)
    requires Read(text).Ok?
    ensures |Read(text).value.hubUrl| <= 0xFFFF
    ensures Read(PREFIX + Symbols(Body(Read(text).value))) == Read(text)
  {
    hide *;
    ReadUrl(text);
    RoundTrip(Read(text).value);
  }

  lemma ParsedUrl(payload: seq<bv8>)
    requires Parse(payload).Ok?
    ensures |Parse(payload).value.hubUrl| <= 0xFFFF
  {
    hide Utf8.Valid;
  }

  lemma OpenedUrl(bytes: seq<bv8>)
    requires Open(bytes).Ok?
    ensures |Open(bytes).value.hubUrl| <= 0xFFFF
  {
    hide Parse, Crc32.BigEndian, Crc32.Checksum;
    ParsedUrl(bytes[..|bytes| - 4]);
  }

  lemma ReadUrl(text: string)
    requires Read(text).Ok?
    ensures |Read(text).value.hubUrl| <= 0xFFFF
  {
    hide Open, Text.Trim, Reading, Octets;
    OpenedUrl(Octets(Reading(Text.Trim(text)[|PREFIX|..]).value));
  }

  // ----- How a code may be typed ---------------------------------------------

  /** White space around a code, the prefix in any case, and a body that reads as
      the code's digits (whatever its dashes, spaces, case and lookalikes) say
      what the code says. */
  lemma TypedFreely(before: string, prefix: string, body: string, after: string, digits: seq<Digit>)
    requires Text.AllWhitespace(before) && Text.AllWhitespace(after)
    requires Text.EqIgnoreAsciiCase(prefix, PREFIX)
    requires Reading(body) == Ok(digits)
    ensures Read(before + prefix + body + after) == Read(PREFIX + Symbols(digits))
  {
    hide Read, Reading, Text.Trim, Text.EqIgnoreAsciiCase, Text.AllWhitespace, Open, Octets;
    var rest, cut := TrimmedCode(before, prefix, body, after);
    BlankAfter(rest, cut);
    ReadsBody(before + prefix + body + after, prefix, rest);
    ReadsDigits(digits);
  }

  /** Trimming leaves the prefix and the body, but for white space at the body's
      end. */
  lemma TrimmedCode(before: string, prefix: string, body: string, after: string) returns (rest: string, cut: string)
    requires Text.AllWhitespace(before) && Text.AllWhitespace(after)
    requires Text.EqIgnoreAsciiCase(prefix, PREFIX)
    ensures Text.Trim(before + prefix + body + after) == prefix + rest
    ensures body == rest + cut && Text.AllWhitespace(cut)
  {
    hide Text.TrimEnd, Text.Trim, Text.IsWhitespace, Text.EqIgnoreAsciiCase;
    var core := prefix + body;
    assert before + prefix + body + after == before + core + after;
    PrefixEnds(prefix);
    Text.TrimAround(before, core, after);
    Text.TrimEndKeeps(core, 4);
    Text.TrimEndCut(core);
    var trimmed := Text.TrimEnd(core);
    rest, cut := trimmed[5..], core[|trimmed|..];
    assert trimmed == core[..|trimmed|];
  }

  lemma PrefixEnds(prefix: string)
    requires Text.EqIgnoreAsciiCase(prefix, PREFIX)
    ensures |prefix| == 5 && !Text.IsWhitespace(prefix[0]) && !Text.IsWhitespace(prefix[4])
  {
    assert Text.ToAsciiLowercase(prefix[0]) == 'b';
    assert Text.ToAsciiLowercase(prefix[4]) == '-';
  }

  lemma BlankAfter(text: string, blank: string)
    requires Text.AllWhitespace(blank)
    ensures Reading(text + blank) == Reading(text)
  {
    ReadingConcat(text, blank);
    BlankReads(blank);
    if Reading(text).Ok? {
      assert Reading(text).value + [] == Reading(text).value;
    }
  }

  lemma {:induction false} BlankReads(text: string)
    requires Text.AllWhitespace(text)
    ensures Reading(text) == Ok([])
  {
    if text != [] {
      assert Skipped(text[0]);
      BlankReads(text[1..]);
    }
  }

  // ----- Mistyped codes ------------------------------------------------------

  /** The bits of the last digit that belong to the last byte agree. */
  predicate SameBut(padding: nat, a: Digit, b: Digit) {
    Shr(a as nat, padding) == Shr(b as nat, padding)
  }

  lemma SameOctets(a: seq<Digit>, b: seq<Digit>)
    requires |a| == |b| > 0 && 5 * |a| < 8 * OctetCount(|a|) + 5
    ensures Octets(a) == Octets(b) <==>
              var last, padding := |a| - 1, 5 * |a| - 8 * OctetCount(|a|);
              a[..last] == b[..last] && SameBut(padding, a[last], b[last])
  {
    hide Octets, OctetCount, SameBut, Shr, Low, DigitsBits;
    var last, padding := |a| - 1, 5 * |a| - 8 * OctetCount(|a|);
    LastBits(a, padding);
    LastBits(b, padding);
    OctetsByBits(a, b);
    SameParts(DigitsBits(a[..last]), KeptBits(a[last], padding), DigitsBits(b[..last]), KeptBits(b[last], padding));
    DigitsByBits(a[..last], b[..last]);
    SameLast(a[last], b[last], padding);
  }

  lemma OctetsByBits(a: seq<Digit>, b: seq<Digit>)
    ensures Octets(a) == Octets(b) <==> Bits(Octets(a)) == Bits(Octets(b))
  {
    hide *;
    if Bits(Octets(a)) == Bits(Octets(b)) {
      SameBytes(Octets(a), Octets(b));
    }
  }

  lemma DigitsByBits(a: seq<Digit>, b: seq<Digit>)
    ensures DigitsBits(a) == DigitsBits(b) <==> a == b
  {
    hide *;
    if DigitsBits(a) == DigitsBits(b) {
      SameDigits(a, b);
    }
  }

  /** The bits of a digit above the padding. */
  function KeptBits(d: Digit, padding: nat): (bits: seq<bool>)
    requires padding < 5
    ensures |bits| == 5 - padding
  {
    Low(Shr(d as nat, padding), 5 - padding)
  }

  lemma SameLast(a: Digit, b: Digit, k: nat)
    requires k < 5
    ensures KeptBits(a, k) == KeptBits(b, k) <==> SameBut(k, a, b)
  {
    hide Low, Shr, Pow2;
    Pow2Values();
    ShrBound(a as nat, 5, k);
    ShrBound(b as nat, 5, k);
    ValueOfLow(Shr(a as nat, k), 5 - k);
    ValueOfLow(Shr(b as nat, k), 5 - k);
  }

  lemma DigitSplit(d: Digit, padding: nat)
    requires padding < 5
    ensures DigitBits(d) == KeptBits(d, padding) + Low(d as nat, padding)
  {
    hide Low, Shr;
    LowSplit(d as nat, 5 - padding, padding);
  }

  lemma LastBits(a: seq<Digit>, padding: nat)
    requires a != [] && padding < 5
    ensures DigitsBits(a)[..5 * |a| - padding] == DigitsBits(a[..|a| - 1]) + KeptBits(a[|a| - 1], padding)
  {
    hide *;
    var n := |a| - 1;
    LastDigitBits(a);
    DigitSplit(a[n], padding);
    FrontOf(DigitsBits(a[..n]), KeptBits(a[n], padding), Low(a[n] as nat, padding));
  }

  lemma FrontOf<T>(a: seq<T>, b: seq<T>, c: seq<T>)
    ensures (a + (b + c))[..|a| + |b|] == a + b
  {
  }

  /** Are the digits a code's but for the `n` from `at`? */
  ghost predicate BodyBut(code: EnrollmentCode, digits: seq<Digit>, at: nat, n: nat) {
    |digits| == |Body(code)| && forall k :: 0 <= k < |digits| && !(at <= k < at + n) ==> digits[k] == Body(code)[k]
  }

  /** Changing up to five neighbouring symbols of a code (so one mistake, or two
      neighbours swapped) always makes it damaged, unless only the padding in
      the last symbol changed, which says the same as before. */
  lemma NeighboursCaught(code: EnrollmentCode, digits: seq<Digit>, at: nat)
    requires BodyBut(code, digits, at, 5)
    ensures
      var last := |digits| - 1;
      last >= 0 &&
      Read(PREFIX + Symbols(digits)) ==
        if digits[..last] == Body(code)[..last]
           && SameBut(Padding(|Payload(code)| + 4), digits[last], Body(code)[last])
        then Read(PREFIX + Symbols(Body(code)))
        else Err(Damaged)
  {
    hide BodyBut, Read, Open, Symbols, Octets, OctetCount, SameBut, Sealed, Payload, Padding;
    SameCode(code, digits, at, 5);
    ReadsDigits(digits);
    ReadsDigits(Body(code));
    BodyOctets(code);
    if Octets(digits) != Sealed(Payload(code)) {
      BodyNear(code, digits, at, 5);
      PayloadParts(code);
      ChangedIsDamaged(Payload(code), Octets(digits), 5 * at);
    }
  }

  lemma BodyOctets(code: EnrollmentCode)
    ensures Octets(Body(code)) == Sealed(Payload(code))
    ensures OctetCount(|Body(code)|) == |Payload(code)| + 4
    ensures 5 * |Body(code)| == 8 * (|Payload(code)| + 4) + Padding(|Payload(code)| + 4)
  {
    hide Octets, Payload, Sealed, Digits, Padding;
    OctetsOfDigits(Sealed(Payload(code)));
  }

  /** When digits hold the bytes of a code. */
  lemma SameCode(code: EnrollmentCode, digits: seq<Digit>, at: nat, n: nat)
    requires BodyBut(code, digits, at, n)
    ensures var last := |digits| - 1;
            last >= 0 &&
            (Octets(digits) == Sealed(Payload(code)) <==>
              && digits[..last] == Body(code)[..last]
              && SameBut(Padding(|Payload(code)| + 4), digits[last], Body(code)[last]))
  {
    hide Octets, OctetCount, Payload, Sealed, Padding, SameBut, Body;
    BodyOctets(code);
    SameOctets(digits, Body(code));
  }

  lemma BodyNear(code: EnrollmentCode, digits: seq<Digit>, at: nat, n: nat)
    requires BodyBut(code, digits, at, n)
    ensures |Octets(digits)| == |Payload(code)| + 4
    ensures DifferWithin(Bits(Sealed(Payload(code))), Bits(Octets(digits)), 5 * at, 5 * n)
  {
    hide Octets, OctetCount, Payload, Sealed, Padding, Body, DifferWithin;
    BodyOctets(code);
    BitsNear(Body(code), digits, at, n);
  }

  lemma BitsNear(a: seq<Digit>, b: seq<Digit>, at: nat, n: nat)
    requires |a| == |b| && forall k :: 0 <= k < |a| && !(at <= k < at + n) ==> b[k] == a[k]
    ensures DifferWithin(Bits(Octets(a)), Bits(Octets(b)), 5 * at, 5 * n)
  {
    hide Bits, Octets, DigitsBits, OctetCount;
    forall i: nat | i < |Bits(Octets(a))| && !(5 * at <= i < 5 * at + 5 * n)
      ensures Bits(Octets(a))[i] == Bits(Octets(b))[i]
    {
      assert a[i / 5] == b[i / 5];
      BitOfDigit(a, i);
      BitOfDigit(b, i);
    }
  }

  lemma BitOfDigit(a: seq<Digit>, i: nat)
    requires i < |Bits(Octets(a))|
    ensures i / 5 < |a| && Bits(Octets(a))[i] == DigitBits(a[i / 5])[i % 5]
  {
    hide Bits, Octets, DigitsBits, DigitBits;
    var k := i / 5;
    DigitAt(a, k);
    assert Bits(Octets(a))[i] == DigitsBits(a)[i];
    assert DigitsBits(a)[i] == DigitsBits(a)[5 * k..5 * k + 5][i - 5 * k];
  }

  lemma OpensOnlySealed(bytes: seq<bv8>)
    requires |bytes| >= 4
    ensures var n := |bytes| - 4; Open(bytes) == Err(Damaged) || bytes == Sealed(bytes[..n])
  {
    hide Crc32.BigEndian, Crc32.Checksum, Parse;
  }

  lemma ChangedIsDamaged(payload: seq<bv8>, bytes: seq<bv8>, at: nat)
    requires |payload| >= 3 && |bytes| == |payload| + 4 && bytes != Sealed(payload)
    requires DifferWithin(Bits(Sealed(payload)), Bits(bytes), at, 25)
    ensures Open(bytes) == Err(Damaged)
  {
    hide Open, DifferWithin, Sealed, Bits;
    OpensOnlySealed(bytes);
    if Open(bytes) != Err(Damaged) {
      NoTwoNear(payload, bytes[..|payload|], at);
    }
  }

  /** The bytes of a readable code cut short, or with more after them, can't be
      read. */
  lemma WrongLengthIsDamaged(code: EnrollmentCode, bytes: seq<bv8>)
    requires |code.hubUrl| <= 0xFFFF && |bytes| != |Payload(code)| + 4
    requires forall k :: 0 <= k < 4 && k < |bytes| ==> bytes[k] == Payload(code)[k]
    ensures Open(bytes) == Err(Damaged)
  {
    if |bytes| >= 4 {
      var p := bytes[..|bytes| - 4];
      PayloadParts(code);
      if |p| >= 4 {
        FlagReads(code);
        LengthFits(|code.hubUrl|);
        HeaderParses(p, code.tlsPin.Some?, |code.hubUrl|);
        assert |Fields(code)| == |Payload(code)| - 4;
      }
    }
  }

  /** A readable code that lost symbols at its end is damaged, however many. */
  lemma TruncatedIsDamaged(code: EnrollmentCode, k: nat)
    requires |code.hubUrl| <= 0xFFFF && k < |Body(code)|
    ensures Read(PREFIX + Symbols(Body(code)[..k])) == Err(Damaged)
  {
    hide Open, Read, Octets, Digits, Payload, Symbols;
    var digits, bytes := Body(code)[..k], Sealed(Payload(code));
    ReadsDigits(digits);
    PrefixOctets(bytes, Body(code), k);
    PayloadParts(code);
    assert bytes[..|Payload(code)|] == Payload(code);
    WrongLengthIsDamaged(code, Octets(digits));
  }

  lemma PrefixOctets(bytes: seq<bv8>, digits: seq<Digit>, k: nat)
    requires digits == Digits(bytes) && k < |digits|
    ensures |Octets(digits[..k])| < |bytes| && Octets(digits[..k]) <= bytes
  {
    hide Digits, Octets, DigitsBits, Bits, Padding;
    var m := OctetCount(k);
    assert m < |bytes|;
    PrefixBits(digits, k);
    assert DigitsBits(digits[..k])[..8 * m] == DigitsBits(digits)[..8 * m];
    StartOfBits(Bits(bytes), Zeros(Padding(|bytes|)), 8 * m);
    BitsPrefix(bytes, m);
    SameBytes(Octets(digits[..k]), bytes[..m]);
  }

  lemma StartOfBits(a: seq<bool>, b: seq<bool>, n: nat)
    requires n <= |a|
    ensures (a + b)[..n] == a[..n]
  {
  }

  lemma {:induction false} PrefixBits(digits: seq<Digit>, k: nat)
    requires k <= |digits|
    ensures DigitsBits(digits[..k]) == DigitsBits(digits)[..5 * k]
    decreases |digits|
  {
    hide DigitsBits;
    var n := |digits| - 1;
    if k <= n {
      PrefixBits(digits[..n], k);
      assert digits[..n][..k] == digits[..k];
      LastDigitBits(digits);
      StartOfBits(DigitsBits(digits[..n]), DigitBits(digits[n]), 5 * k);
    } else {
      assert digits[..k] == digits;
    }
  }

  lemma {:induction false} BitsPrefix(bytes: seq<bv8>, k: nat)
    requires k <= |bytes|
    ensures Bits(bytes[..k]) == Bits(bytes)[..8 * k]
    decreases |bytes|
  {
    hide Bits;
    var n := |bytes| - 1;
    if k <= n {
      BitsPrefix(bytes[..n], k);
      assert bytes[..n][..k] == bytes[..k];
      LastByteBits(bytes);
      StartOfBits(Bits(bytes[..n]), ByteBits(bytes[n]), 8 * k);
    } else {
      assert bytes[..k] == bytes;
    }
  }

  // ----- Why a text is refused -----------------------------------------------

  /** A text is no code exactly when, without white space around it, it doesn't start
      with `BLT1-` in some case. */
  lemma NotACodeExactly(text: string)
    ensures Read(text) == Err(NotACode) <==>
              var t := Text.Trim(text);
              |t| < 5 || !Text.EqIgnoreAsciiCase(t[..5], "BLT1-")
  {
    hide Text.Trim, Text.EqIgnoreAsciiCase, Reading, Octets;
    var t := Text.Trim(text);
    if |t| >= 5 && Text.EqIgnoreAsciiCase(t[..5], "BLT1-") && Reading(t[5..]).Ok? {
      OpenNames(Octets(Reading(t[5..]).value));
    }
  }

  lemma OpenNames(bytes: seq<bv8>)
    ensures Open(bytes) != Err(NotACode) && (Open(bytes).Err? ==> !Open(bytes).error.BadCharacter?)
  {
    hide Crc32.BigEndian, Crc32.Checksum, Utf8.Valid;
  }

  /** The first character after the prefix that is neither skipped nor a digit is
      named, whatever follows. */
  lemma BadCharacterIsNamed(digits: seq<Digit>, c: char, rest: string)
    requires !Skipped(c) && DigitOf(c) == None && !Text.IsWhitespace(c)
    requires rest == "" || !Text.IsWhitespace(rest[|rest| - 1])
    ensures Read("BLT1-" + (Symbols(digits) + ([c] + rest))) == Err(BadCharacter(c))
  {
    hide Open, Read, Text.Trim, Reading, Skipped, DigitOf, Text.EqIgnoreAsciiCase;
    var body := Symbols(digits) + ([c] + rest);
    var text := PREFIX + body;
    assert text[0] == 'B' && text[|text| - 1] == body[|body| - 1] == ([c] + rest)[|rest|];
    assert !Text.IsWhitespace('B') && !Text.IsWhitespace(text[|text| - 1]);
    Text.TrimPlain(text);
    SamePrefix();
    ReadsBody(text, PREFIX, body);
    ReadingConcat(Symbols(digits), [c] + rest);
    ReadingOfSymbols(digits);
    ReadingNext(c, rest);
  }

  lemma SamePrefix()
    ensures Text.EqIgnoreAsciiCase(PREFIX, PREFIX)
  {
  }

  /** A code says its version, 3, and in the lowest bit of the next byte whether it
      pins a certificate. */
  lemma HeaderIs(code: EnrollmentCode)
    ensures |Payload(code)| >= 92 && Payload(code)[0] == 3
    ensures Payload(code)[1] == if code.tlsPin.Some? then 1 else 0
  {
    PayloadParts(code);
  }

  /** A code says the length of its URL, the high byte first. */
  lemma UrlLengthIs(code: EnrollmentCode)
    requires |code.hubUrl| < 0x1_0000
    ensures |Payload(code)| >= 92
    ensures Payload(code)[2] as nat * 256 + Payload(code)[3] as nat == |code.hubUrl|
  {
    hide *;
    PayloadParts(code);
  }

  /** Where each part of a code stands after that: the URL, the hub's key, its signing
      key, the certificate if there is one, the token and the secret. */
  lemma LayoutIs(code: EnrollmentCode)
    ensures
      var p, n := Payload(code), |code.hubUrl|;
      var end := n + 68 + if code.tlsPin.Some? then 32 else 0;
      && |p| == end + 24
      && p[4..n + 4] == code.hubUrl && p[n + 4..n + 36] == code.hubKey && p[n + 36..n + 68] == code.hubSigningKey
      && (code.tlsPin.Some? ==> p[n + 68..end] == code.tlsPin.value)
      && p[end..end + 8] == code.tokenId && p[end + 8..] == code.secret
  {
    var p, n := Payload(code), |code.hubUrl|;
    var end := n + 68 + if code.tlsPin.Some? then 32 else 0;
    assert p[4..] == Fields(code) by {
      PayloadParts(code);
    }
    FieldsStand(code);
    hide Fields, Payload;
    SlicesAfter(p, n, end);
  }

  lemma SlicesAfter(p: seq<bv8>, n: nat, end: nat)
    requires n + 68 <= end && end + 24 == |p|
    ensures p[4..n + 4] == p[4..][..n] && p[n + 4..n + 36] == p[4..][n..n + 32]
    ensures p[n + 36..n + 68] == p[4..][n + 32..n + 64] && p[n + 68..end] == p[4..][n + 64..end - 4]
    ensures p[end..end + 8] == p[4..][end - 4..end + 4] && p[end + 8..] == p[4..][end + 4..]
  {
    SliceAfter(p, 4, n + 4);
    SliceAfter(p, n + 4, n + 36);
    SliceAfter(p, n + 36, n + 68);
    SliceAfter(p, n + 68, end);
    SliceAfter(p, end, end + 8);
    SliceAfter(p, end + 8, |p|);
  }

  lemma SliceAfter(p: seq<bv8>, i: nat, j: nat)
    requires 4 <= i <= j <= |p|
    ensures p[i..j] == p[4..][i - 4..j - 4]
  {
    var rest := p[4..];
    assert |p[i..j]| == |rest[i - 4..j - 4]|;
    forall k | 0 <= k < j - i ensures p[i..j][k] == rest[i - 4..j - 4][k] {
      assert p[i..j][k] == p[i + k] == rest[i - 4 + k];
    }
  }

  lemma FieldsStand(code: EnrollmentCode)
    ensures
      var f, n := Fields(code), |code.hubUrl|;
      var end := n + 64 + if code.tlsPin.Some? then 32 else 0;
      && |f| == end + 24 && f[..n] == code.hubUrl && f[n..n + 32] == code.hubKey
      && f[n + 32..n + 64] == code.hubSigningKey && (code.tlsPin.Some? ==> f[n + 64..end] == code.tlsPin.value)
      && f[end..end + 8] == code.tokenId && f[end + 8..] == code.secret
  {
  }

  /** A sealed payload of another version is refused as such, and an empty one is
      damaged. */
  lemma OtherVersion(payload: seq<bv8>)
    ensures payload == [] ==> Open(Sealed(payload)) == Err(Damaged)
    ensures payload != [] && payload[0] != 3 ==> Open(Sealed(payload)) == Err(UnsupportedVersion(payload[0]))
  {
    hide Open, Sealed, ParseFields;
    SealedOpens(payload);
  }

  /** Of the flags only the lowest bit counts. */
  lemma OnlyLowestFlag(payload: seq<bv8>, flags: bv8)
    requires |payload| >= 4 && flags & 1 == payload[1] & 1
    ensures Open(Sealed(payload[1 := flags])) == Open(Sealed(payload))
  {
    hide Open, Sealed, ParseFields;
    SealedOpens(payload);
    SealedOpens(payload[1 := flags]);
    assert payload[1 := flags][4..] == payload[4..];
  }

  /** A payload is damaged if its URL isn't UTF-8, or its length isn't that of its
      fields: 92 bytes, the URL, and 32 more for a pinned certificate. */
  lemma DamagedExactly(payload: seq<bv8>)
    requires |payload| >= 4 && payload[0] == 3
    ensures
      var n := payload[2] as nat * 256 + payload[3] as nat;
      Open(Sealed(payload)) == Err(Damaged) <==>
        || |payload| != n + 92 + (if payload[1] & 1 != 0 then 32 else 0)
        || !Utf8.Valid(payload[4..4 + n])
  {
    hide Open, Sealed, Utf8.Valid, ParseFields, Parse;
    var n := payload[2] as nat * 256 + payload[3] as nat;
    SealedOpens(payload);
    HeaderParses(payload, payload[1] & 1 != 0, n);
    FieldsDamaged(payload[1] & 1 != 0, n, payload[4..]);
    assert n <= |payload| - 4 ==> payload[4..][..n] == payload[4..4 + n];
  }

  lemma FieldsDamaged(pinned: bool, n: nat, fields: seq<bv8>)
    ensures ParseFields(pinned, n, fields) == Err(Damaged) <==>
              |fields| != n + 88 + (if pinned then 32 else 0) || !Utf8.Valid(fields[..n])
  {
    hide Utf8.Valid;
  }

  /** Bytes that don't end in their checksum, or are fewer than it, are damaged. */
  lemma UnsealedIsDamaged(bytes: seq<bv8>)
    ensures |bytes| < 4 || bytes != Sealed(bytes[..|bytes| - 4]) ==> Open(bytes) == Err(Damaged)
  {
    if |bytes| >= 4 {
      OpensOnlySealed(bytes);
    }
  }
}
