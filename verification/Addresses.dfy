/** Network addresses as texts: IPv4 addresses as Rust prints and parses them,
    and the hardware addresses of `common/src/discovery.rs`. */
module Addresses {
  import opened Wrappers
  import opened Decimals
  import opened Sequences
  import opened Splitting
  import opened Words
  import Text

  // ----- IPv4 ----------------------------------------------------------------

  /** `a.b.c.d` as a number, the order of `Ipv4Addr`. */
  function AddressOf(a: nat, b: nat, c: nat, d: nat): (n: nat)
    requires a < 256 && b < 256 && c < 256 && d < 256
    ensures n < U32
  {
    ((a * 256 + b) * 256 + c) * 256 + d
  }

  /** `Ipv4Addr::to_string`. */
  function ShowAddress(n: nat): string
    requires n < U32
  {
    Decimal(n / 0x100_0000) + "." + Decimal(n / 0x1_0000 % 256)
    + "." + Decimal(n / 0x100 % 256) + "." + Decimal(n % 256)
  }

  /** One of the four numbers: at most 255, without leading zeros. */
  function ParseOctet(text: string): (r: Option<nat>)
    ensures r.Some? ==> r.value < 256
  {
    if Canonical(text) && NumberOf(text) < 256 then Some(NumberOf(text)) else None
  }

  /** `Ipv4Addr::from_str`. */
  function ParseAddress(text: string): (r: Option<nat>)
    ensures r.Some? ==> r.value < U32
  {
    var parts := Split(text, '.');
    if |parts| != 4 then None
    else
      match (ParseOctet(parts[0]), ParseOctet(parts[1]), ParseOctet(parts[2]), ParseOctet(parts[3]))
      case (Some(a), Some(b), Some(c), Some(d)) => Some(AddressOf(a, b, c, d))
      case _ => None
  }

  lemma OctetParses(n: nat)
    requires n < 256
    ensures ParseOctet(Decimal(n)) == Some(n) && '.' !in Decimal(n)
  {
    NumberOfDecimal(n);
    DecimalIsCanonical(n);
  }

  lemma FourJoined(a: string, b: string, c: string, d: string)
    ensures a + "." + b + "." + c + "." + d == a + ['.'] + (b + ['.'] + (c + ['.'] + d))
  {
    Assoc(a + ".", b + ".", c);
    Assoc(a + ".", b + "." + c, ".");
    Assoc(a + ".", b + "." + c + ".", d);
    Assoc(b + ".", c + ".", d);
    Assoc(a + ".", b, ".");
    Assoc(b + ".", c, ".");
  }

  lemma FourParts(a: string, b: string, c: string, d: string)
    requires '.' !in a && '.' !in b && '.' !in c && '.' !in d
    ensures Split(a + "." + b + "." + c + "." + d, '.') == [a, b, c, d]
  {
    hide Split;
    var cd := c + ['.'] + d;
    var bcd := b + ['.'] + cd;
    FourJoined(a, b, c, d);
    SplitAt(a, '.', bcd);
    SplitAt(b, '.', cd);
    SplitAt(c, '.', d);
    SplitNone(d, '.');
  }

  lemma FourOctets(n: nat)
    requires n < U32
    ensures n / 0x100_0000 < 256
    ensures AddressOf(n / 0x100_0000, n / 0x1_0000 % 256, n / 0x100 % 256, n % 256) == n
  {
    hide AddressOf;
    var q, d := n / 256, n % 256;
    var p, c := q / 256, q % 256;
    var a, b := p / 256, p % 256;
    assert n == 256 * q + d && q == 256 * p + c && p == 256 * a + b;
    AddressIs(a, b, c, d);
    Octets(a, b, c, d);
  }

  lemma AddressIs(a: nat, b: nat, c: nat, d: nat)
    requires a < 256 && b < 256 && c < 256 && d < 256
    ensures AddressOf(a, b, c, d) == 256 * (256 * (256 * a + b) + c) + d
  {
  }

  lemma Octets(a: nat, b: nat, c: nat, d: nat)
    requires a < 256 && b < 256 && c < 256 && d < 256
    ensures
      var n := AddressOf(a, b, c, d);
      n / 0x100_0000 == a && n / 0x1_0000 % 256 == b && n / 0x100 % 256 == c && n % 256 == d
  {
    hide AddressOf;
    var n := AddressOf(a, b, c, d);
    AddressIs(a, b, c, d);
    ModUnique(n, 0x100_0000, a, 0x1_0000 * b + 0x100 * c + d);
    ModUnique(n, 0x1_0000, 256 * a + b, 0x100 * c + d);
    ModUnique(256 * a + b, 256, a, b);
    ModUnique(n, 256, 256 * (256 * a + b) + c, d);
    ModUnique(256 * (256 * a + b) + c, 256, 256 * a + b, c);
  }

  /** An address reads back as it is printed. */
  lemma AddressParses(n: nat)
    requires n < U32
    ensures ParseAddress(ShowAddress(n)) == Some(n)
  {
    hide Decimal, Split, ParseOctet, AddressOf;
    FourOctets(n);
    FourParse(n / 0x100_0000, n / 0x1_0000 % 256, n / 0x100 % 256, n % 256);
  }

  lemma FourParse(a: nat, b: nat, c: nat, d: nat)
    requires a < 256 && b < 256 && c < 256 && d < 256
    ensures ParseAddress(Decimal(a) + "." + Decimal(b) + "." + Decimal(c) + "." + Decimal(d))
         == Some(AddressOf(a, b, c, d))
  {
    hide Decimal, Split, ParseOctet, AddressOf;
    OctetParses(a);
    OctetParses(b);
    OctetParses(c);
    OctetParses(d);
    FourParts(Decimal(a), Decimal(b), Decimal(c), Decimal(d));
  }

  /** And no other text reads as it. */
  lemma AddressIsShown(text: string)
    requires ParseAddress(text).Some?
    ensures ShowAddress(ParseAddress(text).value) == text
  {
    var parts := Split(text, '.');
    JoinOfSplit(text, '.');
    forall i | 0 <= i < 4 ensures Decimal(ParseOctet(parts[i]).value) == parts[i] {
      CanonicalIsDecimal(parts[i]);
    }
    var a, b, c, d := ParseOctet(parts[0]).value, ParseOctet(parts[1]).value, ParseOctet(parts[2]).value,
                      ParseOctet(parts[3]).value;
    Octets(a, b, c, d);
    hide Decimal, ParseOctet, Split, AddressOf;
    JoinedFour(parts);
  }

  lemma JoinedFour(parts: seq<string>)
    requires |parts| == 4
    ensures Join(parts, ".") == parts[0] + "." + parts[1] + "." + parts[2] + "." + parts[3]
  {
    assert parts[1..][1..] == parts[2..] && parts[2..][1..] == parts[3..];
    assert Join(parts[3..], ".") == parts[3];
    assert Join(parts[2..], ".") == parts[2] + "." + parts[3];
    assert Join(parts[1..], ".") == parts[1] + "." + (parts[2] + "." + parts[3]);
    hide Join;
    FourJoined(parts[0], parts[1], parts[2], parts[3]);
  }

  // ----- Hardware addresses --------------------------------------------------

  function HexValue(c: char): (r: Option<nat>)
    ensures r.Some? ==> r.value < 16
  {
    if '0' <= c <= '9' then Some(c as nat - '0' as nat)
    else if 'a' <= c <= 'f' then Some(c as nat - 'a' as nat + 10)
    else if 'A' <= c <= 'F' then Some(c as nat - 'A' as nat + 10)
    else None
  }

  function HexDigit(d: nat): (c: char)
    requires d < 16
    ensures HexValue(c) == Some(d) && c != ':' && c != '-' && c != '+'
  {
    if d < 10 then ('0' as int + d) as char else ('a' as int + (d - 10)) as char
  }

  /** A byte of two characters: `u8::from_str_radix(_, 16)`, which also takes a
      plus and one digit. */
  function ParseByte(text: string): (r: Option<nat>)
    ensures r.Some? ==> r.value < 256
  {
    if |text| != 2 then None
    else
      match (HexValue(text[0]), HexValue(text[1]))
      case (Some(h), Some(l)) => Some(16 * h + l)
      case (None, Some(l)) => if text[0] == '+' then Some(l) else None
      case _ => None
  }

  /** `{byte:02x}`. */
  function ShowByte(b: nat): string
    requires b < 256
  {
    [HexDigit(b / 16), HexDigit(b % 16)]
  }

  predicate IsColon(c: char) {
    c == ':' || c == '-'
  }

  /** `split([':', '-'])`. */
  function Pieces(text: string): (parts: seq<string>)
    ensures |parts| >= 1
  {
    if text == "" then [""]
    else
      var rest := Pieces(text[1..]);
      if IsColon(text[0]) then [""] + rest else [[text[0]] + rest[0]] + rest[1..]
  }

  type Byte = n: nat | n < 256

  function ParseBytes(parts: seq<string>): (r: Option<seq<Byte>>)
    ensures r.Some? ==> |r.value| == |parts|
  {
    if parts == [] then Some([])
    else
      match (ParseByte(parts[0]), ParseBytes(parts[1..]))
      case (Some(b), Some(rest)) => Some([b] + rest)
      case _ => None
  }

  function ShowBytes(bytes: seq<Byte>): (r: seq<string>)
    ensures |r| == |bytes|
    ensures forall i :: 0 <= i < |bytes| ==> r[i] == ShowByte(bytes[i])
  {
    seq(|bytes|, i requires 0 <= i < |bytes| => ShowByte(bytes[i]))
  }

  /** Six bytes, not all zero and not all ones. */
  predicate IsReal(bytes: seq<Byte>) {
    |bytes| == 6 && bytes != [0, 0, 0, 0, 0, 0] && bytes != [0xff, 0xff, 0xff, 0xff, 0xff, 0xff]
  }

  /** `mac`. */
  function Mac(text: string): Option<string> {
    match ParseBytes(Pieces(text))
    case None => None
    case Some(bytes) => if IsReal(bytes) then Some(Join(ShowBytes(bytes), ":")) else None
  }

  lemma {:induction false} PiecesOf(part: string, rest: string)
    requires forall i :: 0 <= i < |part| ==> !IsColon(part[i])
    ensures Pieces(part) == [part]
    ensures Pieces(part + ":" + rest) == [part] + Pieces(rest)
  {
    if part == "" {
      assert part + ":" + rest == ":" + rest;
      assert (":" + rest)[1..] == rest;
    } else {
      PiecesOf(part[1..], rest);
      assert (part + ":" + rest)[1..] == part[1..] + ":" + rest;
      assert [part[0]] + part[1..] == part;
    }
  }

  lemma ByteParses(b: Byte)
    ensures ParseByte(ShowByte(b)) == Some(b)
    ensures forall i :: 0 <= i < |ShowByte(b)| ==> !IsColon(ShowByte(b)[i])
  {
  }

  lemma {:induction false} BytesParse(bytes: seq<Byte>)
    requires bytes != []
    ensures ParseBytes(Pieces(Join(ShowBytes(bytes), ":"))) == Some(bytes)
    decreases |bytes|
  {
    hide Pieces, ParseByte, ShowByte;
    var first := ShowByte(bytes[0]);
    ByteParses(bytes[0]);
    assert ShowBytes(bytes)[1..] == ShowBytes(bytes[1..]);
    assert bytes == [bytes[0]] + bytes[1..];
    if |bytes| == 1 {
      PiecesOf(first, "");
      assert ParseBytes([first][1..]) == Some([]);
    } else {
      var rest := Join(ShowBytes(bytes[1..]), ":");
      PiecesOf(first, rest);
      BytesParse(bytes[1..]);
      assert ([first] + Pieces(rest))[1..] == Pieces(rest);
    }
  }

  /** What is kept stands for the same six bytes as the text it came from, and
      stays as it is when it is read again. */
  lemma MacIsCanonical(text: string)
    requires Mac(text).Some?
    ensures ParseBytes(Pieces(Mac(text).value)) == ParseBytes(Pieces(text))
    ensures Mac(Mac(text).value) == Mac(text)
  {
    var bytes := ParseBytes(Pieces(text)).value;
    BytesParse(bytes);
  }

  // ----- Which hardware addresses are kept -----------------------------------

  predicate IsHexDigit(c: char) {
    '0' <= c <= '9' || 'a' <= c <= 'f' || 'A' <= c <= 'F'
  }

  /** The first character of a pair, which may be a plus. */
  predicate IsFirst(c: char) {
    IsHexDigit(c) || c == '+'
  }

  function FirstDigit(c: char): char {
    if c == '+' then '0' else Text.ToAsciiLowercase(c)
  }

  /** Pairs of hex digits with a colon or a dash between them. */
  ghost predicate IsPairs(text: string) {
    && |text| % 3 == 2
    && (forall i :: 0 <= i < |text| && i % 3 == 0 ==> IsFirst(text[i]))
    && (forall i :: 0 <= i < |text| && i % 3 == 1 ==> IsHexDigit(text[i]))
    && (forall i :: 0 <= i < |text| && i % 3 == 2 ==> text[i] in ":-")
  }

  /** The same with colons and lower-case digits, 0 for a plus. */
  function InLowerCase(text: string): (r: string)
    ensures |r| == |text|
  {
    seq(|text|, i requires 0 <= i < |text| =>
      if i % 3 == 2 then ':' else if i % 3 == 0 then FirstDigit(text[i]) else Text.ToAsciiLowercase(text[i]))
  }

  lemma HexReads(c: char)
    requires IsHexDigit(c)
    ensures HexValue(c).Some? && HexDigit(HexValue(c).value) == Text.ToAsciiLowercase(c) && !IsColon(c)
  {
  }

  lemma FirstReads(c: char)
    requires IsFirst(c)
    ensures HexValue('+') == None && HexDigit(0) == '0' && !IsColon(c)
    ensures c != '+' ==> HexValue(c).Some? && HexDigit(HexValue(c).value) == FirstDigit(c)
  {
  }

  lemma PairReads(a: char, b: char)
    requires IsFirst(a) && IsHexDigit(b)
    ensures ParseByte([a, b]).Some?
    ensures ShowByte(ParseByte([a, b]).value) == [FirstDigit(a), Text.ToAsciiLowercase(b)]
  {
    FirstReads(a);
    HexReads(b);
    assert a == '+' ==> FirstDigit(a) == '0';
    hide HexDigit, HexValue;
    var h, l := if a == '+' then 0 else HexValue(a).value, HexValue(b).value;
    ModUnique(16 * h + l, 16, h, l);
  }

  lemma PiecesAt(a: char, b: char, c: char, rest: string)
    requires !IsColon(a) && !IsColon(b) && IsColon(c)
    ensures Pieces([a, b]) == [[a, b]]
    ensures Pieces([a, b, c] + rest) == [[a, b]] + Pieces(rest)
  {
    hide Pieces;
    PiecesNone();
    PieceNext(b, "");
    PieceNext(a, [b]);
    assert [b] + "" == [b] && [a] + [b] == [a, b] && [[b]][1..] == [] && [""][1..] == [];
    PieceNext(c, rest);
    PieceNext(b, [c] + rest);
    PieceNext(a, [b] + ([c] + rest));
    assert [a] + ([b] + ([c] + rest)) == [a, b, c] + rest;
    var more := Pieces(rest);
    assert ([""] + more)[1..] == more && ([[b]] + more)[1..] == more;
    assert [b] + "" == [b] && [a] + [b] == [a, b];
  }

  lemma PieceNext(c: char, rest: string)
    ensures Pieces([c] + rest) ==
              if IsColon(c) then [""] + Pieces(rest) else [[c] + Pieces(rest)[0]] + Pieces(rest)[1..]
  {
    assert ([c] + rest)[1..] == rest;
  }

  lemma PiecesNone()
    ensures Pieces("") == [""]
  {
  }

  lemma {:induction false} PairsRead(text: string)
    requires IsPairs(text)
    ensures ParseBytes(Pieces(text)).Some?
    ensures 3 * |ParseBytes(Pieces(text)).value| == |text| + 1
    ensures Join(ShowBytes(ParseBytes(Pieces(text)).value), ":") == InLowerCase(text)
  {
    hide Pieces, ParseByte, ShowByte;
    assert IsFirst(text[0]) && IsHexDigit(text[1]);
    FirstReads(text[0]);
    HexReads(text[1]);
    PairReads(text[0], text[1]);
    var byte := ParseByte([text[0], text[1]]).value;
    if |text| == 2 {
      assert text == [text[0], text[1]];
      PiecesAt(text[0], text[1], ':', "");
      LastByte(text, byte);
    } else {
      var rest := text[3..];
      assert text == [text[0], text[1], text[2]] + rest;
      assert text[2] in ":-";
      PiecesAt(text[0], text[1], text[2], rest);
      RestIsPairs(text);
      PairsRead(rest);
      NextByte(text, byte, rest);
    }
  }

  lemma RestIsPairs(text: string)
    requires IsPairs(text) && |text| > 2
    ensures IsPairs(text[3..])
  {
    hide IsHexDigit, IsFirst;
    var rest := text[3..];
    forall i | 0 <= i < |rest|
      ensures i % 3 == 0 ==> IsFirst(rest[i])
      ensures i % 3 == 1 ==> IsHexDigit(rest[i])
      ensures i % 3 == 2 ==> rest[i] in ":-"
    {
      assert rest[i] == text[i + 3] && (i + 3) % 3 == i % 3;
    }
  }

  lemma LastByte(text: string, byte: Byte)
    requires |text| == 2 && ParseByte(text) == Some(byte)
    requires ShowByte(byte) == [FirstDigit(text[0]), Text.ToAsciiLowercase(text[1])]
    ensures ParseBytes([text]) == Some([byte])
    ensures Join(ShowBytes([byte]), ":") == InLowerCase(text)
  {
    hide ParseByte, ShowByte, FirstDigit, Text.ToAsciiLowercase;
    assert [text][1..] == [] && ParseBytes([]) == Some([]);
    assert [byte] + [] == [byte];
    assert ShowBytes([byte]) == [ShowByte(byte)];
  }

  lemma NextByte(text: string, byte: Byte, rest: string)
    requires |text| > 3 && rest == text[3..] && ParseByte([text[0], text[1]]) == Some(byte)
    requires ShowByte(byte) == [FirstDigit(text[0]), Text.ToAsciiLowercase(text[1])]
    requires ParseBytes(Pieces(rest)).Some? && ParseBytes(Pieces(rest)).value != []
    requires Join(ShowBytes(ParseBytes(Pieces(rest)).value), ":") == InLowerCase(rest)
    ensures var parts := [[text[0], text[1]]] + Pieces(rest);
            && ParseBytes(parts) == Some([byte] + ParseBytes(Pieces(rest)).value)
            && Join(ShowBytes(ParseBytes(parts).value), ":") == InLowerCase(text)
  {
    hide ParseByte, ShowByte, Pieces, FirstDigit, Text.ToAsciiLowercase;
    var more := ParseBytes(Pieces(rest)).value;
    assert ([[text[0], text[1]]] + Pieces(rest))[1..] == Pieces(rest);
    JoinShown(byte, more);
    LowerCaseStarts(text);
  }

  lemma JoinShown(byte: Byte, more: seq<Byte>)
    requires more != []
    ensures Join(ShowBytes([byte] + more), ":") == ShowByte(byte) + ":" + Join(ShowBytes(more), ":")
  {
    hide ShowByte;
    assert ShowBytes([byte] + more)[1..] == ShowBytes(more);
  }

  lemma LowerCaseStarts(text: string)
    requires |text| > 3
    ensures InLowerCase(text)
         == [FirstDigit(text[0]), Text.ToAsciiLowercase(text[1])] + ":" + InLowerCase(text[3..])
  {
    hide FirstDigit, Text.ToAsciiLowercase;
    var rest, lower := text[3..], InLowerCase(text);
    forall i | 0 <= i < |rest| ensures lower[i + 3] == InLowerCase(rest)[i] {
      assert rest[i] == text[i + 3] && (i + 3) % 3 == i % 3;
    }
  }

  lemma SixOf(b: Byte)
    requires b == 0 || b == 255
    ensures Join(ShowBytes([b, b, b, b, b, b]), ":")
         == if b == 0 then "00:00:00:00:00:00" else "ff:ff:ff:ff:ff:ff"
  {
    hide ShowByte, Join, ShowBytes;
    ZerosAndOnes();
    SixTimes(b);
  }

  /** A text six times, with colons. */
  function Six(text: string): string {
    text + ":" + (text + ":" + (text + ":" + (text + ":" + (text + ":" + text))))
  }

  lemma ZerosAndOnes()
    ensures ShowByte(0) == "00" && ShowByte(255) == "ff"
    ensures Six("00") == "00:00:00:00:00:00" && Six("ff") == "ff:ff:ff:ff:ff:ff"
  {
  }

  lemma SixTimes(b: Byte)
    ensures Join(ShowBytes([b, b, b, b, b, b]), ":") == Six(ShowByte(b))
  {
    hide ShowByte, Join, ShowBytes;
    ThreeOf(b);
    JoinShown(b, [b, b, b]);
    JoinShown(b, [b, b, b, b]);
    JoinShown(b, [b, b, b, b, b]);
    assert [b] + [b, b, b] == [b, b, b, b];
    assert [b] + [b, b, b, b] == [b, b, b, b, b];
    assert [b] + [b, b, b, b, b] == [b, b, b, b, b, b];
  }

  lemma ThreeOf(b: Byte)
    ensures Join(ShowBytes([b, b, b]), ":") == ShowByte(b) + ":" + (ShowByte(b) + ":" + ShowByte(b))
  {
    hide ShowByte;
    assert ShowBytes([b]) == [ShowByte(b)];
    JoinShown(b, [b]);
    JoinShown(b, [b, b]);
    assert [b] + [b] == [b, b] && [b] + [b, b] == [b, b, b];
  }

  /** Bytes are told apart by how they are shown. */
  lemma ShownApart(a: seq<Byte>, b: seq<Byte>)
    requires a != [] && b != [] && Join(ShowBytes(a), ":") == Join(ShowBytes(b), ":")
    ensures a == b
  {
    BytesParse(a);
    BytesParse(b);
  }

  lemma ByteIsPair(text: string)
    requires ParseByte(text).Some?
    ensures |text| == 2 && IsFirst(text[0]) && IsHexDigit(text[1])
  {
  }

  /** Only pairs are read. */
  lemma {:induction false} ReadArePairs(text: string)
    requires ParseBytes(Pieces(text)).Some?
    ensures IsPairs(text)
    decreases |text|
  {
    hide Pieces, ParseByte, IsFirst, IsHexDigit, IsPairs;
    ByteIsPair(Pieces(text)[0]);
    FirstPiece(text);
    if |text| > 2 {
      var rest := text[3..];
      assert text == [text[0], text[1], text[2]] + rest;
      PiecesAt(text[0], text[1], text[2], rest);
      assert Pieces(text)[1..] == Pieces(rest);
      ReadArePairs(rest);
      MorePairs(text[0], text[1], text[2], rest);
    } else {
      OnePair(text);
    }
  }

  lemma OnePair(text: string)
    requires |text| == 2 && IsFirst(text[0]) && IsHexDigit(text[1])
    ensures IsPairs(text)
  {
    hide IsFirst, IsHexDigit;
  }

  lemma MorePairs(a: char, b: char, c: char, rest: string)
    requires IsFirst(a) && IsHexDigit(b) && IsColon(c) && IsPairs(rest)
    ensures IsPairs([a, b, c] + rest)
  {
    hide IsFirst, IsHexDigit;
    var text := [a, b, c] + rest;
    forall i | 0 <= i < |text|
      ensures i % 3 == 0 ==> IsFirst(text[i])
      ensures i % 3 == 1 ==> IsHexDigit(text[i])
      ensures i % 3 == 2 ==> text[i] in ":-"
    {
      if i >= 3 {
        assert text[i] == rest[i - 3] && (i - 3) % 3 == i % 3;
      }
    }
  }

  /** A first piece of two characters. */
  lemma FirstPiece(text: string)
    requires |Pieces(text)[0]| == 2
    ensures |text| >= 2 && Pieces(text)[0] == text[..2] && !IsColon(text[0]) && !IsColon(text[1])
    ensures |text| > 2 ==> IsColon(text[2])
  {
  }

  /** What is kept of any text: six pairs of hex digits, with colons or dashes, are
      kept with colons and in lower case, unless they are all zeros or all ones; a
      plus is read as 0 where a pair starts. */
  lemma MacIsKept(text: string)
    ensures
      var lower := InLowerCase(text);
      Mac(text) ==
        if |text| != 17 || !IsPairs(text) || lower == "00:00:00:00:00:00" || lower == "ff:ff:ff:ff:ff:ff" then None
        else Some(lower)
  {
    hide Pieces, ParseBytes, ShowBytes, InLowerCase, IsPairs, Join;
    if Mac(text).Some? {
      ReadArePairs(text);
    }
    if IsPairs(text) {
      PairsRead(text);
      var bytes := ParseBytes(Pieces(text)).value;
      SixOf(0);
      SixOf(255);
      if Join(ShowBytes(bytes), ":") == "00:00:00:00:00:00" {
        ShownApart(bytes, [0, 0, 0, 0, 0, 0]);
      }
      if Join(ShowBytes(bytes), ":") == "ff:ff:ff:ff:ff:ff" {
        ShownApart(bytes, [255, 255, 255, 255, 255, 255]);
      }
    }
  }
}
