/** Enrollment codes (`common/src/enrollment.rs`): what they hold, how they are
    written and how they are read back. */
module Enrollment {
  import opened Wrappers
  import opened Bytes
  import opened BitStrings
  import Base32
  import Crc32
  import opened ErrorDetection
  import Text
  import Utf8

  const PREFIX := "BLT1-"
  const VERSION: bv8 := 3
  const FLAG_TLS_PIN: bv8 := 1

  /** `[u8; N]`. */
  type Key = k: seq<bv8> | |k| == 32 witness seq(32, _ => 0)
  type TokenId = k: seq<bv8> | |k| == 8 witness seq(8, _ => 0)
  type Secret = k: seq<bv8> | |k| == 16 witness seq(16, _ => 0)

  datatype EnrollmentCode = EnrollmentCode(
    hubUrl: Utf8.Text,
    hubKey: Key,
    hubSigningKey: Key,
    tlsPin: Option<Key>,
    tokenId: TokenId,
    secret: Secret)

  datatype CodeError = NotACode | BadCharacter(c: char) | Damaged | UnsupportedVersion(v: bv8)

  // ----- Writing -------------------------------------------------------------

  /** The two bytes of a length, `(n as u16).to_be_bytes()`. */
  function Length16(n: nat): (bytes: seq<bv8>)
    ensures |bytes| == 2
  {
    [ByteOf(n / 256 % 256), ByteOf(n % 256)]
  }

  function PinBytes(pin: Option<Key>): seq<bv8> {
    match pin case Some(k) => k case None => []
  }

  /** All of a code but its checksum. */
  function Payload(code: EnrollmentCode): seq<bv8> {
    [VERSION, if code.tlsPin.Some? then FLAG_TLS_PIN else 0]
    + Length16(|code.hubUrl|) + code.hubUrl
    + code.hubKey + code.hubSigningKey + PinBytes(code.tlsPin)
    + code.tokenId + code.secret
  }

  /** The digits of a code. */
  function Body(code: EnrollmentCode): seq<Digit> {
    Base32.Digits(Sealed(Payload(code)))
  }

  /** `EnrollmentCode::encode`. */
  method Encode(code: EnrollmentCode) returns (text: string)
    ensures text == PREFIX + Base32.Symbols(Body(code))
  {
    hide Length16, Crc32.Checksum, Crc32.BigEndian, Base32.Digits, Base32.Symbols;
    var bytes: seq<bv8> := [VERSION];
    bytes := bytes + [if code.tlsPin.Some? then FLAG_TLS_PIN else 0];
    bytes := bytes + Length16(|code.hubUrl|);
    bytes := bytes + code.hubUrl;
    bytes := bytes + code.hubKey;
    bytes := bytes + code.hubSigningKey;
    if code.tlsPin.Some? {
      bytes := bytes + code.tlsPin.value;
    }
    bytes := bytes + code.tokenId;
    bytes := bytes + code.secret;
    assert bytes == Payload(code);
    var crc := Crc32.Crc32(bytes);
    bytes := bytes + Crc32.BigEndian(crc);
    var body := Base32.Encode(bytes);
    text := PREFIX + body;
  }

  // ----- Reading -------------------------------------------------------------

  /** The part of `bytes` after the first `n`, if there are as many. */
  function Cut(bytes: seq<bv8>, n: nat): Option<(seq<bv8>, seq<bv8>)> {
    if n <= |bytes| then Some((bytes[..n], bytes[n..])) else None
  }

  /** Takes a payload apart from its front. */
  class Reader {
    var rest: seq<bv8>

    constructor (bytes: seq<bv8>)
      ensures rest == bytes
    {
      rest := bytes;
    }

    /** `take`, and `array` where `n` is fixed: the next `n` bytes, or
        `Damaged` with nothing taken. */
    method Take(n: nat) returns (r: Result<seq<bv8>, CodeError>)
      modifies this
      ensures n <= old(|rest|) ==> r == Ok(old(rest)[..n]) && rest == old(rest)[n..]
      ensures n > old(|rest|) ==> r == Err(Damaged) && rest == old(rest)
    {
      if n > |rest| {
        return Err(Damaged);
      }
      r := Ok(rest[..n]);
      rest := rest[n..];
    }
  }

  /** The code a payload describes. */
  function Parse(payload: seq<bv8>): Result<EnrollmentCode, CodeError> {
    if |payload| < 1 then Err(Damaged)
    else if payload[0] != VERSION then Err(UnsupportedVersion(payload[0]))
    else if |payload| < 4 then Err(Damaged)
    else ParseFields(payload[1] & FLAG_TLS_PIN != 0, payload[2] as nat * 256 + payload[3] as nat, payload[4..])
  }

  /** The fields after the header: a URL of `n` bytes, the keys, and a pin if
      there is one; nothing may be left over. */
  function ParseFields(pinned: bool, n: nat, fields: seq<bv8>): Result<EnrollmentCode, CodeError> {
    var pin := if pinned then 32 else 0;
    if |fields| < n || !Utf8.Valid(fields[..n]) || |fields| != n + 88 + pin then Err(Damaged)
    else Ok(EnrollmentCode(
              fields[..n],
              fields[n..n + 32],
              fields[n + 32..n + 64],
              if pinned then Some(fields[n + 64..n + 96]) else None,
              fields[n + 64 + pin..n + 72 + pin],
              fields[n + 72 + pin..]))
  }

  /** What the bytes of a code say, once the checksum is right. */
  function Open(bytes: seq<bv8>): Result<EnrollmentCode, CodeError> {
    if |bytes| < 4 then Err(Damaged)
    else
      var n := |bytes| - 4;
      if Crc32.BigEndian(Crc32.Checksum(bytes[..n])) != bytes[n..] then Err(Damaged)
      else Parse(bytes[..n])
  }

  /** What the text of a code says. */
  function Read(text: string): Result<EnrollmentCode, CodeError> {
    var text := Text.Trim(text);
    if |text| < |PREFIX| || !Text.EqIgnoreAsciiCase(text[..|PREFIX|], PREFIX) then Err(NotACode)
    else
      match Base32.Reading(text[|PREFIX|..])
      case Err(c) => Err(BadCharacter(c))
      case Ok(digits) => Open(Base32.Octets(digits))
  }

  /** `EnrollmentCode::decode`. The prefix is matched on the text's first five
      characters: the source takes five bytes, which are those characters
      whenever they match the prefix. */
  method Decode(text: string) returns (r: Result<EnrollmentCode, CodeError>)
    ensures r == Read(text)
  {
    var text := Text.Trim(text);
    if |text| < |PREFIX| || !Text.EqIgnoreAsciiCase(text[..|PREFIX|], PREFIX) {
      return Err(NotACode);
    }
    var decoded := Base32.Decode(text[|PREFIX|..]);
    if decoded.Err? {
      return Err(BadCharacter(decoded.error));
    }
    var bytes := decoded.value;
    var n := if |bytes| < 4 then 0 else |bytes| - 4;
    var payload, crc := bytes[..n], bytes[n..];
    if |crc| != 4 {
      return Err(Damaged);
    }
    var expected := Crc32.Crc32(payload);
    if Crc32.BigEndian(expected) != crc {
      return Err(Damaged);
    }
    r := Unpack(payload);
  }

  /** Taking from a rest takes from the whole. */
  lemma TakeNext(fields: seq<bv8>, at: nat, n: nat)
    requires at + n <= |fields|
    ensures fields[at..][..n] == fields[at..at + n] && fields[at..][n..] == fields[at + n..]
  {
  }

  lemma HeaderTaken(payload: seq<bv8>)
    requires |payload| >= 4
    ensures payload[1..][1..] == payload[2..] && payload[2..][2..] == payload[4..]
    ensures payload[1..][..1] == [payload[1]] && payload[2..][..2] == [payload[2], payload[3]]
  {
  }

  /** The part of `decode` that takes the payload apart. */
  method Unpack(payload: seq<bv8>) returns (r: Result<EnrollmentCode, CodeError>)
    ensures r == Parse(payload)
  {
    hide ParseFields;
    var reader := new Reader(payload);
    var version := reader.Take(1);
    if version.Err? { return Err(version.error); }
    if version.value[0] != VERSION {
      return Err(UnsupportedVersion(version.value[0]));
    }
    var flags := reader.Take(1);
    if flags.Err? { return Err(flags.error); }
    var length := reader.Take(2);
    if length.Err? { return Err(length.error); }
    HeaderTaken(payload);
    var n := length.value[0] as nat * 256 + length.value[1] as nat;
    var pinned := flags.value[0] & FLAG_TLS_PIN != 0;
    r := UnpackFields(reader, pinned, n);
  }

  lemma OtherLength(pinned: bool, n: nat, fields: seq<bv8>)
    ensures |fields| != n + 88 + (if pinned then 32 else 0) ==> ParseFields(pinned, n, fields) == Err(Damaged)
  {
    hide Utf8.Valid;
  }

  lemma OtherUrl(pinned: bool, n: nat, fields: seq<bv8>)
    ensures n <= |fields| && !Utf8.Valid(fields[..n]) ==> ParseFields(pinned, n, fields) == Err(Damaged)
  {
    hide Utf8.Valid;
  }

  lemma AllFields(pinned: bool, n: nat, fields: seq<bv8>)
    requires |fields| == n + 88 + (if pinned then 32 else 0) && Utf8.Valid(fields[..n])
    ensures var pin := if pinned then 32 else 0;
            ParseFields(pinned, n, fields) ==
              Ok(EnrollmentCode(fields[..n], fields[n..n + 32], fields[n + 32..n + 64],
                                if pinned then Some(fields[n + 64..n + 96]) else None,
                                fields[n + 64 + pin..n + 72 + pin], fields[n + 72 + pin..]))
  {
    hide Utf8.Valid;
  }

  method UnpackFields(reader: Reader, pinned: bool, n: nat) returns (r: Result<EnrollmentCode, CodeError>)
    modifies reader
    ensures r == ParseFields(pinned, n, old(reader.rest))
  {
    hide Utf8.Valid, ParseFields;
    OtherLength(pinned, n, reader.rest);
    OtherUrl(pinned, n, reader.rest);
    ghost var fields := reader.rest;
    var url := reader.Take(n);
    if url.Err? { return Err(url.error); }
    if !Utf8.Valid(url.value) {
      return Err(Damaged);
    }
    var hubKey := reader.Take(32);
    if hubKey.Err? { return Err(hubKey.error); }
    TakeNext(fields, n, 32);
    var hubSigningKey := reader.Take(32);
    if hubSigningKey.Err? { return Err(hubSigningKey.error); }
    TakeNext(fields, n + 32, 32);
    var pin: Option<Key> := None;
    ghost var p := if pinned then 32 else 0;
    if pinned {
      var key := reader.Take(32);
      if key.Err? { return Err(key.error); }
      pin := Some(key.value);
      TakeNext(fields, n + 64, 32);
    }
    assert reader.rest == fields[n + 64 + p..];
    var tokenId := reader.Take(8);
    if tokenId.Err? { return Err(tokenId.error); }
    TakeNext(fields, n + 64 + p, 8);
    var secret := reader.Take(16);
    if secret.Err? { return Err(secret.error); }
    if reader.rest != [] {
      return Err(Damaged);
    }
    assert secret.value == fields[n + 72 + p..];
    AllFields(pinned, n, fields);
    r := Ok(EnrollmentCode(url.value, hubKey.value, hubSigningKey.value, pin, tokenId.value, secret.value));
  }
}
