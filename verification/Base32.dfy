/** Crockford base32 as `common/src/enrollment.rs` writes and reads it: two
    loops that stream bits through a `u32` buffer. The specification is the bit
    string of the bytes cut into groups of five. */
module Base32 {
  import opened Wrappers
  import opened BitStrings
  import opened Bytes
  import opened Sequences
  import opened Words
  import Text

  const ALPHABET: string := "0123456789ABCDEFGHJKMNPQRSTVWXYZ"

  // ----- The specification ---------------------------------------------------

  /** How many zero bits complete the last digit of `n` bytes. */
  function Padding(n: nat): (p: nat)
    ensures p < 5 && (8 * n + p) % 5 == 0
  {
    CompletedGroup(8 * n);
    (5 - 8 * n % 5) % 5
  }

  lemma CompletedGroup(n: nat)
    ensures (n + (5 - n % 5) % 5) % 5 == 0
  {
    var q, r := n / 5, n % 5;
    assert n == 5 * q + r;
    if r == 0 {
      assert n + (5 - r) % 5 == n;
    } else {
      ModUnique(n + (5 - r), 5, q + 1, 0);
    }
  }

  /** The digits of `bytes`: its bits in groups of five, the last completed
      with zeros. */
  function Digits(bytes: seq<bv8>): (digits: seq<Digit>)
    ensures DigitsBits(digits) == Bits(bytes) + Zeros(Padding(|bytes|))
    ensures 5 * |digits| == 8 * |bytes| + Padding(|bytes|)
  {
    GroupsOf5(Bits(bytes) + Zeros(Padding(|bytes|)))
  }

  /** How many whole bytes `n` digits hold. */
  function OctetCount(n: nat): (count: nat)
    ensures 8 * count <= 5 * n < 8 * count + 8
  {
    5 * n / 8
  }

  /** The whole bytes in `digits`; up to seven bits left over are dropped. */
  function Octets(digits: seq<Digit>): (bytes: seq<bv8>)
    ensures |bytes| == OctetCount(|digits|)
    ensures Bits(bytes) == DigitsBits(digits)[..8 * OctetCount(|digits|)]
  {
    hide *;
    var bits := DigitsBits(digits)[..8 * OctetCount(|digits|)];
    WholeGroups(OctetCount(|digits|), 8);
    GroupsOf8(bits)
  }

  lemma WholeGroups(n: nat, size: nat)
    requires size > 0
    ensures (size * n) % size == 0 && (size * n) / size == n
  {
    ModUnique(size * n, size, n, 0);
  }

  /** A digit's symbol. */
  function Symbol(d: Digit): char {
    ALPHABET[d]
  }

  function Symbols(digits: seq<Digit>): (text: string)
    ensures |text| == |digits|
    ensures forall i :: 0 <= i < |text| ==> text[i] == Symbol(digits[i])
  {
    seq(|digits|, i requires 0 <= i < |digits| => Symbol(digits[i]))
  }

  /** Dashes and white space, which reading skips. */
  predicate Skipped(c: char) {
    c == '-' || Text.IsWhitespace(c)
  }

  /** The digit a character reads as: in either case, `O` as 0, `I` and `L`
      as 1. */
  function DigitOf(c: char): Option<Digit> {
    var upper := Text.ToAsciiUppercase(c);
    if upper == 'O' then Some(0)
    else if upper == 'I' || upper == 'L' then Some(1)
    else
      match Text.Position(ALPHABET, upper)
      case None => None
      case Some(i) => Some(i as Digit)
  }

  /** What `text` reads as: its digits, or its first character that is neither
      skipped nor a digit. */
  function Reading(text: string): Result<seq<Digit>, char> {
    if text == [] then Ok([])
    else if Skipped(text[0]) then Reading(text[1..])
    else
      match DigitOf(text[0])
      case None => Err(text[0])
      case Some(d) =>
        match Reading(text[1..])
        case Err(c) => Err(c)
        case Ok(ds) => Ok([d] + ds)
  }

  // ----- The loops -----------------------------------------------------------

  /** `base32_encode`. The buffer's high bits are garbage; its `bits` lowest are
      those of `bytes` not written yet. */
  method Encode(bytes: seq<bv8>) returns (out: string)
    ensures out == Symbols(Digits(bytes))
    ensures |out| == (8 * |bytes| + 4) / 5
  {
    hide And, Or, Shl32, Shr, DigitsBits, Bits, Digits, Symbols, Padding;
    out := "";
    ghost var digits: seq<Digit> := [];
    NothingWritten();
    var buffer: nat, bits: nat := 0, 0;
    for i := 0 to |bytes|
      invariant buffer < U32 && bits < 5
      invariant out == Symbols(digits)
      invariant DigitsBits(digits) + Low(buffer, bits) == Bits(bytes[..i])
    {
      ReadByte(DigitsBits(digits), buffer, bits, bytes, i);
      buffer := Or(Shl32(buffer, 8), bytes[i] as nat);
      bits := bits + 8;
      while bits >= 5
        invariant buffer < U32 && bits < 13
        invariant out == Symbols(digits)
        invariant DigitsBits(digits) + Low(buffer, bits) == Bits(bytes[..i + 1])
      {
        bits := bits - 5;
        Masked(Shr(buffer, bits));
        var d := And(Shr(buffer, bits), 31) as Digit;
        WriteDigit(digits, buffer, bits, d);
        PushSymbol(digits, d);
        out := out + [ALPHABET[d]];
        digits := digits + [d];
      }
    }
    assert bytes[..|bytes|] == bytes;
    if bits > 0 {
      Finish(digits, buffer, bits, bytes);
      PushSymbol(digits, And(Shl32(buffer, 5 - bits), 31) as Digit);
      out := out + [ALPHABET[And(Shl32(buffer, 5 - bits), 31)]];
    } else {
      Whole(digits, bytes);
    }
  }

  lemma NothingWritten()
    ensures Symbols([]) == "" && DigitsBits([]) == [] && Bits([]) == []
  {
  }

  lemma ReadByte(written: seq<bool>, buffer: nat, bits: nat, bytes: seq<bv8>, i: nat)
    requires buffer < U32 && bits < 5 && i < |bytes|
    requires written + Low(buffer, bits) == Bits(bytes[..i])
    ensures Or(Shl32(buffer, 8), bytes[i] as nat) < U32
    ensures written + Low(Or(Shl32(buffer, 8), bytes[i] as nat), bits + 8) == Bits(bytes[..i + 1])
  {
    hide *;
    var b := bytes[i];
    ShiftInByte(buffer, b, bits);
    PushByte(bytes[..i], b);
    assert bytes[..i + 1] == bytes[..i] + [b];
    Assoc(written, Low(buffer, bits), ByteBits(b));
  }

  lemma ShiftInByte(buffer: nat, b: bv8, bits: nat)
    requires buffer < U32 && bits <= 24
    ensures Or(Shl32(buffer, 8), b as nat) < U32
    ensures Low(Or(Shl32(buffer, 8), b as nat), bits + 8) == Low(buffer, bits) + ByteBits(b)
  {
    hide Pow2, Low, Or, Shl32;
    Pow2Values();
    ShiftIn(buffer, b as nat, bits, 8);
  }

  lemma PaddingIs(bytes: nat, digits: nat, bits: nat)
    requires 8 * bytes == 5 * digits + bits && bits < 5
    ensures Padding(bytes) == if bits == 0 then 0 else 5 - bits
  {
    ModUnique(8 * bytes, 5, digits, bits);
  }

  lemma Whole(digits: seq<Digit>, bytes: seq<bv8>)
    requires DigitsBits(digits) + [] == Bits(bytes)
    ensures digits == Digits(bytes)
  {
    hide DigitsBits, Bits, Digits, Padding;
    PaddingIs(|bytes|, |digits|, 0);
    assert Zeros(0) == [];
    SameDigits(digits, Digits(bytes));
  }

  lemma FinishBits(digits: seq<Digit>, d: Digit, left: seq<bool>, bits: seq<bool>)
    requires |left| < 5 && DigitBits(d) == left + Zeros(5 - |left|)
    requires DigitsBits(digits) + left == bits
    ensures DigitsBits(digits + [d]) == bits + Zeros(5 - |left|)
  {
    hide *;
    PushDigit(digits, d);
    Assoc(DigitsBits(digits), left, Zeros(5 - |left|));
  }

  /** The end of the encoding: the bits left over become one more digit. */
  lemma Finish(digits: seq<Digit>, buffer: nat, bits: nat, bytes: seq<bv8>)
    requires buffer < U32 && 0 < bits < 5
    requires DigitsBits(digits) + Low(buffer, bits) == Bits(bytes)
    ensures And(Shl32(buffer, 5 - bits), 31) < 32
    ensures digits + [And(Shl32(buffer, 5 - bits), 31) as Digit] == Digits(bytes)
  {
    hide *;
    LastDigit(buffer, bits);
    var d := And(Shl32(buffer, 5 - bits), 31) as Digit;
    PaddingIs(|bytes|, |digits|, bits);
    FinishBits(digits, d, Low(buffer, bits), Bits(bytes));
    SameDigits(digits + [d], Digits(bytes));
  }

  lemma PushSymbol(digits: seq<Digit>, d: Digit)
    ensures Symbols(digits + [d]) == Symbols(digits) + [ALPHABET[d]]
  {
  }

  /** Masking with 31 leaves a digit. */
  lemma Masked(x: nat)
    ensures And(x, 31) < 32
  {
    hide Pow2, And;
    Pow2Values();
    AndKeep(x, 5);
  }

  lemma WriteDigit(digits: seq<Digit>, buffer: nat, bits: nat, d: Digit)
    requires d as nat == And(Shr(buffer, bits), 31)
    ensures DigitsBits(digits) + Low(buffer, bits + 5) == DigitsBits(digits + [d]) + Low(buffer, bits)
  {
    hide DigitsBits, Low, Pow2, And, Shr;
    Pow2Values();
    ShiftOut(buffer, 5, bits);
    PushDigit(digits, d);
    assert bits + 5 == 5 + bits;
    Assoc(DigitsBits(digits), DigitBits(d), Low(buffer, bits));
  }

  /** The last, incomplete digit gets zeros below its bits. */
  lemma LastDigit(buffer: nat, bits: nat)
    requires buffer < U32 && 0 < bits < 5
    ensures And(Shl32(buffer, 5 - bits), 31) < 32
    ensures DigitBits(And(Shl32(buffer, 5 - bits), 31) as Digit) == Low(buffer, bits) + Zeros(5 - bits)
  {
    hide Pow2, And, Low, Shl32, Keep;
    Pow2Values();
    AndKeep(Shl32(buffer, 5 - bits), 5);
    LowKeep(Shl32(buffer, 5 - bits), 5, 5);
    LowShl(buffer, bits, 5 - bits);
  }

  /** `base32_decode`. */
  method Decode(text: string) returns (r: Result<seq<bv8>, char>)
    ensures r == match Reading(text) { case Err(c) => Err(c) case Ok(ds) => Ok(Octets(ds)) }
  {
    hide Reading, After, DigitOf, Skipped, Reads, And, Or, Shl32, Shr, Low, ByteOf, Octets;
    var out: seq<bv8> := [];
    ghost var digits: seq<Digit> := [];
    var buffer: nat, bits: nat := 0, 0;
    AfterNothing(Reading(text));
    ReadsNothing();
    assert text[0..] == text;
    for i := 0 to |text|
      invariant Reads(out, buffer, bits, digits)
      invariant Reading(text) == After(digits, Reading(text[i..]))
    {
      NextCharacter(text, i, digits);
      ReadsFew(out, buffer, bits, digits);
      if Skipped(text[i]) {
        continue;
      }
      var digit := DigitOf(text[i]);
      if digit == None {
        return Err(text[i]);
      }
      NextDigit(out, buffer, bits, digits, digit.value);
      buffer := Or(Shl32(buffer, 5), digit.value as nat);
      bits := bits + 5;
      digits := digits + [digit.value];
      if bits >= 8 {
        bits := bits - 8;
        out := out + [ByteOf(And(Shr(buffer, bits), 255))];
      }
    }
    assert text[|text|..] == "";
    ReadingNone();
    AfterIs(digits, Ok([]));
    assert digits + [] == digits;
    AllRead(out, buffer, bits, digits);
    r := Ok(out);
  }

  /** The state of the reading loop: `out` and the buffer's `bits` lowest bits
      are the bits of the digits so far. */
  ghost predicate Reads(out: seq<bv8>, buffer: nat, bits: nat, digits: seq<Digit>) {
    buffer < U32 && bits < 8 && Bits(out) + Low(buffer, bits) == DigitsBits(digits)
  }

  lemma NextDigit(out: seq<bv8>, buffer: nat, bits: nat, digits: seq<Digit>, d: Digit)
    requires Reads(out, buffer, bits, digits)
    ensures bits < 3 ==> Reads(out, Or(Shl32(buffer, 5), d as nat), bits + 5, digits + [d])
    ensures bits >= 3 ==>
              var next := Or(Shl32(buffer, 5), d as nat);
              && And(Shr(next, bits - 3), 255) < 256
              && Reads(out + [ByteOf(And(Shr(next, bits - 3), 255))], next, bits - 3, digits + [d])
  {
    hide Bits, DigitsBits, Low, Or, Shl32, And, Shr;
    ReadDigit(out, buffer, bits, digits, d);
    var next := Or(Shl32(buffer, 5), d as nat);
    if bits >= 3 {
      WriteByte(out, next, bits - 3);
    }
  }

  lemma NextCharacter(text: string, i: nat, digits: seq<Digit>)
    requires i < |text| && Reading(text) == After(digits, Reading(text[i..]))
    ensures Skipped(text[i]) ==> Reading(text) == After(digits, Reading(text[i + 1..]))
    ensures !Skipped(text[i]) ==>
              match DigitOf(text[i])
              case None => Reading(text) == Err(text[i])
              case Some(d) => Reading(text) == After(digits + [d], Reading(text[i + 1..]))
  {
    hide *;
    assert text[i..] == [text[i]] + text[i + 1..];
    ReadingNext(text[i], text[i + 1..]);
    if !Skipped(text[i]) {
      match DigitOf(text[i])
      case None =>
        AfterIs(digits, Err(text[i]));
      case Some(d) =>
        AfterBoth(digits, [d], Reading(text[i + 1..]));
    }
  }

  lemma ReadDigit(out: seq<bv8>, buffer: nat, bits: nat, digits: seq<Digit>, d: Digit)
    requires buffer < U32 && bits < 8
    requires Bits(out) + Low(buffer, bits) == DigitsBits(digits)
    ensures Or(Shl32(buffer, 5), d as nat) < U32
    ensures Bits(out) + Low(Or(Shl32(buffer, 5), d as nat), bits + 5) == DigitsBits(digits + [d])
  {
    hide *;
    ShiftInDigit(buffer, d, bits);
    PushDigit(digits, d);
    Assoc(Bits(out), Low(buffer, bits), DigitBits(d));
  }

  lemma ShiftInDigit(buffer: nat, d: Digit, bits: nat)
    requires buffer < U32 && bits <= 27
    ensures Or(Shl32(buffer, 5), d as nat) < U32
    ensures Low(Or(Shl32(buffer, 5), d as nat), bits + 5) == Low(buffer, bits) + DigitBits(d)
  {
    hide Pow2, Low, Or, Shl32;
    Pow2Values();
    ShiftIn(buffer, d as nat, bits, 5);
  }

  lemma WriteByte(out: seq<bv8>, buffer: nat, bits: nat)
    ensures And(Shr(buffer, bits), 255) < 256
    ensures Bits(out) + Low(buffer, bits + 8)
         == Bits(out + [ByteOf(And(Shr(buffer, bits), 255))]) + Low(buffer, bits)
  {
    hide Bits, Pow2, Low, And, Shr, ByteOf;
    Pow2Values();
    ShiftOut(buffer, 8, bits);
    var b := ByteOf(And(Shr(buffer, bits), 255));
    PushByte(out, b);
    assert bits + 8 == 8 + bits;
    Assoc(Bits(out), ByteBits(b), Low(buffer, bits));
  }

  lemma AllRead(out: seq<bv8>, buffer: nat, bits: nat, digits: seq<Digit>)
    requires Reads(out, buffer, bits, digits)
    ensures out == Octets(digits)
  {
    hide Bits, DigitsBits, Low, Octets;
    assert |out| == OctetCount(|digits|);
    TakeDrop(Bits(out), Low(buffer, bits));
    SameBytes(out, Octets(digits));
  }

  lemma ReadsNothing()
    ensures Reads([], 0, 0, [])
  {
  }

  /** The bits in the buffer are fewer than eight. */
  lemma ReadsFew(out: seq<bv8>, buffer: nat, bits: nat, digits: seq<Digit>)
    requires Reads(out, buffer, bits, digits)
    ensures buffer < U32 && bits < 8
  {
  }

  lemma AfterNothing(rest: Result<seq<Digit>, char>)
    ensures After([], rest) == rest
  {
    if rest.Ok? {
      assert [] + rest.value == rest.value;
    }
  }

  /** `digits`, then what the rest reads as. */
  function After(digits: seq<Digit>, rest: Result<seq<Digit>, char>): Result<seq<Digit>, char> {
    match rest
    case Err(c) => Err(c)
    case Ok(ds) => Ok(digits + ds)
  }

  // ----- Reading what was written --------------------------------------------

  lemma AlphabetAscends(i: nat, j: nat)
    requires i < j < 32
    ensures ALPHABET[i] < ALPHABET[j]
  {
    if i + 1 < j {
      AlphabetAscends(i, j - 1);
    }
    AlphabetNext(j - 1);
  }

  lemma AlphabetNext(i: nat)
    requires i < 31
    ensures ALPHABET[i] < ALPHABET[i + 1]
  {
  }

  /** A digit's symbol reads as that digit. */
  lemma SymbolReads(d: Digit)
    ensures DigitOf(Symbol(d)) == Some(d) && !Skipped(Symbol(d))
  {
    SymbolIsPlain(d);
    PlaceOfSymbol(d);
    hide Text.Position;
    assert Text.ToAsciiUppercase(Symbol(d)) == Symbol(d);
  }

  lemma PlaceOfSymbol(d: Digit)
    ensures Text.Position(ALPHABET, Symbol(d)) == Some(d as nat)
  {
    hide Text.Position;
    forall j: nat, k: nat | j < k < 32 ensures ALPHABET[j] != ALPHABET[k] {
      AlphabetAscends(j, k);
    }
    var at := Text.Position(ALPHABET, Symbol(d));
    assert ALPHABET[d] == Symbol(d);
    assert at.Some?;
  }

  lemma SymbolIsPlain(d: Digit)
    ensures '0' <= Symbol(d) <= '9' || 'A' <= Symbol(d) <= 'Z'
    ensures Symbol(d) != 'O' && Symbol(d) != 'I' && Symbol(d) != 'L'
  {
  }

  lemma {:induction false} ReadingOfSymbols(digits: seq<Digit>)
    ensures Reading(Symbols(digits)) == Ok(digits)
  {
    if digits == [] {
      assert Symbols(digits) == [];
    } else {
      SymbolReads(digits[0]);
      assert Symbols(digits)[1..] == Symbols(digits[1..]);
      ReadingOfSymbols(digits[1..]);
      assert [digits[0]] + digits[1..] == digits;
    }
  }

  /** The bytes come back from their digits. */
  lemma OctetsOfDigits(bytes: seq<bv8>)
    ensures Octets(Digits(bytes)) == bytes
  {
    hide *;
    assert OctetCount(|Digits(bytes)|) == |bytes|;
    TakeDrop(Bits(bytes), Zeros(Padding(|bytes|)));
    SameBytes(Octets(Digits(bytes)), bytes);
  }

  /** What one character adds to the reading of the rest. */
  lemma ReadingNext(c: char, rest: string)
    ensures Reading([c] + rest) ==
              if Skipped(c) then Reading(rest)
              else
                match DigitOf(c)
                case None => Err(c)
                case Some(d) => After([d], Reading(rest))
  {
    hide Skipped, DigitOf;
    assert ([c] + rest)[1..] == rest;
  }

  lemma ReadingNone()
    ensures Reading("") == Ok([])
  {
  }

  lemma {:induction false} ReadingConcat(a: string, b: string)
    ensures Reading(a + b) == match Reading(a) { case Err(c) => Err(c) case Ok(ds) => After(ds, Reading(b)) }
  {
    hide *;
    if a == "" {
      assert a + b == b;
      ReadingNone();
      AfterNothing(Reading(b));
    } else {
      var c, rest := a[0], a[1..];
      SplitFirst(a);
      Assoc([c], rest, b);
      ReadingNext(c, rest);
      ReadingNext(c, rest + b);
      ReadingConcat(rest, b);
      if !Skipped(c) && DigitOf(c).Some? {
        AfterIs([DigitOf(c).value], Reading(rest));
        if Reading(rest).Ok? {
          AfterBoth([DigitOf(c).value], Reading(rest).value, Reading(b));
        } else {
          AfterIs([DigitOf(c).value], Reading(rest + b));
        }
      }
    }
  }

  lemma AfterIs(digits: seq<Digit>, rest: Result<seq<Digit>, char>)
    ensures After(digits, rest) == if rest.Ok? then Ok(digits + rest.value) else Err(rest.error)
  {
  }

  lemma AfterBoth(a: seq<Digit>, b: seq<Digit>, rest: Result<seq<Digit>, char>)
    ensures After(a, After(b, rest)) == After(a + b, rest)
  {
    if rest.Ok? {
      Assoc(a, b, rest.value);
    }
  }

  /** Dashes and white space anywhere change nothing. */
  lemma SkippedAnywhere(a: string, c: char, b: string)
    requires Skipped(c)
    ensures Reading(a + [c] + b) == Reading(a + b)
  {
    hide *;
    Assoc(a, [c], b);
    ReadingNext(c, b);
    ReadingConcat(a, [c] + b);
    ReadingConcat(a, b);
  }

  /** Nor does writing a digit another way: in the other case, or as a
      lookalike. */
  lemma LookalikeAnywhere(a: string, c: char, d: char, b: string)
    requires !Skipped(c) && !Skipped(d)
    requires DigitOf(c).Some? && DigitOf(c) == DigitOf(d)
    ensures Reading(a + [c] + b) == Reading(a + [d] + b)
  {
    hide *;
    Assoc(a, [c], b);
    Assoc(a, [d], b);
    ReadingNext(c, b);
    ReadingNext(d, b);
    ReadingConcat(a, [c] + b);
    ReadingConcat(a, [d] + b);
  }

  // ----- The symbols ---------------------------------------------------------

  predicate IsSymbol(c: char) {
    ('0' <= c <= '9' || 'A' <= c <= 'Z') && c != 'I' && c != 'L' && c != 'O' && c != 'U'
  }

  lemma SymbolAt(i: nat)
    requires i < 32
    ensures IsSymbol(ALPHABET[i])
  {
  }

  /** Where a symbol stands: each letter left out moves those after it. */
  lemma PlaceOf(c: char)
    requires IsSymbol(c)
    ensures c in ALPHABET
  {
    var n := c as int;
    var i := if c <= '9' then n - 48 else if c < 'I' then n - 55 else if c < 'L' then n - 56
             else if c < 'O' then n - 57 else if c < 'U' then n - 58 else n - 59;
    assert 0 <= i < 32;
    AtPlace(i, c);
  }

  lemma AtPlace(i: nat, c: char)
    requires i < 32 && IsSymbol(c)
    requires var n := c as int;
             i == if c <= '9' then n - 48 else if c < 'I' then n - 55 else if c < 'L' then n - 56
                  else if c < 'O' then n - 57 else if c < 'U' then n - 58 else n - 59
    ensures ALPHABET[i] == c
  {
  }

  /** The 32 symbols are the digits and the capital letters but I, L, O and U, in
      ASCII order. */
  lemma SymbolsAre()
    ensures |ALPHABET| == 32 && forall i, j :: 0 <= i < j < 32 ==> ALPHABET[i] < ALPHABET[j]
    ensures forall c :: c in ALPHABET <==> IsSymbol(c)
  {
    hide IsSymbol;
    forall i, j | 0 <= i < j < 32 ensures ALPHABET[i] < ALPHABET[j] {
      AlphabetAscends(i, j);
    }
    forall c | c in ALPHABET ensures IsSymbol(c) {
      var i :| 0 <= i < 32 && ALPHABET[i] == c;
      SymbolAt(i);
    }
    forall c | IsSymbol(c) ensures c in ALPHABET {
      PlaceOf(c);
    }
  }

  /** O reads as 0 and I and L as 1, in either case; U reads as nothing. */
  lemma Lookalikes()
    ensures DigitOf('O') == DigitOf('o') == Some(0)
    ensures DigitOf('I') == DigitOf('i') == DigitOf('L') == DigitOf('l') == Some(1)
    ensures DigitOf('U') == DigitOf('u') == None
  {
    SymbolsAre();
    assert 'U' !in ALPHABET;
  }

  /** Any other character reads as a digit exactly when it is a symbol in some case,
      and as that symbol. */
  lemma OthersRead(c: char)
    requires Text.ToAsciiUppercase(c) !in "ILO"
    ensures DigitOf(c).Some? <==> Text.ToAsciiUppercase(c) in ALPHABET
    ensures DigitOf(c).Some? ==> Symbol(DigitOf(c).value) == Text.ToAsciiUppercase(c)
  {
  }
}
