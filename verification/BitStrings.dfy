/** Bytes and base32 digits as strings of bits, the highest first. */
module BitStrings {
  import opened Bytes
  import opened Sequences
  import opened Words

  /** A base32 digit. */
  newtype Digit = d: int | 0 <= d < 32

  function ByteBits(b: bv8): (bits: seq<bool>)
    ensures |bits| == 8
  {
    Low(b as nat, 8)
  }

  function DigitBits(d: Digit): (bits: seq<bool>)
    ensures |bits| == 5
  {
    Low(d as nat, 5)
  }

  function Bits(bytes: seq<bv8>): (bits: seq<bool>)
    ensures |bits| == 8 * |bytes|
  {
    if bytes == [] then []
    else Bits(bytes[..|bytes| - 1]) + ByteBits(bytes[|bytes| - 1])
  }

  function DigitsBits(digits: seq<Digit>): (bits: seq<bool>)
    ensures |bits| == 5 * |digits|
  {
    if digits == [] then []
    else DigitsBits(digits[..|digits| - 1]) + DigitBits(digits[|digits| - 1])
  }

  lemma BitsOfByte(b: bv8)
    ensures ByteOf(Value(ByteBits(b))) == b
  {
    Pow2Values();
    ValueOfLow(b as nat, 8);
  }

  lemma LastDigitBits(digits: seq<Digit>)
    requires digits != []
    ensures var n := |digits| - 1; DigitsBits(digits) == DigitsBits(digits[..n]) + DigitBits(digits[n])
  {
  }

  lemma LastByteBits(bytes: seq<bv8>)
    requires bytes != []
    ensures var n := |bytes| - 1; Bits(bytes) == Bits(bytes[..n]) + ByteBits(bytes[n])
  {
  }

  lemma PushDigit(digits: seq<Digit>, d: Digit)
    ensures DigitsBits(digits + [d]) == DigitsBits(digits) + DigitBits(d)
  {
    hide *;
    LastDigitBits(digits + [d]);
    PushOne(digits, d);
  }

  lemma PushByte(bytes: seq<bv8>, b: bv8)
    ensures Bits(bytes + [b]) == Bits(bytes) + ByteBits(b)
  {
    hide *;
    LastByteBits(bytes + [b]);
    PushOne(bytes, b);
  }

  /** Five bits are those of the digit they stand for. */
  lemma DigitOfBits(bits: seq<bool>)
    requires |bits| == 5
    ensures Value(bits) < 32 && DigitBits(Value(bits) as Digit) == bits
  {
    Pow2Values();
    LowOfValue(bits);
    hide Pow2, Value, Low;
  }

  /** Eight bits are those of the byte they stand for. */
  lemma ByteOfBits(bits: seq<bool>)
    requires |bits| == 8
    ensures Value(bits) < 256 && ByteBits(ByteOf(Value(bits))) == bits
  {
    Pow2Values();
    LowOfValue(bits);
    hide Pow2, Value, Low, ByteOf;
  }

  lemma LastGroupOf5(bits: seq<bool>, init: seq<Digit>)
    requires |bits| >= 5 && DigitsBits(init) == bits[..|bits| - 5]
    ensures var n := |bits| - 5; Value(bits[n..]) < 32 && DigitsBits(init + [Value(bits[n..]) as Digit]) == bits
  {
    hide *;
    var n := |bits| - 5;
    DigitOfBits(bits[n..]);
    PushDigit(init, Value(bits[n..]) as Digit);
    assert bits == bits[..n] + bits[n..];
  }

  /** `bits` in groups of five. */
  function GroupsOf5(bits: seq<bool>): (digits: seq<Digit>)
    requires |bits| % 5 == 0
    ensures 5 * |digits| == |bits|
    ensures DigitsBits(digits) == bits
  {
    hide *;
    if bits == [] then
      NoDigits();
      []
    else
      var n := |bits| - 5;
      LastGroupOf5(bits, GroupsOf5(bits[..n]));
      GroupsOf5(bits[..n]) + [Value(bits[n..]) as Digit]
  }

  lemma LastGroupOf8(bits: seq<bool>, init: seq<bv8>)
    requires |bits| >= 8 && Bits(init) == bits[..|bits| - 8]
    ensures var n := |bits| - 8; Value(bits[n..]) < 256 && Bits(init + [ByteOf(Value(bits[n..]))]) == bits
  {
    hide *;
    var n := |bits| - 8;
    ByteOfBits(bits[n..]);
    PushByte(init, ByteOf(Value(bits[n..])));
    assert bits == bits[..n] + bits[n..];
  }

  /** `bits` in groups of eight. */
  function GroupsOf8(bits: seq<bool>): (bytes: seq<bv8>)
    requires |bits| % 8 == 0
    ensures 8 * |bytes| == |bits|
    ensures Bits(bytes) == bits
  {
    hide *;
    if bits == [] then
      NoBytes();
      []
    else
      var n := |bits| - 8;
      LastGroupOf8(bits, GroupsOf8(bits[..n]));
      GroupsOf8(bits[..n]) + [ByteOf(Value(bits[n..]))]
  }

  lemma NoDigits()
    ensures DigitsBits([]) == []
  {
  }

  lemma NoBytes()
    ensures Bits([]) == []
  {
  }

  lemma SameDigit(a: Digit, b: Digit)
    requires DigitBits(a) == DigitBits(b)
    ensures a == b
  {
    Pow2Values();
    ValueOfLow(a as nat, 5);
    ValueOfLow(b as nat, 5);
    hide Pow2, Value, Low;
  }

  /** Digits are told apart by their bits. */
  lemma {:induction false} SameDigits(a: seq<Digit>, b: seq<Digit>)
    requires DigitsBits(a) == DigitsBits(b)
    ensures a == b
  {
    hide *;
    assert |a| == |b|;
    if a != [] {
      var n := |a| - 1;
      LastDigitBits(a);
      LastDigitBits(b);
      SameParts(DigitsBits(a[..n]), DigitBits(a[n]), DigitsBits(b[..n]), DigitBits(b[n]));
      SameDigits(a[..n], b[..n]);
      SameDigit(a[n], b[n]);
      SplitLast(a);
      SplitLast(b);
    }
  }

  /** Bytes are told apart by their bits. */
  lemma {:induction false} SameBytes(a: seq<bv8>, b: seq<bv8>)
    requires Bits(a) == Bits(b)
    ensures a == b
  {
    hide *;
    assert |a| == |b|;
    if a != [] {
      var n := |a| - 1;
      LastByteBits(a);
      LastByteBits(b);
      SameParts(Bits(a[..n]), ByteBits(a[n]), Bits(b[..n]), ByteBits(b[n]));
      SameBytes(a[..n], b[..n]);
      BitsOfByte(a[n]);
      BitsOfByte(b[n]);
      SplitLast(a);
      SplitLast(b);
    }
  }

  // ----- Bits and bytes by place ---------------------------------------------

  lemma {:induction false} ByteAt(bytes: seq<bv8>, m: nat)
    requires m < |bytes|
    ensures Bits(bytes)[8 * m..8 * m + 8] == ByteBits(bytes[m])
    decreases |bytes|
  {
    hide *;
    var n := |bytes| - 1;
    LastByteBits(bytes);
    var init, last := Bits(bytes[..n]), ByteBits(bytes[n]);
    if m < n {
      ByteAt(bytes[..n], m);
      SliceOfFirst(init, last, 8 * m, 8 * m + 8);
    } else {
      TakeDrop(init, last);
      assert (init + last)[8 * m..8 * m + 8] == (init + last)[8 * m..];
    }
  }

  lemma {:induction false} DigitAt(digits: seq<Digit>, m: nat)
    requires m < |digits|
    ensures DigitsBits(digits)[5 * m..5 * m + 5] == DigitBits(digits[m])
    decreases |digits|
  {
    hide *;
    var n := |digits| - 1;
    LastDigitBits(digits);
    var init, last := DigitsBits(digits[..n]), DigitBits(digits[n]);
    if m < n {
      DigitAt(digits[..n], m);
      SliceOfFirst(init, last, 5 * m, 5 * m + 5);
    } else {
      TakeDrop(init, last);
      assert (init + last)[5 * m..5 * m + 5] == (init + last)[5 * m..];
    }
  }

  // ----- A byte's bits, one by one -------------------------------------------

  lemma LowPush(m: nat, b: bool, k: nat)
    ensures Low(2 * m + Bit(b), k + 1) == Low(m, k) + [b]
  {
    assert (2 * m + Bit(b)) / 2 == m;
  }

  function Bit(b: bool): nat {
    if b then 1 else 0
  }

  /** `m` followed by four more bits. */
  function FourMore(m: nat, b3: bool, b2: bool, b1: bool, b0: bool): nat {
    2 * (2 * (2 * (2 * m + Bit(b3)) + Bit(b2)) + Bit(b1)) + Bit(b0)
  }

  lemma LowOfFourMore(m: nat, k: nat, b3: bool, b2: bool, b1: bool, b0: bool)
    ensures Low(FourMore(m, b3, b2, b1, b0), k + 4) == Low(m, k) + [b3, b2, b1, b0]
  {
    hide Low, Bit;
    var m3 := 2 * m + Bit(b3);
    var m2 := 2 * m3 + Bit(b2);
    var m1 := 2 * m2 + Bit(b1);
    LowPush(m, b3, k);
    LowPush(m3, b2, k + 1);
    LowPush(m2, b1, k + 2);
    LowPush(m1, b0, k + 3);
  }

  lemma ByteIsEightBits(b: bv8)
    ensures b as nat == FourMore(FourMore(0, b & 0x80 != 0, b & 0x40 != 0, b & 0x20 != 0, b & 0x10 != 0),
                                 b & 0x08 != 0, b & 0x04 != 0, b & 0x02 != 0, b & 0x01 != 0)
  {
  }

  lemma BitsOfByteAre(b: bv8)
    ensures (ByteBits(b)[0] <==> b & 0x80 != 0) && (ByteBits(b)[1] <==> b & 0x40 != 0)
    ensures (ByteBits(b)[2] <==> b & 0x20 != 0) && (ByteBits(b)[3] <==> b & 0x10 != 0)
    ensures (ByteBits(b)[4] <==> b & 0x08 != 0) && (ByteBits(b)[5] <==> b & 0x04 != 0)
    ensures (ByteBits(b)[6] <==> b & 0x02 != 0) && (ByteBits(b)[7] <==> b & 0x01 != 0)
  {
    hide Low, FourMore;
    ByteIsEightBits(b);
    EightBits(b & 0x80 != 0, b & 0x40 != 0, b & 0x20 != 0, b & 0x10 != 0,
              b & 0x08 != 0, b & 0x04 != 0, b & 0x02 != 0, b & 0x01 != 0);
  }

  lemma EightBits(b7: bool, b6: bool, b5: bool, b4: bool, b3: bool, b2: bool, b1: bool, b0: bool)
    ensures
      var bits := Low(FourMore(FourMore(0, b7, b6, b5, b4), b3, b2, b1, b0), 8);
      && bits[0] == b7 && bits[1] == b6 && bits[2] == b5 && bits[3] == b4
      && bits[4] == b3 && bits[5] == b2 && bits[6] == b1 && bits[7] == b0
  {
    hide Low, FourMore;
    LowOfFourMore(0, 0, b7, b6, b5, b4);
    LowOfFourMore(FourMore(0, b7, b6, b5, b4), 4, b3, b2, b1, b0);
  }
}
