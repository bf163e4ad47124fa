/** Why no small change turns a sealed payload into another: two payloads
    followed by their big-endian CRC-32 differ in more than 25 consecutive bits
    (`common/src/enrollment.rs`). */
module ErrorDetection {
  import opened BitStrings
  import opened Sequences
  import opened Crc32

  /** A payload and its checksum. */
  function Sealed(payload: seq<bv8>): (bytes: seq<bv8>)
    ensures |bytes| == |payload| + 4
  {
    payload + BigEndian(Checksum(payload))
  }

  /** Do two bit strings differ only within the `n` bits from `at`? */
  ghost predicate DifferWithin(a: seq<bool>, b: seq<bool>, at: nat, n: nat) {
    && |a| == |b|
    && forall k :: 0 <= k < |a| && !(at <= k < at + n) ==> a[k] == b[k]
  }

  lemma BigEndianIsInjective(x: bv32, y: bv32)
    requires BigEndian(x) == BigEndian(y)
    ensures x == y
  {
    var a, b := BigEndian(x), BigEndian(y);
    assert a[0] == b[0] && a[1] == b[1] && a[2] == b[2] && a[3] == b[3];
  }

  /** Bytes none of whose bits may differ are the same. */
  lemma SameByteAt(a: seq<bv8>, b: seq<bv8>, at: nat, n: nat, m: nat)
    requires |a| == |b| && DifferWithin(Bits(a), Bits(b), at, n)
    requires m < |a| && (8 * m + 8 <= at || at + n <= 8 * m)
    ensures a[m] == b[m]
  {
    hide Bits, ByteBits;
    ByteAt(a, m);
    ByteAt(b, m);
    assert Bits(a)[8 * m..8 * m + 8] == Bits(b)[8 * m..8 * m + 8];
    BitsOfByte(a[m]);
    BitsOfByte(b[m]);
  }

  /** Are two byte strings the same outside the bytes from `lo` to `hi`? */
  ghost predicate SameOutside(a: seq<bv8>, b: seq<bv8>, lo: nat, hi: nat) {
    |a| == |b| && forall m: nat :: m < |a| && !(lo <= m < hi) ==> a[m] == b[m]
  }

  lemma SameBytesOutside(a: seq<bv8>, b: seq<bv8>, at: nat, n: nat)
    requires n > 0 && |a| == |b| && DifferWithin(Bits(a), Bits(b), at, n)
    ensures SameOutside(a, b, at / 8, (at + n - 1) / 8 + 1)
  {
    hide DifferWithin, Bits;
    forall m: nat | m < |a| && !(at / 8 <= m < (at + n - 1) / 8 + 1) ensures a[m] == b[m] {
      SameByteAt(a, b, at, n, m);
    }
  }

  /** Two payloads whose sealed forms differ only within 25 consecutive bits are
      the same payload. A code's payload is much longer than three bytes. */
  lemma NoTwoNear(p: seq<bv8>, q: seq<bv8>, at: nat)
    requires |p| == |q| >= 3
    requires DifferWithin(Bits(Sealed(p)), Bits(Sealed(q)), at, 25)
    ensures p == q
  {
    hide DifferWithin, Bits, Sealed;
    if at + 25 <= 8 * |p| {
      SameBytesOutside(Sealed(p), Sealed(q), at, 25);
      WithinPayload(p, q, at / 8, (at + 24) / 8 + 1);
    } else if at < 8 * |p| {
      AcrossEnd(p, q, at);
    } else {
      SameBytesOutside(Sealed(p), Sealed(q), at, 25);
      WithinChecksum(p, q, at / 8, (at + 24) / 8 + 1);
    }
  }

  lemma WithinChecksum(p: seq<bv8>, q: seq<bv8>, lo: nat, hi: nat)
    requires |p| == |q| <= lo && SameOutside(Sealed(p), Sealed(q), lo, hi)
    ensures p == q
  {
    hide Checksum, BigEndian;
    forall m: nat | m < |p| ensures p[m] == q[m] {
      assert Sealed(p)[m] == Sealed(q)[m];
    }
  }

  lemma SealedChecksum(p: seq<bv8>)
    ensures Sealed(p)[|p|..] == BigEndian(Checksum(p)) && Sealed(p)[..|p|] == p
  {
    TakeDrop(p, BigEndian(Checksum(p)));
  }

  /** The difference is in the payload: the checksums are the same, and the
      CRC tells the payloads apart. */
  lemma WithinPayload(p: seq<bv8>, q: seq<bv8>, lo: nat, hi: nat)
    requires lo <= hi <= |p| == |q| && hi - lo <= 4
    requires SameOutside(Sealed(p), Sealed(q), lo, hi)
    ensures p == q
  {
    hide Sealed, Checksum, BigEndian;
    SameChecksum(p, q, lo, hi);
    SamePayloadOutside(p, q, lo, hi);
    ThreeParts(p, lo, hi);
    ThreeParts(q, lo, hi);
    BurstChangesChecksum(p[..lo], p[lo..hi], q[lo..hi], p[hi..]);
  }

  lemma ThreeParts(p: seq<bv8>, lo: nat, hi: nat)
    requires lo <= hi <= |p|
    ensures p == p[..lo] + p[lo..hi] + p[hi..]
  {
  }

  lemma SameChecksum(p: seq<bv8>, q: seq<bv8>, lo: nat, hi: nat)
    requires lo <= hi <= |p| == |q| && SameOutside(Sealed(p), Sealed(q), lo, hi)
    ensures Checksum(p) == Checksum(q)
  {
    hide Checksum, BigEndian, Sealed;
    SealedChecksum(p);
    SealedChecksum(q);
    var n, c, d := |p|, BigEndian(Checksum(p)), BigEndian(Checksum(q));
    forall m: nat | m < 4 ensures c[m] == d[m] {
      assert Sealed(p)[n + m] == Sealed(q)[n + m];
      assert c[m] == Sealed(p)[n + m] && d[m] == Sealed(q)[n + m];
    }
    BigEndianIsInjective(Checksum(p), Checksum(q));
  }

  lemma SamePayloadOutside(p: seq<bv8>, q: seq<bv8>, lo: nat, hi: nat)
    requires lo <= hi <= |p| == |q| && SameOutside(Sealed(p), Sealed(q), lo, hi)
    ensures p[..lo] == q[..lo] && p[hi..] == q[hi..]
  {
    hide Checksum, BigEndian;
    forall m: nat | m < |p| && !(lo <= m < hi) ensures p[m] == q[m] {
      assert Sealed(p)[m] == Sealed(q)[m];
    }
  }

  /** The bits in which two bytes differ. */
  function Difference(b: bv8, c: bv8): bv8 {
    b ^ c
  }

  /** Bytes with the same first `t` bits differ in the others at most. */
  lemma SameFirstBits(b: bv8, c: bv8, t: int)
    requires forall k :: 0 <= k < 8 && k < t ==> ByteBits(b)[k] == ByteBits(c)[k]
    ensures LastBits(Difference(b, c), 8 - t)
  {
    hide ByteBits;
    assert (t > 0 ==> ByteBits(b)[0] == ByteBits(c)[0]) && (t > 1 ==> ByteBits(b)[1] == ByteBits(c)[1]);
    assert (t > 2 ==> ByteBits(b)[2] == ByteBits(c)[2]) && (t > 3 ==> ByteBits(b)[3] == ByteBits(c)[3]);
    assert (t > 4 ==> ByteBits(b)[4] == ByteBits(c)[4]) && (t > 5 ==> ByteBits(b)[5] == ByteBits(c)[5]);
    assert (t > 6 ==> ByteBits(b)[6] == ByteBits(c)[6]) && (t > 7 ==> ByteBits(b)[7] == ByteBits(c)[7]);
    BitsOfByteAre(b);
    BitsOfByteAre(c);
  }

  /** Bytes with the same bits from the `t`-th differ in the first `t` at most. */
  lemma SameLastBits(b: bv8, c: bv8, t: int)
    requires forall k :: 0 <= k < 8 && k >= t ==> ByteBits(b)[k] == ByteBits(c)[k]
    ensures FirstBits(Difference(b, c), t)
  {
    hide ByteBits;
    assert (t <= 0 ==> ByteBits(b)[0] == ByteBits(c)[0]) && (t <= 1 ==> ByteBits(b)[1] == ByteBits(c)[1]);
    assert (t <= 2 ==> ByteBits(b)[2] == ByteBits(c)[2]) && (t <= 3 ==> ByteBits(b)[3] == ByteBits(c)[3]);
    assert (t <= 4 ==> ByteBits(b)[4] == ByteBits(c)[4]) && (t <= 5 ==> ByteBits(b)[5] == ByteBits(c)[5]);
    assert (t <= 6 ==> ByteBits(b)[6] == ByteBits(c)[6]) && (t <= 7 ==> ByteBits(b)[7] == ByteBits(c)[7]);
    BitsOfByteAre(b);
    BitsOfByteAre(c);
  }

  /** The difference straddles the payload's end: the last three bytes of the
      payload can't change the checksum so little. */
  lemma AcrossEnd(p: seq<bv8>, q: seq<bv8>, at: nat)
    requires |p| == |q| >= 3
    requires DifferWithin(Bits(Sealed(p)), Bits(Sealed(q)), at, 25)
    requires at < 8 * |p| < at + 25
    ensures p == q
  {
    hide DifferWithin, Bits, Sealed, Checksum, BigEndian, InLastBits, InFirstBits;
    var n, a, b := |p|, Sealed(p), Sealed(q);
    SameBytesOutside(a, b, at, 25);
    NearEnd(a, b, at, 8 * n - at, n);
    SealedAtEnd(p);
    SealedAtEnd(q);
    SameBeforeEnd(p, q, at / 8, (at + 24) / 8 + 1);
    Shown(p[..n - 3], p[n - 3..], q[n - 3..], 8 * n - at, p, q);
  }

  lemma SealedAtEnd(p: seq<bv8>)
    requires |p| >= 3
    ensures var n, s, c := |p|, Sealed(p), BigEndian(Checksum(p));
            && s[n - 3] == p[n - 3] && s[n - 2] == p[n - 2] && s[n - 1] == p[n - 1]
            && s[n] == c[0] && s[n + 1] == c[1] && s[n + 2] == c[2] && s[n + 3] == c[3]
            && p == p[..n - 3] + p[n - 3..]
  {
    hide Checksum, BigEndian;
  }

  lemma SameBeforeEnd(p: seq<bv8>, q: seq<bv8>, lo: nat, hi: nat)
    requires |p| == |q| >= 3 && |p| - 3 <= lo && hi <= |p| + 3
    requires SameOutside(Sealed(p), Sealed(q), lo, hi)
    ensures var n := |p|; p[..n - 3] == q[..n - 3] && Sealed(p)[n + 3] == Sealed(q)[n + 3]
  {
    hide Checksum, BigEndian;
    forall m: nat | m < |p| - 3 ensures p[m] == q[m] {
      assert Sealed(p)[m] == Sealed(q)[m];
    }
  }

  lemma BitNear(a: seq<bv8>, b: seq<bv8>, at: nat, m: nat)
    requires |a| == |b| && DifferWithin(Bits(a), Bits(b), at, 25) && m < |a|
    ensures forall k :: 0 <= k < 8 && !(at <= 8 * m + k < at + 25) ==> ByteBits(a[m])[k] == ByteBits(b[m])[k]
  {
    hide Bits, ByteBits;
    BitAt(a, m);
    BitAt(b, m);
    forall k | 0 <= k < 8 && !(at <= 8 * m + k < at + 25) ensures ByteBits(a[m])[k] == ByteBits(b[m])[k] {
      assert Bits(a)[8 * m + k] == Bits(b)[8 * m + k];
    }
  }

  lemma BitAt(a: seq<bv8>, m: nat)
    requires m < |a|
    ensures forall k :: 0 <= k < 8 ==> ByteBits(a[m])[k] == Bits(a)[8 * m + k]
  {
    hide Bits, ByteBits;
    ByteAt(a, m);
    forall k | 0 <= k < 8 ensures ByteBits(a[m])[k] == Bits(a)[8 * m + k] {
      assert Bits(a)[8 * m..8 * m + 8][k] == Bits(a)[8 * m + k];
    }
  }

  /** Before the window a byte keeps its first bits. */
  lemma StartOfWindow(a: seq<bv8>, b: seq<bv8>, at: nat, m: nat)
    requires |a| == |b| && DifferWithin(Bits(a), Bits(b), at, 25) && m < |a|
    ensures LastBits(Difference(a[m], b[m]), 8 - (at - 8 * m))
  {
    hide Bits, ByteBits, DifferWithin, LastBits, Difference;
    BitNear(a, b, at, m);
    SameFirstBits(a[m], b[m], at - 8 * m);
  }

  /** After it, its last bits. */
  lemma EndOfWindow(a: seq<bv8>, b: seq<bv8>, at: nat, m: nat)
    requires |a| == |b| && DifferWithin(Bits(a), Bits(b), at, 25) && m < |a|
    ensures FirstBits(Difference(a[m], b[m]), at + 25 - 8 * m)
  {
    hide Bits, ByteBits, DifferWithin, FirstBits, Difference;
    BitNear(a, b, at, m);
    SameLastBits(a[m], b[m], at + 25 - 8 * m);
  }

  lemma NearEnd(a: seq<bv8>, b: seq<bv8>, at: nat, j: nat, n: nat)
    requires |a| == |b| == n + 4 && n >= 3 && DifferWithin(Bits(a), Bits(b), at, 25)
    requires j == 8 * n - at && 1 <= j <= 24
    ensures InLastBits(Difference(a[n - 3], b[n - 3]), Difference(a[n - 2], b[n - 2]),
                       Difference(a[n - 1], b[n - 1]), j)
    ensures InFirstBits(Difference(a[n], b[n]), Difference(a[n + 1], b[n + 1]),
                        Difference(a[n + 2], b[n + 2]), 25 - j)
  {
    hide Bits, DifferWithin, LastBits, FirstBits, Difference;
    StartOfWindow(a, b, at, n - 3);
    StartOfWindow(a, b, at, n - 2);
    StartOfWindow(a, b, at, n - 1);
    EndOfWindow(a, b, at, n);
    EndOfWindow(a, b, at, n + 1);
    EndOfWindow(a, b, at, n + 2);
  }

  /** Payloads that differ in their last three bytes at most. */
  lemma Shown(before: seq<bv8>, a: seq<bv8>, b: seq<bv8>, j: nat, p: seq<bv8>, q: seq<bv8>)
    requires |a| == |b| == 3 && p == before + a && q == before + b
    requires 1 <= j <= 24
    requires InLastBits(Difference(a[0], b[0]), Difference(a[1], b[1]), Difference(a[2], b[2]), j)
    requires
      var c, d := BigEndian(Checksum(p)), BigEndian(Checksum(q));
      c[3] == d[3] && InFirstBits(Difference(c[0], d[0]), Difference(c[1], d[1]), Difference(c[2], d[2]), 25 - j)
    ensures p == q
  {
    hide *;
    LastThreeShow(before, a, b);
    ChecksumBytes(Checksum(p), Checksum(q));
    var c, d := BigEndian(Checksum(p)), BigEndian(Checksum(q));
    Straddle(Difference(a[0], b[0]), Difference(a[1], b[1]), Difference(a[2], b[2]),
             Difference(c[0], d[0]), Difference(c[1], d[1]), Difference(c[2], d[2]), j);
    NoDifference(a[0], b[0]);
    NoDifference(a[1], b[1]);
    NoDifference(a[2], b[2]);
    assert a == b;
  }

  lemma NoDifference(b: bv8, c: bv8)
    ensures Difference(b, c) == 0 ==> b == c
  {
  }

  lemma ChecksumBytes(x: bv32, y: bv32)
    requires BigEndian(x)[3] == BigEndian(y)[3]
    ensures var c, d := BigEndian(x), BigEndian(y);
            Xor(x, y) == HighestThree(Difference(c[0], d[0]), Difference(c[1], d[1]), Difference(c[2], d[2]))
  {
  }

  lemma LastThreeShow(before: seq<bv8>, a: seq<bv8>, b: seq<bv8>)
    requires |a| == |b| == 3
    ensures Xor(Checksum(before + a), Checksum(before + b))
         == Steps(LowestThree(Difference(a[0], b[0]), Difference(a[1], b[1]), Difference(a[2], b[2])), 24)
  {
    hide *;
    var s := Run(0xFFFF_FFFF, before);
    ChecksumDifference(before + a, before + b);
    RunConcat(0xFFFF_FFFF, before, a);
    RunConcat(0xFFFF_FFFF, before, b);
    RunDifference(s, a, s, b);
    var d := Xor(Pack(a), Pack(b));
    XorSelf(s);
    XorCommutes(0, d);
    XorSelf(d);
    PackThree(a);
    PackThree(b);
    ThreeDiffer(a[0], a[1], a[2], b[0], b[1], b[2]);
  }

  lemma PackThree(a: seq<bv8>)
    requires |a| == 3
    ensures Pack(a) == LowestThree(a[0], a[1], a[2])
  {
    hide Xor, Double, LowestThree, Pack;
    PackNext(a);
    PackNext(a[1..]);
    PackNext(a[2..]);
    PackNone();
    assert a[1..][1..] == a[2..] && a[2..][1..] == [];
    Lowest(a[0], a[1], a[2]);
  }

  lemma PackNext(a: seq<bv8>)
    requires a != []
    ensures Pack(a) == Xor(a[0] as bv32, Double(Pack(a[1..]), 8))
  {
  }

  lemma PackNone()
    ensures Pack([]) == 0
  {
  }

  lemma Lowest(b: bv8, c: bv8, d: bv8)
    ensures LowestThree(b, c, d)
         == Xor(b as bv32, Double(Xor(c as bv32, Double(Xor(d as bv32, Double(0, 8)), 8)), 8))
  {
  }

  lemma ThreeDiffer(a0: bv8, a1: bv8, a2: bv8, b0: bv8, b1: bv8, b2: bv8)
    ensures Xor(LowestThree(a0, a1, a2), LowestThree(b0, b1, b2))
         == LowestThree(Difference(a0, b0), Difference(a1, b1), Difference(a2, b2))
  {
  }
}
