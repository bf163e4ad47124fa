/** The CRC-32 of an enrollment code (`crc32` in `common/src/enrollment.rs`,
    the CRC of section 8 of RFC 1952), and the changes it is sure to catch. */
module Crc32 {

  const POLYNOMIAL: bv32 := 0xEDB8_8320

  function Xor(a: bv32, b: bv32): bv32 {
    a ^ b
  }

  /** The register after one bit. */
  function Step(crc: bv32): bv32 {
    if crc & 1 != 0 then (crc >> 1) ^ POLYNOMIAL else crc >> 1
  }

  /** The register after `n` bits. */
  function Steps(crc: bv32, n: nat): bv32
    decreases n, crc
  {
    if n == 0 then crc else Steps(Step(crc), n - 1)
  }

  /** The register after `bytes`. */
  function Run(crc: bv32, bytes: seq<bv8>): bv32
    decreases |bytes|
  {
    if bytes == [] then crc
    else Run(Steps(Xor(crc, bytes[0] as bv32), 8), bytes[1..])
  }

  function Complement(x: bv32): bv32 {
    !x
  }

  function Checksum(bytes: seq<bv8>): bv32 {
    Complement(Run(0xFFFF_FFFF, bytes))
  }

  /** `crc32`. */
  method Crc32(bytes: seq<bv8>) returns (r: bv32)
    ensures r == Checksum(bytes)
  {
    var crc: bv32 := 0xFFFF_FFFF;
    assert bytes[0..] == bytes;
    for i := 0 to |bytes|
      invariant Run(crc, bytes[i..]) == Run(0xFFFF_FFFF, bytes)
    {
      ghost var start := Xor(crc, bytes[i] as bv32);
      crc := crc ^ (bytes[i] as bv32);
      for k := 0 to 8
        invariant Steps(crc, 8 - k) == Steps(start, 8)
      {
        crc := if crc & 1 != 0 then (crc >> 1) ^ POLYNOMIAL else crc >> 1;
      }
    }
    assert bytes[|bytes|..] == [];
    r := !crc;
  }

  /** `to_be_bytes`. */
  function BigEndian(x: bv32): (bytes: seq<bv8>)
    ensures |bytes| == 4
  {
    [(x >> 24) as bv8, ((x >> 16) & 0xFF) as bv8, ((x >> 8) & 0xFF) as bv8, (x & 0xFF) as bv8]
  }

  // ----- The register's algebra ----------------------------------------------

  function Half(x: bv32): bv32 {
    x >> 1
  }

  predicate Odd(x: bv32) {
    x & 1 != 0
  }

  lemma StepByParts(x: bv32)
    ensures Step(x) == if Odd(x) then Xor(Half(x), POLYNOMIAL) else Half(x)
  {
  }

  lemma HalfIsLinear(a: bv32, b: bv32)
    ensures Half(Xor(a, b)) == Xor(Half(a), Half(b))
  {
  }

  lemma OddIsLinear(a: bv32, b: bv32)
    ensures Odd(Xor(a, b)) == (Odd(a) != Odd(b))
  {
  }

  lemma XorCommutes(a: bv32, b: bv32)
    ensures Xor(a, b) == Xor(b, a)
  {
  }

  lemma XorAssociates(a: bv32, b: bv32, c: bv32)
    ensures Xor(a, Xor(b, c)) == Xor(Xor(a, b), c)
  {
  }

  lemma XorSelf(a: bv32)
    ensures Xor(a, a) == 0 && Xor(a, 0) == a
  {
  }

  lemma XorExchange(a: bv32, b: bv32, c: bv32, d: bv32)
    ensures Xor(Xor(a, b), Xor(c, d)) == Xor(Xor(a, c), Xor(b, d))
  {
    hide Xor;
    XorAssociates(Xor(a, b), c, d);
    XorAssociates(a, b, c);
    XorCommutes(b, c);
    XorAssociates(a, c, b);
    XorAssociates(Xor(a, c), b, d);
  }

  lemma XorCancels(a: bv32, b: bv32, p: bv32)
    ensures Xor(Xor(a, p), Xor(b, p)) == Xor(a, b)
  {
    hide Xor;
    XorExchange(a, p, b, p);
    XorSelf(p);
    XorSelf(Xor(a, b));
  }

  lemma XorMoves(a: bv32, b: bv32, p: bv32)
    ensures Xor(Xor(a, p), b) == Xor(Xor(a, b), p)
  {
    hide Xor;
    XorAssociates(a, p, b);
    XorCommutes(p, b);
    XorAssociates(a, b, p);
  }

  lemma StepIsLinear(a: bv32, b: bv32)
    ensures Step(Xor(a, b)) == Xor(Step(a), Step(b))
  {
    hide *;
    StepByParts(a);
    StepByParts(b);
    StepByParts(Xor(a, b));
    HalfIsLinear(a, b);
    OddIsLinear(a, b);
    XorCancels(Half(a), Half(b), POLYNOMIAL);
    XorMoves(Half(a), Half(b), POLYNOMIAL);
    XorAssociates(Half(a), Half(b), POLYNOMIAL);
  }

  lemma StepIsInjective(a: bv32, b: bv32)
    requires Step(a) == Step(b)
    ensures a == b
  {
  }

  lemma {:induction false} StepsAreLinear(a: bv32, b: bv32, n: nat)
    ensures Steps(Xor(a, b), n) == Xor(Steps(a, n), Steps(b, n))
    decreases n
  {
    hide Step, Xor;
    if n > 0 {
      StepIsLinear(a, b);
      StepsAreLinear(Step(a), Step(b), n - 1);
    }
  }

  lemma {:induction false} StepsAreInjective(a: bv32, b: bv32, n: nat)
    requires Steps(a, n) == Steps(b, n)
    ensures a == b
    decreases n
  {
    hide Step;
    if n > 0 {
      StepsAreInjective(Step(a), Step(b), n - 1);
      StepIsInjective(a, b);
    }
  }

  lemma {:induction false} StepsOfZero(n: nat)
    ensures Steps(0, n) == 0
  {
    if n > 0 {
      StepsOfZero(n - 1);
    }
  }

  lemma {:induction false} StepsCompose(a: bv32, m: nat, n: nat)
    ensures Steps(Steps(a, m), n) == Steps(a, m + n)
    decreases m
  {
    hide Step;
    if m > 0 {
      StepsCompose(Step(a), m - 1, n);
    }
  }

  function Double(x: bv32, k: bv32): bv32
    requires k <= 8
  {
    x << k
  }

  lemma StepOfDouble(x: bv32, k: bv32)
    requires 1 <= k <= 8 && x < 0x100_0000
    ensures Step(Double(x, k)) == Double(x, k - 1)
  {
  }

  /** Eight steps take a byte's worth of zeros out of the register. */
  lemma StepsOfShifted(x: bv32)
    requires x < 0x100_0000
    ensures Steps(Double(x, 8), 8) == x
  {
    StepOfDouble(x, 8);
    StepOfDouble(x, 7);
    StepOfDouble(x, 6);
    StepOfDouble(x, 5);
    StepOfDouble(x, 4);
    StepOfDouble(x, 3);
    StepOfDouble(x, 2);
    StepOfDouble(x, 1);
    assert Double(x, 0) == x;
    hide Step, Double;
    assert Steps(Double(x, 8), 8) == Steps(Double(x, 7), 7) == Steps(Double(x, 6), 6);
    assert Steps(Double(x, 6), 6) == Steps(Double(x, 5), 5) == Steps(Double(x, 4), 4);
    assert Steps(Double(x, 4), 4) == Steps(Double(x, 3), 3) == Steps(Double(x, 2), 2);
    assert Steps(Double(x, 2), 2) == Steps(Double(x, 1), 1) == Double(x, 0);
  }

  /** Up to four bytes as the register takes them in, the first lowest. */
  function Pack(bytes: seq<bv8>): bv32
    decreases |bytes|
  {
    if bytes == [] then 0 else Xor(bytes[0] as bv32, Double(Pack(bytes[1..]), 8))
  }

  lemma {:induction false} PackBound(bytes: seq<bv8>)
    requires |bytes| <= 3
    ensures Pack(bytes) < 0x100_0000
    ensures |bytes| <= 2 ==> Pack(bytes) < 0x1_0000
    ensures |bytes| <= 1 ==> Pack(bytes) < 0x100
    decreases |bytes|
  {
    if |bytes| > 0 {
      PackBound(bytes[1..]);
      assert |bytes| == 1 ==> Pack(bytes[1..]) == 0;
    }
  }

  lemma {:induction false} PackIsInjective(a: seq<bv8>, b: seq<bv8>)
    requires |a| == |b| <= 4 && Pack(a) == Pack(b)
    ensures a == b
    decreases |a|
  {
    hide Xor, Double;
    if a != [] {
      PackBound(a[1..]);
      PackBound(b[1..]);
      Unpack(a[0], Pack(a[1..]), b[0], Pack(b[1..]));
      PackIsInjective(a[1..], b[1..]);
      assert a == [a[0]] + a[1..] && b == [b[0]] + b[1..];
    }
  }

  lemma Unpack(u: bv8, x: bv32, v: bv8, y: bv32)
    requires x < 0x100_0000 && y < 0x100_0000
    requires Xor(u as bv32, Double(x, 8)) == Xor(v as bv32, Double(y, 8))
    ensures u == v && x == y
  {
  }

  /** After two runs of up to four bytes, how the registers differ depends only
      on how their starts and the bytes differ. */
  lemma {:induction false} RunDifference(s: bv32, a: seq<bv8>, t: bv32, b: seq<bv8>)
    requires |a| == |b| <= 4
    ensures Xor(Run(s, a), Run(t, b)) == Steps(Xor(Xor(s, t), Xor(Pack(a), Pack(b))), 8 * |a|)
    decreases |a|
  {
    hide Xor, Double, Step;
    if a == [] {
      XorSelf(Xor(s, t));
      XorSelf(0);
    } else {
      var u, v, x, y := a[0] as bv32, b[0] as bv32, Pack(a[1..]), Pack(b[1..]);
      PackBound(a[1..]);
      PackBound(b[1..]);
      XorBound(x, y);
      RunDifference(Steps(Xor(s, u), 8), a[1..], Steps(Xor(t, v), 8), b[1..]);
      var z := Xor(Xor(s, u), Xor(t, v));
      StepsAreLinear(Xor(s, u), Xor(t, v), 8);
      StepsOfShifted(Xor(x, y));
      StepsAreLinear(z, Double(Xor(x, y), 8), 8);
      Regroup(s, u, t, v, x, y);
      StepsCompose(Xor(Xor(s, t), Xor(Pack(a), Pack(b))), 8, 8 * (|a| - 1));
      assert 8 + 8 * (|a| - 1) == 8 * |a|;
    }
  }

  lemma XorBound(x: bv32, y: bv32)
    requires x < 0x100_0000 && y < 0x100_0000
    ensures Xor(x, y) < 0x100_0000
  {
  }

  lemma DoubleIsLinear(x: bv32, y: bv32)
    ensures Double(Xor(x, y), 8) == Xor(Double(x, 8), Double(y, 8))
  {
  }

  lemma Regroup(s: bv32, u: bv32, t: bv32, v: bv32, x: bv32, y: bv32)
    ensures Xor(Xor(s, t), Xor(Xor(u, Double(x, 8)), Xor(v, Double(y, 8))))
         == Xor(Xor(Xor(s, u), Xor(t, v)), Double(Xor(x, y), 8))
  {
    hide Xor, Double;
    var p, q := Double(x, 8), Double(y, 8);
    DoubleIsLinear(x, y);
    XorExchange(u, p, v, q);
    XorAssociates(Xor(s, t), Xor(u, v), Xor(p, q));
    XorExchange(s, t, u, v);
  }

  /** The same bytes after two registers keep them apart. */
  lemma {:induction false} RunIsInjective(s: bv32, t: bv32, bytes: seq<bv8>)
    requires Run(s, bytes) == Run(t, bytes)
    ensures s == t
    decreases |bytes|
  {
    hide Xor, Steps;
    if bytes != [] {
      var b := bytes[0] as bv32;
      RunIsInjective(Steps(Xor(s, b), 8), Steps(Xor(t, b), 8), bytes[1..]);
      StepsAreInjective(Xor(s, b), Xor(t, b), 8);
      XorCancels(s, t, b);
      XorSelf(Xor(s, b));
      XorEqual(s, t);
    }
  }

  lemma XorEqual(a: bv32, b: bv32)
    ensures Xor(a, b) == 0 <==> a == b
  {
    hide Xor;
    XorSelf(a);
    XorSelf(b);
    XorAssociates(a, b, b);
    XorCommutes(0, b);
  }

  lemma {:induction false} RunConcat(s: bv32, a: seq<bv8>, b: seq<bv8>)
    ensures Run(s, a + b) == Run(Run(s, a), b)
    decreases |a|
  {
    hide Xor, Steps;
    if a == [] {
      assert a + b == b;
    } else {
      assert (a + b)[1..] == a[1..] + b;
      RunConcat(Steps(Xor(s, a[0] as bv32), 8), a[1..], b);
    }
  }

  lemma ComplementKeepsDifference(x: bv32, y: bv32)
    ensures Xor(Complement(x), Complement(y)) == Xor(x, y)
  {
  }

  /** Different bytes, up to four, take one register to different ones. */
  lemma RunsDiffer(s: bv32, a: seq<bv8>, b: seq<bv8>)
    requires |a| == |b| <= 4 && Run(s, a) == Run(s, b)
    ensures a == b
  {
    hide Xor, Steps, Run, Pack;
    RunDifference(s, a, s, b);
    XorEqual(Run(s, a), Run(s, b));
    var d := Xor(Pack(a), Pack(b));
    XorSelf(s);
    XorCommutes(0, d);
    XorSelf(d);
    StepsOfZero(8 * |a|);
    StepsAreInjective(d, 0, 8 * |a|);
    XorEqual(Pack(a), Pack(b));
    PackIsInjective(a, b);
  }

  lemma ChecksumDifference(a: seq<bv8>, b: seq<bv8>)
    ensures Xor(Checksum(a), Checksum(b)) == Xor(Run(0xFFFF_FFFF, a), Run(0xFFFF_FFFF, b))
  {
    hide Run, Xor, Complement;
    ComplementKeepsDifference(Run(0xFFFF_FFFF, a), Run(0xFFFF_FFFF, b));
  }

  /** Inputs that differ only within four consecutive bytes have different
      checksums. */
  lemma BurstChangesChecksum(before: seq<bv8>, a: seq<bv8>, b: seq<bv8>, after: seq<bv8>)
    requires |a| == |b| <= 4
    requires Checksum(before + a + after) == Checksum(before + b + after)
    ensures a == b
  {
    hide Xor, Steps, Run, Checksum;
    ChecksumDifference(before + a + after, before + b + after);
    XorEqual(Checksum(before + a + after), Checksum(before + b + after));
    XorEqual(Run(0xFFFF_FFFF, before + a + after), Run(0xFFFF_FFFF, before + b + after));
    var s := Run(0xFFFF_FFFF, before);
    RunConcat(0xFFFF_FFFF, before + a, after);
    RunConcat(0xFFFF_FFFF, before + b, after);
    RunConcat(0xFFFF_FFFF, before, a);
    RunConcat(0xFFFF_FFFF, before, b);
    RunIsInjective(Run(s, a), Run(s, b), after);
    RunsDiffer(s, a, b);
  }

  // ----- Steps as sums -------------------------------------------------------

  lemma OneMore(x: bv32, n: nat, k: bv32)
    requires Steps(x, n) == k
    ensures Steps(x, n + 1) == Step(k)
  {
    hide Step;
    StepsCompose(x, n, 1);
    StepsStart(k, 1);
    StepsNone(Step(k));
  }

  lemma StepsNone(x: bv32)
    ensures Steps(x, 0) == x
  {
  }

  lemma StepsStart(x: bv32, n: nat)
    requires n > 0
    ensures Steps(x, n) == Steps(Step(x), n - 1)
  {
  }

  function IfOdd(x: bv32, k: bv32): bv32 {
    if Odd(x) then k else 0
  }

  /** A lowest bit adds what steps make of 1 to what they make of the others. */
  lemma Peel(x: bv32, n: nat, k: bv32)
    requires n > 0 && Steps(1, n) == k
    ensures Steps(x, n) == Xor(IfOdd(x, k), Steps(Half(x), n - 1))
  {
    hide Steps, Xor, Half, Odd;
    var even := if Odd(x) then Xor(x, 1) else x;
    StepOfEven(x);
    StepsStart(even, n);
    StepsAreLinear(1, even, n);
    XorCommutes(0, Steps(x, n));
    XorSelf(Steps(x, n));
  }

  lemma StepOfEven(x: bv32)
    ensures Odd(x) ==> Step(Xor(x, 1)) == Half(x) && Xor(1, Xor(x, 1)) == x
    ensures !Odd(x) ==> Step(x) == Half(x)
  {
  }

  /** What up to 16 steps make of 1. */
  lemma StepsOfOne()
    ensures Steps(1, 1) == 0xEDB8_8320 && Steps(1, 2) == 0x76DC_4190
    ensures Steps(1, 3) == 0x3B6E_20C8 && Steps(1, 4) == 0x1DB7_1064
    ensures Steps(1, 5) == 0x0EDB_8832 && Steps(1, 6) == 0x076D_C419
    ensures Steps(1, 7) == 0xEE0E_612C && Steps(1, 8) == 0x7707_3096
    ensures Steps(1, 9) == 0x3B83_984B && Steps(1, 10) == 0xF079_4F05
    ensures Steps(1, 11) == 0x9584_24A2 && Steps(1, 12) == 0x4AC2_1251
    ensures Steps(1, 13) == 0xC8D9_8A08 && Steps(1, 14) == 0x646C_C504
    ensures Steps(1, 15) == 0x3236_6282 && Steps(1, 16) == 0x191B_3141
  {
    hide Steps;
    StepsNone(1);
    OneMore(1, 0, 0x0000_0001);
    OneMore(1, 1, 0xEDB8_8320);
    OneMore(1, 2, 0x76DC_4190);
    OneMore(1, 3, 0x3B6E_20C8);
    OneMore(1, 4, 0x1DB7_1064);
    OneMore(1, 5, 0x0EDB_8832);
    OneMore(1, 6, 0x076D_C419);
    OneMore(1, 7, 0xEE0E_612C);
    OneMore(1, 8, 0x7707_3096);
    OneMore(1, 9, 0x3B83_984B);
    OneMore(1, 10, 0xF079_4F05);
    OneMore(1, 11, 0x9584_24A2);
    OneMore(1, 12, 0x4AC2_1251);
    OneMore(1, 13, 0xC8D9_8A08);
    OneMore(1, 14, 0x646C_C504);
    OneMore(1, 15, 0x3236_6282);
  }

  /** What 16 steps make of a word, as a sum over its lower bits. */
  function Sum(w: bv32): bv32 {
    var w1 := Half(w); var w2 := Half(w1); var w3 := Half(w2); var w4 := Half(w3);
    var w5 := Half(w4); var w6 := Half(w5); var w7 := Half(w6); var w8 := Half(w7);
    var w9 := Half(w8); var w10 := Half(w9); var w11 := Half(w10); var w12 := Half(w11);
    var w13 := Half(w12); var w14 := Half(w13); var w15 := Half(w14); var w16 := Half(w15);
    Xor(IfOdd(w, 0x191B_3141), Xor(IfOdd(w1, 0x3236_6282),
    Xor(IfOdd(w2, 0x646C_C504), Xor(IfOdd(w3, 0xC8D9_8A08),
    Xor(IfOdd(w4, 0x4AC2_1251), Xor(IfOdd(w5, 0x9584_24A2),
    Xor(IfOdd(w6, 0xF079_4F05), Xor(IfOdd(w7, 0x3B83_984B),
    Xor(IfOdd(w8, 0x7707_3096), Xor(IfOdd(w9, 0xEE0E_612C),
    Xor(IfOdd(w10, 0x076D_C419), Xor(IfOdd(w11, 0x0EDB_8832),
    Xor(IfOdd(w12, 0x1DB7_1064), Xor(IfOdd(w13, 0x3B6E_20C8),
    Xor(IfOdd(w14, 0x76DC_4190), Xor(IfOdd(w15, 0xEDB8_8320),
    w16))))))))))))))))
  }

  lemma StepsAreSum(w: bv32)
    ensures Steps(w, 16) == Sum(w)
  {
    hide Steps, Xor, IfOdd, Half;
    StepsOfOne();
    Peel(w, 16, 0x191B_3141);
    var w1 := Half(w);
    Peel(w1, 15, 0x3236_6282);
    var w2 := Half(w1);
    Peel(w2, 14, 0x646C_C504);
    var w3 := Half(w2);
    Peel(w3, 13, 0xC8D9_8A08);
    var w4 := Half(w3);
    Peel(w4, 12, 0x4AC2_1251);
    var w5 := Half(w4);
    Peel(w5, 11, 0x9584_24A2);
    var w6 := Half(w5);
    Peel(w6, 10, 0xF079_4F05);
    var w7 := Half(w6);
    Peel(w7, 9, 0x3B83_984B);
    var w8 := Half(w7);
    Peel(w8, 8, 0x7707_3096);
    var w9 := Half(w8);
    Peel(w9, 7, 0xEE0E_612C);
    var w10 := Half(w9);
    Peel(w10, 6, 0x076D_C419);
    var w11 := Half(w10);
    Peel(w11, 5, 0x0EDB_8832);
    var w12 := Half(w11);
    Peel(w12, 4, 0x1DB7_1064);
    var w13 := Half(w12);
    Peel(w13, 3, 0x3B6E_20C8);
    var w14 := Half(w13);
    Peel(w14, 2, 0x76DC_4190);
    var w15 := Half(w14);
    Peel(w15, 1, 0xEDB8_8320);
    var w16 := Half(w15);
    StepsNone(w16);
  }

  // ----- Steps undone --------------------------------------------------------

  function Twice(x: bv32): bv32 {
    x << 1
  }

  predicate High(x: bv32) {
    x & 0x8000_0000 != 0
  }

  /** The register before one bit. */
  function Back(x: bv32): bv32 {
    if High(x) then Xor(Twice(Xor(x, POLYNOMIAL)), 1) else Twice(x)
  }

  lemma BackOfStep(x: bv32)
    ensures Back(Step(x)) == x
  {
    hide Xor, Half, Twice, High, Odd, Step;
    StepByParts(x);
    HalfIsLow(x);
    HighOfPolynomial(Half(x));
    XorCancels(Half(x), 0, POLYNOMIAL);
    XorAssociates(Half(x), POLYNOMIAL, POLYNOMIAL);
    XorSelf(POLYNOMIAL);
    XorSelf(Half(x));
  }

  lemma HalfIsLow(x: bv32)
    ensures !High(Half(x))
    ensures Odd(x) ==> Xor(Twice(Half(x)), 1) == x
    ensures !Odd(x) ==> Twice(Half(x)) == x
  {
  }

  lemma HighOfPolynomial(x: bv32)
    ensures High(Xor(x, POLYNOMIAL)) == !High(x)
  {
  }

  /** The register before `n` bits. */
  function Backs(x: bv32, n: nat): bv32
    decreases n
  {
    if n == 0 then x else Backs(Back(x), n - 1)
  }

  lemma {:induction false} BacksOfSteps(x: bv32, n: nat)
    ensures Backs(Steps(x, n), n) == x
  {
    hide Step, Back;
    if n > 0 {
      OneMore(x, n - 1, Steps(x, n - 1));
      BackOfStep(Steps(x, n - 1));
      BacksOfSteps(x, n - 1);
    }
  }

  lemma TwiceIsLinear(a: bv32, b: bv32)
    ensures Twice(Xor(a, b)) == Xor(Twice(a), Twice(b))
  {
  }

  lemma HighIsLinear(a: bv32, b: bv32)
    ensures High(Xor(a, b)) == (High(a) != High(b))
  {
  }

  /** What a highest bit adds to the register before it. */
  function HighPart(x: bv32): bv32 {
    if High(x) then Xor(Twice(POLYNOMIAL), 1) else 0
  }

  lemma BackByParts(x: bv32)
    ensures Back(x) == Xor(Twice(x), HighPart(x))
  {
    hide Xor, Twice, High;
    TwiceIsLinear(x, POLYNOMIAL);
    XorAssociates(Twice(x), Twice(POLYNOMIAL), 1);
    XorSelf(Twice(x));
  }

  lemma HighPartIsLinear(a: bv32, b: bv32)
    ensures HighPart(Xor(a, b)) == Xor(HighPart(a), HighPart(b))
  {
    hide Xor, Twice, High;
    var k := Xor(Twice(POLYNOMIAL), 1);
    HighIsLinear(a, b);
    XorSelf(k);
    XorSelf(0);
    XorCommutes(0, k);
  }

  lemma BackIsLinear(a: bv32, b: bv32)
    ensures Back(Xor(a, b)) == Xor(Back(a), Back(b))
  {
    hide Xor, Twice, High, Back, HighPart;
    BackByParts(a);
    BackByParts(b);
    BackByParts(Xor(a, b));
    TwiceIsLinear(a, b);
    HighPartIsLinear(a, b);
    XorExchange(Twice(a), Twice(b), HighPart(a), HighPart(b));
  }

  lemma {:induction false} BacksAreLinear(a: bv32, b: bv32, n: nat)
    ensures Backs(Xor(a, b), n) == Xor(Backs(a, n), Backs(b, n))
    decreases n
  {
    hide Back, Xor;
    if n > 0 {
      BackIsLinear(a, b);
      BacksAreLinear(Back(a), Back(b), n - 1);
    }
  }

  lemma BacksNone(x: bv32)
    ensures Backs(x, 0) == x
  {
  }

  lemma BacksStart(x: bv32, n: nat)
    requires n > 0
    ensures Backs(x, n) == Backs(Back(x), n - 1)
  {
  }

  lemma {:induction false} BackOneMore(x: bv32, n: nat, k: bv32)
    requires Backs(x, n) == k
    ensures Backs(x, n + 1) == Back(k)
    decreases n
  {
    hide Back;
    if n > 0 {
      BackOneMore(Back(x), n - 1, k);
    }
  }

  lemma {:induction false} BacksOfZero(n: nat)
    ensures Backs(0, n) == 0
  {
    if n > 0 {
      BacksOfZero(n - 1);
    }
  }

  function IfHigh(x: bv32, k: bv32): bv32 {
    if High(x) then k else 0
  }

  /** A highest bit adds what undoing makes of it alone to what it makes of the
      others. */
  lemma PeelHigh(x: bv32, n: nat, k: bv32)
    requires n > 0 && Backs(0x8000_0000, n) == k
    ensures Backs(x, n) == Xor(IfHigh(x, k), Backs(Twice(x), n - 1))
  {
    hide Backs, Xor, Twice, High;
    var low := if High(x) then Xor(x, 0x8000_0000) else x;
    BackOfLow(x);
    BacksStart(low, n);
    BacksAreLinear(0x8000_0000, low, n);
    XorCommutes(0, Backs(x, n));
    XorSelf(Backs(x, n));
  }

  lemma BackOfLow(x: bv32)
    ensures High(x) ==> Back(Xor(x, 0x8000_0000)) == Twice(x) && Xor(0x8000_0000, Xor(x, 0x8000_0000)) == x
    ensures !High(x) ==> Back(x) == Twice(x)
  {
  }

  /** What undoing up to 24 steps makes of the highest bit. */
  lemma BacksOfHighest()
    ensures Backs(0x8000_0000, 13) == 0x1AE2_4A6B && Backs(0x8000_0000, 14) == 0x35C4_94D6
    ensures Backs(0x8000_0000, 15) == 0x6B89_29AC && Backs(0x8000_0000, 16) == 0xD712_5358
    ensures Backs(0x8000_0000, 17) == 0x7555_A0F1 && Backs(0x8000_0000, 18) == 0xEAAB_41E2
    ensures Backs(0x8000_0000, 19) == 0x0E27_8585 && Backs(0x8000_0000, 20) == 0x1C4F_0B0A
    ensures Backs(0x8000_0000, 21) == 0x389E_1614 && Backs(0x8000_0000, 22) == 0x713C_2C28
    ensures Backs(0x8000_0000, 23) == 0xE278_5850 && Backs(0x8000_0000, 24) == 0x1F81_B6E1
  {
    hide Backs;
    BacksNone(0x8000_0000);
    BackOneMore(0x8000_0000, 0, 0x8000_0000);
    BackOneMore(0x8000_0000, 1, 0xDB71_0641);
    BackOneMore(0x8000_0000, 2, 0x6D93_0AC3);
    BackOneMore(0x8000_0000, 3, 0xDB26_1586);
    BackOneMore(0x8000_0000, 4, 0x6D3D_2D4D);
    BackOneMore(0x8000_0000, 5, 0xDA7A_5A9A);
    BackOneMore(0x8000_0000, 6, 0x6F85_B375);
    BackOneMore(0x8000_0000, 7, 0xDF0B_66EA);
    BackOneMore(0x8000_0000, 8, 0x6567_CB95);
    BackOneMore(0x8000_0000, 9, 0xCACF_972A);
    BackOneMore(0x8000_0000, 10, 0x4EEE_2815);
    BackOneMore(0x8000_0000, 11, 0x9DDC_502A);
    BackOneMore(0x8000_0000, 12, 0xE0C9_A615);
    BackOneMore(0x8000_0000, 13, 0x1AE2_4A6B);
    BackOneMore(0x8000_0000, 14, 0x35C4_94D6);
    BackOneMore(0x8000_0000, 15, 0x6B89_29AC);
    BackOneMore(0x8000_0000, 16, 0xD712_5358);
    BackOneMore(0x8000_0000, 17, 0x7555_A0F1);
    BackOneMore(0x8000_0000, 18, 0xEAAB_41E2);
    BackOneMore(0x8000_0000, 19, 0x0E27_8585);
    BackOneMore(0x8000_0000, 20, 0x1C4F_0B0A);
    BackOneMore(0x8000_0000, 21, 0x389E_1614);
    BackOneMore(0x8000_0000, 22, 0x713C_2C28);
    BackOneMore(0x8000_0000, 23, 0xE278_5850);
  }

  /** What undoing 24 steps makes of a word's 12 highest bits. */
  function BackSum(w: bv32): bv32 {
    var w1 := Twice(w); var w2 := Twice(w1); var w3 := Twice(w2); var w4 := Twice(w3);
    var w5 := Twice(w4); var w6 := Twice(w5); var w7 := Twice(w6); var w8 := Twice(w7);
    var w9 := Twice(w8); var w10 := Twice(w9); var w11 := Twice(w10);
    Xor(IfHigh(w, 0x1F81_B6E1), Xor(IfHigh(w1, 0xE278_5850),
    Xor(IfHigh(w2, 0x713C_2C28), Xor(IfHigh(w3, 0x389E_1614),
    Xor(IfHigh(w4, 0x1C4F_0B0A), Xor(IfHigh(w5, 0x0E27_8585),
    Xor(IfHigh(w6, 0xEAAB_41E2), Xor(IfHigh(w7, 0x7555_A0F1),
    Xor(IfHigh(w8, 0xD712_5358), Xor(IfHigh(w9, 0x6B89_29AC),
    Xor(IfHigh(w10, 0x35C4_94D6), Xor(IfHigh(w11, 0x1AE2_4A6B),
    0))))))))))))
  }

  lemma BacksAreSum(w: bv32)
    requires w & 0x000F_FFFF == 0
    ensures Backs(w, 24) == BackSum(w)
  {
    hide Backs, Xor, IfHigh, Twice;
    TwelveTimes(w);
    BacksOfHighest();
    PeelHigh(w, 24, 0x1F81_B6E1);
    var w1 := Twice(w);
    PeelHigh(w1, 23, 0xE278_5850);
    var w2 := Twice(w1);
    PeelHigh(w2, 22, 0x713C_2C28);
    var w3 := Twice(w2);
    PeelHigh(w3, 21, 0x389E_1614);
    var w4 := Twice(w3);
    PeelHigh(w4, 20, 0x1C4F_0B0A);
    var w5 := Twice(w4);
    PeelHigh(w5, 19, 0x0E27_8585);
    var w6 := Twice(w5);
    PeelHigh(w6, 18, 0xEAAB_41E2);
    var w7 := Twice(w6);
    PeelHigh(w7, 17, 0x7555_A0F1);
    var w8 := Twice(w7);
    PeelHigh(w8, 16, 0xD712_5358);
    var w9 := Twice(w8);
    PeelHigh(w9, 15, 0x6B89_29AC);
    var w10 := Twice(w9);
    PeelHigh(w10, 14, 0x35C4_94D6);
    var w11 := Twice(w10);
    PeelHigh(w11, 13, 0x1AE2_4A6B);
    var w12 := Twice(w11);
    BacksOfZero(12);
  }

  lemma TwelveTimes(w: bv32)
    requires w & 0x000F_FFFF == 0
    ensures Twice(Twice(Twice(Twice(Twice(Twice(Twice(Twice(Twice(Twice(Twice(Twice(w)))))))))))) == 0
  {
  }

  // ----- A change across the payload's end and the checksum -------------------

  /** A word of two bytes, the first lowest. */
  function LowestTwo(x: bv8, y: bv8): bv32 {
    (x as bv32) ^ ((y as bv32) << 8)
  }

  /** A word of three bytes, the first lowest. */
  function LowestThree(x: bv8, y: bv8, z: bv8): bv32 {
    (x as bv32) ^ ((y as bv32) << 8) ^ ((z as bv32) << 16)
  }

  /** A word of three bytes, the first highest. */
  function HighestThree(x: bv8, y: bv8, z: bv8): bv32 {
    ((x as bv32) << 24) ^ ((y as bv32) << 16) ^ ((z as bv32) << 8)
  }

  /** All bits of a byte but its `j` last are clear. */
  ghost predicate LastBits(b: bv8, j: int) {
    && (j < 8 ==> b & 0x80 == 0) && (j < 7 ==> b & 0x40 == 0)
    && (j < 6 ==> b & 0x20 == 0) && (j < 5 ==> b & 0x10 == 0)
    && (j < 4 ==> b & 0x08 == 0) && (j < 3 ==> b & 0x04 == 0)
    && (j < 2 ==> b & 0x02 == 0) && (j < 1 ==> b & 0x01 == 0)
  }

  /** All bits of a byte but its `j` first are clear. */
  ghost predicate FirstBits(b: bv8, j: int) {
    && (j < 1 ==> b & 0x80 == 0) && (j < 2 ==> b & 0x40 == 0)
    && (j < 3 ==> b & 0x20 == 0) && (j < 4 ==> b & 0x10 == 0)
    && (j < 5 ==> b & 0x08 == 0) && (j < 6 ==> b & 0x04 == 0)
    && (j < 7 ==> b & 0x02 == 0) && (j < 8 ==> b & 0x01 == 0)
  }

  /** The differences of two payloads' last three bytes lie in their `j` last
      bits. */
  ghost predicate InLastBits(x: bv8, y: bv8, z: bv8, j: nat) {
    LastBits(x, j - 16) && LastBits(y, j - 8) && LastBits(z, j)
  }

  /** The differences of two checksums' first three bytes lie in their `j` first
      bits. */
  ghost predicate InFirstBits(x: bv8, y: bv8, z: bv8, j: nat) {
    FirstBits(x, j) && FirstBits(y, j - 8) && FirstBits(z, j - 16)
  }

  /** A difference in the `j` last bits of the payload shows in the checksum
      beyond its first `25 - j` bits: no bits of the two make up for each other. */
  lemma Straddle(x: bv8, y: bv8, z: bv8, e0: bv8, e1: bv8, e2: bv8, j: nat)
    requires 1 <= j <= 24 && InLastBits(x, y, z, j) && InFirstBits(e0, e1, e2, 25 - j)
    requires Steps(LowestThree(x, y, z), 24) == HighestThree(e0, e1, e2)
    ensures x == 0 && y == 0 && z == 0
  {
    hide *;
    if j <= 12 {
      FewBits(x, y, z, e0, e1, e2, j);
      StepsOfTwo(y, z);
      StepsAreSum(LowestTwo(y, z));
      if j <= 8 {
        OneByte(LowestTwo(y, z));
      } else {
        TwelveBits(LowestTwo(y, z));
      }
    } else {
      ManyBits(x, y, z, e0, e1, e2, j);
      var w, e := LowestThree(x, y, z), HighestThree(e0, e1, e2);
      BacksOfSteps(w, 24);
      BacksAreSum(e);
      if j <= 16 {
        TwelveOfChecksum(e);
      } else {
        EightOfChecksum(e);
      }
      BacksOfZero(24);
    }
  }

  /** Up to 12 bits of the payload are in its last two bytes. */
  lemma FewBits(x: bv8, y: bv8, z: bv8, e0: bv8, e1: bv8, e2: bv8, j: nat)
    requires 1 <= j <= 12 && InLastBits(x, y, z, j) && InFirstBits(e0, e1, e2, 25 - j)
    ensures x == 0 && LowestTwo(y, z) & 0xFFFF_00F0 == 0 && HighestThree(e0, e1, e2) & 0xFF == 0
    ensures LowestTwo(y, z) == 0 ==> y == 0 && z == 0
    ensures j <= 8 ==> LowestTwo(y, z) & 0xFFFF_00FF == 0
    ensures j > 8 ==> HighestThree(e0, e1, e2) & 0xFFFF == 0
  {
  }

  /** The first of three bytes is clear: its eight steps change nothing. */
  lemma StepsOfTwo(y: bv8, z: bv8)
    ensures Steps(LowestThree(0, y, z), 24) == Steps(LowestTwo(y, z), 16)
  {
    hide Steps;
    var v := LowestTwo(y, z);
    assert v < 0x100_0000 && LowestThree(0, y, z) == Double(v, 8);
    StepsOfShifted(v);
    StepsCompose(Double(v, 8), 8, 16);
  }

  lemma OneByte(w: bv32)
    requires w & 0xFFFF_00FF == 0 && Sum(w) & 0xFF == 0
    ensures w == 0
  {
  }

  lemma TwelveBits(w: bv32)
    requires w & 0xFFFF_00F0 == 0 && Sum(w) & 0xFFFF == 0
    ensures w == 0
  {
  }

  /** With more bits of the payload, at most 12 of the checksum. */
  lemma ManyBits(x: bv8, y: bv8, z: bv8, e0: bv8, e1: bv8, e2: bv8, j: nat)
    requires 13 <= j <= 24 && InLastBits(x, y, z, j) && InFirstBits(e0, e1, e2, 25 - j)
    ensures LowestThree(x, y, z) & 0xFF00_0000 == 0 && HighestThree(e0, e1, e2) & 0x000F_FFFF == 0
    ensures LowestThree(x, y, z) == 0 ==> x == 0 && y == 0 && z == 0
    ensures j <= 16 ==> LowestThree(x, y, z) & 0xFF00_00FF == 0
    ensures j > 16 ==> HighestThree(e0, e1, e2) & 0x00FF_FFFF == 0
  {
  }

  lemma TwelveOfChecksum(e: bv32)
    requires e & 0x000F_FFFF == 0 && BackSum(e) & 0xFF00_00FF == 0
    ensures e == 0
  {
  }

  lemma EightOfChecksum(e: bv32)
    requires e & 0x00FF_FFFF == 0 && BackSum(e) & 0xFF00_0000 == 0
    ensures e == 0
  {
  }
}
