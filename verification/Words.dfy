/** Unsigned machine words as naturals: the bitwise operators the sources use
    on `u32`, with the width written out, and words as bit strings. */
module Words {

  const U32: nat := 0x1_0000_0000

  function Pow2(k: nat): (p: nat)
    ensures p > 0
  {
    if k == 0 then 1 else 2 * Pow2(k - 1)
  }

  /** `x << k` on a `u32`: the high bits are lost. */
  function Shl32(x: nat, k: nat): (r: nat)
    requires x < U32
    ensures r < U32
    decreases k, x
  {
    if k == 0 then x else Shl32(2 * x % U32, k - 1)
  }

  /** `x >> k`. */
  function Shr(x: nat, k: nat): (r: nat)
    ensures r <= x
  {
    if k == 0 then x else Shr(x / 2, k - 1)
  }

  /** `x & y`. */
  function And(x: nat, y: nat): nat {
    if x == 0 || y == 0 then 0
    else 2 * And(x / 2, y / 2) + if x % 2 == 1 && y % 2 == 1 then 1 else 0
  }

  /** `x | y`. */
  function Or(x: nat, y: nat): nat {
    if x == 0 then y
    else if y == 0 then x
    else 2 * Or(x / 2, y / 2) + if x % 2 == 1 || y % 2 == 1 then 1 else 0
  }

  /** `!x` on a `u32`. */
  function Not32(x: nat): (r: nat)
    requires x < U32
    ensures r < U32
  {
    U32 - 1 - x
  }

  /** The `n` low bits of `x`, the highest first. */
  function Low(x: nat, n: nat): (bits: seq<bool>)
    ensures |bits| == n
  {
    if n == 0 then [] else Low(x / 2, n - 1) + [x % 2 == 1]
  }

  /** The number whose bits, the highest first, are `bits`. */
  function Value(bits: seq<bool>): (x: nat)
    ensures x < Pow2(|bits|)
    decreases |bits|
  {
    if bits == [] then 0
    else
      var last := |bits| - 1;
      2 * Value(bits[..last]) + if bits[last] then 1 else 0
  }

  /** `x` modulo `2^k`. */
  function Keep(x: nat, k: nat): (r: nat)
    ensures r < Pow2(k) && r <= x
  {
    if k == 0 then 0 else 2 * Keep(x / 2, k - 1) + x % 2
  }

  function Zeros(n: nat): seq<bool> {
    seq(n, _ => false)
  }

  lemma Pow2Values()
    ensures Pow2(5) == 32 && Pow2(8) == 256 && Pow2(32) == U32
  {
    SmallPowers();
    hide Pow2;
    Pow2Add(8, 8);
    Pow2Add(16, 16);
  }

  lemma SmallPowers()
    ensures Pow2(5) == 32 && Pow2(8) == 256
  {
  }

  lemma {:induction false} Pow2Add(a: nat, b: nat)
    ensures Pow2(a + b) == Pow2(a) * Pow2(b)
  {
    if a > 0 {
      Pow2Add(a - 1, b);
      assert Pow2(a + b) == 2 * (Pow2(a - 1) * Pow2(b)) == Pow2(a) * Pow2(b);
    }
  }

  lemma {:induction false} Pow2Monotone(a: nat, b: nat)
    requires a <= b
    ensures Pow2(a) <= Pow2(b)
  {
    if a < b {
      Pow2Monotone(a, b - 1);
    }
  }

  lemma {:induction false} ValueOfLow(x: nat, n: nat)
    requires x < Pow2(n)
    ensures Value(Low(x, n)) == x
  {
    if n > 0 {
      ValueOfLow(x / 2, n - 1);
      assert Low(x, n)[..n - 1] == Low(x / 2, n - 1);
    }
  }

  lemma {:induction false} LowOfValue(bits: seq<bool>)
    ensures Low(Value(bits), |bits|) == bits
    decreases |bits|
  {
    if bits != [] {
      LowOfValue(bits[..|bits| - 1]);
    }
  }

  /** The `n + k` low bits: the `n` of the number shifted right by `k`, then
      the `k` lowest. */
  lemma {:induction false} LowSplit(x: nat, n: nat, k: nat)
    ensures Low(x, n + k) == Low(Shr(x, k), n) + Low(x, k)
    decreases k
  {
    if k == 0 {
      assert Low(x, n) + Low(x, 0) == Low(x, n);
    } else {
      LowSplit(x / 2, n, k - 1);
      assert Low(x, n + k) == (Low(Shr(x, k), n) + Low(x / 2, k - 1)) + [x % 2 == 1];
    }
  }

  /** Bits above the `m` lowest don't matter to the `n <= m` lowest. */
  lemma {:induction false} LowKeep(x: nat, n: nat, m: nat)
    requires n <= m
    ensures Low(Keep(x, m), n) == Low(x, n)
  {
    if n > 0 {
      LowKeep(x / 2, n - 1, m - 1);
    }
  }

  /** Masking with `2^k - 1` keeps the `k` low bits. */
  lemma {:induction false} AndKeep(x: nat, k: nat)
    ensures And(x, Pow2(k) - 1) == Keep(x, k)
  {
    if k > 0 {
      AndKeep(x / 2, k - 1);
      assert (Pow2(k) - 1) / 2 == Pow2(k - 1) - 1;
    }
  }

  lemma {:induction false} KeepZero(k: nat)
    ensures Keep(0, k) == 0
  {
    if k > 0 { KeepZero(k - 1); }
  }

  lemma {:induction false} OrBound(x: nat, y: nat, k: nat)
    requires x < Pow2(k) && y < Pow2(k)
    ensures Or(x, y) < Pow2(k)
  {
    if x > 0 && y > 0 {
      OrBound(x / 2, y / 2, k - 1);
    }
  }

  /** A number below `2^k` has no bits above the `k` lowest. */
  lemma {:induction false} LowOfSmall(y: nat, n: nat, k: nat)
    requires y < Pow2(k)
    ensures Low(y, n + k) == Zeros(n) + Low(y, k)
    decreases n + k
  {
    if k > 0 {
      LowOfSmall(y / 2, n, k - 1);
    } else if n > 0 {
      LowOfSmall(0, n - 1, 0);
    }
  }

  /** A left shift moves the bits up and clears the lowest ones; what it loses
      lies above them. */
  lemma {:induction false} LowShl(x: nat, n: nat, k: nat)
    requires x < U32 && n + k <= 32
    ensures Low(Shl32(x, k), n + k) == Low(x, n) + Zeros(k)
    decreases k
  {
    if k == 0 {
      assert Low(x, n) + Zeros(0) == Low(x, n);
    } else {
      LowDouble(x, n);
      LowShl(2 * x % U32, n + 1, k - 1);
      assert (Low(x, n) + [false]) + Zeros(k - 1) == Low(x, n) + Zeros(k);
    }
  }

  lemma LowDouble(x: nat, n: nat)
    requires n <= 31
    ensures Low(2 * x % U32, n + 1) == Low(x, n) + [false]
  {
    var y := 2 * x % U32;
    assert y / 2 == x % 0x8000_0000 && y % 2 == 0;
    LowModulus(x, n);
  }

  lemma LowModulus(x: nat, n: nat)
    requires n <= 31
    ensures Low(x % 0x8000_0000, n) == Low(x, n)
  {
    ModulusIsKeep(x, 31);
    Pow2Values();
    LowKeep(x, n, 31);
  }

  lemma {:induction false} ModulusIsKeep(x: nat, k: nat)
    requires k <= 32
    ensures x % Pow2(k) == Keep(x, k)
  {
    if k > 0 {
      ModulusIsKeep(x / 2, k - 1);
      ModHalf(x, Pow2(k - 1));
    }
  }

  lemma ModHalf(x: nat, d: nat)
    requires d > 0
    ensures x % (2 * d) == 2 * (x / 2 % d) + x % 2
  {
    var q, r := x / 2 / d, x / 2 % d;
    assert x == q * (2 * d) + (2 * r + x % 2);
    ModUnique(x, 2 * d, q, 2 * r + x % 2);
  }

  lemma ModUnique(x: nat, d: nat, q: nat, r: nat)
    requires d > 0 && r < d && x == q * d + r
    ensures x / d == q && x % d == r
  {
    assert x == (x / d) * d + x % d;
    SmallMultiple(x / d - q, d);
  }

  lemma SmallMultiple(e: int, d: int)
    requires d > 0
    ensures -d < e * d < d ==> e == 0
  {
    if e >= 1 {
      assert e * d >= d;
    } else if e <= -1 {
      assert e * d <= -d;
    }
  }

  lemma {:induction false} ShrBound(x: nat, n: nat, k: nat)
    requires x < Pow2(n) && k <= n
    ensures Shr(x, k) < Pow2(n - k)
  {
    if k > 0 {
      ShrBound(x / 2, n - 1, k - 1);
    }
  }

  lemma OrLast(x: nat, y: nat)
    ensures Or(x, y) / 2 == Or(x / 2, y / 2)
    ensures Or(x, y) % 2 == 1 <==> x % 2 == 1 || y % 2 == 1
  {
  }

  lemma LowLast(x: nat, n: nat)
    requires n > 0
    ensures Low(x, n) == Low(x / 2, n - 1) + [x % 2 == 1]
    ensures Low(x, n)[..n - 1] == Low(x / 2, n - 1) && Low(x, n)[n - 1] == (x % 2 == 1)
  {
  }

  lemma ZerosLast(k: nat)
    requires k > 0
    ensures Zeros(k)[..k - 1] == Zeros(k - 1) && !Zeros(k)[k - 1]
  {
  }

  lemma {:induction false} LowOfNothing(n: nat)
    ensures Low(0, n) == Zeros(n)
  {
    if n > 0 {
      LowOfNothing(n - 1);
    }
  }

  lemma OrNothing(x: nat)
    ensures Or(x, 0) == x
  {
  }

  /** Two numbers or'ed, one with its low bits clear, the other with only
      those. */
  lemma {:induction false} LowOr(x: nat, y: nat, n: nat, k: nat)
    requires y < Pow2(k)
    requires Low(x, k) == Zeros(k)
    ensures Low(Or(x, y), n + k) == Low(x, n + k)[..n] + Low(y, k)
    decreases k
  {
    hide Low, Or, Zeros;
    if k == 0 {
      OrNothing(x);
      LowOfNone(y);
      assert Low(x, n)[..n] + [] == Low(x, n);
    } else {
      var low := Low(x, n + k);
      LowLast(x, k);
      LowLast(x, n + k);
      LowLast(y, k);
      LowLast(Or(x, y), n + k);
      OrLast(x, y);
      ZerosLast(k);
      LowOr(x / 2, y / 2, n, k - 1);
      assert low[..n] == low[..n + k - 1][..n];
      assert low[..n] + Low(y, k) == (low[..n] + Low(y / 2, k - 1)) + [y % 2 == 1];
    }
  }

  lemma LowOfNone(x: nat)
    ensures Low(x, 0) == []
  {
  }

  /** `(x << k) | y` for `y < 2^k`: the `n` low bits of `x` move up and the `k`
      bits of `y` follow, whatever high bits the shift lost. */
  lemma ShiftIn(x: nat, y: nat, n: nat, k: nat)
    requires x < U32 && y < Pow2(k) && n + k <= 32
    ensures Or(Shl32(x, k), y) < U32
    ensures Low(Or(Shl32(x, k), y), n + k) == Low(x, n) + Low(y, k)
  {
    var z := Shl32(x, k);
    LowShl(x, n, k);
    LowShl(x, 0, k);
    assert Low(x, 0) + Zeros(k) == Zeros(k);
    LowOr(z, y, n, k);
    Pow2Monotone(k, 32);
    Pow2Values();
    OrBound(z, y, 32);
  }

  /** `(x >> k) & (2^n - 1)`: the `n` bits above the `k` lowest. */
  lemma ShiftOut(x: nat, n: nat, k: nat)
    ensures And(Shr(x, k), Pow2(n) - 1) < Pow2(n)
    ensures Low(x, n + k) == Low(And(Shr(x, k), Pow2(n) - 1), n) + Low(x, k)
  {
    AndKeep(Shr(x, k), n);
    LowSplit(x, n, k);
    LowKeep(Shr(x, k), n, n);
  }
}
