/** Which addresses a sweep of a network tries (`range` in
    `common/src/discovery.rs`), in `u32` arithmetic. */
module Sweeps {
  import opened Wrappers
  import opened Words
  import opened Decimals
  import opened Addresses

  /** `network`, whether only a part of it is looked at, and the addresses. */
  datatype Sweep = Sweep(network: string, partial: bool, addresses: seq<nat>)

  // ----- The source ----------------------------------------------------------

  /** The closure `hosts`: `(1 << (32 - prefix)) - 2`, which doesn't overflow for
      the prefixes it gets. */
  function Hosts(prefix: nat): nat
    requires 8 <= prefix <= 30
  {
    HostsAre(prefix);
    Shl32(1, 32 - prefix) - 2
  }

  /** The addresses from `low` to before `high`, without `own`, the first `room`
      of them: the iterator chain of `range`. */
  function Candidates(low: nat, high: nat, own: nat, room: nat): (r: seq<nat>)
    ensures |r| <= room
    decreases high - low
  {
    if low >= high || room == 0 then []
    else if low == own then Candidates(low + 1, high, own, room)
    else [low] + Candidates(low + 1, high, own, room - 1)
  }

  /** The prefix that is looked at, and whether it isn't the whole network. */
  function Looked(prefix: nat, room: nat): (r: (nat, bool))
    requires prefix < 31
    ensures 8 <= r.0 <= 30
  {
    var whole := if prefix < 8 then 8 else prefix;
    if whole < 24 && Hosts(whole) > room then (24, true) else (whole, whole != prefix)
  }

  function Mask(prefix: nat): (mask: nat)
    requires 8 <= prefix <= 30
    ensures mask < U32
  {
    Shl32(U32 - 1, 32 - prefix)
  }

  /** `range`. */
  function Range(address: nat, prefix: nat, room: nat): Option<Sweep>
    requires address < U32 && room < U32
  {
    if prefix >= 31 || room == 0 then None
    else
      var (length, partial) := Looked(prefix, room);
      var mask := Mask(length);
      MaskIs(address, 32 - length);
      var network := And(address, mask);
      var addresses := Candidates(network + 1, Or(network, Not32(mask)), address, room);
      Some(Sweep(ShowAddress(network) + "/" + Decimal(length),
                 partial || |addresses| < (if Hosts(length) >= 1 then Hosts(length) - 1 else 0),
                 addresses))
  }

  // ----- The masks -----------------------------------------------------------

  /** A left shift is a multiplication, modulo `2^32`. */
  lemma {:induction false} ShiftIsProduct(x: nat, k: nat)
    requires x < U32
    ensures Shl32(x, k) == x * Pow2(k) % U32
    decreases k
  {
    if k > 0 {
      ShiftIsProduct(2 * x % U32, k - 1);
      TimesModulo(2 * x, Pow2(k - 1));
      assert x * Pow2(k) == (2 * x) * Pow2(k - 1);
    }
  }

  lemma TimesModulo(x: nat, p: nat)
    ensures (x % U32) * p % U32 == x * p % U32
  {
    var q, r := x / U32, x % U32;
    assert x == q * U32 + r;
    Distribute(q * U32, r, p);
    Commute(q, U32, p);
    AddMultiple(r * p, q * p);
  }

  lemma Distribute(a: nat, b: nat, p: nat)
    ensures (a + b) * p == a * p + b * p
  {
  }

  lemma Commute(q: nat, u: nat, p: nat)
    ensures (q * u) * p == (q * p) * u
  {
  }

  lemma AddMultiple(x: nat, m: nat)
    ensures (m * U32 + x) % U32 == x % U32
  {
    ModUnique(m * U32 + x, U32, m + x / U32, x % U32);
  }

  lemma HostsAre(prefix: nat)
    requires 8 <= prefix <= 30
    ensures Shl32(1, 32 - prefix) == Pow2(32 - prefix)
    ensures 4 <= Pow2(32 - prefix) < U32
  {
    var h := 32 - prefix;
    Pow2Monotone(2, h);
    Pow2Monotone(h, 31);
    Pow2Values();
    ShiftIsProduct(1, h);
  }

  /** `u32::MAX << h` has the bits from `h` on. */
  lemma HighBits(h: nat)
    requires h <= 32
    ensures Shl32(U32 - 1, h) == U32 - Pow2(h)
  {
    ShiftIsProduct(U32 - 1, h);
    var p := Pow2(h);
    Pow2Monotone(h, 32);
    Pow2Values();
    assert (U32 - 1) * p == (p - 1) * U32 + (U32 - p) by {
      Distribute(U32 - 1, 1, p);
      Distribute(p - 1, 1, U32);
    }
    if p == U32 {
      ModUnique((U32 - 1) * p, U32, p - 1, 0);
    } else {
      ModUnique((U32 - 1) * p, U32, p - 1, U32 - p);
    }
  }

  /** Masking with the high bits of `n` clears the `h` low ones. */
  lemma {:induction false} AndHighBits(x: nat, n: nat, h: nat)
    requires x < Pow2(n) && h <= n
    ensures Pow2(h) <= Pow2(n)
    ensures And(x, Pow2(n) - Pow2(h)) == x - Keep(x, h)
  {
    hide And, Keep, Pow2;
    Pow2Monotone(h, n);
    if h == 0 {
      AndKeep(x, n);
      KeepSmall(x, n);
      KeepNothing(x);
    } else {
      HalfPow2(n);
      HalfPow2(h);
      AndHighBits(x / 2, n - 1, h - 1);
      AndEven(x, Pow2(n - 1) - Pow2(h - 1));
      KeepMore(x, h);
    }
  }

  lemma KeepNothing(x: nat)
    ensures Keep(x, 0) == 0 && Pow2(0) == 1
  {
  }

  lemma KeepMore(x: nat, h: nat)
    requires h > 0
    ensures Keep(x, h) == 2 * Keep(x / 2, h - 1) + x % 2
  {
  }

  lemma HalfPow2(n: nat)
    requires n > 0
    ensures Pow2(n) == 2 * Pow2(n - 1)
  {
  }

  lemma AndEven(x: nat, half: nat)
    ensures And(x, 2 * half) == 2 * And(x / 2, half)
  {
    assert (2 * half) / 2 == half && (2 * half) % 2 == 0;
  }

  lemma {:induction false} KeepSmall(x: nat, n: nat)
    requires x < Pow2(n)
    ensures Keep(x, n) == x
  {
    if n > 0 {
      KeepSmall(x / 2, n - 1);
    }
  }

  lemma {:induction false} KeepTwice(x: nat, h: nat)
    ensures Keep(x - Keep(x, h), h) == 0
  {
    if h > 0 {
      KeepTwice(x / 2, h - 1);
      assert (x - Keep(x, h)) / 2 == x / 2 - Keep(x / 2, h - 1);
      assert (x - Keep(x, h)) % 2 == 0;
    }
  }

  /** Setting the `h` low bits of a number that has none of them. */
  lemma {:induction false} OrLowBits(x: nat, h: nat)
    requires Keep(x, h) == 0
    ensures Or(x, Pow2(h) - 1) == x + (Pow2(h) - 1)
  {
    if h > 0 && x > 0 {
      OrLowBits(x / 2, h - 1);
      assert (Pow2(h) - 1) / 2 == Pow2(h - 1) - 1 && (Pow2(h) - 1) % 2 == 1;
      assert x % 2 == 0;
    }
  }

  /** The network's first address and its last, from the mask. */
  lemma MaskIs(address: nat, h: nat)
    requires address < U32 && 2 <= h <= 24
    ensures
      var mask := Shl32(U32 - 1, h);
      var network := And(address, mask);
      && network == address - address % Pow2(h)
      && Or(network, Not32(mask)) == network + (Pow2(h) - 1)
      && network + (Pow2(h) - 1) < U32
  {
    hide And, Or, Shl32, Keep, Pow2;
    HighBits(h);
    Pow2Values();
    AndHighBits(address, 32, h);
    ModulusIsKeep(address, h);
    KeepTwice(address, h);
    OrLowBits(address - Keep(address, h), h);
    LastInRange(address, h);
  }

  lemma LastInRange(address: nat, h: nat)
    requires address < U32 && h <= 32
    ensures address - address % Pow2(h) + (Pow2(h) - 1) < U32
  {
    hide *;
    Pow2Add(32 - h, h);
    Pow2Values();
    LastOf(address, Pow2(h), Pow2(32 - h));
  }

  lemma LastOf(x: nat, p: nat, q: nat)
    requires p > 0 && x < q * p
    ensures x - x % p + (p - 1) < q * p
  {
    DivMod(x, p);
    LastBelow(x / p, x % p, p, q);
  }

  lemma DivMod(x: nat, p: nat)
    requires p > 0
    ensures x == (x / p) * p + x % p
  {
  }

  lemma LastBelow(k: nat, r: nat, p: nat, q: nat)
    requires k * p + r < q * p && r < p
    ensures k * p + (p - 1) < q * p
  {
    if k >= q {
      Grows(q, k, p);
    } else {
      Grows(k + 1, q, p);
      Distribute(k, 1, p);
    }
  }

  lemma Grows(a: nat, b: nat, p: nat)
    requires a <= b
    ensures a * p <= b * p
  {
    Distribute(a, b - a, p);
  }

  // ----- What is looked at ---------------------------------------------------

  /** `x` is in the network of `address` whose addresses differ in `h` low bits. */
  predicate InNetwork(x: nat, address: nat, h: nat) {
    x / Pow2(h) == address / Pow2(h)
  }

  /** And it is neither its first address, the network's own, nor its last, the
      broadcast address. */
  predicate IsHost(x: nat, address: nat, h: nat) {
    InNetwork(x, address, h) && x % Pow2(h) != 0 && x % Pow2(h) != Pow2(h) - 1
  }

  ghost predicate Ascends(s: seq<nat>) {
    forall i, j :: 0 <= i < j < |s| ==> s[i] < s[j]
  }

  /** `s` holds the lowest hosts other than `address`, ascending, at most `room`:
      those it leaves out are above them, and only when they are `room`. */
  ghost predicate LowestHosts(s: seq<nat>, address: nat, h: nat, room: nat) {
    && |s| <= room && Ascends(s)
    && (forall x :: x in s ==> IsHost(x, address, h) && x != address)
    && (forall x: nat :: IsHost(x, address, h) && x != address && x !in s ==>
          |s| == room && forall y :: y in s ==> y < x)
  }

  lemma {:induction false} CandidatesAscend(low: nat, high: nat, own: nat, room: nat)
    ensures
      var s := Candidates(low, high, own, room);
      Ascends(s) && forall i :: 0 <= i < |s| ==> low <= s[i] < high && s[i] != own
    decreases high - low
  {
    if low < high && room > 0 {
      CandidatesAscend(low + 1, high, own, if low == own then room else room - 1);
    }
  }

  /** One that is left out is above all of them, and they are as many as there is
      room for. */
  lemma {:induction false} LeftOut(low: nat, high: nat, own: nat, room: nat, x: nat)
    requires low <= x < high && x != own && x !in Candidates(low, high, own, room)
    ensures
      var s := Candidates(low, high, own, room);
      |s| == room && forall i :: 0 <= i < |s| ==> s[i] < x
    decreases high - low
  {
    if room > 0 {
      if low == own {
        LeftOut(low + 1, high, own, room, x);
      } else {
        var s, rest := Candidates(low, high, own, room), Candidates(low + 1, high, own, room - 1);
        assert s == [low] + rest;
        assert low in s;
        LeftOut(low + 1, high, own, room - 1, x);
      }
    }
  }

  lemma CandidatesAre(low: nat, high: nat, own: nat, room: nat)
    ensures
      var s := Candidates(low, high, own, room);
      && Ascends(s)
      && (forall x :: x in s ==> low <= x < high && x != own)
      && (forall x: nat :: low <= x < high && x != own && x !in s ==>
            |s| == room && forall y :: y in s ==> y < x)
  {
    hide Candidates, Ascends;
    var s := Candidates(low, high, own, room);
    CandidatesAscend(low, high, own, room);
    forall x: nat | low <= x < high && x != own && x !in s
      ensures |s| == room && forall y :: y in s ==> y < x
    {
      LeftOut(low, high, own, room, x);
    }
  }

  lemma {:induction false} CandidatesCount(low: nat, high: nat, own: nat, room: nat)
    requires low <= high
    ensures
      var all := high - low - (if low <= own < high then 1 else 0);
      |Candidates(low, high, own, room)| == if room < all then room else all
    decreases high - low
  {
    if low < high && room > 0 {
      CandidatesCount(low + 1, high, own, if low == own then room else room - 1);
    }
  }

  lemma {:induction false} CandidatesAll(low: nat, high: nat, own: nat, room: nat)
    requires low <= high && room >= high - low - (if low <= own < high then 1 else 0)
    ensures forall x: nat :: low <= x < high && x != own ==> x in Candidates(low, high, own, room)
    decreases high - low
  {
    if low < high && room > 0 {
      CandidatesAll(low + 1, high, own, if low == own then room else room - 1);
    }
  }

  lemma {:induction false} CandidatesMiss(low: nat, high: nat, own: nat, room: nat) returns (x: nat)
    requires low <= high && room < high - low - (if low <= own < high then 1 else 0)
    ensures low <= x < high && x != own && x !in Candidates(low, high, own, room)
    decreases high - low
  {
    if room == 0 {
      x := if low == own then low + 1 else low;
    } else {
      x := CandidatesMiss(low + 1, high, own, if low == own then room else room - 1);
    }
  }

  /** The first address of a network. */
  function Network(address: nat, h: nat): (network: nat)
    ensures network <= address
  {
    RestAtMost(address, Pow2(h));
    address - address % Pow2(h)
  }

  lemma RestAtMost(x: nat, p: nat)
    requires p > 0
    ensures x % p <= x
  {
  }

  /** The hosts of a network are the addresses between its first and its last. */
  lemma HostsBetween(x: nat, address: nat, h: nat)
    requires h >= 2
    ensures IsHost(x, address, h) <==> Network(address, h) + 1 <= x < Network(address, h) + (Pow2(h) - 1)
  {
    Pow2Monotone(2, h);
    assert Pow2(2) == 4;
    hide Pow2;
    BlockBetween(x, address, Pow2(h));
  }

  lemma BlockBetween(x: nat, a: nat, p: nat)
    requires p >= 4
    ensures x / p == a / p && x % p != 0 && x % p != p - 1 <==> a - a % p < x < a - a % p + (p - 1)
  {
    DivMod(a, p);
    DivMod(x, p);
    var k := a / p;
    if k * p < x < k * p + (p - 1) {
      ModUnique(x, p, k, x - k * p);
    }
    if x / p == k {
      assert x == k * p + x % p;
    }
  }

  /** The network text, and its lowest hosts. */
  ghost predicate LooksAt(sweep: Sweep, address: nat, h: nat, room: nat)
    requires address < U32 && h <= 32
  {
    && LowestHosts(sweep.addresses, address, h, room)
    && sweep.network == ShowAddress(Network(address, h)) + "/" + Decimal(32 - h)
  }

  /** The addresses of a sweep as an interval without the machine's own. */
  lemma RangeIs(address: nat, prefix: nat, room: nat)
    requires address < U32 && 0 < room < U32 && prefix < 31
    ensures
      var sweep, length := Range(address, prefix, room).value, Looked(prefix, room).0;
      var network, size := Network(address, 32 - length), Pow2(32 - length);
      && sweep.addresses == Candidates(network + 1, network + (size - 1), address, room)
      && sweep.network == ShowAddress(network) + "/" + Decimal(length)
      && sweep.partial == (Looked(prefix, room).1 || |sweep.addresses| < size - 3)
      && Hosts(length) == size - 2
  {
    hide Pow2, Candidates, ShowAddress, Decimal, And, Or, Not32, Shl32, Looked;
    var length := Looked(prefix, room).0;
    MaskIs(address, 32 - length);
    HostsAre(length);
  }

  /** What `range` gives: nothing for a prefix of 31 or more or without room;
      else the network looked at, which is the machine's or, if that is too
      large, a part of it around the machine, and its lowest hosts. */
  lemma RangeGives(address: nat, prefix: nat, room: nat)
    requires address < U32 && room < U32
    ensures Range(address, prefix, room).None? <==> prefix >= 31 || room == 0
    ensures prefix < 31 && room > 0 ==>
              && Looked(prefix, room).0 >= prefix
              && LooksAt(Range(address, prefix, room).value, address, 32 - Looked(prefix, room).0, room)
  {
    hide Pow2, IsHost, Candidates, ShowAddress, Decimal, And, Or, Not32, Shl32, Network, LowestHosts;
    if prefix < 31 && room > 0 {
      RangeIs(address, prefix, room);
      LowestHostsAre(address, 32 - Looked(prefix, room).0, room);
      hide Range;
    }
  }

  lemma LowestHostsAre(address: nat, h: nat, room: nat)
    requires h >= 2
    ensures Pow2(h) >= 1
    ensures LowestHosts(Candidates(Network(address, h) + 1, Network(address, h) + (Pow2(h) - 1), address, room),
                        address, h, room)
  {
    hide Pow2, IsHost, Candidates, Network;
    var low, high := Network(address, h) + 1, Network(address, h) + (Pow2(h) - 1);
    CandidatesAre(low, high, address, room);
    forall x: nat ensures IsHost(x, address, h) <==> low <= x < high {
      HostsBetween(x, address, h);
    }
  }

  /** A larger network has a host outside a smaller one around the address. */
  lemma Outside(address: nat, g: nat, h: nat) returns (x: nat)
    requires 2 <= g < h
    ensures IsHost(x, address, h) && x != address && !InNetwork(x, address, g)
  {
    hide IsHost, Network, Pow2;
    var p, q, first := Pow2(g), Pow2(h), Network(address, h);
    Larger(g, h);
    var x1, x2 := first + 1, first + (q - 2);
    HostsBetween(x1, address, h);
    HostsBetween(x2, address, h);
    Apart(x1, x2, p);
    x := if x1 / p == address / p then x2 else x1;
  }

  lemma Larger(g: nat, h: nat)
    requires 2 <= g < h
    ensures Pow2(g) >= 4 && Pow2(h) >= 2 * Pow2(g)
  {
    assert Pow2(2) == 4;
    Pow2Monotone(2, g);
    Pow2Monotone(g + 1, h);
  }

  lemma Apart(x: nat, y: nat, p: nat)
    requires p > 0 && x + p <= y
    ensures x / p != y / p
  {
    DivMod(x, p);
    DivMod(y, p);
  }

  /** Every other host of the machine's network is tried. */
  ghost predicate Complete(addresses: seq<nat>, address: nat, prefix: nat)
    requires prefix <= 32
  {
    forall x: nat :: IsHost(x, address, 32 - prefix) && x != address ==> x in addresses
  }

  /** When the network isn't narrowed, it is complete if there is room. */
  lemma CompleteWithRoom(address: nat, prefix: nat, room: nat)
    requires address < U32 && 0 < room < U32 && prefix < 31 && Looked(prefix, room) == (prefix, false)
    ensures
      var addresses := Range(address, prefix, room).value.addresses;
      var others := Hosts(prefix) - (if IsHost(address, address, 32 - prefix) then 1 else 0);
      && |addresses| == (if room < others then room else others)
      && (Complete(addresses, address, prefix) <==> room >= others)
  {
    hide Pow2, IsHost, Candidates, Network, ShowAddress, Decimal, And, Or, Not32, Shl32;
    var h := 32 - prefix;
    var low, high := Network(address, h) + 1, Network(address, h) + (Pow2(h) - 1);
    RangeIs(address, prefix, room);
    HostsAre(prefix);
    hide Range;
    HostsBetween(address, address, h);
    CandidatesCount(low, high, address, room);
    forall x: nat ensures IsHost(x, address, h) <==> low <= x < high {
      HostsBetween(x, address, h);
    }
    if room < high - low - (if low <= address < high then 1 else 0) {
      var x := CandidatesMiss(low, high, address, room);
    } else {
      CandidatesAll(low, high, address, room);
    }
  }

  /** When it is narrowed, it never is. */
  lemma NarrowedIsPartial(address: nat, prefix: nat, room: nat)
    requires address < U32 && 0 < room < U32 && prefix < 31 && Looked(prefix, room).1
    ensures Range(address, prefix, room).value.partial
    ensures !Complete(Range(address, prefix, room).value.addresses, address, prefix)
  {
    hide *;
    RangeGives(address, prefix, room);
    var g, addresses := 32 - Looked(prefix, room).0, Range(address, prefix, room).value.addresses;
    RangeIs(address, prefix, room);
    Narrower(prefix, room);
    var x := Outside(address, g, 32 - prefix);
    HostsOnly(Range(address, prefix, room).value, address, g, room);
    Misses(addresses, address, prefix, g, x);
  }

  lemma Narrower(prefix: nat, room: nat)
    requires prefix < 31 && Looked(prefix, room).1
    ensures Looked(prefix, room).0 > prefix
  {
  }

  lemma HostsOnly(sweep: Sweep, address: nat, h: nat, room: nat)
    requires address < U32 && h <= 32 && LooksAt(sweep, address, h, room)
    ensures forall y :: y in sweep.addresses ==> InNetwork(y, address, h)
  {
    assert forall y :: y in sweep.addresses ==> IsHost(y, address, h);
  }

  lemma Misses(addresses: seq<nat>, address: nat, prefix: nat, g: nat, x: nat)
    requires prefix <= 32 && forall y :: y in addresses ==> InNetwork(y, address, g)
    requires IsHost(x, address, 32 - prefix) && x != address && !InNetwork(x, address, g)
    ensures !Complete(addresses, address, prefix)
  {
    hide InNetwork, IsHost;
  }

  /** `partial` says exactly whether some other host of the machine's network is
      left out, for a machine whose address is a host of it. For one whose
      address is the network's first or last, it doesn't when there is room for
      all hosts but one of a network that isn't narrowed. */
  lemma PartialIsIncomplete(address: nat, prefix: nat, room: nat)
    requires address < U32 && 0 < room < U32 && prefix < 31
    ensures
      var sweep := Range(address, prefix, room).value;
      (sweep.partial <==> !Complete(sweep.addresses, address, prefix)) <==>
      IsHost(address, address, 32 - prefix) || prefix < 24 || room != Hosts(prefix) - 1
  {
    hide Complete, IsHost, Candidates, Network, Pow2, Shl32, And, Or, Not32, ShowAddress, Decimal;
    RangeIs(address, prefix, room);
    hide Range;
    if Looked(prefix, room).1 {
      NarrowedIsPartial(address, prefix, room);
    } else {
      CompleteWithRoom(address, prefix, room);
    }
  }

  /** A machine at `10.0.0.0` in a network of 24 bits, with room for 253: one host
      is left out, and `partial` doesn't say so. */
  lemma OneLeftOut()
    ensures
      var sweep := Range(0x0A00_0000, 24, 253).value;
      !sweep.partial && !Complete(sweep.addresses, 0x0A00_0000, 24)
  {
    hide Complete, Candidates, Network, Shl32, And, Or, Not32, ShowAddress, Decimal;
    Pow2Values();
    assert !IsHost(0x0A00_0000, 0x0A00_0000, 8);
    RangeIs(0x0A00_0000, 24, 253);
    CompleteWithRoom(0x0A00_0000, 24, 253);
  }

  /** What is looked at: the whole network, or the 24 bits around the machine if it is
      shorter than that and has more hosts than there is room for; never more than
      a network of 8 bits. */
  lemma LookedIs(prefix: nat, room: nat)
    requires prefix < 31
    ensures
      var (length, partial) := Looked(prefix, room);
      var whole := if prefix < 8 then 8 else prefix;
      && (whole < 24 && Pow2(32 - whole) - 2 > room ==> length == 24 && partial)
      && (whole >= 24 || Pow2(32 - whole) - 2 <= room ==> length == whole && (partial <==> prefix < 8))
  {
    hide Pow2, Shl32;
    if prefix < 24 {
      HostsAre(if prefix < 8 then 8 else prefix);
    }
  }

  /** A network of 16 bits has 65534 hosts: with less room, and from any shorter
      prefix, only 24 bits are looked at; one of 24 bits and more always whole. */
  lemma LookedExamples(room: nat)
    ensures Looked(16, 65_534) == (16, false) && Looked(16, 65_533) == (24, true)
    ensures Looked(24, room) == (24, false) && Looked(30, room) == (30, false)
    ensures room < 16_777_214 ==> Looked(8, room) == (24, true) && Looked(0, room) == (24, true)
    ensures room >= 16_777_214 ==> Looked(8, room) == (8, false) && Looked(0, room) == (8, true)
  {
    SixteenAndMore();
    hide Pow2, Shl32, Looked;
    LookedIs(16, 65_534);
    LookedIs(16, 65_533);
    LookedIs(24, room);
    LookedIs(30, room);
    LookedIs(8, room);
    LookedIs(0, room);
  }

  lemma SixteenAndMore()
    ensures Pow2(16) == 0x1_0000 && Pow2(24) == 0x100_0000
  {
    SmallPowers();
    hide Pow2;
    Pow2Add(8, 8);
    Pow2Add(8, 16);
  }
}
