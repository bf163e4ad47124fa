/** Bytes and the numbers they stand for. */
module Bytes {

  /** `n as u8`. */
  function ByteOf(n: nat): (b: bv8)
    requires n < 256
    ensures b as nat == n
  {
    IsByte(n);
    n as bv8
  }

  lemma NextByte(b: bv8)
    requires b != 255
    ensures (b + 1) as nat == b as nat + 1
  {
  }

  lemma SomeByte(n: nat) returns (b: bv8)
    requires n < 256
    ensures b as nat == n
  {
    if n == 0 {
      b := 0;
    } else {
      b := SomeByte(n - 1);
      NextByte(b);
      b := b + 1;
    }
  }

  lemma IsByte(n: nat)
    requires n < 256
    ensures (n as bv8) as nat == n
  {
    var b := SomeByte(n);
    assert (b as nat) as bv8 == b;
  }
}
