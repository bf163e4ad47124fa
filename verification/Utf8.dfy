/** Rust's `String`: bytes that are well-formed UTF-8 (section 3.9 of the
    Unicode Standard, table 3-7). */
module Utf8 {

  type Text = s: seq<bv8> | Valid(s)

  /** `String::from_utf8` takes `bytes`. */
  predicate Valid(bytes: seq<bv8>)
    decreases |bytes|
  {
    bytes == [] ||
    var n := FirstLength(bytes);
    0 < n <= |bytes| && Valid(bytes[n..])
  }

  predicate Continues(b: bv8) {
    0x80 <= b <= 0xBF
  }

  /** The length of the well-formed sequence `bytes` starts with; 0: none. */
  function FirstLength(bytes: seq<bv8>): (n: nat)
    requires bytes != []
    ensures n <= |bytes|
  {
    var b := bytes[0];
    if b <= 0x7F then 1
    else if 0xC2 <= b <= 0xDF && |bytes| >= 2 && Continues(bytes[1]) then 2
    else if |bytes| >= 3 && ThreeStart(b, bytes[1]) && Continues(bytes[2]) then 3
    else if |bytes| >= 4 && FourStart(b, bytes[1]) && Continues(bytes[2]) && Continues(bytes[3]) then 4
    else 0
  }

  predicate ThreeStart(a: bv8, b: bv8) {
    || (a == 0xE0 && 0xA0 <= b <= 0xBF)
    || (0xE1 <= a <= 0xEC && Continues(b))
    || (a == 0xED && 0x80 <= b <= 0x9F)
    || (0xEE <= a <= 0xEF && Continues(b))
  }

  predicate FourStart(a: bv8, b: bv8) {
    || (a == 0xF0 && 0x90 <= b <= 0xBF)
    || (0xF1 <= a <= 0xF3 && Continues(b))
    || (a == 0xF4 && 0x80 <= b <= 0x8F)
  }
}
