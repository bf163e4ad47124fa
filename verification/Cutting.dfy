/** Texts cut to a length that is kept: `cut` of `common/src/discovery.rs` and of
    `common/src/inventory.rs`. */
module Cutting {

  const MAX_TEXT_CHARS: nat := 200

  /** The first characters, as many as are kept. */
  function Cut(text: string): (r: string)
    ensures |r| <= MAX_TEXT_CHARS && r <= text
    ensures |text| <= MAX_TEXT_CHARS ==> r == text
  {
    if |text| > MAX_TEXT_CHARS then text[..MAX_TEXT_CHARS] else text
  }

  function CutAll(texts: seq<string>): (r: seq<string>)
    ensures |r| == |texts|
    ensures forall i :: 0 <= i < |texts| ==> r[i] == Cut(texts[i])
  {
    seq(|texts|, i requires 0 <= i < |texts| => Cut(texts[i]))
  }
}
