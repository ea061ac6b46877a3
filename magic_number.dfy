/** `whatKindOf` and `PNG_B10` of app/main.js: whether a file starts with a
    given magic number. Reading the bytes (`lReadBytes`) is not modelled; the
    check is taken on the bytes it would deliver. */
module MagicNumber {
  import opened Wrappers

  type Byte = x: int | 0 <= x < 256

  /** The first four bytes of the PNG signature (section 5.2 of the PNG
      Specification), in decimal. */
  const PNG_B10: seq<int> := [137, 80, 78, 71]

  /** The full eight-byte PNG signature. */
  const PngSignature: seq<Byte> := [137, 80, 78, 71, 13, 10, 26, 10]

  /** `Array.prototype.every(x => x)`. */
  function Every(s: seq<bool>): (r: bool)
    ensures r <==> forall i :: 0 <= i < |s| ==> s[i]
  {
    s == [] || (s[0] && Every(s[1..]))
  }

  /** `magicNumber.map((n, offset) => n === buf.readUInt8(offset))`; reading an
      offset past the end throws a RangeError, here None. */
  function Comparisons(buf: seq<Byte>, magicNumber: seq<int>): (r: Option<seq<bool>>)
    ensures r.None? <==> |buf| < |magicNumber|
    ensures r.Some? ==> |r.value| == |magicNumber|
    ensures r.Some? ==> forall offset :: 0 <= offset < |magicNumber| ==>
      (r.value[offset] <==> buf[offset] == magicNumber[offset])
  {
    if |buf| < |magicNumber| then None
    else Some(seq(|magicNumber|, offset requires 0 <= offset < |magicNumber| => magicNumber[offset] == buf[offset]))
  }

  /** `whatKindOf`: None stands for the rejected promise. */
  function WhatKindOf(buf: seq<Byte>, magicNumber: seq<int>): (r: Option<bool>)
    ensures r.None? <==> |buf| < |magicNumber|
    ensures r == Some(true) <==>
      |magicNumber| <= |buf| && forall i :: 0 <= i < |magicNumber| ==> buf[i] == magicNumber[i]
  {
    match Comparisons(buf, magicNumber)
    case None => None
    case Some(checks) => Some(Every(checks))
  }

  /** Only the first `|magicNumber|` bytes matter. */
  lemma PrefixDecides(buf: seq<Byte>, rest: seq<Byte>, magicNumber: seq<int>)
    requires |magicNumber| <= |buf|
    ensures WhatKindOf(buf + rest, magicNumber) == WhatKindOf(buf, magicNumber)
  {
    assert forall i :: 0 <= i < |magicNumber| ==> (buf + rest)[i] == buf[i];
  }

  /** Every file that starts with the PNG signature is recognised by `PNG_B10`. */
  lemma PngRecognised(buf: seq<Byte>)
    requires |PngSignature| <= |buf| && buf[..|PngSignature|] == PngSignature
    ensures WhatKindOf(buf, PNG_B10) == Some(true)
  {
    assert forall i :: 0 <= i < |PNG_B10| ==> buf[i] == buf[..|PngSignature|][i];
  }

  /** A magic number with a value outside 0..255 matches no file. */
  lemma OutOfRangeNeverMatches(buf: seq<Byte>, magicNumber: seq<int>, k: nat)
    requires k < |magicNumber| <= |buf| && !(0 <= magicNumber[k] < 256)
    ensures WhatKindOf(buf, magicNumber) == Some(false)
  {
  }
}
