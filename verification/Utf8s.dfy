/** UTF-8 as RFC 3629 reads it: what a byte sequence says, with no regard to who wrote it. */
module Utf8s {
  import opened Bytes
  import opened Wrappers

  predicate Continues(b: byte) {
    0x80 <= b < 0xC0
  }

  /** The bits a byte carries behind its marker. */
  function Less(b: byte, marker: int): int {
    b - marker
  }

  /** The number a sequence of bytes spells. */
  function Spelled(b: seq<byte>): int
    requires 1 <= |b| <= 4
  {
    if |b| == 1 then b[0]
    else if |b| == 2 then Less(b[0], 0xC0) * 64 + Less(b[1], 0x80)
    else if |b| == 3 then (Less(b[0], 0xE0) * 64 + Less(b[1], 0x80)) * 64 + Less(b[2], 0x80)
    else ((Less(b[0], 0xF0) * 64 + Less(b[1], 0x80)) * 64 + Less(b[2], 0x80)) * 64 + Less(b[3], 0x80)
  }

  /** How many bytes a first byte announces. */
  function Length(first: byte): nat {
    if first < 0xC0 then 1 else if first < 0xE0 then 2 else if first < 0xF0 then 3 else 4
  }

  /** Section 3 of RFC 3629: these bytes, and no shorter ones, stand for this code point. */
  predicate Encodes(b: seq<byte>, v: int) {
    && 1 <= |b| <= 4 && Length(b[0]) == |b| && v == Spelled(b)
    && (forall i | 1 <= i < |b| :: Continues(b[i]))
    && (match |b|
        case 1 => v < 0x80
        case 2 => 0x80 <= v
        case 3 => 0x800 <= v && !(0xD800 <= v < 0xE000)
        case _ => 0x1_0000 <= v < 0x11_0000)
  }

  /** The code points of a text, if it is UTF-8. */
  function Points(text: seq<byte>): Option<seq<int>>
    decreases |text|
  {
    if text == [] then Some([])
    else
      var n := Length(text[0]);
      if n > |text| || !Encodes(text[..n], Spelled(text[..n])) then None
      else
        match Points(text[n..])
        case Some(rest) => Some([Spelled(text[..n])] + rest)
        case None => None
  }

  /** One code point in front of a text. */
  lemma PointFirst(b: seq<byte>, v: int, rest: seq<byte>)
    requires Encodes(b, v)
    ensures Points(b + rest) == match Points(rest) case Some(vs) => Some([v] + vs) case None => None
  {
    hide Spelled;
    var text := b + rest;
    assert text[..|b|] == b && text[|b|..] == rest && text[0] == b[0];
  }
}
