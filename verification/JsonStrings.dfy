/** JSON strings as section 7 of RFC 8259 writes them, character by character, and what the stream makes of them. */
module JsonStrings {
  import opened Bytes
  import opened TextStream
  import opened Utf8s
  import opened Wrappers

  // ---- writing a string ----

  /** One character of a string, and the way it is written: as its own bytes, by its two-character escape, or as
      \u and four hexadecimal digits, each in either case. The last two forms are in no RFC: a backslash before
      a character that needs none, and a \u with something else than hexadecimal digits behind it. */
  datatype Char =
    | Raw(v: int, bytes: seq<byte>)
    | Short(v: int)
    | Unit(v: int, upper: seq<bool>)
    | Odd(v: int, bytes: seq<byte>)
    | Broken(bytes: seq<byte>)

  /** The characters with an escape of their own, and its letter. */
  const SHORTS: map<int, char> := map[
    0x22 := '\"', 0x5C := '\\', 0x2F := '/', 0x8 := 'b', 0xC := 'f', 0xA := 'n', 0xD := 'r', 0x9 := 't']

  /** What section 7 of RFC 8259 allows. */
  predicate Legal(c: Char) {
    match c
    case Raw(v, bytes) => Encodes(bytes, v) && v >= 0x20 && v != 0x22 && v != 0x5C
    case Short(v) => v in SHORTS
    case Unit(v, upper) => 0 <= v < 0x1_0000 && |upper| == 4
    case _ => false
  }

  /** What the stream copes with. */
  predicate Readable(c: Char) {
    match c
    case Raw(v, bytes) => Encodes(bytes, v) && v != 0x22 && v != 0x5C
    case Odd(v, bytes) => Encodes(bytes, v) && forall k | k in SHORTS :: v != SHORTS[k] as int && v != 0x75
    case Broken(bytes) => |bytes| == 4 && exists i | 0 <= i < 4 :: !IsHex(bytes[i])
    case _ => Legal(c)
  }

  predicate AllLegal(cs: seq<Char>) {
    forall c | c in cs :: Legal(c)
  }

  predicate AllReadable(cs: seq<Char>) {
    forall c | c in cs :: Readable(c)
  }

  predicate IsHex(b: byte) {
    '0' as int <= b <= '9' as int || 'A' as int <= b <= 'F' as int || 'a' as int <= b <= 'f' as int
  }

  /** A hexadecimal digit. */
  function HexChar(d: int, upper: bool): byte
    requires 0 <= d < 16
  {
    if d < 10 then '0' as int + d else (if upper then 'A' as int else 'a' as int) + d - 10
  }

  function HexDigits(v: int, upper: seq<bool>): (h: seq<byte>)
    requires 0 <= v < 0x1_0000 && |upper| == 4
    ensures |h| == 4
  {
    var a, b := v / 0x10, v / 0x10 / 0x10;
    [HexChar(b / 0x10, upper[0]), HexChar(b % 0x10, upper[1]), HexChar(a % 0x10, upper[2]), HexChar(v % 0x10, upper[3])]
  }

  function Written(c: Char): seq<byte>
    requires Readable(c)
  {
    match c
    case Raw(_, bytes) => bytes
    case Short(v) => ['\\' as int, SHORTS[v] as int]
    case Unit(v, upper) => ['\\' as int, 'u' as int] + HexDigits(v, upper)
    case Odd(_, bytes) => ['\\' as int] + bytes
    case Broken(bytes) => ['\\' as int, 'u' as int] + bytes
  }

  /** The characters between the quotes. */
  function Print(cs: seq<Char>): seq<byte>
    requires AllReadable(cs)
  {
    if cs == [] then [] else Written(cs[0]) + Print(cs[1..])
  }

  // ---- what it means ----

  const REPLACED := 0xFFFD

  predicate High(c: Char) {
    c.Unit? && 0xD800 <= c.v < 0xDC00
  }

  predicate Low(c: Char) {
    c.Unit? && 0xDC00 <= c.v < 0xE000
  }

  /** The code point of one character read on its own: half a surrogate pair has none. */
  function Alone(c: Char): int {
    if c.Broken? || High(c) || Low(c) then REPLACED else c.v
  }

  function EachAlone(cs: seq<Char>): seq<int> {
    if cs == [] then [] else [Alone(cs[0])] + EachAlone(cs[1..])
  }

  /** Two escapes that together encode one character outside the basic plane. */
  predicate PairFirst(cs: seq<Char>) {
    |cs| >= 2 && High(cs[0]) && Low(cs[1])
  }

  /** The code points the RFC gives a string; a lone surrogate is replaced. */
  function Meaning(cs: seq<Char>): seq<int> {
    if cs == [] then []
    else if PairFirst(cs) then [0x1_0000 + (cs[0].v - 0xD800) * 0x400 + (cs[1].v - 0xDC00)] + Meaning(cs[2..])
    else [Alone(cs[0])] + Meaning(cs[1..])
  }

  function Pairs(cs: seq<Char>): nat {
    if cs == [] then 0 else if PairFirst(cs) then 1 + Pairs(cs[2..]) else Pairs(cs[1..])
  }

  // ---- what the stream shows ----

  lemma Digits64(v: int)
    requires 0 <= v
    ensures v == v / 64 * 64 + v % 64 && v / 4096 == v / 64 / 64 && v / 262144 == v / 4096 / 64
    ensures 0 <= v % 64 < 64
  {
  }

  lemma TwoBytes(v: int)
    requires 0x80 <= v < 0x800
    ensures Encodes(Utf8(v), v)
  {
    Digits64(v);
  }

  lemma ThreeBytes(v: int)
    requires 0x800 <= v < 0x1_0000 && !Surrogate(v)
    ensures Encodes(Utf8(v), v)
  {
    Digits64(v);
    Digits64(v / 64);
  }

  lemma FourBytes(v: int)
    requires 0x1_0000 <= v < 0x11_0000
    ensures Encodes(Utf8(v), v)
  {
    Digits64(v);
    Digits64(v / 64);
    Digits64(v / 4096);
  }

  /** WriteRune writes UTF-8, and the replacement character for half a pair. */
  lemma Utf8Encodes(v: int)
    requires 0 <= v < 0x11_0000
    ensures Encodes(Utf8(v), if 0xD800 <= v < 0xE000 then REPLACED else v)
  {
    if v < 0x80 || Surrogate(v) {
    } else if v < 0x800 {
      TwoBytes(v);
    } else if v < 0x1_0000 {
      ThreeBytes(v);
    } else {
      FourBytes(v);
    }
  }

  lemma HexReadsBack(v: int, upper: seq<bool>)
    requires 0 <= v < 0x1_0000 && |upper| == 4
    ensures DecodeHex4(HexDigits(v, upper)) == v
  {
    hide HexDigit, HexChar;
    var a, b := v / 0x10, v / 0x10 / 0x10;
    HexCharReadsBack(b / 0x10, upper[0]);
    HexCharReadsBack(b % 0x10, upper[1]);
    HexCharReadsBack(a % 0x10, upper[2]);
    HexCharReadsBack(v % 0x10, upper[3]);
  }

  lemma HexCharReadsBack(d: int, upper: bool)
    requires 0 <= d < 16
    ensures HexDigit(HexChar(d, upper)) == d
  {
  }

  lemma ScanByte(b: byte, rest: seq<byte>)
    requires b != 0x22 && b != 0x5C
    ensures Scan([b] + rest) == Prefixed([b], Scan(rest))
  {
    assert ([b] + rest)[1..] == rest;
  }

  /** Bytes that are neither a quote nor a backslash are shown as they are. */
  lemma {:induction false} ScanPlain(bytes: seq<byte>, rest: seq<byte>)
    requires forall b | b in bytes :: b != 0x22 && b != 0x5C
    ensures Scan(bytes + rest) == Prefixed(bytes, Scan(rest))
  {
    hide Scan;
    if bytes == [] {
      assert bytes + rest == rest && [] + Scan(rest).text == Scan(rest).text;
    } else {
      assert bytes[0] in bytes && forall b | b in bytes[1..] :: b in bytes;
      ScanPlain(bytes[1..], rest);
      ScanByte(bytes[0], bytes[1..] + rest);
      assert bytes + rest == [bytes[0]] + (bytes[1..] + rest);
      assert [bytes[0]] + (bytes[1..] + Scan(rest).text) == bytes + Scan(rest).text;
    }
  }

  lemma PlainBytes(bytes: seq<byte>, v: int)
    requires Encodes(bytes, v) && v != 0x22 && v != 0x5C
    ensures forall b | b in bytes :: b != 0x22 && b != 0x5C
  {
  }

  lemma ScanEscape(e: byte, rest: seq<byte>)
    requires e != 117
    ensures Scan([BACKSLASH, e] + rest) == Prefixed([Unescape(e)], Scan(rest))
  {
    var v := [BACKSLASH, e] + rest;
    assert v[2..] == rest;
  }

  lemma ScanUnit(h: seq<byte>, rest: seq<byte>)
    requires |h| == 4
    ensures Scan([BACKSLASH, 117] + h + rest) == Prefixed(Utf8(DecodeHex4(h)), Scan(rest))
  {
    var v := [BACKSLASH, 117] + h + rest;
    assert v[6..] == rest && v[2..6] == h;
  }

  /** Read on its own, a written character shows the bytes of one code point. */
  lemma ScanChar(c: Char, rest: seq<byte>) returns (shown: seq<byte>)
    requires Readable(c)
    ensures Scan(Written(c) + rest) == Prefixed(shown, Scan(rest)) && Encodes(shown, Alone(c))
  {
    hide Scan, Encodes, Utf8, DecodeHex4, HexDigits;
    match c {
      case Raw(v, bytes) =>
        shown := bytes;
        PlainBytes(bytes, v);
        ScanPlain(bytes, rest);
      case Short(v) =>
        shown := ShortShows(v, rest);
      case Unit(v, upper) =>
        shown := Utf8(v);
        HexReadsBack(v, upper);
        ScanUnit(HexDigits(v, upper), rest);
        Utf8Encodes(v);
      case Odd(v, bytes) =>
        shown := bytes;
        OddShows(v, bytes, rest);
      case Broken(bytes) =>
        shown := Utf8(REPLACED);
        BrokenDecodes(bytes);
        ScanUnit(bytes, rest);
        Utf8Encodes(REPLACED);
    }
  }

  lemma ShortShows(v: int, rest: seq<byte>) returns (shown: seq<byte>)
    requires v in SHORTS
    ensures Scan(['\\' as int, SHORTS[v] as int] + rest) == Prefixed(shown, Scan(rest)) && Encodes(shown, v)
  {
    hide Scan;
    ScanEscape(SHORTS[v] as int, rest);
    shown := [Unescape(SHORTS[v] as int)];
  }

  lemma OddShows(v: int, bytes: seq<byte>, rest: seq<byte>)
    requires Readable(Odd(v, bytes))
    ensures Scan(['\\' as int] + bytes + rest) == Prefixed(bytes, Scan(rest))
  {
    hide Scan;
    var tail := bytes[1..];
    assert 0x22 in SHORTS && 0x5C in SHORTS && 0xA in SHORTS && 0x9 in SHORTS && 0xD in SHORTS && 0x8 in SHORTS
      && 0xC in SHORTS;
    PlainBytes(bytes, v);
    ScanEscape(bytes[0], tail + rest);
    ScanPlain(tail, rest);
    assert ['\\' as int] + bytes + rest == [BACKSLASH, bytes[0]] + (tail + rest);
    assert [bytes[0]] + (tail + Scan(rest).text) == bytes + Scan(rest).text;
  }

  lemma BrokenDecodes(bytes: seq<byte>)
    requires |bytes| == 4 && exists i | 0 <= i < 4 :: !IsHex(bytes[i])
    ensures DecodeHex4(bytes) == REPLACED
  {
    var i :| 0 <= i < 4 && !IsHex(bytes[i]);
    assert HexDigit(bytes[i]) < 0;
  }

  lemma ScanQuote(rest: seq<byte>)
    ensures Scan(['\"' as int] + rest) == Seen([], [], true)
  {
  }

  /** The stream shows, in UTF-8, every character of a printed string read on its own, and stops at the quote. */
  lemma {:induction false} ScanInvertsPrint(cs: seq<Char>, rest: seq<byte>)
    requires AllReadable(cs)
    ensures var seen := Scan(Print(cs) + (['\"' as int] + rest));
      seen.closed && seen.pending == [] && Points(seen.text) == Some(EachAlone(cs))
  {
    hide Scan, Written, Readable, Encodes, Alone;
    var tail := ['\"' as int] + rest;
    if cs == [] {
      assert Print(cs) + tail == tail;
      ScanQuote(rest);
    } else {
      assert forall c | c in cs[1..] :: c in cs;
      ScanInvertsPrint(cs[1..], rest);
      ScanFirst(cs, tail);
    }
  }

  lemma ScanFirst(cs: seq<Char>, tail: seq<byte>)
    requires cs != [] && AllReadable(cs) && AllReadable(cs[1..])
    requires Points(Scan(Print(cs[1..]) + tail).text) == Some(EachAlone(cs[1..]))
    ensures var seen, later := Scan(Print(cs) + tail), Scan(Print(cs[1..]) + tail);
      seen.closed == later.closed && seen.pending == later.pending && Points(seen.text) == Some(EachAlone(cs))
  {
    hide Scan, Written, Readable, Encodes, Alone, Points;
    var later := Print(cs[1..]) + tail;
    var shown := ScanChar(cs[0], later);
    PointFirst(shown, Alone(cs[0]), Scan(later).text);
    assert Print(cs) + tail == Written(cs[0]) + later;
  }

  /** Read one by one, the halves of a pair are two characters instead of one. */
  lemma {:induction false} PairsCountTwice(cs: seq<Char>)
    ensures |EachAlone(cs)| == |Meaning(cs)| + Pairs(cs)
    ensures Pairs(cs) == 0 ==> EachAlone(cs) == Meaning(cs)
    decreases |cs|
  {
    if cs != [] {
      if PairFirst(cs) {
        PairsCountTwice(cs[2..]);
        assert cs[1..][1..] == cs[2..];
      } else {
        PairsCountTwice(cs[1..]);
      }
    }
  }

  // ---- whole documents ----

  /** The bytes of a text in ASCII. */
  function Ascii(s: string): (b: seq<byte>)
    requires forall c | c in s :: c as int < 0x80
    ensures |b| == |s| && forall i | 0 <= i < |s| :: b[i] == s[i] as int
  {
    if s == [] then [] else
      assert s[0] in s && forall c | c in s[1..] :: c in s;
      [s[0] as int] + Ascii(s[1..])
  }

  /** White space as section 2 of RFC 8259 has it. */
  predicate Blank(s: seq<byte>) {
    forall b | b in s :: b == 0x20 || b == 0x09 || b == 0x0A || b == 0x0D
  }

  const KEY := Ascii("\"text\"")

  predicate KeyAt(d: seq<byte>, i: nat) {
    i + 6 <= |d| && d[i..i+6] == KEY
  }

  /** Everything up to the string: something, then the key "text" for the first time, and a colon. */
  function Opening(head: seq<byte>, gap1: seq<byte>, gap2: seq<byte>): seq<byte> {
    head + KEY + gap1 + Ascii(":") + gap2 + Ascii("\"")
  }

  /** A document in which a string follows such an opening. */
  ghost predicate Says(d: seq<byte>, head: seq<byte>, gap1: seq<byte>, gap2: seq<byte>, cs: seq<Char>, rest: seq<byte>)
    requires AllReadable(cs)
  {
    && Blank(gap1) && Blank(gap2)
    && d == Opening(head, gap1, gap2) + (Print(cs) + (Ascii("\"") + rest))
    && forall i: nat | i < |head| :: !KeyAt(d, i)
  }

  lemma KeyOccurs(d: seq<byte>, i: nat)
    ensures OccursAt(d, i) <==> KeyAt(d, i)
  {
    if i + 6 <= |d| {
      var s := d[i..i+6];
      assert s[0] == d[i] && s[1] == d[i+1] && s[2] == d[i+2] && s[3] == d[i+3] && s[4] == d[i+4] && s[5] == d[i+5];
      assert KEY == [34, 116, 101, 120, 116, 34];
    }
  }

  /** The opening has its key, its colon and its quote where the stream looks for them. */
  lemma OpeningParts(head: seq<byte>, gap1: seq<byte>, gap2: seq<byte>)
    requires Blank(gap1) && Blank(gap2)
    ensures var o, at := Opening(head, gap1, gap2), |head|;
      && |o| == at + 6 + |gap1| + 1 + |gap2| + 1 && o[at..at+6] == KEY
      && ColonBetween(o, at, at + 6 + |gap1|, |o| - 1)
  {
    var o, at := Opening(head, gap1, gap2), |head|;
    var colon := at + 6 + |gap1|;
    assert Ascii(":") == [58] && Ascii("\"") == [34];
    assert o[at..at+6] == KEY;
    assert o[at+6..colon] == gap1 && o[colon] == COLON && o[colon+1..|o|-1] == gap2 && o[|o|-1] == QUOTE;
    forall i | at + 6 <= i < colon ensures Space(o[i]) {
      assert o[i] == o[at+6..colon][i-at-6] && gap1[i-at-6] in gap1;
    }
    forall i | colon < i < |o| - 1 ensures Space(o[i]) {
      assert o[i] == o[colon+1..|o|-1][i-colon-1] && gap2[i-colon-1] in gap2;
    }
  }

  lemma SaysIsField(d: seq<byte>, head: seq<byte>, gap1: seq<byte>, gap2: seq<byte>, cs: seq<Char>, rest: seq<byte>)
    requires AllReadable(cs) && Says(d, head, gap1, gap2, cs, rest)
    ensures var open := |Opening(head, gap1, gap2)| - 1;
      0 <= open < |d| && TextField(d, |head|, open) && d[open+1..] == Print(cs) + (Ascii("\"") + rest)
  {
    hide Print, Opening, OccursAt;
    var o, at := Opening(head, gap1, gap2), |head|;
    OpeningParts(head, gap1, gap2);
    assert d[..|o|] == o && d[at..at+6] == o[at..at+6];
    assert forall i | 0 <= i < |o| :: d[i] == o[i];
    KeyOccurs(d, at);
    forall j | 0 <= j < at ensures !OccursAt(d, j) {
      KeyOccurs(d, j);
    }
    assert ColonBetween(d, at, at + 6 + |gap1|, |o| - 1);
  }

  /** However the network cuts such a document, its string reaches the reader as section 7 of RFC 8259 decodes it,
      in UTF-8, exactly when no character of it is written as a surrogate pair. */
  lemma DocumentDecodes(d: seq<byte>, head: seq<byte>, gap1: seq<byte>, gap2: seq<byte>,
                        cs: seq<Char>, rest: seq<byte>, chunks: seq<seq<byte>>)
    requires AllReadable(cs) && Says(d, head, gap1, gap2, cs, rest) && Joined(chunks) == d
    ensures Feed(chunks).0.phase == Finished
    ensures Points(Feed(chunks).1) == Some(Meaning(cs)) <==> Pairs(cs) == 0
  {
    hide Print, Scan, Points, Says, TextField, Opening;
    SaysIsField(d, head, gap1, gap2, cs, rest);
    var open := |Opening(head, gap1, gap2)| - 1;
    CutsDoNotMatter(d, |head|, open, chunks);
    ScanInvertsPrint(cs, rest);
    assert Ascii("\"") == ['\"' as int];
    assert Feed(chunks).1 == Scan(d[open+1..]).text;
    PairsCountTwice(cs);
  }

  /** While a document is still arriving, what has been shown is a prefix of what will be. */
  lemma ShownIsPrefix(d: seq<byte>, at: nat, open: nat, some: seq<seq<byte>>, all: seq<seq<byte>>)
    requires TextField(d, at, open) && Joined(all) == d && Joined(some) <= d
    ensures Feed(some).1 <= Feed(all).1
  {
    CutsDoNotMatter(d, at, open, some);
    CutsDoNotMatter(d, at, open, all);
    ShownGrows(Joined(some), d, open);
  }

  lemma ShownGrows(p: seq<byte>, d: seq<byte>, open: nat)
    requires p <= d
    ensures Shown(p, open) <= Shown(d, open)
  {
    if |p| > open {
      assert d[open+1..] == p[open+1..] + d[|p|..];
      ScanGrows(p[open+1..], d[|p|..]);
    }
  }
}
