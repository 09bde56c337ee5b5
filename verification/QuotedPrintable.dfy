/** The mail body encoder: quoted-printable, section 6.7 of RFC 2045. */
module QuotedPrintable {

  import opened Bytes

  const CR: byte := 13
  const LF: byte := 10
  const EQUALS: byte := 61
  const DOT: byte := 46

  /** An upper-case hexadecimal digit. */
  function Hex(d: int): byte
    requires 0 <= d < 16
  {
    if d < 10 then 48 + d else 55 + d
  }

  function Unhex(c: byte): int {
    if 48 <= c <= 57 then c - 48 else if 65 <= c <= 70 then c - 55 else -1
  }

  function Escaped(c: byte): seq<byte> {
    [EQUALS, Hex(c / 16), Hex(c % 16)]
  }

  predicate MustEscape(c: byte) {
    c == EQUALS || c < 32 || c > 126
  }

  /** What one byte is written as, when `col` characters are already on the line. */
  function Chunk(c: byte, col: nat): seq<byte> {
    if MustEscape(c) || (c == DOT && col == 0) then Escaped(c) else [c]
  }

  /** Whether a chunk would run past column 74 and so goes on a new line. */
  predicate Wraps(c: byte, col: nat) {
    col + |Chunk(c, col)| > 74
  }

  /** The output for one byte. */
  function Piece(c: byte, col: nat): seq<byte> {
    if c == CR then []
    else if c == LF then [CR, LF]
    else (if Wraps(c, col) then [EQUALS, CR, LF] else []) + Chunk(c, col)
  }

  function NextCol(c: byte, col: nat): nat {
    if c == CR then col
    else if c == LF then 0
    else (if Wraps(c, col) then 0 else col) + |Chunk(c, col)|
  }

  /** The whole output from a given column on. */
  function Encoding(s: seq<byte>, col: nat): seq<byte> {
    if s == [] then [] else Piece(s[0], col) + Encoding(s[1..], NextCol(s[0], col))
  }

  /** The column a prefix leaves the encoder at. */
  function Column(s: seq<byte>): nat {
    if s == [] then 0 else NextCol(s[|s|-1], Column(s[..|s|-1]))
  }

  method Encode(s: seq<byte>) returns (b: seq<byte>)
    ensures b == Encoding(s, 0)
  {
    b := [];
    var lineLen := 0;
    for i := 0 to |s|
      invariant lineLen >= 0 && b + Encoding(s[i..], lineLen) == Encoding(s, 0)
    {
      EncodingUnfolds(b, s, i, lineLen);
      b, lineLen := EncodeByte(b, lineLen, s[i]);
    }
    assert b + [] == b;
  }

  lemma EncodingUnfolds(b: seq<byte>, s: seq<byte>, i: nat, col: nat)
    requires i < |s|
    ensures b + Encoding(s[i..], col) == b + Piece(s[i], col) + Encoding(s[i+1..], NextCol(s[i], col))
  {
    assert s[i..][0] == s[i] && s[i..][1..] == s[i+1..];
  }

  /** The body of the loop. */
  method EncodeByte(b0: seq<byte>, lineLen0: nat, c: byte) returns (b: seq<byte>, lineLen: nat)
    ensures b == b0 + Piece(c, lineLen0) && lineLen == NextCol(c, lineLen0)
  {
    b, lineLen := b0, lineLen0;
    if c == CR {
    } else if c == LF {
      b := b + [CR, LF];
      lineLen := 0;
    } else if c == EQUALS || c < 32 || c > 126 {
      b, lineLen := WriteRaw(b, lineLen, [EQUALS, Hex(c / 16), Hex(c % 16)]);
    } else if c == DOT && lineLen == 0 {
      b, lineLen := WriteRaw(b, lineLen, [EQUALS, 50, 69]);
    } else {
      b, lineLen := WriteRaw(b, lineLen, [c]);
    }
  }

  /** Writes a chunk, breaking the line softly first when it would not fit. */
  method WriteRaw(b0: seq<byte>, lineLen0: nat, chunk: seq<byte>) returns (b: seq<byte>, lineLen: nat)
    ensures b == b0 + ((if lineLen0 + |chunk| > 74 then [EQUALS, CR, LF] else []) + chunk)
    ensures lineLen == (if lineLen0 + |chunk| > 74 then 0 else lineLen0) + |chunk|
  {
    b, lineLen := b0, lineLen0;
    if lineLen + |chunk| > 74 {
      b := b + [EQUALS, CR, LF];
      lineLen := 0;
    }
    b := b + chunk;
    lineLen := lineLen + |chunk|;
  }

  // ---- decoding gives the text back ----

  /** The decoder of section 6.7: soft breaks vanish, =XX is a byte, everything else stands for itself. */
  function Decode(e: seq<byte>): seq<byte> {
    if e == [] then []
    else if |e| >= 3 && e[0] == EQUALS && e[1] == CR && e[2] == LF then Decode(e[3..])
    else if |e| >= 3 && e[0] == EQUALS && Unhex(e[1]) >= 0 && Unhex(e[2]) >= 0 then
      [Unhex(e[1]) * 16 + Unhex(e[2])] + Decode(e[3..])
    else [e[0]] + Decode(e[1..])
  }

  /** The text a mail body means: carriage returns dropped, each line feed a full line break. */
  function Canonical(s: seq<byte>): seq<byte> {
    if s == [] then []
    else (if s[0] == CR then [] else if s[0] == LF then [CR, LF] else [s[0]]) + Canonical(s[1..])
  }

  lemma HexRoundTrip(c: byte)
    ensures Unhex(Hex(c / 16)) == c / 16 && Unhex(Hex(c % 16)) == c % 16
    ensures Unhex(Hex(c / 16)) * 16 + Unhex(Hex(c % 16)) == c
  {
  }

  lemma DecodeChunk(c: byte, col: nat, rest: seq<byte>)
    requires c != CR && c != LF
    ensures Decode(Chunk(c, col) + rest) == [c] + Decode(rest)
  {
    var e := Chunk(c, col) + rest;
    assert e[|Chunk(c, col)|..] == rest;
    HexRoundTrip(c);
  }

  lemma DecodeBreak(rest: seq<byte>)
    ensures Decode([CR, LF] + rest) == [CR, LF] + Decode(rest)
  {
    var e := [CR, LF] + rest;
    assert e[1..] == [LF] + rest && e[1..][1..] == rest;
  }

  lemma DecodeSoftBreak(rest: seq<byte>)
    ensures Decode([EQUALS, CR, LF] + rest) == Decode(rest)
  {
    var e := [EQUALS, CR, LF] + rest;
    assert e[3..] == rest;
  }

  lemma DecodePiece(c: byte, col: nat, rest: seq<byte>)
    ensures Decode(Piece(c, col) + rest) == Canonical([c]) + Decode(rest)
  {
    hide Decode, Chunk, Wraps;
    if c == CR {
      assert Piece(c, col) + rest == rest;
    } else if c == LF {
      DecodeBreak(rest);
    } else {
      DecodeChunk(c, col, rest);
      DecodeSoftBreak(Chunk(c, col) + rest);
      if Wraps(c, col) {
        assert Piece(c, col) + rest == [EQUALS, CR, LF] + (Chunk(c, col) + rest);
      } else {
        assert Piece(c, col) + rest == Chunk(c, col) + rest;
      }
    }
  }

  /** Decoding what was encoded gives the canonical text. */
  lemma {:induction false} RoundTrip(s: seq<byte>, col: nat)
    ensures Decode(Encoding(s, col)) == Canonical(s)
  {
    if s != [] {
      RoundTrip(s[1..], NextCol(s[0], col));
      DecodePiece(s[0], col, Encoding(s[1..], NextCol(s[0], col)));
    }
  }

  // ---- the shape of the lines ----

  predicate Break(e: seq<byte>) {
    |e| >= 2 && e[0] == CR && e[1] == LF
  }

  /** Every line, the first continuing from `col`, is at most 75 printable ASCII characters, and lines are
      separated by CR LF alone. */
  predicate ShortLines(e: seq<byte>, col: nat) {
    if e == [] then true
    else if Break(e) then ShortLines(e[2..], 0)
    else 32 <= e[0] <= 126 && col + 1 <= 75 && ShortLines(e[1..], col + 1)
  }

  lemma {:induction false} PrintableRun(p: seq<byte>, rest: seq<byte>, col: nat)
    requires forall x | x in p :: 32 <= x <= 126
    requires col + |p| <= 75 && ShortLines(rest, col + |p|)
    ensures ShortLines(p + rest, col)
    decreases |p|
  {
    if p == [] {
      assert p + rest == rest;
    } else {
      assert (p + rest)[1..] == p[1..] + rest;
      assert forall x | x in p[1..] :: x in p;
      assert (p + rest)[0] in p;
      PrintableRun(p[1..], rest, col + 1);
    }
  }

  lemma ChunkIsShort(c: byte, at: nat, col: nat, rest: seq<byte>)
    requires c != CR && c != LF && col + |Chunk(c, at)| <= 75 && ShortLines(rest, col + |Chunk(c, at)|)
    ensures ShortLines(Chunk(c, at) + rest, col)
  {
    PrintableRun(Chunk(c, at), rest, col);
  }

  lemma BreakIsShort(tail: seq<byte>, col: nat)
    requires col <= 74 && ShortLines(tail, 0)
    ensures ShortLines([EQUALS, CR, LF] + tail, col)
  {
    var broken := [CR, LF] + tail;
    assert broken[2..] == tail;
    PrintableRun([EQUALS], broken, col);
    assert [EQUALS, CR, LF] + tail == [EQUALS] + broken;
  }

  lemma LineFeedIsShort(rest: seq<byte>, col: nat)
    requires ShortLines(rest, 0)
    ensures ShortLines([CR, LF] + rest, col)
  {
    var e := [CR, LF] + rest;
    assert e[2..] == rest;
  }

  lemma PieceIsShort(c: byte, col: nat, rest: seq<byte>)
    requires col <= 74 && ShortLines(rest, NextCol(c, col))
    ensures ShortLines(Piece(c, col) + rest, col) && NextCol(c, col) <= 74
  {
    hide ShortLines;
    var e, tail := Piece(c, col) + rest, Chunk(c, col) + rest;
    if c == CR {
      assert e == rest;
    } else if c == LF {
      LineFeedIsShort(rest, col);
    } else if Wraps(c, col) {
      ChunkIsShort(c, col, 0, rest);
      BreakIsShort(tail, col);
      assert e == [EQUALS, CR, LF] + tail;
    } else {
      ChunkIsShort(c, col, col, rest);
      assert e == tail;
    }
  }

  /** No line is too long and nothing but printable ASCII leaves the encoder. */
  lemma {:induction false} LinesAreShort(s: seq<byte>, col: nat)
    requires col <= 74
    ensures ShortLines(Encoding(s, col), col)
  {
    if s != [] {
      LinesAreShort(s[1..], NextCol(s[0], col));
      PieceIsShort(s[0], col, Encoding(s[1..], NextCol(s[0], col)));
    }
  }

  // ---- dots ----

  predicate SoftBreak(e: seq<byte>) {
    |e| >= 3 && e[0] == EQUALS && Break(e[1..])
  }

  /** No line that starts after a hard break begins with a dot; `start` says e begins such a line. When
      `soft` is set, lines that start after a soft break count as well. */
  predicate NoLeadingDot(e: seq<byte>, start: bool, soft: bool) {
    if e == [] then true
    else if SoftBreak(e) then NoLeadingDot(e[3..], soft, soft)
    else if Break(e) then NoLeadingDot(e[2..], true, soft)
    else (start ==> e[0] != DOT) && NoLeadingDot(e[1..], false, soft)
  }

  lemma DotChunk(c: byte, col: nat, rest: seq<byte>, start: bool, soft: bool)
    requires c != CR && c != LF
    ensures NoLeadingDot(Chunk(c, col) + rest, start, soft)
       <==> (start ==> Chunk(c, col) != [DOT]) && NoLeadingDot(rest, false, soft)
  {
    var e := Chunk(c, col) + rest;
    if Chunk(c, col) == [c] {
      assert e[1..] == rest;
    } else {
      var h, k := Hex(c / 16), Hex(c % 16);
      assert e == [EQUALS, h, k] + rest && e[1..] == [h, k] + rest && e[1..][1..] == [k] + rest;
      assert e[1..][1..][1..] == rest;
      assert NoLeadingDot([h, k] + rest, false, soft) == NoLeadingDot([k] + rest, false, soft);
    }
  }

  lemma DotPiece(c: byte, col: nat, rest: seq<byte>, soft: bool)
    ensures NoLeadingDot(Piece(c, col) + rest, col == 0, soft)
       <==> !(soft && c == DOT && col == 74) && NoLeadingDot(rest, NextCol(c, col) == 0, soft)
    requires col <= 74
  {
    var e := Piece(c, col) + rest;
    if c == CR {
      assert e == rest;
    } else if c == LF {
      assert e[2..] == rest && !SoftBreak(e);
    } else if Wraps(c, col) {
      assert SoftBreak(e) && e[3..] == Chunk(c, col) + rest;
      DotChunk(c, col, rest, soft, soft);
    } else {
      assert e == Chunk(c, col) + rest;
      DotChunk(c, col, rest, col == 0, soft);
    }
  }

  /** A dot the encoder meets with the line exactly full. */
  predicate DotAtMargin(s: seq<byte>, col: nat) {
    s != [] && ((s[0] == DOT && col == 74) || DotAtMargin(s[1..], NextCol(s[0], col)))
  }

  /** After a hard break no line ever begins with a dot. Counting lines after soft breaks too, that holds
      exactly for texts in which no dot falls where the line is full. */
  lemma {:induction false} DotsAreEscaped(s: seq<byte>, col: nat, soft: bool)
    requires col <= 74
    ensures NoLeadingDot(Encoding(s, col), col == 0, soft) <==> !(soft && DotAtMargin(s, col))
  {
    if s != [] {
      DotsAreEscaped(s[1..], NextCol(s[0], col), soft);
      DotPiece(s[0], col, Encoding(s[1..], NextCol(s[0], col)), soft);
    }
  }

  /** The margin case in the caller's terms: some dot stands where what precedes it ends at column 74. */
  lemma {:induction false} DotAtMarginIff(p: seq<byte>, s: seq<byte>)
    ensures DotAtMargin(s, Column(p)) <==> exists i | 0 <= i < |s| :: s[i] == DOT && Column(p + s[..i]) == 74
    decreases |s|
  {
    if s != [] {
      var q := p + [s[0]];
      assert q[..|q|-1] == p;
      DotAtMarginIff(q, s[1..]);
      forall i | 0 <= i < |s[1..]| ensures q + s[1..][..i] == p + s[..i+1] {
      }
      assert p + s[..0] == p;
      if i :| 0 <= i < |s[1..]| && s[1..][i] == DOT && Column(q + s[1..][..i]) == 74 {
        assert s[i+1] == DOT && Column(p + s[..i+1]) == 74;
      }
      if i :| 0 < i < |s| && s[i] == DOT && Column(p + s[..i]) == 74 {
        assert s[1..][i-1] == DOT && q + s[1..][..i-1] == p + s[..i];
      }
    }
  }

  // ---- what is left alone ----

  /** Printable ASCII that the encoding has no other use for. */
  predicate Plain(c: byte) {
    32 <= c <= 126 && c != '=' as int
  }

  lemma EncodesFirst(c: byte, rest: seq<byte>, col: nat)
    ensures Encoding([c] + rest, col) == Piece(c, col) + Encoding(rest, NextCol(c, col))
  {
    assert ([c] + rest)[1..] == rest;
  }

  lemma PlainPiece(c: byte, col: nat)
    requires Plain(c) && col < 74 && (col == 0 ==> c != '.' as int)
    ensures Piece(c, col) == [c] && NextCol(c, col) == col + 1
  {
  }

  /** A line of at most 74 plain characters that does not begin with a dot goes out as it is. */
  lemma {:induction false} PlainLineStays(s: seq<byte>, col: nat, rest: seq<byte>)
    requires (forall c | c in s :: Plain(c)) && col + |s| <= 74
    requires col == 0 && s != [] ==> s[0] != '.' as int
    ensures Encoding(s + rest, col) == s + Encoding(rest, col + |s|)
    decreases |s|
  {
    hide Encoding, Piece, NextCol, Plain;
    var later := Encoding(rest, col + |s|);
    if s == [] {
      assert s + rest == rest && s + later == later;
    } else {
      assert s[0] in s && forall c | c in s[1..] :: c in s;
      PlainPiece(s[0], col);
      PlainLineStays(s[1..], col + 1, rest);
      EncodesFirst(s[0], s[1..] + rest, col);
      assert s + rest == [s[0]] + (s[1..] + rest);
      assert s + later == [s[0]] + (s[1..] + later);
    }
  }

  /** It is ended by CR LF, and broken softly before the 75th character. */
  lemma FullLineBreaks(s: seq<byte>, c: byte, rest: seq<byte>)
    requires |s| == 74 && (forall x | x in s :: Plain(x)) && s[0] != '.' as int && Plain(c) && c != '.' as int
    ensures Encoding(s + ([LF] + rest), 0) == s + ([CR, LF] + Encoding(rest, 0))
    ensures Encoding(s + ([c] + rest), 0) == s + ([EQUALS, CR, LF] + [c] + Encoding(rest, 1))
  {
    hide Encoding;
    PlainLineStays(s, 0, [LF] + rest);
    PlainLineStays(s, 0, [c] + rest);
    EncodesFirst(LF, rest, 74);
    EncodesFirst(c, rest, 74);
  }
}
