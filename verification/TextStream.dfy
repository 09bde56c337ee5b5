/** Pulls the "text" field's value out of a JSON object while the object is still arriving. */
module TextStream {

  import opened Bytes

  const QUOTE: byte := 34
  const BACKSLASH: byte := 92
  const COLON: byte := 58

  /** U+FFFD in UTF-8. */
  const REPLACEMENT: seq<byte> := [0xEF, 0xBF, 0xBD]

  datatype Phase = SeekingKey | InValue | Finished
  datatype State = State(phase: Phase, buf: seq<byte>, pending: seq<byte>)

  const START := State(SeekingKey, [], [])

  // ---- escapes ----

  function HexDigit(c: byte): (r: int)
    ensures r < 16
  {
    if 48 <= c <= 57 then c - 48
    else if 97 <= c <= 102 then c - 97 + 10
    else if 65 <= c <= 70 then c - 65 + 10
    else -1
  }

  /** Four hex digits as a code unit, or U+FFFD. */
  function DecodeHex4(h: seq<byte>): int
    requires |h| == 4
    ensures 0 <= DecodeHex4(h) < 0x1_0000
  {
    if forall i | 0 <= i < 4 :: HexDigit(h[i]) >= 0 then
      ((HexDigit(h[0]) * 16 + HexDigit(h[1])) * 16 + HexDigit(h[2])) * 16 + HexDigit(h[3])
    else 0xFFFD
  }

  predicate Surrogate(v: int) {
    0xD800 <= v < 0xE000
  }

  /** WriteRune: a code point in UTF-8; a surrogate is not a code point. */
  function Utf8(v: int): (r: seq<byte>)
    requires 0 <= v < 0x11_0000
    ensures 1 <= |r| <= 4
  {
    if v < 0x80 then [v]
    else if v < 0x800 then [0xC0 + v / 64, 0x80 + v % 64]
    else if Surrogate(v) then REPLACEMENT
    else if v < 0x1_0000 then [0xE0 + v / 4096, 0x80 + v / 64 % 64, 0x80 + v % 64]
    else [0xF0 + v / 262144, 0x80 + v / 4096 % 64, 0x80 + v / 64 % 64, 0x80 + v % 64]
  }

  /** What a two-character escape stands for; anything unexpected stands for itself. */
  function Unescape(e: byte): byte {
    if e == 110 then 10
    else if e == 116 then 9
    else if e == 114 then 13
    else if e == 98 then 8
    else if e == 102 then 12
    else e
  }

  // ---- the value ----

  /** What is known of a value from its first bytes: the text so far, an escape not yet complete, and
      whether the closing quote has come. */
  datatype Seen = Seen(text: seq<byte>, pending: seq<byte>, closed: bool)

  function Scan(v: seq<byte>): Seen {
    if v == [] then Seen([], [], false)
    else if v[0] == QUOTE then Seen([], [], true)
    else if Partial(v) then Seen([], v, false)
    else Prefixed(Unit(v), Scan(v[UnitLength(v)..]))
  }

  function Prefixed(text: seq<byte>, seen: Seen): Seen {
    seen.(text := text + seen.text)
  }

  /** An escape whose end has not arrived. */
  predicate Partial(v: seq<byte>) {
    v != [] && v[0] == BACKSLASH && (|v| < 2 || (v[1] == 117 && |v| < 6))
  }

  /** How many bytes the next character of the value takes, once it is all there. */
  function UnitLength(v: seq<byte>): nat
    requires v != []
  {
    if v[0] != BACKSLASH || |v| < 2 then 1 else if v[1] == 117 && |v| >= 6 then 6 else 2
  }

  function Unit(v: seq<byte>): seq<byte>
    requires v != []
  {
    match UnitLength(v)
    case 1 => [v[0]]
    case 2 => [Unescape(v[1])]
    case _ => Utf8(DecodeHex4(v[2..6]))
  }

  // ---- one call, as a function ----

  predicate Space(c: byte) {
    c == 32 || c == 9 || c == 10 || c == 13
  }

  function SkipSpace(s: seq<byte>, j: nat): (r: nat)
    requires j <= |s|
    ensures j <= r <= |s|
    ensures forall i | j <= i < r :: Space(s[i])
    ensures r < |s| ==> !Space(s[r])
    decreases |s| - j
  {
    if j < |s| && Space(s[j]) then SkipSpace(s, j + 1) else j
  }

  /** The six bytes of "text", quotes included, stand at `i`. */
  predicate OccursAt(s: seq<byte>, i: int) {
    && 0 <= i && i + 6 <= |s|
    && s[i] == 34 && s[i+1] == 116 && s[i+2] == 101 && s[i+3] == 120 && s[i+4] == 116 && s[i+5] == 34
  }

  /** The first place the key occurs from `i` on, or -1. */
  function Index(s: seq<byte>, i: nat): (r: int)
    requires i <= |s|
    ensures r >= 0 ==> i <= r && OccursAt(s, r) && forall j | i <= j < r :: !OccursAt(s, j)
    ensures r < 0 ==> r == -1 && forall j | i <= j :: !OccursAt(s, j)
    decreases |s| - i
  {
    if i + 6 > |s| then -1 else if OccursAt(s, i) then i else Index(s, i + 1)
  }

  function Consume(pending: seq<byte>, s: seq<byte>): (State, seq<byte>) {
    var seen := Scan(pending + s);
    (State(if seen.closed then Finished else InValue, [], seen.pending), seen.text)
  }

  /** What is kept of a text without the key: enough for a key that has begun. */
  function Keep(s: seq<byte>): seq<byte> {
    if |s| > 6 then s[|s|-6..] else s
  }

  /** After the key was found at `i`: the colon, then the opening quote. */
  function AfterKey(s: seq<byte>, i: nat): (State, seq<byte>)
    requires i + 6 <= |s|
  {
    var rest := s[i+6..];
    var j := SkipSpace(rest, 0);
    if j >= |rest| then (State(SeekingKey, s[i..], []), [])
    else if rest[j] != COLON then (State(SeekingKey, rest, []), [])
    else AfterColon(s, i, rest, j + 1)
  }

  function AfterColon(s: seq<byte>, i: nat, rest: seq<byte>, from: nat): (State, seq<byte>)
    requires i <= |s| && from <= |rest|
  {
    var k := SkipSpace(rest, from);
    if k >= |rest| then (State(SeekingKey, s[i..], []), [])
    else if rest[k] != QUOTE then (State(Finished, s, []), [])
    else Consume([], rest[k+1..])
  }

  function WriteStep(st: State, chunk: seq<byte>): (State, seq<byte>) {
    if chunk == [] || st.phase.Finished? then (st, [])
    else if st.phase.InValue? then Consume(st.pending, chunk)
    else Seek(st.buf + chunk)
  }

  /** Looks for the key in all that is buffered. */
  function Seek(s: seq<byte>): (State, seq<byte>) {
    var i := Index(s, 0);
    if i < 0 then (State(SeekingKey, Keep(s), []), []) else AfterKey(s, i)
  }

  /** The stream object the reply loop feeds. */
  class TextFieldStream {
    var buf: seq<byte>
    var phase: Phase
    var pending: seq<byte>

    function View(): State
      reads this
    {
      State(phase, buf, pending)
    }

    constructor ()
      ensures View() == START
    {
      buf, phase, pending := [], SeekingKey, [];
    }

    predicate Valid()
      reads this
    {
      (phase.SeekingKey? ==> pending == []) && (phase.InValue? ==> buf == [])
    }

    /** Feeds the next slice of the document and returns what became readable because of it. */
    method Write(chunk: seq<byte>) returns (out: seq<byte>)
      requires Valid()
      modifies this
      ensures Valid()
      ensures (View(), out) == WriteStep(old(View()), chunk)
    {
      if chunk == [] || phase == Finished {
        return [];
      }
      if phase == InValue {
        out := ConsumeBytes(chunk);
        return;
      }
      buf := buf + chunk;
      var s := buf;
      var i := Index(s, 0);
      if i < 0 {
        if |s| > 6 {
          buf := s[|s|-6..];
        }
        return [];
      }
      out := SeekValue(s, i);
    }

    /** The rest of Write once the key was found at `i`: colon, then opening quote. */
    method SeekValue(s: seq<byte>, i: nat) returns (out: seq<byte>)
      requires phase == SeekingKey && pending == [] && buf == s && i + 6 <= |s|
      modifies this
      ensures Valid() && (View(), out) == AfterKey(s, i)
    {
      var rest := s[i+6..];
      var j := SpaceEnd(rest, 0);
      if j >= |rest| {
        buf := s[i..];
        return [];
      }
      if rest[j] != COLON {
        buf := rest;
        return [];
      }
      out := OpenValue(s, i, rest, j + 1);
    }

    /** The rest of Write once the colon was passed. */
    method OpenValue(s: seq<byte>, i: nat, rest: seq<byte>, from: nat) returns (out: seq<byte>)
      requires phase == SeekingKey && pending == [] && buf == s && i <= |s| && from <= |rest|
      modifies this
      ensures Valid() && (View(), out) == AfterColon(s, i, rest, from)
    {
      var j := SpaceEnd(rest, from);
      if j >= |rest| {
        buf := s[i..];
        return [];
      }
      if rest[j] != QUOTE {
        phase := Finished;
        return [];
      }
      phase := InValue;
      buf := [];
      assert [] + rest[j+1..] == rest[j+1..];
      out := ConsumeBytes(rest[j+1..]);
    }

    /** Steps over spaces, tabs and line ends. */
    method SpaceEnd(s: seq<byte>, from: nat) returns (j: nat)
      requires from <= |s|
      ensures j == SkipSpace(s, from)
    {
      j := from;
      while j < |s| && Space(s[j])
        invariant from <= j <= |s| && SkipSpace(s, j) == SkipSpace(s, from)
      {
        j := j + 1;
      }
    }

    /** Decodes what is complete and holds back an escape that is not. */
    method ConsumeBytes(chunk: seq<byte>) returns (out: seq<byte>)
      requires phase == InValue
      modifies this
      ensures var seen := Scan(old(pending) + chunk);
        out == seen.text && pending == seen.pending && phase == (if seen.closed then Finished else InValue)
      ensures buf == old(buf)
    {
      var s := pending + chunk;
      pending := [];
      out := [];
      var i := 0;
      assert s[0..] == s && [] + Scan(s).text == Scan(s).text;
      while i < |s|
        invariant 0 <= i <= |s| && phase == InValue && pending == [] && buf == old(buf)
        invariant Scan(s) == Prefixed(out, Scan(s[i..]))
        decreases |s| - i
      {
        if s[i] == QUOTE {
          phase := Finished;
          break;
        }
        if s[i] == BACKSLASH && (i + 1 >= |s| || (s[i+1] == 117 && i + 6 > |s|)) {
          pending := s[i..];
          break;
        }
        var unit, n := DecodeUnit(s, i);
        ScanUnfolds(s, i, out);
        out, i := out + unit, i + n;
      }
    }

    /** The switch inside the loop: one character or one complete escape. */
    method DecodeUnit(s: seq<byte>, i: nat) returns (unit: seq<byte>, n: nat)
      requires i < |s| && s[i] != QUOTE && !Partial(s[i..])
      ensures unit == Unit(s[i..]) && n == UnitLength(s[i..]) && 0 < n <= |s| - i
    {
      if s[i] != BACKSLASH {
        return [s[i]], 1;
      }
      var e := s[i+1];
      if e == 117 {
        assert s[i..][2..6] == s[i+2..i+6];
        return Utf8(DecodeHex4(s[i+2..i+6])), 6;
      }
      return [Unescape(e)], 2;
    }
  }

  lemma ScanUnfolds(s: seq<byte>, i: nat, out: seq<byte>)
    requires i < |s| && s[i] != QUOTE && !Partial(s[i..])
    ensures var n := UnitLength(s[i..]);
      i + n <= |s| && Prefixed(out, Scan(s[i..])) == Prefixed(out + Unit(s[i..]), Scan(s[i+n..]))
  {
    var v, n := s[i..], UnitLength(s[i..]);
    assert v[n..] == s[i+n..];
    PrefixedTwice(out, Unit(v), Scan(s[i+n..]));
  }

  lemma PrefixedTwice(a: seq<byte>, b: seq<byte>, seen: Seen)
    ensures Prefixed(a, Prefixed(b, seen)) == Prefixed(a + b, seen)
  {
    assert a + (b + seen.text) == (a + b) + seen.text;
  }

  // ---- splitting the value ----

  lemma UnitIsLocal(v: seq<byte>, w: seq<byte>)
    requires v != [] && !Partial(v)
    ensures !Partial(v + w) && Unit(v + w) == Unit(v) && UnitLength(v + w) == UnitLength(v) <= |v|
    ensures (v + w)[UnitLength(v)..] == v[UnitLength(v)..] + w
  {
    if UnitLength(v) == 6 {
      assert (v + w)[2..6] == v[2..6];
    }
  }

  /** Scanning a value in two parts is scanning it whole, the second part starting with what was held back. */
  lemma {:induction false} ScanSplits(v: seq<byte>, w: seq<byte>)
    ensures var a := Scan(v);
      Scan(v + w) == if a.closed then a else Prefixed(a.text, Scan(a.pending + w))
    decreases |v|
  {
    if v == [] {
      assert v + w == w && [] + w == w && [] + Scan(w).text == Scan(w).text;
    } else if v[0] == QUOTE {
      assert (v + w)[0] == QUOTE;
    } else if Partial(v) {
      assert [] + Scan(v + w).text == Scan(v + w).text;
    } else {
      var tail := v[UnitLength(v)..];
      UnitIsLocal(v, w);
      ScanSplits(tail, w);
      PrefixedTwice(Unit(v), Scan(tail).text, Scan(Scan(tail).pending + w));
    }
  }

  /** What has been shown is never taken back, and nothing follows the closing quote. */
  lemma ScanGrows(v: seq<byte>, w: seq<byte>)
    ensures Scan(v).text <= Scan(v + w).text
    ensures Scan(v).closed ==> Scan(v + w) == Scan(v)
  {
    ScanSplits(v, w);
  }

  // ---- any way of cutting a document ----

  /** The first "text" of `d` is at `at`; it is a key, and its value is a string whose quote is at `open`. */
  ghost predicate TextField(d: seq<byte>, at: nat, open: nat) {
    && OccursAt(d, at) && (forall j | 0 <= j < at :: !OccursAt(d, j))
    && exists colon: nat :: ColonBetween(d, at, colon, open)
  }

  predicate ColonBetween(d: seq<byte>, at: nat, colon: nat, open: nat) {
    && at + 6 <= colon < open < |d| && d[colon] == COLON && d[open] == QUOTE
    && (forall i | at + 6 <= i < colon :: Space(d[i]))
    && (forall i | colon < i < open :: Space(d[i]))
  }

  /** All that was returned while feeding a document chunk by chunk, and the state it left. */
  function Feed(chunks: seq<seq<byte>>): (State, seq<byte>) {
    if chunks == [] then (START, [])
    else
      var (st, out) := Feed(chunks[..|chunks|-1]);
      var (st', text) := WriteStep(st, chunks[|chunks|-1]);
      (st', out + text)
  }

  function Joined(chunks: seq<seq<byte>>): seq<byte> {
    if chunks == [] then [] else Joined(chunks[..|chunks|-1]) + chunks[|chunks|-1]
  }

  /** What a stream that has been fed the first bytes `p` of the document looks like. */
  ghost predicate Fed(p: seq<byte>, at: nat, open: nat, st: State, out: seq<byte>) {
    if |p| <= open then
      st.phase == SeekingKey && out == [] && st.pending == [] && Holds(p, at, st.buf)
    else
      var seen := Scan(p[open+1..]);
      && out == seen.text
      && st.phase == (if seen.closed then Finished else InValue)
      && (!seen.closed ==> st.pending == seen.pending)
  }

  predicate SuffixFrom(p: seq<byte>, k: nat, buf: seq<byte>) {
    if k <= |p| then buf == p[k..] else buf == []
  }

  lemma OccursShifted(d: seq<byte>, p: seq<byte>, k: nat, i: nat)
    requires p <= d && k <= |p|
    ensures OccursAt(p[k..], i) <==> OccursAt(d, k + i) && k + i + 6 <= |p|
  {
  }

  /** Where the first occurrence of the key shows up in what is buffered. */
  lemma FirstInBuffer(d: seq<byte>, at: nat, p: seq<byte>, k: nat)
    requires OccursAt(d, at) && (forall j | 0 <= j < at :: !OccursAt(d, j))
    requires p <= d && k <= at && k <= |p|
    ensures Index(p[k..], 0) == if at + 6 <= |p| then at - k else -1
  {
    var s := p[k..];
    var i := Index(s, 0);
    OccursShifted(d, p, k, at - k);
    assert k + (at - k) == at && (at + 6 <= |p| ==> OccursAt(s, at - k));
    if i >= 0 {
      OccursShifted(d, p, k, i);
      assert OccursAt(d, k + i) && k + i >= at;
    }
  }

  lemma SkipTo(s: seq<byte>, j: nat, r: nat)
    requires j <= r <= |s| && (forall i | j <= i < r :: Space(s[i])) && (r < |s| ==> !Space(s[r]))
    ensures SkipSpace(s, j) == r
  {
  }

  /** From the key on, a call reaches the quote if it has arrived and otherwise keeps the key. */
  lemma KeyReachesQuote(d: seq<byte>, at: nat, colon: nat, open: nat, p: seq<byte>, k: nat)
    requires ColonBetween(d, at, colon, open) && p <= d && k <= at && at + 6 <= |p|
    ensures AfterKey(p[k..], at - k) ==
      if |p| <= open then (State(SeekingKey, p[at..], []), []) else Consume([], p[open+1..])
  {
    hide Consume, OccursAt, SkipSpace;
    var s := p[k..];
    assert s[at-k..] == p[at..];
    var rest := p[at+6..];
    assert s[at-k+6..] == rest;
    SpacesThenColon(d, at, colon, open, p);
    if |p| > open {
      assert rest[open-at-6+1..] == p[open+1..];
    }
  }

  lemma SpacesThenColon(d: seq<byte>, at: nat, colon: nat, open: nat, p: seq<byte>)
    requires ColonBetween(d, at, colon, open) && p <= d && at + 6 <= |p|
    ensures var rest := p[at+6..];
      && SkipSpace(rest, 0) == (if |p| <= colon then |rest| else colon - at - 6)
      && (|p| > colon ==>
            && rest[colon-at-6] == COLON
            && SkipSpace(rest, colon - at - 5) == (if |p| <= open then |rest| else open - at - 6)
            && (|p| > open ==> rest[open-at-6] == QUOTE))
  {
    var rest := p[at+6..];
    assert forall i | 0 <= i < |rest| :: rest[i] == d[at+6+i];
    SkipTo(rest, 0, if |p| <= colon then |rest| else colon - at - 6);
    if |p| > colon {
      SkipTo(rest, colon - at - 5, if |p| <= open then |rest| else open - at - 6);
    }
  }

  /** What is buffered while the quote has not come: the document from somewhere no later than the key. */
  ghost predicate Holds(p: seq<byte>, at: nat, buf: seq<byte>) {
    exists k: nat :: k <= at && SuffixFrom(p, k, buf)
  }

  /** Looking through a buffer that reaches back to the key. */
  lemma SeekResult(d: seq<byte>, at: nat, open: nat, q: seq<byte>, k: nat, s: seq<byte>)
    requires TextField(d, at, open) && q <= d && k <= at && k <= |q| && s == q[k..]
    ensures |q| > open ==> Seek(s) == Consume([], q[open+1..])
    ensures |q| <= open ==> Seek(s) == (State(SeekingKey, Seek(s).0.buf, []), []) && Holds(q, at, Seek(s).0.buf)
  {
    FirstInBuffer(d, at, q, k);
    if at + 6 <= |q| {
      var colon: nat :| ColonBetween(d, at, colon, open);
      KeyReachesQuote(d, at, colon, open, q, k);
      assert SuffixFrom(q, at, q[at..]);
    } else {
      var k' := if |s| > 6 then |q| - 6 else k;
      assert SuffixFrom(q, k', Keep(s));
    }
  }

  lemma SuffixGrows(p: seq<byte>, chunk: seq<byte>, k: nat, buf: seq<byte>)
    requires SuffixFrom(p, k, buf)
    ensures buf + chunk == (p + chunk)[if k <= |p| then k else |p|..]
  {
  }

  /** What a call does while the quote has not come. */
  lemma SeekWrites(d: seq<byte>, at: nat, open: nat, p: seq<byte>, chunk: seq<byte>, st: State)
    requires TextField(d, at, open) && p + chunk <= d && |p| <= open && chunk != []
    requires st.phase.SeekingKey? && Holds(p, at, st.buf)
    ensures var q, st' := p + chunk, WriteStep(st, chunk).0;
      if |q| > open then WriteStep(st, chunk) == Consume([], q[open+1..])
      else WriteStep(st, chunk) == (State(SeekingKey, st'.buf, []), []) && Holds(q, at, st'.buf)
  {
    var k: nat :| k <= at && SuffixFrom(p, k, st.buf);
    SuffixGrows(p, chunk, k, st.buf);
    SeekResult(d, at, open, p + chunk, if k <= |p| then k else |p|, st.buf + chunk);
  }

  lemma SeekStep(d: seq<byte>, at: nat, open: nat, p: seq<byte>, chunk: seq<byte>, st: State)
    requires TextField(d, at, open) && p + chunk <= d && |p| <= open && chunk != []
    requires Fed(p, at, open, st, [])
    ensures Fed(p + chunk, at, open, WriteStep(st, chunk).0, WriteStep(st, chunk).1)
  {
    SeekWrites(d, at, open, p, chunk, st);
    if |p + chunk| > open {
      assert [] + (p + chunk)[open+1..] == (p + chunk)[open+1..];
    }
  }

  lemma ValueStep(p: seq<byte>, chunk: seq<byte>, at: nat, open: nat, st: State, out: seq<byte>)
    requires |p| > open && Fed(p, at, open, st, out)
    ensures Fed(p + chunk, at, open, WriteStep(st, chunk).0, out + WriteStep(st, chunk).1)
  {
    var v := p[open+1..];
    assert (p + chunk)[open+1..] == v + chunk;
    if chunk == [] {
      assert v + chunk == v && out + [] == out;
    } else {
      ScanSplits(v, chunk);
      assert Scan(v).closed ==> out + [] == out;
    }
  }

  /** The decoded text of the value, as far as it has come. */
  function Shown(p: seq<byte>, open: nat): seq<byte> {
    if |p| <= open then [] else Scan(p[open+1..]).text
  }

  /** However the network cuts the document, what has been shown is a function of the bytes that have come:
      nothing before the value opens, then exactly the decoded text of the value so far. */
  lemma {:induction false} CutsDoNotMatter(d: seq<byte>, at: nat, open: nat, chunks: seq<seq<byte>>)
    requires TextField(d, at, open) && Joined(chunks) <= d
    ensures var (st, out) := Feed(chunks);
      && out == Shown(Joined(chunks), open)
      && Fed(Joined(chunks), at, open, st, out)
  {
    if chunks == [] {
      assert SuffixFrom([], 0, []);
    } else {
      var last := chunks[|chunks|-1];
      var p := Joined(chunks[..|chunks|-1]);
      assert p <= Joined(chunks) <= d;
      CutsDoNotMatter(d, at, open, chunks[..|chunks|-1]);
      var (st, out) := Feed(chunks[..|chunks|-1]);
      if |p| > open {
        ValueStep(p, last, at, open, st, out);
      } else if last == [] {
        assert p + last == p;
        assert out + [] == out;
      } else {
        SeekStep(d, at, open, p, last, st);
        assert [] + WriteStep(st, last).1 == WriteStep(st, last).1;
      }
    }
  }
}
