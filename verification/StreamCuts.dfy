/** Exactly which documents read the same however the network cuts them. */
module StreamCuts {
  import opened Bytes
  import opened TextStream

  /** The first "text" from `k` on is followed, after spaces, by something other than a colon. */
  predicate DecoyFrom(d: seq<byte>, k: nat)
    requires k <= |d|
  {
    var at := Index(d, k);
    at >= 0 && SkipSpace(d, at + 6) < |d| && d[SkipSpace(d, at + 6)] != COLON
  }

  /** Where the string begins whose colon should stand at `r` after a key, or -1 if no string does. */
  function OpenAt(d: seq<byte>, r: nat): (q: int)
    requires r <= |d|
    ensures q >= 0 ==> r < q <= |d|
  {
    if r >= |d| || d[r] != COLON then -1
    else
      var q := SkipSpace(d, r + 1);
      if q >= |d| || d[q] != QUOTE then -1 else q + 1
  }

  function TextAt(d: seq<byte>, q: int): seq<byte>
    requires q <= |d|
  {
    if q < 0 then [] else Scan(d[q..]).text
  }

  /** Where the string of the first "text" from `k` on that is a key begins, every decoy before it skipped, or -1. */
  function FieldAt(d: seq<byte>, k: nat): (q: int)
    requires k <= |d|
    ensures q <= |d|
    decreases |d| - k
  {
    var at := Index(d, k);
    if at < 0 then -1
    else if DecoyFrom(d, k) then FieldAt(d, at + 6)
    else OpenAt(d, SkipSpace(d, at + 6))
  }

  function FieldText(d: seq<byte>, k: nat): seq<byte>
    requires k <= |d|
  {
    TextAt(d, FieldAt(d, k))
  }

  predicate FirstIsDecoy(d: seq<byte>) {
    DecoyFrom(d, 0)
  }

  /** The text behind a first decoy. */
  function LaterText(d: seq<byte>): seq<byte>
    requires FirstIsDecoy(d)
  {
    FieldText(d, Index(d, 0) + 6)
  }

  /** However it is cut, what has been shown in the end is the same. */
  ghost predicate CutIndependent(d: seq<byte>) {
    forall chunks | Joined(chunks) == d :: Feed(chunks).1 == Feed([d]).1
  }

  // ---- looking at a document through what is buffered of it ----

  lemma SliceTwice(d: seq<byte>, k: nat, j: nat)
    requires k + j <= |d|
    ensures d[k..][j..] == d[k+j..]
  {
  }

  lemma OccursInBuffer(d: seq<byte>, p: seq<byte>, k: nat, j: nat)
    requires p <= d && k <= |p| && k <= j
    ensures OccursAt(p[k..], j - k) <==> OccursAt(d, j) && j + 6 <= |p|
  {
  }

  /** A first key in what is buffered is the document's first from there on. */
  lemma IndexInBuffer(d: seq<byte>, p: seq<byte>, k: nat)
    requires p <= d && k <= |p| && Index(p[k..], 0) >= 0
    ensures Index(d, k) == k + Index(p[k..], 0)
  {
    var at := k + Index(p[k..], 0);
    OccursInBuffer(d, p, k, at);
    forall j | k <= j < at ensures !OccursAt(d, j) {
      OccursInBuffer(d, p, k, j);
    }
    IndexSkips(d, k, at);
  }

  /** And when there is none, none begins where all of it has come. */
  lemma NoneInBuffer(d: seq<byte>, p: seq<byte>, k: nat, j: nat)
    requires p <= d && k <= |p| && Index(p[k..], 0) < 0 && k <= j && j + 6 <= |p|
    ensures !OccursAt(d, j)
  {
    OccursInBuffer(d, p, k, j);
  }

  lemma IndexSkips(d: seq<byte>, k: nat, k': nat)
    requires k <= k' <= |d| && forall j | k <= j < k' :: !OccursAt(d, j)
    ensures Index(d, k') == Index(d, k)
    decreases k' - k
  {
    if k < k' {
      IndexSkips(d, k + 1, k');
    }
  }

  /** Spaces that end inside the buffer end there in the document. */
  lemma SkipInBuffer(d: seq<byte>, p: seq<byte>, k: nat, j: nat)
    requires p <= d && k + j <= |p|
    ensures var r := SkipSpace(p[k..], j); k + r < |p| ==> SkipSpace(d, k + j) == k + r
  {
    var r := SkipSpace(p[k..], j);
    if k + r < |p| {
      assert p[k..][r] == d[k+r];
      forall i | k + j <= i < k + r ensures Space(d[i]) {
        assert p[k..][i-k] == d[i];
      }
      SkipTo(d, k + j, k + r);
    }
  }

  // ---- a document without text shows none ----

  /** What a stream that has shown nothing holds of a document without text. */
  ghost predicate Silent(p: seq<byte>, d: seq<byte>, st: State)
    requires p <= d
  {
    match st.phase
    case SeekingKey => st.pending == [] && exists k: nat :: k <= |p| && st.buf == p[k..] && FieldText(d, k) == []
    case InValue => exists q: nat :: q <= |p| && Opened(p, d, q, st.pending)
    case Finished => true
  }

  /** The value began at `q`, is not over, and has no text. */
  predicate Opened(p: seq<byte>, d: seq<byte>, q: nat, pending: seq<byte>)
    requires q <= |p| <= |d|
  {
    Scan(p[q..]) == Seen([], pending, false) && Scan(d[q..]).text == []
  }

  lemma OpenedSilent(p: seq<byte>, d: seq<byte>, q: nat)
    requires p <= d && q <= |p| && Scan(d[q..]).text == []
    ensures Consume([], p[q..]).1 == [] && Silent(p, d, Consume([], p[q..]).0)
  {
    assert d[q..] == p[q..] + d[|p|..] && [] + p[q..] == p[q..];
    ScanGrows(p[q..], d[|p|..]);
    assert !Scan(p[q..]).closed ==> Opened(p, d, q, Scan(p[q..]).pending);
  }

  lemma SeekingSilent(p: seq<byte>, d: seq<byte>, k: nat)
    requires p <= d && k <= |p| && FieldText(d, k) == []
    ensures Silent(p, d, State(SeekingKey, p[k..], []))
  {
  }

  /** After a colon at `r`, behind the key at `at`. */
  lemma AfterColonSilent(p: seq<byte>, d: seq<byte>, k: nat, at: nat, r: nat)
    requires p <= d && k <= at && at + 6 <= r < |p| && FieldText(d, at) == []
    requires d[r] == COLON && TextAt(d, OpenAt(d, r)) == []
    ensures var st := AfterColon(p[k..], at - k, p[at+6..], r - at - 5); st.1 == [] && Silent(p, d, st.0)
  {
    hide Consume, FieldAt, OccursAt, Scan, SkipSpace;
    var rest := p[at+6..];
    var q := SkipSpace(rest, r - at - 5);
    SkipInBuffer(d, p, at + 6, r - at - 5);
    if q >= |rest| {
      SliceTwice(p, k, at - k);
    } else if rest[q] == QUOTE {
      assert OpenAt(d, r) == at + 6 + q + 1;
      OpenedSilent(p, d, at + 6 + q + 1);
      SliceTwice(p, at + 6, q + 1);
    }
  }

  lemma DecoySilent(d: seq<byte>, at: nat)
    requires at + 6 <= |d| && Index(d, at) == at && DecoyFrom(d, at) && FieldText(d, at) == []
    ensures FieldText(d, at + 6) == []
  {
  }

  lemma KeySilent(d: seq<byte>, at: nat)
    requires at + 6 <= |d| && Index(d, at) == at && !DecoyFrom(d, at) && FieldText(d, at) == []
    ensures TextAt(d, OpenAt(d, SkipSpace(d, at + 6))) == []
  {
  }

  /** The three ways of going on after the key at `at`: the spaces behind it have no end yet, */
  lemma KeyWaits(p: seq<byte>, k: nat, at: nat)
    requires k <= at && at + 6 <= |p| && SkipSpace(p[at+6..], 0) == |p| - at - 6
    ensures AfterKey(p[k..], at - k) == (State(SeekingKey, p[at..], []), [])
  {
    SliceTwice(p, k, at - k + 6);
    SliceTwice(p, k, at - k);
  }

  /** they end in something that is no colon, */
  lemma KeyIsDecoy(p: seq<byte>, k: nat, at: nat, j: nat)
    requires k <= at && at + 6 + j < |p| && SkipSpace(p[at+6..], 0) == j && p[at+6..][j] != COLON
    ensures AfterKey(p[k..], at - k) == (State(SeekingKey, p[at+6..], []), [])
  {
    SliceTwice(p, k, at - k + 6);
  }

  /** or they end in one. */
  lemma KeyHasColon(p: seq<byte>, k: nat, at: nat, j: nat)
    requires k <= at && at + 6 + j < |p| && SkipSpace(p[at+6..], 0) == j && p[at+6..][j] == COLON
    ensures AfterKey(p[k..], at - k) == AfterColon(p[k..], at - k, p[at+6..], j + 1)
  {
    SliceTwice(p, k, at - k + 6);
  }

  /** After the key at `at`. */
  lemma AfterKeySilent(p: seq<byte>, d: seq<byte>, k: nat, at: nat)
    requires p <= d && k <= at && at + 6 <= |p| && Index(d, at) == at && FieldText(d, at) == []
    ensures AfterKey(p[k..], at - k).1 == [] && Silent(p, d, AfterKey(p[k..], at - k).0)
  {
    hide AfterKey, AfterColon, Silent, FieldText, TextAt, OpenAt, Scan;
    var rest := p[at+6..];
    var j := SkipSpace(rest, 0);
    SkipInBuffer(d, p, at + 6, 0);
    if j >= |rest| {
      KeyWaits(p, k, at);
      SeekingSilent(p, d, at);
    } else if rest[j] == COLON {
      KeyHasColon(p, k, at, j);
      KeySilent(d, at);
      AfterColonSilent(p, d, k, at, at + 6 + j);
    } else {
      KeyIsDecoy(p, k, at, j);
      DecoySilent(d, at);
      SeekingSilent(p, d, at + 6);
    }
  }

  /** Looking on from a later place where no key begins. */
  lemma LaterSilent(d: seq<byte>, k: nat, k': nat)
    requires k <= k' <= |d| && FieldText(d, k) == [] && forall j | k <= j < k' :: !OccursAt(d, j)
    ensures FieldText(d, k') == [] && Index(d, k') == Index(d, k)
  {
    IndexSkips(d, k, k');
  }

  lemma FoundSilent(p: seq<byte>, d: seq<byte>, k: nat)
    requires p <= d && k <= |p| && FieldText(d, k) == [] && Index(p[k..], 0) >= 0
    ensures Seek(p[k..]).1 == [] && Silent(p, d, Seek(p[k..]).0)
  {
    var at := k + Index(p[k..], 0);
    IndexInBuffer(d, p, k);
    LaterSilent(d, k, at);
    AfterKeySilent(p, d, k, at);
  }

  lemma MissingSilent(p: seq<byte>, d: seq<byte>, k: nat)
    requires p <= d && k <= |p| && FieldText(d, k) == [] && Index(p[k..], 0) < 0
    ensures Seek(p[k..]).1 == [] && Silent(p, d, Seek(p[k..]).0)
  {
    var k' := if |p[k..]| > 6 then |p| - 6 else k;
    forall j | k <= j < k' ensures !OccursAt(d, j) {
      NoneInBuffer(d, p, k, j);
    }
    LaterSilent(d, k, k');
    SliceTwice(p, k, k' - k);
    SeekingSilent(p, d, k');
  }

  lemma ValueSilent(p: seq<byte>, chunk: seq<byte>, d: seq<byte>, q: nat, pending: seq<byte>)
    requires p + chunk <= d && q <= |p| && Opened(p, d, q, pending)
    ensures Consume(pending, chunk).1 == [] && Silent(p + chunk, d, Consume(pending, chunk).0)
  {
    var v, p' := p[q..], p + chunk;
    assert p'[q..] == v + chunk && d[q..] == p'[q..] + d[|p'|..];
    ScanSplits(v, chunk);
    ScanGrows(p'[q..], d[|p'|..]);
    assert Prefixed([], Scan(pending + chunk)) == Scan(pending + chunk);
    assert !Scan(pending + chunk).closed ==> Opened(p', d, q, Scan(pending + chunk).pending);
  }

  /** One more chunk of a document without text. */
  lemma SilentStep(p: seq<byte>, chunk: seq<byte>, d: seq<byte>, st: State)
    requires p + chunk <= d && Silent(p, d, st)
    ensures WriteStep(st, chunk).1 == [] && Silent(p + chunk, d, WriteStep(st, chunk).0)
  {
    if chunk == [] {
      assert p + chunk == p;
    } else if st.phase.SeekingKey? {
      var k: nat :| k <= |p| && st.buf == p[k..] && FieldText(d, k) == [];
      assert st.buf + chunk == (p + chunk)[k..];
      if Index((p + chunk)[k..], 0) >= 0 {
        FoundSilent(p + chunk, d, k);
      } else {
        MissingSilent(p + chunk, d, k);
      }
    } else if st.phase.InValue? {
      var q: nat :| q <= |p| && Opened(p, d, q, st.pending);
      ValueSilent(p, chunk, d, q, st.pending);
    }
  }

  /** A document without text shows nothing, however it is cut. */
  lemma {:induction false} SilentDocument(d: seq<byte>, chunks: seq<seq<byte>>)
    requires FieldText(d, 0) == [] && Joined(chunks) <= d
    ensures Feed(chunks).1 == [] && Silent(Joined(chunks), d, Feed(chunks).0)
  {
    if chunks == [] {
      var none: seq<byte> := [];
      assert none[0..] == none;
    } else {
      var init, last := chunks[..|chunks|-1], chunks[|chunks|-1];
      assert Joined(init) <= Joined(chunks);
      SilentDocument(d, init);
      SilentStep(Joined(init), last, d, Feed(init).0);
    }
  }

  // ---- a document whose first "text" is its key ----

  /** A text not behind a decoy is that of a key with a string value. */
  lemma TextIsField(d: seq<byte>)
    requires FieldText(d, 0) != [] && !FirstIsDecoy(d)
    ensures var open := OpenAt(d, SkipSpace(d, Index(d, 0) + 6)) - 1;
      open >= 0 && TextField(d, Index(d, 0), open) && FieldText(d, 0) == Scan(d[open+1..]).text
  {
    var at := Index(d, 0);
    var r := SkipSpace(d, at + 6);
    var open := OpenAt(d, r) - 1;
    assert ColonBetween(d, at, r, open);
  }

  /** Then every way of cutting it shows that text. */
  lemma FieldIsShown(d: seq<byte>, chunks: seq<seq<byte>>)
    requires FieldText(d, 0) != [] && !FirstIsDecoy(d) && Joined(chunks) == d
    ensures Feed(chunks).1 == FieldText(d, 0)
  {
    hide Scan, FieldAt, FieldText, FirstIsDecoy, Fed, Feed;
    TextIsField(d);
    CutsDoNotMatter(d, Index(d, 0), OpenAt(d, SkipSpace(d, Index(d, 0) + 6)) - 1, chunks);
  }

  lemma JoinedOne(d: seq<byte>)
    ensures Joined([d]) == d && Feed([d]) == WriteStep(START, d)
  {
    assert [d][..0] == [] && [] + d == d && [] + WriteStep(START, d).1 == WriteStep(START, d).1;
  }

  // ---- a document with a text behind decoys ----

  /** Feeding a stream that is in some state already. */
  function FeedFrom(st: State, chunks: seq<seq<byte>>): (State, seq<byte>)
    decreases |chunks|
  {
    if chunks == [] then (st, [])
    else
      var (st1, out1) := WriteStep(st, chunks[0]);
      var (st2, out2) := FeedFrom(st1, chunks[1..]);
      (st2, out1 + out2)
  }

  lemma FeedFromFirst(st: State, c: seq<byte>, chunks: seq<seq<byte>>)
    ensures var (st1, out) := WriteStep(st, c);
      FeedFrom(st, [c] + chunks) == (FeedFrom(st1, chunks).0, out + FeedFrom(st1, chunks).1)
  {
    assert ([c] + chunks)[1..] == chunks;
  }

  lemma {:induction false} FeedFromAppend(st: State, chunks: seq<seq<byte>>, c: seq<byte>)
    ensures var (st1, out) := FeedFrom(st, chunks);
      FeedFrom(st, chunks + [c]) == (WriteStep(st1, c).0, out + WriteStep(st1, c).1)
    decreases |chunks|
  {
    hide WriteStep;
    if chunks == [] {
      FeedFromFirst(st, c, []);
      assert [c] + [] == chunks + [c] && [] + WriteStep(st, c).1 == WriteStep(st, c).1 == WriteStep(st, c).1 + [];
    } else {
      var (st1, out1) := WriteStep(st, chunks[0]);
      var (st2, out2) := FeedFrom(st1, chunks[1..]);
      FeedFromAppend(st1, chunks[1..], c);
      FeedFromFirst(st, chunks[0], chunks[1..] + [c]);
      assert [chunks[0]] + (chunks[1..] + [c]) == chunks + [c];
      assert out1 + (out2 + WriteStep(st2, c).1) == (out1 + out2) + WriteStep(st2, c).1;
    }
  }

  lemma {:induction false} FeedIsFeedFrom(chunks: seq<seq<byte>>)
    ensures Feed(chunks) == FeedFrom(START, chunks)
  {
    hide WriteStep;
    if chunks != [] {
      var init, last := chunks[..|chunks|-1], chunks[|chunks|-1];
      FeedIsFeedFrom(init);
      FeedFromAppend(START, init, last);
      assert init + [last] == chunks;
    }
  }

  lemma {:induction false} JoinedFirst(c: seq<byte>, chunks: seq<seq<byte>>)
    ensures Joined([c] + chunks) == c + Joined(chunks)
    decreases |chunks|
  {
    var all := [c] + chunks;
    if chunks == [] {
      assert all[..0] == [];
    } else {
      var n := |chunks| - 1;
      assert all[..n+1] == [c] + chunks[..n];
      JoinedFirst(c, chunks[..n]);
    }
  }

  /** A key in the document is the first of a buffer that reaches past it. */
  lemma IndexOut(d: seq<byte>, p: seq<byte>, k: nat)
    requires p <= d && k <= |p| && Index(d, k) >= 0 && Index(d, k) + 6 <= |p|
    ensures Index(p[k..], 0) == Index(d, k) - k
  {
    var at := Index(d, k);
    OccursInBuffer(d, p, k, at);
    if Index(p[k..], 0) < 0 {
      NoneInBuffer(d, p, k, at);
    } else {
      IndexInBuffer(d, p, k);
    }
  }

  lemma SkipOut(d: seq<byte>, p: seq<byte>, k: nat)
    requires p <= d && k <= |p| && SkipSpace(d, k) < |p|
    ensures SkipSpace(p[k..], 0) == SkipSpace(d, k) - k
    ensures p[k..][SkipSpace(d, k) - k] == d[SkipSpace(d, k)]
  {
    var rest, r := p[k..], SkipSpace(d, k);
    forall i | 0 <= i < r - k ensures Space(rest[i]) {
      assert rest[i] == d[k+i];
    }
    assert rest[r-k] == d[r];
    SkipTo(rest, 0, r - k);
  }

  /** What follows the first key of a buffer decides how it is read. */
  lemma SeekReads(s: seq<byte>, i: nat, rest: seq<byte>, j: nat)
    requires Index(s, 0) == i && i + 6 <= |s| && rest == s[i+6..] && SkipSpace(rest, 0) == j < |rest|
    ensures Seek(s) == if rest[j] == COLON then AfterColon(s, i, rest, j + 1) else (State(SeekingKey, rest, []), [])
  {
    hide AfterColon, Index, OccursAt, SkipSpace;
  }

  /** A buffer that reaches the byte that gives a decoy away is read no further than the decoy. */
  lemma SeekDecoy(d: seq<byte>, p: seq<byte>, k: nat)
    requires p <= d && k <= |p| && DecoyFrom(d, k) && SkipSpace(d, Index(d, k) + 6) < |p|
    ensures Seek(p[k..]) == (State(SeekingKey, p[Index(d, k)+6..], []), [])
  {
    hide AfterColon, Index, OccursAt, Seek, SkipSpace;
    var at := Index(d, k);
    IndexOut(d, p, k);
    SkipOut(d, p, at + 6);
    SliceTwice(p, k, at - k + 6);
    SeekReads(p[k..], at - k, p[at+6..], SkipSpace(d, at + 6) - at - 6);
  }

  lemma WriteSeeks(d: seq<byte>, k: nat, n: nat, m: nat)
    requires k <= n < m <= |d|
    ensures WriteStep(State(SeekingKey, d[k..n], []), d[n..m]) == Seek(d[..m][k..])
  {
    assert d[k..n] + d[n..m] == d[..m][k..];
  }

  lemma KeyThenColon(d: seq<byte>, k: nat, at: nat, r: nat)
    requires k <= at && at + 6 <= r < |d| && Index(d, k) == at && SkipSpace(d, at + 6) == r && d[r] == COLON
    ensures Seek(d[k..]) == AfterColon(d[k..], at - k, d[at+6..], r - at - 5)
  {
    hide AfterColon, Index, OccursAt, Seek, SkipSpace;
    IndexOut(d, d, k);
    SliceTwice(d, k, at - k + 6);
    SkipOut(d, d, at + 6);
    SeekReads(d[k..], at - k, d[at+6..], r - at - 6);
  }

  lemma ColonThenQuote(d: seq<byte>, k: nat, at: nat, r: nat, q: nat)
    requires k <= at && at + 6 <= r < q < |d| && SkipSpace(d, r + 1) == q && d[q] == QUOTE
    ensures AfterColon(d[k..], at - k, d[at+6..], r - at - 5) == Consume([], d[q+1..])
  {
    hide Consume, SkipSpace;
    var rest := d[at+6..];
    SkipInside(d, at + 6, r + 1);
    SliceTwice(d, at + 6, q - at - 5);
    assert SkipSpace(rest, r - at - 5) == q - at - 6 && rest[q-at-6] == QUOTE && rest[q-at-5..] == d[q+1..];
  }

  lemma ConsumeAll(v: seq<byte>)
    ensures Consume([], v).1 == Scan(v).text
  {
    assert [] + v == v;
  }

  lemma FieldParts(d: seq<byte>, k: nat) returns (at: nat, r: nat, q: nat)
    requires k <= |d| && !DecoyFrom(d, k) && FieldAt(d, k) >= 0
    ensures k <= at && at + 6 <= r < q < |d| && Index(d, k) == at && FieldAt(d, k) == q + 1
    ensures SkipSpace(d, at + 6) == r && d[r] == COLON && SkipSpace(d, r + 1) == q && d[q] == QUOTE
  {
    at := Index(d, k);
    r := SkipSpace(d, at + 6);
    q := SkipSpace(d, r + 1);
  }

  lemma SeekValue(d: seq<byte>, k: nat, at: nat, r: nat, q: nat)
    requires k <= at && at + 6 <= r < q < |d| && Index(d, k) == at
    requires SkipSpace(d, at + 6) == r && d[r] == COLON && SkipSpace(d, r + 1) == q && d[q] == QUOTE
    ensures Seek(d[k..]) == Consume([], d[q+1..])
  {
    KeyThenColon(d, k, at, r);
    ColonThenQuote(d, k, at, r, q);
  }

  /** A buffer that holds the whole document from a key on reads its value. */
  lemma SeekField(d: seq<byte>, k: nat)
    requires k <= |d| && !DecoyFrom(d, k) && FieldAt(d, k) >= 0
    ensures Seek(d[k..]) == Consume([], d[FieldAt(d, k)..])
  {
    hide FieldAt, Seek, Consume;
    var at, r, q := FieldParts(d, k);
    SeekValue(d, k, at, r, q);
  }

  lemma SkipInside(d: seq<byte>, k: nat, j: nat)
    requires k <= j && j <= |d| && SkipSpace(d, j) < |d|
    ensures SkipSpace(d[k..], j - k) == SkipSpace(d, j) - k && d[k..][SkipSpace(d, j) - k] == d[SkipSpace(d, j)]
  {
    var rest, r := d[k..], SkipSpace(d, j);
    forall i | j - k <= i < r - k ensures Space(rest[i]) {
      assert rest[i] == d[k+i];
    }
    assert rest[r-k] == d[r];
    SkipTo(rest, j - k, r - k);
  }

  /** A key is no space. */
  lemma NextKeyIsLater(d: seq<byte>, k: nat)
    requires k <= |d| && Index(d, k) >= 0
    ensures SkipSpace(d, k) <= Index(d, k)
  {
    var at := Index(d, k);
    assert !Space(d[at]);
  }

  /** The call that is fed up to the byte giving a decoy away. */
  lemma WriteDecoy(d: seq<byte>, k: nat, n: nat, at: nat, r: nat)
    requires k <= n <= at + 6 <= r < |d| && DecoyFrom(d, k) && Index(d, k) == at && SkipSpace(d, at + 6) == r
    ensures WriteStep(State(SeekingKey, d[k..n], []), d[n..r+1]) == (State(SeekingKey, d[at+6..r+1], []), [])
  {
    hide Seek, DecoyFrom;
    var p := d[..r+1];
    SeekDecoy(d, p, k);
    WriteSeeks(d, k, n, r + 1);
    assert p[at+6..] == d[at+6..r+1];
  }

  /** The call that is fed the rest of the document. */
  lemma WriteField(d: seq<byte>, k: nat, n: nat)
    requires k <= n < |d| && !DecoyFrom(d, k) && FieldAt(d, k) >= 0
    ensures WriteStep(State(SeekingKey, d[k..n], []), d[n..]) == Consume([], d[FieldAt(d, k)..])
  {
    hide Seek, Consume, FieldAt, DecoyFrom;
    SeekField(d, k);
    WriteSeeks(d, k, n, |d|);
    assert d[..|d|] == d && d[n..|d|] == d[n..];
  }

  /** One more chunk in front, that shows nothing. */
  lemma ChunkFirst(d: seq<byte>, n: nat, m: nat, st: State, st': State, rest: seq<seq<byte>>)
    requires n <= m <= |d| && WriteStep(st, d[n..m]) == (st', []) && Joined(rest) == d[m..]
    ensures Joined([d[n..m]] + rest) == d[n..]
    ensures FeedFrom(st, [d[n..m]] + rest).1 == FeedFrom(st', rest).1
  {
    hide WriteStep;
    JoinedFirst(d[n..m], rest);
    assert d[n..m] + d[m..] == d[n..];
    FeedFromFirst(st, d[n..m], rest);
    assert [] + FeedFrom(st', rest).1 == FeedFrom(st', rest).1;
  }

  lemma ChunkLast(d: seq<byte>, n: nat, st: State)
    requires n <= |d|
    ensures Joined([d[n..]]) == d[n..] && FeedFrom(st, [d[n..]]).1 == WriteStep(st, d[n..]).1
  {
    hide WriteStep;
    JoinedOne(d[n..]);
    FeedFromFirst(st, d[n..], []);
    assert [d[n..]] + [] == [d[n..]];
    assert WriteStep(st, d[n..]).1 + [] == WriteStep(st, d[n..]).1;
  }

  lemma DecoyThenField(d: seq<byte>, k: nat, at: nat)
    requires k <= |d| && DecoyFrom(d, k) && FieldAt(d, k) >= 0 && Index(d, k) == at
    ensures FieldAt(d, at + 6) == FieldAt(d, k) && SkipSpace(d, at + 6) <= Index(d, at + 6)
  {
    NextKeyIsLater(d, at + 6);
  }

  /** These chunks bring a stream that has come to `n` and looks from `k` on to the end of the document, showing a
      text. */
  ghost predicate Show(d: seq<byte>, k: nat, n: nat, chunks: seq<seq<byte>>, text: seq<byte>)
    requires k <= n <= |d|
  {
    Joined(chunks) == d[n..] && FeedFrom(State(SeekingKey, d[k..n], []), chunks).1 == text
  }

  lemma DecoyShows(d: seq<byte>, k: nat, n: nat, at: nat, r: nat, rest: seq<seq<byte>>, text: seq<byte>)
    requires k <= n <= at + 6 <= r < |d| && DecoyFrom(d, k) && Index(d, k) == at && SkipSpace(d, at + 6) == r
    requires Show(d, at + 6, r + 1, rest, text)
    ensures Show(d, k, n, [d[n..r+1]] + rest, text)
  {
    hide WriteStep, DecoyFrom;
    WriteDecoy(d, k, n, at, r);
    ChunkFirst(d, n, r + 1, State(SeekingKey, d[k..n], []), State(SeekingKey, d[at+6..r+1], []), rest);
  }

  lemma FieldShows(d: seq<byte>, k: nat, n: nat, q: nat)
    requires k <= n < |d| && !DecoyFrom(d, k) && FieldAt(d, k) == q
    ensures Show(d, k, n, [d[n..]], Consume([], d[q..]).1)
  {
    hide WriteStep, Consume, FieldAt, DecoyFrom;
    WriteField(d, k, n);
    ChunkLast(d, n, State(SeekingKey, d[k..n], []));
  }

  /** A stream that has come to `n` and looks from `k` on can be fed the rest so that every decoy is given away at the
      end of a chunk, and then it shows the text behind them. */
  lemma {:induction false} CutsShow(d: seq<byte>, k: nat, n: nat, q: nat) returns (chunks: seq<seq<byte>>)
    requires k <= n <= |d| && n <= Index(d, k) + 6 && FieldAt(d, k) == q <= |d|
    ensures Show(d, k, n, chunks, Consume([], d[q..]).1)
    decreases |d| - k
  {
    hide Show, Consume, FieldAt, Index, SkipSpace;
    var at := Index(d, k);
    if DecoyFrom(d, k) {
      var r := SkipSpace(d, at + 6);
      DecoyThenField(d, k, at);
      var rest := CutsShow(d, at + 6, r + 1, q);
      DecoyShows(d, k, n, at, r, rest, Consume([], d[q..]).1);
      chunks := [d[n..r+1]] + rest;
    } else {
      var _, _, _ := FieldParts(d, k);
      FieldShows(d, k, n, q);
      chunks := [d[n..]];
    }
  }

  /** Fed whole, a document that begins with a decoy shows nothing. */
  lemma DecoyHides(d: seq<byte>)
    requires FirstIsDecoy(d)
    ensures Feed([d]).1 == []
  {
    JoinedOne(d);
    SeekDecoy(d, d, 0);
    assert [] + d == d && d[0..] == d;
  }

  lemma LaterTextIsFields(d: seq<byte>)
    requires FirstIsDecoy(d) && LaterText(d) != []
    ensures FieldAt(d, 0) >= 0 && Consume([], d[FieldAt(d, 0)..]).1 == LaterText(d)
  {
    ConsumeAll(d[FieldAt(d, 0)..]);
  }

  lemma LaterTextDependsOnCuts(d: seq<byte>)
    requires FirstIsDecoy(d) && LaterText(d) != []
    ensures !CutIndependent(d)
  {
    hide Consume, Scan, FieldAt, LaterText, Feed, FeedFrom;
    LaterTextIsFields(d);
    var chunks := CutsShow(d, 0, 0, FieldAt(d, 0));
    FeedIsFeedFrom(chunks);
    DecoyHides(d);
    assert d[0..] == d && d[0..0] == [];
    assert Joined(chunks) == d && Feed(chunks).1 != Feed([d]).1;
  }

  /** What a document shows does not depend on how the network cuts it, unless its first "text" is no key and a key
      with a text follows: exactly then two ways of cutting it differ. */
  lemma CutsMatterExactly(d: seq<byte>)
    ensures CutIndependent(d) <==> !(FirstIsDecoy(d) && LaterText(d) != [])
  {
    if FirstIsDecoy(d) && LaterText(d) != [] {
      LaterTextDependsOnCuts(d);
    } else {
      JoinedOne(d);
      forall chunks | Joined(chunks) == d ensures Feed(chunks).1 == Feed([d]).1 {
        if FieldText(d, 0) == [] {
          SilentDocument(d, chunks);
          SilentDocument(d, [d]);
        } else {
          FieldIsShown(d, chunks);
          FieldIsShown(d, [d]);
        }
      }
    }
  }
}
