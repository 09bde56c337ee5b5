/** From raw matches to the evidence an axis reports: the note on absence, the ranking and the cap. */
module Evidence {
  import opened Discovery
  import Order

  const MAX_SPANS_PER_AXIS := 12

  /** What is said beside the spans. */
  datatype Note =
    | Nothing | NoSignal(files: nat) | WalkCutShort(files: nat) | Capped(matched: nat, shown: nat, near: nat)

  datatype Evidence = Evidence(found: bool, spans: seq<Span>, note: Note)

  // ---- the order ----

  /** Files that call a model come first, then by path. */
  predicate Precedes(a: Span, b: Span, callFiles: set<string>) {
    if (a.path in callFiles) != (b.path in callFiles) then a.path in callFiles else Order.Less(a.path, b.path)
  }

  lemma PrecedesIsOrder(a: Span, b: Span, c: Span, callFiles: set<string>)
    ensures !(Precedes(a, b, callFiles) && Precedes(b, a, callFiles))
    ensures Precedes(a, c, callFiles) ==> Precedes(a, b, callFiles) || Precedes(b, c, callFiles)
  {
    Order.LessIsStrict(a.path, b.path);
    Order.LessIsTotal(a.path, b.path);
    Order.LessIsTotal(b.path, c.path);
    if Precedes(a, c, callFiles) && Order.Less(a.path, c.path) && Order.Less(b.path, a.path) {
      Order.LessIsTransitive(b.path, a.path, c.path);
    }
  }

  predicate Ranked(s: seq<Span>, callFiles: set<string>) {
    forall i, j | 0 <= i < j < |s| :: !Precedes(s[j], s[i], callFiles)
  }

  /** Puts a span before the first one it need not follow. */
  function Place(x: Span, s: seq<Span>, callFiles: set<string>): seq<Span> {
    if s == [] || !Precedes(s[0], x, callFiles) then [x] + s else [s[0]] + Place(x, s[1..], callFiles)
  }

  /** The stable sort. */
  function Rank(s: seq<Span>, callFiles: set<string>): (r: seq<Span>)
    ensures |r| == |s|
  {
    if s == [] then [] else
      PlaceLonger(s[0], Rank(s[1..], callFiles), callFiles);
      Place(s[0], Rank(s[1..], callFiles), callFiles)
  }

  lemma {:induction false} PlaceLonger(x: Span, s: seq<Span>, callFiles: set<string>)
    ensures |Place(x, s, callFiles)| == |s| + 1 && multiset(Place(x, s, callFiles)) == multiset(s) + multiset{x}
  {
    if s != [] && Precedes(s[0], x, callFiles) {
      PlaceLonger(x, s[1..], callFiles);
      assert s == [s[0]] + s[1..];
    }
  }

  lemma {:induction false} PlaceRanks(x: Span, s: seq<Span>, callFiles: set<string>)
    requires Ranked(s, callFiles)
    ensures Ranked(Place(x, s, callFiles), callFiles)
  {
    var r := Place(x, s, callFiles);
    if s == [] || !Precedes(s[0], x, callFiles) {
      forall i | 0 <= i < |s| ensures !Precedes(s[i], x, callFiles) {
        PrecedesIsOrder(s[i], s[0], x, callFiles);
      }
    } else {
      var rest := Place(x, s[1..], callFiles);
      PlaceRanks(x, s[1..], callFiles);
      PlaceLonger(x, s[1..], callFiles);
      forall i | 0 <= i < |rest| ensures !Precedes(rest[i], s[0], callFiles) {
        assert rest[i] in multiset(rest);
        if rest[i] == x {
          PrecedesIsOrder(s[0], x, x, callFiles);
        } else {
          assert rest[i] in s[1..];
        }
      }
    }
  }

  /** Ranking is a permutation in order. */
  lemma {:induction false} RankRanks(s: seq<Span>, callFiles: set<string>)
    ensures Ranked(Rank(s, callFiles), callFiles) && multiset(Rank(s, callFiles)) == multiset(s)
  {
    if s != [] {
      RankRanks(s[1..], callFiles);
      PlaceRanks(s[0], Rank(s[1..], callFiles), callFiles);
      PlaceLonger(s[0], Rank(s[1..], callFiles), callFiles);
      assert s == [s[0]] + s[1..];
    }
  }

  /** The spans of one file, in order. */
  function OfFile(s: seq<Span>, path: string): seq<Span> {
    if s == [] then [] else (if s[0].path == path then [s[0]] else []) + OfFile(s[1..], path)
  }

  lemma {:induction false} PlaceKeepsFiles(x: Span, s: seq<Span>, callFiles: set<string>, path: string)
    ensures OfFile(Place(x, s, callFiles), path) == OfFile([x] + s, path)
  {
    assert ([x] + s)[1..] == s;
    if s != [] && Precedes(s[0], x, callFiles) {
      PlaceKeepsFiles(x, s[1..], callFiles, path);
      Order.LessIsStrict(x.path, x.path);
      assert s[0].path != x.path;
      assert ([x] + s[1..])[1..] == s[1..];
      assert ([s[0]] + Place(x, s[1..], callFiles))[1..] == Place(x, s[1..], callFiles);
    }
  }

  /** And stable: the spans of one file stay in the order in which the file was read. */
  lemma {:induction false} RankKeepsFiles(s: seq<Span>, callFiles: set<string>, path: string)
    ensures OfFile(Rank(s, callFiles), path) == OfFile(s, path)
  {
    if s != [] {
      RankKeepsFiles(s[1..], callFiles, path);
      PlaceKeepsFiles(s[0], Rank(s[1..], callFiles), callFiles, path);
      assert ([s[0]] + Rank(s[1..], callFiles))[1..] == Rank(s[1..], callFiles);
    }
  }

  // ---- finishing an axis ----

  function Near(s: seq<Span>, callFiles: set<string>): nat {
    if s == [] then 0 else Near(s[..|s|-1], callFiles) + if s[|s|-1].path in callFiles then 1 else 0
  }

  /** The evidence that raw matches amount to. */
  function Finished(spans: seq<Span>, callFiles: set<string>, files: nat, truncated: bool): Evidence {
    var ranked := Rank(spans, callFiles);
    if spans == [] then Evidence(false, [], if truncated then WalkCutShort(files) else NoSignal(files))
    else if |ranked| > MAX_SPANS_PER_AXIS then
      var shown := ranked[..MAX_SPANS_PER_AXIS];
      Evidence(true, shown, Capped(|ranked|, MAX_SPANS_PER_AXIS, Near(shown, callFiles)))
    else Evidence(true, ranked, Nothing)
  }

  method FinishAxis(spans: seq<Span>, callFiles: set<string>, files: nat, truncated: bool) returns (ev: Evidence)
    ensures ev == Finished(spans, callFiles, files, truncated)
  {
    if |spans| == 0 {
      return Evidence(false, spans, if truncated then WalkCutShort(files) else NoSignal(files));
    }
    var ranked := Rank(spans, callFiles);
    if |ranked| <= MAX_SPANS_PER_AXIS {
      return Evidence(true, ranked, Nothing);
    }
    var near := 0;
    var shown := ranked[..MAX_SPANS_PER_AXIS];
    for i := 0 to MAX_SPANS_PER_AXIS
      invariant near == Near(shown[..i], callFiles)
    {
      assert shown[..i+1][..i] == shown[..i];
      if shown[i].path in callFiles {
        near := near + 1;
      }
    }
    assert shown[..MAX_SPANS_PER_AXIS] == shown;
    return Evidence(true, shown, Capped(|ranked|, MAX_SPANS_PER_AXIS, near));
  }

  lemma {:induction false} NearCounts(s: seq<Span>, callFiles: set<string>, k: nat)
    requires Ranked(s, callFiles) && k <= |s|
    ensures forall i | 0 <= i < k :: s[i].path in callFiles <==> i < Near(s[..k], callFiles)
    ensures Near(s[..k], callFiles) <= k
    decreases k
  {
    if k > 0 {
      NearCounts(s, callFiles, k - 1);
      assert s[..k][..k-1] == s[..k-1];
      if s[k-1].path in callFiles {
        forall i | 0 <= i < k - 1 ensures s[i].path in callFiles {
          assert !Precedes(s[k-1], s[i], callFiles);
        }
      }
    }
  }

  /** What is reported is found exactly when something matched, comes from the matches, and is in order with the
      files that call a model in front, as many as are counted. */
  lemma ReportedIsRanked(spans: seq<Span>, callFiles: set<string>, files: nat, truncated: bool)
    ensures var ev := Finished(spans, callFiles, files, truncated);
      && (ev.found <==> spans != [])
      && |ev.spans| == (if |spans| > 12 then 12 else |spans|)
      && (forall i, j | 0 <= i < j < |ev.spans| && ev.spans[j].path in callFiles :: ev.spans[i].path in callFiles)
      && (forall i, j | 0 <= i < j < |ev.spans| && (ev.spans[i].path in callFiles <==> ev.spans[j].path in callFiles) ::
            !Order.Less(ev.spans[j].path, ev.spans[i].path))
      && (ev.note.Capped? <==> |spans| > 12)
      && (ev.note.Capped? ==>
            && ev.note.matched == |spans| && ev.note.shown == 12
            && forall i | 0 <= i < 12 :: ev.spans[i].path in callFiles <==> i < ev.note.near)
      && (ev.note == NoSignal(files) <==> spans == [] && !truncated)
      && (ev.note == WalkCutShort(files) <==> spans == [] && truncated)
  {
    RankRanks(spans, callFiles);
    if |spans| > MAX_SPANS_PER_AXIS {
      NearCounts(Rank(spans, callFiles), callFiles, MAX_SPANS_PER_AXIS);
    }
    var shown := Finished(spans, callFiles, files, truncated).spans;
    forall i, j | 0 <= i < j < |shown| ensures !Precedes(shown[j], shown[i], callFiles) {
    }
  }

  lemma CutIsLater(ranked: seq<Span>, n: nat, callFiles: set<string>, kept: Span, dropped: Span)
    requires Ranked(ranked, callFiles) && n <= |ranked| && kept in ranked[..n] && dropped in ranked[n..]
    ensures !Precedes(dropped, kept, callFiles)
  {
    var i :| 0 <= i < n && ranked[i] == kept;
    var j :| 0 <= j < |ranked[n..]| && ranked[n..][j] == dropped;
    assert ranked[n+j] == dropped;
  }

  /** And only matches that rank no earlier are left out. */
  lemma DroppedRankLater(spans: seq<Span>, callFiles: set<string>, files: nat, truncated: bool,
                         kept: Span, dropped: Span)
    requires kept in Finished(spans, callFiles, files, truncated).spans
    requires dropped in multiset(spans) - multiset(Finished(spans, callFiles, files, truncated).spans)
    ensures !Precedes(dropped, kept, callFiles)
  {
    var ranked, shown := Rank(spans, callFiles), Finished(spans, callFiles, files, truncated).spans;
    var n := |shown|;
    RankRanks(spans, callFiles);
    assert shown == ranked[..n] && ranked == shown + ranked[n..];
    assert multiset(spans) - multiset(shown) == multiset(ranked[n..]);
    CutIsLater(ranked, n, callFiles, kept, dropped);
  }

  // ---- the whole index ----

  /** The single gated pass reports for every axis the evidence of a separate ungated pass. */
  method Index(table: Table, list: seq<Text>, masks: Masks, scanner: LiteralIndex, gate: bool, files: seq<File>,
               callFiles: set<string>, truncated: bool) returns (evidence: map<string, Evidence>)
    requires Tabled(table, list, masks) && SoundTable(table) && scanner.Valid() && scanner.hints == list
    ensures evidence.Keys == table.Keys
    ensures forall axis | axis in table ::
      evidence[axis] == Finished(AxisPass(table[axis], files, |files|).spans, callFiles, |files|, truncated)
  {
    var all := NewIndex(table, list, masks, scanner, gate, files);
    evidence := map[];
    var rest := table.Keys;
    while rest != {}
      invariant rest <= table.Keys && evidence.Keys == table.Keys - rest
      invariant forall axis | axis in evidence ::
        evidence[axis] == Finished(AxisPass(table[axis], files, |files|).spans, callFiles, |files|, truncated)
    {
      var axis :| axis in rest;
      rest := rest - {axis};
      var ev := FinishAxis(all[axis].spans, callFiles, |files|, truncated);
      evidence := evidence[axis := ev];
    }
  }
}
