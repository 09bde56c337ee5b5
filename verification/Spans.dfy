/** What the spans of an axis are: which lines of which files they show, in what order, and which they leave out. */
module Spans {
  import opened Bytes
  import opened Discovery
  import opened Evidence

  // ---- what a span shows ----

  /** The k-th pattern is the first that matches the line. */
  predicate Names(pats: seq<Pattern>, k: nat, line: Text) {
    k < |pats| && pats[k].matches(line) && forall j | 0 <= j < k :: !pats[j].matches(line)
  }

  /** A line that is no comment, and the pattern that names it. */
  predicate Matched(pats: seq<Pattern>, f: File, i: nat, k: nat) {
    i < |f.lines| && !IsComment(f.lines[i], f.language) && Names(pats, k, f.lines[i])
  }

  /** At most this many lines, and at most so many as there are. */
  function AtMost(wanted: nat, there: nat): nat {
    if wanted < there then wanted else there
  }

  /** The number of the first line shown for line `i`, counting from one. */
  function FirstLine(p: Pattern, i: nat): nat {
    i + 1 - AtMost(p.before, i)
  }

  /** A span shows line `i` with the lines before and after it that the pattern asks for, as far as there are any. */
  predicate Shows(s: Span, f: File, i: nat, p: Pattern)
    requires i < |f.lines|
  {
    var before, after := AtMost(p.before, i), AtMost(p.after, |f.lines| - i - 1);
    && s.path == f.path && s.why == p.why && s.line == FirstLine(p, i)
    && |s.text| == before + 1 + after
    && forall j | 0 <= j < |s.text| :: s.text[j] == f.lines[i - before + j]
  }

  // ---- what the pass gathers ----

  /** A place in the corpus where a pattern names a line. */
  datatype Source = Source(file: nat, line: nat, pattern: nat)

  predicate Real(pats: seq<Pattern>, files: seq<File>, w: Source) {
    w.file < |files| && Matched(pats, files[w.file], w.line, w.pattern)
  }

  /** The order in which the corpus is read. */
  predicate Before(file: nat, line: nat, file': nat, line': nat) {
    file < file' || (file == file' && line < line')
  }

  predicate StartsAt(s: Span, path: string, line: nat) {
    s.path == path && s.line == line
  }

  /** The spans are of these places, in the order of reading and no two starting together. */
  predicate Sourced(pats: seq<Pattern>, files: seq<File>, spans: seq<Span>, ws: seq<Source>) {
    && |ws| == |spans|
    && (forall j | 0 <= j < |ws| :: Real(pats, files, ws[j])
          && Shows(spans[j], files[ws[j].file], ws[j].line, pats[ws[j].pattern]))
    && (forall i, j | 0 <= i < j < |ws| :: Before(ws[i].file, ws[i].line, ws[j].file, ws[j].line))
    && (forall i, j | 0 <= i < j < |spans| :: !StartsAt(spans[i], spans[j].path, spans[j].line))
  }

  /** This place has a span, or an earlier one starts where it would. */
  ghost predicate Covered(pats: seq<Pattern>, files: seq<File>, spans: seq<Span>, ws: seq<Source>, w: Source)
    requires |ws| == |spans| && Real(pats, files, w)
  {
    exists j :: 0 <= j < |ws| && StartsAt(spans[j], files[w.file].path, FirstLine(pats[w.pattern], w.line))
      && (ws[j] == w || Before(ws[j].file, ws[j].line, w.file, w.line))
  }

  /** What the pass knows when it has read `n` files and `i` lines of the next. */
  ghost predicate Gathered(pats: seq<Pattern>, files: seq<File>, n: nat, i: nat, found: Found, ws: seq<Source>) {
    && Sourced(pats, files, found.spans, ws)
    && (forall j | 0 <= j < |ws| :: Before(ws[j].file, ws[j].line, n, i))
    && (forall w | Real(pats, files, w) && Before(w.file, w.line, n, i) :: Covered(pats, files, found.spans, ws, w))
    && (forall path, start: nat :: (path, start) in found.seen <==>
          exists j :: 0 <= j < |found.spans| && StartsAt(found.spans[j], path, start + 1))
  }

  lemma {:induction false} FirstMatchNames(pats: seq<Pattern>, line: Text, k: nat)
    requires k <= |pats| && forall j | 0 <= j < k :: !pats[j].matches(line)
    ensures var r := FirstMatch(pats, line, k);
      if r < |pats| then Names(pats, r, line) else forall j | 0 <= j < |pats| :: !pats[j].matches(line)
    decreases |pats| - k
  {
    if k < |pats| && !pats[k].matches(line) {
      FirstMatchNames(pats, line, k + 1);
    }
  }

  lemma OneNames(pats: seq<Pattern>, k: nat, l: nat, line: Text)
    requires Names(pats, k, line) && Names(pats, l, line)
    ensures k == l
  {
  }

  /** What is taken shows the line. */
  lemma TakeShows(p: Pattern, f: File, i: nat, found: Found)
    requires i < |f.lines|
    ensures var start := FirstLine(p, i) - 1; var r := Take(p, f, i, found);
      if (f.path, start) in found.seen then r == found
      else exists s :: Shows(s, f, i, p) && r == Found(found.spans + [s], found.seen + {(f.path, start)})
  {
    var before, after := AtMost(p.before, i), AtMost(p.after, |f.lines| - i - 1);
    var start, end := i - before, i + after + 1;
    assert start == Max(0, i - p.before) && end == Min(|f.lines|, i + p.after + 1);
    assert Shows(Span(f.path, start + 1, f.lines[start..end], p.why), f, i, p);
  }

  lemma SameCount(pats: seq<Pattern>, files: seq<File>, spans: seq<Span>, ws: seq<Source>)
    requires Sourced(pats, files, spans, ws)
    ensures |ws| == |spans|
  {
  }

  lemma ShownStart(s: Span, f: File, i: nat, p: Pattern)
    requires i < |f.lines| && Shows(s, f, i, p)
    ensures s.path == f.path && s.line == FirstLine(p, i)
  {
  }

  /** A line that has no pattern, or whose span would start where an earlier one does, leaves everything as it is. */
  lemma SkipLine(pats: seq<Pattern>, files: seq<File>, n: nat, i: nat, found: Found, ws: seq<Source>)
    requires n < |files| && i < |files[n].lines| && Gathered(pats, files, n, i, found, ws)
    requires forall k | Real(pats, files, Source(n, i, k)) :: Covered(pats, files, found.spans, ws, Source(n, i, k))
    ensures Gathered(pats, files, n, i + 1, found, ws)
  {
    hide Sourced, Real, Covered;
    SameCount(pats, files, found.spans, ws);
    forall w | Real(pats, files, w) && Before(w.file, w.line, n, i + 1)
      ensures Covered(pats, files, found.spans, ws, w)
    {
      if !Before(w.file, w.line, n, i) {
        assert w == Source(n, i, w.pattern);
      }
    }
  }

  lemma AddSource(pats: seq<Pattern>, files: seq<File>, n: nat, i: nat, found: Found, ws: seq<Source>,
                  w: Source, s: Span)
    requires Gathered(pats, files, n, i, found, ws) && w.file == n && w.line == i
    requires Real(pats, files, w) && Shows(s, files[n], i, pats[w.pattern])
    requires (s.path, s.line - 1) !in found.seen
    ensures Sourced(pats, files, found.spans + [s], ws + [w])
  {
    hide Covered, Shows;
    ShownStart(s, files[n], i, pats[w.pattern]);
    var start: nat := s.line - 1;
    forall j | 0 <= j < |found.spans| ensures !StartsAt(found.spans[j], s.path, s.line) {
      assert StartsAt(found.spans[j], s.path, start + 1) ==> (s.path, start) in found.seen;
    }
  }

  lemma StillCovered(pats: seq<Pattern>, files: seq<File>, spans: seq<Span>, ws: seq<Source>, w: Source,
                     s: Span, src: Source)
    requires |ws| == |spans| && Real(pats, files, w) && Covered(pats, files, spans, ws, w)
    ensures Covered(pats, files, spans + [s], ws + [src], w)
  {
    var j :| 0 <= j < |ws| && StartsAt(spans[j], files[w.file].path, FirstLine(pats[w.pattern], w.line))
      && (ws[j] == w || Before(ws[j].file, ws[j].line, w.file, w.line));
    assert (spans + [s])[j] == spans[j] && (ws + [src])[j] == ws[j];
  }

  lemma NowCovered(pats: seq<Pattern>, files: seq<File>, spans: seq<Span>, ws: seq<Source>, w: Source, s: Span)
    requires |ws| == |spans| && Real(pats, files, w) && Shows(s, files[w.file], w.line, pats[w.pattern])
    ensures Covered(pats, files, spans + [s], ws + [w], w)
  {
    assert (ws + [w])[|ws|] == w && (spans + [s])[|ws|] == s;
  }

  /** A line whose span starts where none does adds it at the end. */
  lemma AddLine(pats: seq<Pattern>, files: seq<File>, n: nat, i: nat, found: Found, ws: seq<Source>, k: nat, s: Span)
    requires n < |files| && i < |files[n].lines| && Gathered(pats, files, n, i, found, ws)
    requires Matched(pats, files[n], i, k) && Shows(s, files[n], i, pats[k]) && (s.path, s.line - 1) !in found.seen
    ensures Gathered(pats, files, n, i + 1, Found(found.spans + [s], found.seen + {(s.path, s.line - 1)}),
                     ws + [Source(n, i, k)])
  {
    hide Sourced, Covered, Shows;
    var src := Source(n, i, k);
    var spans, seen := found.spans + [s], found.seen + {(s.path, s.line - 1)};
    assert Real(pats, files, src);
    AddSource(pats, files, n, i, found, ws, src, s);
    SameCount(pats, files, found.spans, ws);
    ShownStart(s, files[n], i, pats[k]);
    forall w | Real(pats, files, w) && Before(w.file, w.line, n, i + 1)
      ensures Covered(pats, files, spans, ws + [src], w)
    {
      if Before(w.file, w.line, n, i) {
        StillCovered(pats, files, found.spans, ws, w, s, src);
      } else {
        SameSource(pats, files, w, src);
        NowCovered(pats, files, found.spans, ws, w, s);
      }
    }
    SeenIsStarts(found.spans, found.seen, s);
  }

  lemma SameSource(pats: seq<Pattern>, files: seq<File>, w: Source, src: Source)
    requires Real(pats, files, w) && Real(pats, files, src) && w.file == src.file && w.line == src.line
    ensures w == src
  {
    OneNames(pats, w.pattern, src.pattern, files[w.file].lines[w.line]);
  }

  lemma SeenIsStarts(spans: seq<Span>, seen: set<(string, nat)>, s: Span)
    requires s.line > 0
    requires forall path, start: nat :: (path, start) in seen <==>
      exists j :: 0 <= j < |spans| && StartsAt(spans[j], path, start + 1)
    ensures forall path, start: nat :: (path, start) in seen + {(s.path, s.line - 1)} <==>
      exists j :: 0 <= j < |spans + [s]| && StartsAt((spans + [s])[j], path, start + 1)
  {
    var all := spans + [s];
    forall path, start: nat
      ensures (path, start) in seen + {(s.path, s.line - 1)} <==>
        exists j :: 0 <= j < |all| && StartsAt(all[j], path, start + 1)
    {
      if (path, start) in seen {
        var j :| 0 <= j < |spans| && StartsAt(spans[j], path, start + 1);
        assert all[j] == spans[j];
      }
      if (path, start) == (s.path, s.line - 1) {
        assert all[|spans|] == s && StartsAt(all[|spans|], path, start + 1);
      }
      if j :| 0 <= j < |all| && StartsAt(all[j], path, start + 1) {
        assert j < |spans| ==> all[j] == spans[j];
      }
    }
  }

  /** One line of one axis. */
  lemma LineGathers(pats: seq<Pattern>, files: seq<File>, n: nat, i: nat, found: Found, ws: seq<Source>)
    returns (ws': seq<Source>)
    requires n < |files| && i < |files[n].lines| && Gathered(pats, files, n, i, found, ws)
    ensures Gathered(pats, files, n, i + 1, AxisLine(pats, files[n], i, found), ws')
  {
    hide Gathered, Take, Shows;
    var f := files[n];
    var k := FirstMatch(pats, f.lines[i], 0);
    FirstMatchNames(pats, f.lines[i], 0);
    ws' := ws;
    if IsComment(f.lines[i], f.language) || k == |pats| {
      SkipLine(pats, files, n, i, found, ws);
    } else {
      TakeShows(pats[k], f, i, found);
      var start := FirstLine(pats[k], i) - 1;
      if (f.path, start) in found.seen {
        StartTaken(pats, files, n, i, found, ws, k);
      } else {
        var s :| Shows(s, f, i, pats[k])
          && Take(pats[k], f, i, found) == Found(found.spans + [s], found.seen + {(f.path, start)});
        ShownStart(s, f, i, pats[k]);
        AddLine(pats, files, n, i, found, ws, k, s);
        ws' := ws + [Source(n, i, k)];
      }
    }
  }

  lemma StartTaken(pats: seq<Pattern>, files: seq<File>, n: nat, i: nat, found: Found, ws: seq<Source>, k: nat)
    requires n < |files| && i < |files[n].lines| && Gathered(pats, files, n, i, found, ws)
    requires Matched(pats, files[n], i, k) && (files[n].path, FirstLine(pats[k], i) - 1) in found.seen
    ensures Gathered(pats, files, n, i + 1, found, ws)
  {
    var start := FirstLine(pats[k], i) - 1;
    var j :| 0 <= j < |found.spans| && StartsAt(found.spans[j], files[n].path, start + 1);
    forall l | Real(pats, files, Source(n, i, l)) ensures Covered(pats, files, found.spans, ws, Source(n, i, l)) {
      OneNames(pats, k, l, files[n].lines[i]);
      assert Before(ws[j].file, ws[j].line, n, i);
    }
    SkipLine(pats, files, n, i, found, ws);
  }

  lemma {:induction false} FileGathers(pats: seq<Pattern>, files: seq<File>, n: nat, i: nat,
                                       found: Found, ws: seq<Source>)
    returns (ws': seq<Source>)
    requires n < |files| && i <= |files[n].lines| && Gathered(pats, files, n, 0, found, ws)
    ensures Gathered(pats, files, n, i, AxisFile(pats, files[n], i, found), ws')
  {
    hide Gathered, AxisLine;
    if i == 0 {
      ws' := ws;
    } else {
      ws' := FileGathers(pats, files, n, i - 1, found, ws);
      ws' := LineGathers(pats, files, n, i - 1, AxisFile(pats, files[n], i - 1, found), ws');
    }
  }

  lemma NextFile(pats: seq<Pattern>, files: seq<File>, n: nat, found: Found, ws: seq<Source>)
    requires n < |files| && Gathered(pats, files, n, |files[n].lines|, found, ws)
    ensures Gathered(pats, files, n + 1, 0, found, ws)
  {
    hide Sourced, Covered;
    forall w | Real(pats, files, w) && Before(w.file, w.line, n + 1, 0)
      ensures Before(w.file, w.line, n, |files[n].lines|)
    {
    }
    forall j | 0 <= j < |ws| ensures Before(ws[j].file, ws[j].line, n + 1, 0) {
      assert Before(ws[j].file, ws[j].line, n, |files[n].lines|);
    }
  }

  lemma {:induction false} PassGathers(pats: seq<Pattern>, files: seq<File>, n: nat) returns (ws: seq<Source>)
    requires n <= |files|
    ensures Gathered(pats, files, n, 0, AxisPass(pats, files, n), ws)
  {
    if n == 0 {
      ws := [];
    } else {
      hide Gathered, AxisFile;
      ws := PassGathers(pats, files, n - 1);
      ws := FileGathers(pats, files, n - 1, |files[n-1].lines|, AxisPass(pats, files, n - 1), ws);
      NextFile(pats, files, n - 1, AxisPass(pats, files, n), ws);
    }
  }

  // ---- what an axis reports ----

  /** The spans of an axis are of lines that are no comments, each named by the first pattern that matches it and shown
      with the context that asks for, in the order of reading, no two starting together; and every such line has one,
      or an earlier one starts where its own would. */
  lemma SpansAreMatches(pats: seq<Pattern>, files: seq<File>) returns (ws: seq<Source>)
    ensures var spans := AxisPass(pats, files, |files|).spans;
      && Sourced(pats, files, spans, ws)
      && forall w | Real(pats, files, w) :: Covered(pats, files, spans, ws, w)
  {
    ws := PassGathers(pats, files, |files|);
  }

  /** What is reported shows lines that match. */
  lemma ReportedShows(pats: seq<Pattern>, files: seq<File>, callFiles: set<string>, truncated: bool, s: Span)
    returns (w: Source)
    requires s in Finished(AxisPass(pats, files, |files|).spans, callFiles, |files|, truncated).spans
    ensures Real(pats, files, w) && Shows(s, files[w.file], w.line, pats[w.pattern])
  {
    var spans := AxisPass(pats, files, |files|).spans;
    var ws := SpansAreMatches(pats, files);
    RankRanks(spans, callFiles);
    assert s in Rank(spans, callFiles);
    assert s in multiset(Rank(spans, callFiles));
    var j :| 0 <= j < |spans| && spans[j] == s;
    w := ws[j];
  }

  /** And an axis is reported as found exactly when some line that is no comment matches one of its patterns. */
  lemma FoundExactly(pats: seq<Pattern>, files: seq<File>, callFiles: set<string>, truncated: bool)
    ensures Finished(AxisPass(pats, files, |files|).spans, callFiles, |files|, truncated).found
       <==> exists w :: Real(pats, files, w)
  {
    var ws := SpansAreMatches(pats, files);
    if w :| Real(pats, files, w) {
      assert Covered(pats, files, AxisPass(pats, files, |files|).spans, ws, w);
    }
    if ws != [] {
      assert Real(pats, files, ws[0]);
    }
  }

  // ---- lines ----

  /** A comment is a line that begins, after white space, with a marker of its language. */
  lemma CommentIsMarked(line: Text, language: Language)
    ensures IsComment(line, language) <==>
      exists k: nat :: Marked(line, language, k) && forall j | 0 <= j < k :: line[j] in {9, 10, 11, 12, 13, 32}
  {
    var k := TrimmedAt(line);
    if IsComment(line, language) {
      assert Marked(line, language, k);
    }
    if l: nat :| Marked(line, language, l) && forall j | 0 <= j < l :: line[j] in {9, 10, 11, 12, 13, 32} {
      assert !White(line[l]);
      assert l == k;
      assert Marked(line, language, k);
    }
  }

  /** A marker stands at this place. */
  predicate Marked(line: Text, language: Language, k: nat) {
    k < |line| &&
    match language
    case Python => line[k] == '#' as int
    case Other => false
    case _ => line[k] == '*' as int || (k + 1 < |line| && line[k] == line[k+1] == '/' as int)
  }

  lemma {:induction false} TrimmedAt(line: Text) returns (k: nat)
    ensures k <= |line| && TrimLeft(line) == line[k..]
    ensures (forall j | 0 <= j < k :: White(line[j])) && (k < |line| ==> !White(line[k]))
  {
    if line != [] && White(line[0]) {
      var l := TrimmedAt(line[1..]);
      k := l + 1;
      assert line[1..][l..] == line[k..];
      assert forall j | 0 <= j < l :: line[1..][j] == line[j+1];
    } else {
      k := 0;
    }
  }

  /** Two texts have the same lower case exactly when they differ in the case of ASCII letters at most. */
  lemma LowerIgnoresCase(s: Text, t: Text)
    ensures ToLower(s) == ToLower(t) <==> |s| == |t| && forall i | 0 <= i < |s| :: SameLetter(s[i], t[i])
    ensures forall i | 0 <= i < |s| :: !('A' as int <= ToLower(s)[i] <= 'Z' as int)
  {
    if |s| == |t| {
      if forall i | 0 <= i < |s| :: SameLetter(s[i], t[i]) {
        forall i | 0 <= i < |s| ensures ToLower(s)[i] == ToLower(t)[i] {
          assert SameLetter(s[i], t[i]);
        }
      } else {
        var i :| 0 <= i < |s| && !SameLetter(s[i], t[i]);
        assert ToLower(s)[i] != ToLower(t)[i];
      }
    } else {
      assert |ToLower(s)| != |ToLower(t)|;
    }
  }

  predicate SameLetter(a: byte, b: byte) {
    || a == b
    || ('A' as int <= a <= 'Z' as int && b == a + 32)
    || ('A' as int <= b <= 'Z' as int && a == b + 32)
  }
}
