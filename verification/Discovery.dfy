/** Evidence extraction over a corpus: one gated pass over every line for all axes at once. */
module Discovery {
  import opened Bytes
  import opened Bits
  import Sets

  type Text = seq<byte>

  /** One signal: what it matches, the context it shows, and the literals it is gated on. */
  datatype Pattern = Pattern(matches: Text -> bool, why: string, before: nat, after: nat, hints: seq<Text>)

  /** The extraction table, from axis to its patterns in order. */
  type Table = map<string, seq<Pattern>>

  datatype Language = Python | Golang | TypeScript | JavaScript | Other
  datatype File = File(path: string, language: Language, lines: seq<Text>)

  /** A run of lines, from `start` up to `end`, and the signal that found it. */
  datatype Span = Span(path: string, line: nat, text: seq<Text>, why: string)

  // ---- text ----

  predicate HasPrefix(s: Text, h: Text) {
    |h| <= |s| && s[..|h|] == h
  }

  predicate OccursAt(s: Text, h: Text, i: nat) {
    i <= |s| && HasPrefix(s[i..], h)
  }

  /** The literal stands somewhere in the text. */
  ghost predicate Contains(s: Text, h: Text) {
    exists i: nat :: OccursAt(s, h, i)
  }

  function Lower(c: byte): byte {
    if 65 <= c <= 90 then c + 32 else c
  }

  function ToLower(s: Text): Text {
    seq(|s|, i requires 0 <= i < |s| => Lower(s[i]))
  }

  predicate White(c: byte) {
    c == 32 || 9 <= c <= 13
  }

  function TrimLeft(s: Text): Text {
    if s != [] && White(s[0]) then TrimLeft(s[1..]) else s
  }

  /** A commented-out line. Trimming the right end cannot change whether one of these prefixes is there. */
  predicate IsComment(line: Text, language: Language) {
    var t := TrimLeft(line);
    match language
    case Python => HasPrefix(t, [35])
    case Other => false
    case _ => HasPrefix(t, [47, 47]) || HasPrefix(t, [42])
  }

  // ---- the literal index ----

  function PrefixKey(a: byte, b: byte): int {
    a * 256 + b
  }

  function Bucket(m: map<int, seq<nat>>, k: int): seq<nat> {
    if k in m then m[k] else []
  }

  /** The bucket each literal belongs in. */
  function KeysOf(hints: seq<Text>): (keys: seq<int>)
    requires forall h | h in hints :: |h| >= 2
    ensures |keys| == |hints|
  {
    seq(|hints|, id requires 0 <= id < |hints| => assert hints[id] in hints; PrefixKey(hints[id][0], hints[id][1]))
  }

  /** Bucket k holds exactly those of the first `n` ids whose key is k. */
  ghost predicate Bucketed(m: map<int, seq<nat>>, keys: seq<int>, n: nat) {
    && n <= |keys|
    && (forall k, j | 0 <= j < |Bucket(m, k)| :: Bucket(m, k)[j] < n && keys[Bucket(m, k)[j]] == k)
    && (forall id: nat | id < n :: id in Bucket(m, keys[id]))
  }

  lemma BucketNext(m: map<int, seq<nat>>, keys: seq<int>, n: nat)
    requires n < |keys| && Bucketed(m, keys, n)
    ensures Bucketed(m[keys[n] := Bucket(m, keys[n]) + [n]], keys, n + 1)
  {
    var m' := m[keys[n] := Bucket(m, keys[n]) + [n]];
    forall k, j | 0 <= j < |Bucket(m', k)| ensures Bucket(m', k)[j] < n + 1 && keys[Bucket(m', k)[j]] == k {
      assert j < |Bucket(m, k)| ==> Bucket(m', k)[j] == Bucket(m, k)[j];
    }
    forall id: nat | id < n + 1 ensures id in Bucket(m', keys[id]) {
      assert id < n ==> id in Bucket(m, keys[id]);
    }
  }

  /** Finds which known literals occur in a text, by their first two bytes. */
  class LiteralIndex {
    var byPrefix: map<int, seq<nat>>
    const hints: seq<Text>

    ghost predicate Valid()
      reads this
    {
      |hints| <= 128 && (forall h | h in hints :: |h| >= 2) && Bucketed(byPrefix, KeysOf(hints), |hints|)
    }

    constructor (hints: seq<Text>)
      requires |hints| <= 128 && forall h | h in hints :: |h| >= 2
      ensures Valid() && this.hints == hints
    {
      this.hints := hints;
      var m: map<int, seq<nat>> := map[];
      for id := 0 to |hints|
        invariant Bucketed(m, KeysOf(hints), id)
      {
        assert hints[id] in hints;
        var k := PrefixKey(hints[id][0], hints[id][1]);
        BucketNext(m, KeysOf(hints), id);
        m := m[k := Bucket(m, k) + [id]];
      }
      byPrefix := m;
    }

    /** The set of literals present in an already lowercased line. */
    method Scan(lower: Text) returns (found: Bits)
      requires Valid()
      ensures forall id: nat | id < |hints| :: Has(found, id) <==> Contains(lower, hints[id])
      ensures forall id: nat | |hints| <= id < 128 :: !Has(found, id)
    {
      found := NONE;
      NoneHasNone(NONE);
      var i := 0;
      while i + 1 < |lower|
        invariant 0 <= i
        invariant Marks(found, hints, lower, i)
        decreases |lower| - i
      {
        found := ScanAt(lower, i, found);
        i := i + 1;
      }
      forall id: nat | id < |hints| ensures FoundBefore(lower, hints[id], i) <==> Contains(lower, hints[id]) {
        assert hints[id] in hints;
        assert forall at: nat :: OccursAt(lower, hints[id], at) ==> at + 1 < |lower|;
      }
    }

    /** One position of the scan: the bucket of the next two bytes, each literal confirmed. */
    method ScanAt(lower: Text, i: nat, found0: Bits) returns (found: Bits)
      requires Valid() && i + 1 < |lower| && Marks(found0, hints, lower, i)
      ensures Marks(found, hints, lower, i + 1)
    {
      var ids := Bucket(byPrefix, PrefixKey(lower[i], lower[i+1]));
      found := Confirm(hints, ids, lower, i, found0);
      forall id: nat | id < |hints| && OccursAt(lower, hints[id], i) ensures id in ids {
        SamePrefix(lower, hints, id, i);
        assert id in Bucket(byPrefix, KeysOf(hints)[id]);
      }
      MarksNext(hints, ids, lower, i, found0, found);
    }
  }

  /** Marks those of the candidate literals that stand at position `i`. */
  method Confirm(hints: seq<Text>, ids: seq<nat>, s: Text, i: nat, found0: Bits) returns (found: Bits)
    requires |hints| <= 128 && i <= |s| && forall j | 0 <= j < |ids| :: ids[j] < |hints|
    ensures forall id: nat | id < 128 ::
      Has(found, id) <==> Has(found0, id) || (id < |hints| && id in ids && OccursAt(s, hints[id], i))
  {
    found := found0;
    for j := 0 to |ids|
      invariant forall id: nat | id < 128 ::
        Has(found, id) <==> Has(found0, id) || (id < |hints| && id in ids[..j] && OccursAt(s, hints[id], i))
    {
      found := MarkIf(found, ids[j], HasPrefix(s[i..], hints[ids[j]]));
      assert ids[..j+1] == ids[..j] + [ids[j]];
    }
    assert ids[..|ids|] == ids;
  }

  lemma MarksNext(hints: seq<Text>, ids: seq<nat>, s: Text, i: nat, found0: Bits, found: Bits)
    requires |hints| <= 128 && Marks(found0, hints, s, i)
    requires forall id: nat | id < 128 ::
      Has(found, id) <==> Has(found0, id) || (id < |hints| && id in ids && OccursAt(s, hints[id], i))
    requires forall id: nat | id < |hints| && OccursAt(s, hints[id], i) :: id in ids
    ensures Marks(found, hints, s, i + 1)
  {
    forall id: nat | id < |hints|
      ensures FoundBefore(s, hints[id], i + 1) <==> FoundBefore(s, hints[id], i) || OccursAt(s, hints[id], i)
    {
      if FoundBefore(s, hints[id], i) {
        var k: nat :| k < i && OccursAt(s, hints[id], k);
        assert k < i + 1;
      }
    }
  }

  /** A set holds exactly the literals that occur before position `n`. */
  ghost predicate Marks(found: Bits, hints: seq<Text>, s: Text, n: int) {
    forall id: nat | id < 128 :: Has(found, id) <==> id < |hints| && FoundBefore(s, hints[id], n)
  }

  lemma SamePrefix(s: Text, hints: seq<Text>, id: nat, i: nat)
    requires (forall h | h in hints :: |h| >= 2) && id < |hints| && i + 1 < |s| && OccursAt(s, hints[id], i)
    ensures KeysOf(hints)[id] == PrefixKey(s[i], s[i+1])
  {
    var h := hints[id];
    assert h in hints && s[i..][..|h|] == h;
    assert h[0] == s[i..][0] && h[1] == s[i..][1];
  }

  ghost predicate FoundBefore(s: Text, h: Text, n: int) {
    exists i: nat :: i < n && OccursAt(s, h, i)
  }

  method MarkIf(b: Bits, id: nat, yes: bool) returns (r: Bits)
    requires id < 128
    ensures forall j: nat | j < 128 :: Has(r, j) <==> Has(b, j) || (yes && j == id)
  {
    r := if yes then Set(b, id) else b;
    forall j: nat | j < 128 ensures Has(Set(b, id), j) <==> Has(b, j) || id == j {
      SetAdds(b, id, j);
    }
  }

  // ---- the tables built once from the patterns ----

  type Masks = map<string, seq<Bits>>

  /** Every hint has one id, every pattern's mask holds exactly the ids of its hints. */
  ghost predicate Tabled(table: Table, list: seq<Text>, masks: Masks) {
    && |list| <= 128 && Distinct(list)
    && masks.Keys == table.Keys
    && forall axis | axis in table :: MasksFor(table[axis], list, masks[axis])
  }

  predicate Distinct(list: seq<Text>) {
    forall i, j | 0 <= i < j < |list| :: list[i] != list[j]
  }

  ghost predicate MasksFor(pats: seq<Pattern>, list: seq<Text>, masks: seq<Bits>) {
    |masks| == |pats| && forall i | 0 <= i < |pats| :: MaskFor(pats[i].hints, list, masks[i])
  }

  ghost predicate MaskFor(hints: seq<Text>, list: seq<Text>, mask: Bits) {
    && (forall h | h in hints :: h in list)
    && (forall id: nat | id < 128 :: Has(mask, id) <==> id < |list| && list[id] in hints)
  }

  /** A table init accepts: every pattern has hints, all of two bytes or more, at most 128 in all. */
  ghost predicate Acceptable(table: Table) {
    && (forall axis, p | axis in table && p in table[axis] :: p.hints != [] && forall h | h in p.hints :: |h| >= 2)
    && |AllHints(table)| <= 128
  }

  ghost function AllHints(table: Table): set<Text> {
    set axis, p, h | axis in table && p in table[axis] && h in p.hints :: h
  }

  /** A match always comes with one of the pattern's hints in the lowercased line: what gating rests on. */
  ghost predicate Sound(p: Pattern) {
    forall line: Text :: p.matches(line) ==> exists h :: h in p.hints && Contains(ToLower(line), h)
  }

  ghost predicate SoundTable(table: Table) {
    forall axis, p | axis in table && p in table[axis] :: Sound(p)
  }

  /** Gives ids to the new hints of one pattern; refuses, and reports last, the one that would be the 129th. */
  method CollectHints(hints: seq<Text>, list0: seq<Text>) returns (ok: bool, list: seq<Text>)
    requires Distinct(list0) && |list0| <= 128
    ensures Distinct(list) && |list| <= 128 + (if ok then 0 else 1)
    ensures forall h | h in list :: h in list0 || h in hints
    ensures ok ==> forall h | h in list0 || h in hints :: h in list
    ensures !ok ==> |list| == 129
  {
    list := list0;
    for i := 0 to |hints|
      invariant Distinct(list) && |list| <= 128
      invariant forall h :: h in list <==> h in list0 || h in hints[..i]
    {
      assert hints[..i+1] == hints[..i] + [hints[i]];
      if hints[i] !in list {
        if |list| >= 128 {
          return false, list + [hints[i]];
        }
        list := list + [hints[i]];
      }
    }
    assert hints[..|hints|] == hints;
    ok := true;
  }

  method CollectAxis(pats: seq<Pattern>, list0: seq<Text>) returns (ok: bool, list: seq<Text>)
    requires Distinct(list0) && |list0| <= 128
    ensures Distinct(list) && |list| <= 128 + (if ok then 0 else 1)
    ensures forall h | h in list :: h in list0 || exists p :: p in pats && h in p.hints
    ensures ok ==> (forall h | h in list0 :: h in list) && (forall p, h | p in pats && h in p.hints :: h in list)
    ensures ok ==> forall p | p in pats :: p.hints != []
    ensures !ok ==> |list| == 129 || exists p :: p in pats && p.hints == []
  {
    list := list0;
    for i := 0 to |pats|
      invariant Distinct(list) && |list| <= 128
      invariant forall h | h in list :: h in list0 || exists p :: p in pats && h in p.hints
      invariant forall h | h in list0 :: h in list
      invariant forall p, h | p in pats[..i] && h in p.hints :: h in list
      invariant forall p | p in pats[..i] :: p.hints != []
    {
      assert pats[..i+1] == pats[..i] + [pats[i]];
      if pats[i].hints == [] {
        return false, list;
      }
      assert pats[i] in pats;
      ok, list := CollectHints(pats[i].hints, list);
      if !ok {
        return;
      }
    }
    assert pats[..|pats|] == pats;
    ok := true;
  }

  method MaskOf(hints: seq<Text>, list: seq<Text>) returns (mask: Bits)
    requires |list| <= 128 && Distinct(list) && forall h | h in hints :: h in list
    ensures MaskFor(hints, list, mask)
  {
    mask := NONE;
    NoneHasNone(NONE);
    for i := 0 to |hints|
      invariant forall id: nat | id < 128 :: Has(mask, id) <==> id < |list| && list[id] in hints[..i]
    {
      assert hints[i] in hints;
      var id := IndexOf(list, hints[i]);
      mask := MarkIf(mask, id, true);
      assert hints[..i+1] == hints[..i] + [hints[i]];
    }
    assert hints[..|hints|] == hints;
  }

  /** The id a hint was given. */
  method IndexOf(list: seq<Text>, h: Text) returns (id: nat)
    requires h in list
    ensures id < |list| && list[id] == h
  {
    id := 0;
    while list[id] != h
      invariant id < |list| && h in list[id..]
      decreases |list| - id
    {
      id := id + 1;
    }
  }

  /** The package's init: ids for every distinct hint, a mask for every pattern, and the literal index. It
      refuses a pattern without hints, a hint too short to index, and a vocabulary the bitset cannot address. */
  method Init(table: Table) returns (ok: bool, list: seq<Text>, masks: Masks)
    ensures ok <==> Acceptable(table)
    ensures ok ==> Tabled(table, list, masks) && forall h | h in list :: |h| >= 2
  {
    masks := map[];
    ok, list := Vocabulary(table);
    if !ok {
      return;
    }
    var rest := table.Keys;
    while rest != {}
      invariant rest <= table.Keys && masks.Keys == table.Keys - rest
      invariant forall axis | axis in masks :: MasksFor(table[axis], list, masks[axis])
    {
      var axis :| axis in rest;
      rest := rest - {axis};
      assert forall p, h | p in table[axis] && h in p.hints :: h in AllHints(table);
      var ms := MasksOf(table[axis], list);
      masks := masks[axis := ms];
    }
  }

  method MasksOf(pats: seq<Pattern>, list: seq<Text>) returns (ms: seq<Bits>)
    requires |list| <= 128 && Distinct(list) && forall p, h | p in pats && h in p.hints :: h in list
    ensures MasksFor(pats, list, ms)
  {
    ms := [];
    for i := 0 to |pats|
      invariant |ms| == i && forall j | 0 <= j < i :: MaskFor(pats[j].hints, list, ms[j])
    {
      assert pats[i] in pats;
      var m := MaskOf(pats[i].hints, list);
      ms := ms + [m];
    }
  }

  /** The first loop of init, over the axes in the map's arbitrary order. */
  method Vocabulary(table: Table) returns (ok: bool, list: seq<Text>)
    ensures ok <==> Acceptable(table)
    ensures ok ==> Distinct(list) && |list| <= 128
    ensures ok ==> forall h :: h in list <==> h in AllHints(table)
  {
    list := [];
    var rest := table.Keys;
    while rest != {}
      invariant rest <= table.Keys && Distinct(list) && |list| <= 128
      invariant forall h | h in list :: h in AllHints(table)
      invariant forall axis, p, h | axis in table.Keys - rest && p in table[axis] && h in p.hints :: h in list
      invariant forall axis, p | axis in table.Keys - rest && p in table[axis] :: p.hints != []
    {
      var axis :| axis in rest;
      rest := rest - {axis};
      ok, list := CollectAxis(table[axis], list);
      if !ok {
        DistinctSize(list, AllHints(table));
        return;
      }
    }
    DistinctSize(list, AllHints(table));
    if h :| h in list && |h| < 2 {
      return false, list;
    }
    ListCovers(list, AllHints(table));
    ok := true;
  }

  lemma ListCovers(list: seq<Text>, all: set<Text>)
    requires forall h :: h in all ==> h in list
    ensures |all| <= |list|
  {
    var s := set h | h in list;
    assert all <= s;
    Sets.SubsetSize(all, s);
    SeqSetSize(list);
  }

  lemma {:induction false} SeqSetSize(list: seq<Text>)
    ensures |set h | h in list| <= |list|
  {
    if list != [] {
      var last := list[|list|-1];
      SeqSetSize(list[..|list|-1]);
      var init := list[..|list|-1];
      assert list == init + [last];
      assert (set h | h in list) == (set h | h in init) + {last};
    }
  }

  lemma {:induction false} DistinctSize(list: seq<Text>, all: set<Text>)
    requires Distinct(list) && forall h | h in list :: h in all
    ensures |list| <= |all|
  {
    if list != [] {
      var last := list[|list|-1];
      assert list[..|list|-1] + [last] == list;
      assert last in list;
      DistinctSize(list[..|list|-1], all - {last});
    }
  }

  // ---- the pass ----

  /** What an axis has gathered: its spans, and where they start, so that none is taken twice. */
  datatype Found = Found(spans: seq<Span>, seen: set<(string, nat)>)

  /** The first pattern from `k` on that matches the line, or the number of patterns. */
  function FirstMatch(pats: seq<Pattern>, line: Text, k: nat): (r: nat)
    requires k <= |pats|
    ensures k <= r <= |pats|
    decreases |pats| - k
  {
    if k < |pats| && !pats[k].matches(line) then FirstMatch(pats, line, k + 1) else k
  }

  function Max(a: int, b: int): int {
    if a > b then a else b
  }

  function Min(a: int, b: int): int {
    if a < b then a else b
  }

  /** The span a pattern takes around line `i`, kept unless one starting there already is. */
  function Take(p: Pattern, f: File, i: nat, found: Found): Found
    requires i < |f.lines|
  {
    var start := Max(0, i - p.before);
    var end := Min(|f.lines|, i + p.after + 1);
    if (f.path, start) in found.seen then found
    else Found(found.spans + [Span(f.path, start + 1, f.lines[start..end], p.why)], found.seen + {(f.path, start)})
  }

  /** One axis looking at one line on its own, without any gate. */
  function AxisLine(pats: seq<Pattern>, f: File, i: nat, found: Found): Found
    requires i < |f.lines|
  {
    var k := FirstMatch(pats, f.lines[i], 0);
    if IsComment(f.lines[i], f.language) || k == |pats| then found else Take(pats[k], f, i, found)
  }

  function AxisFile(pats: seq<Pattern>, f: File, n: nat, found: Found): Found
    requires n <= |f.lines|
  {
    if n == 0 then found else AxisLine(pats, f, n - 1, AxisFile(pats, f, n - 1, found))
  }

  /** A separate ungated pass over the whole corpus for one axis. */
  function AxisPass(pats: seq<Pattern>, files: seq<File>, n: nat): Found
    requires n <= |files|
  {
    if n == 0 then Found([], {}) else AxisFile(pats, files[n-1], |files[n-1].lines|, AxisPass(pats, files, n - 1))
  }

  /** A mask that holds exactly the known literals of a line. */
  ghost predicate LineMask(mask: Bits, list: seq<Text>, line: Text) {
    |list| <= 128 && forall id: nat | id < 128 :: Has(mask, id) <==> id < |list| && Contains(ToLower(line), list[id])
  }

  /** The gate is open for every pattern that matches. */
  lemma GateOpens(p: Pattern, list: seq<Text>, own: Bits, mask: Bits, line: Text)
    requires Sound(p) && MaskFor(p.hints, list, own) && LineMask(mask, list, line) && p.matches(line)
    ensures Overlaps(mask, own) && mask != NONE
  {
    var h :| h in p.hints && Contains(ToLower(line), h);
    var id: nat :| id < |list| && list[id] == h;
    assert Has(mask, id) && Has(own, id);
    OverlapIsIntersection(mask, own);
    NoneHasNone(mask);
  }

  /** With the gate's mask, or with the gate off. */
  ghost predicate Gated(gate: bool, mask: Bits, list: seq<Text>, line: Text) {
    gate ==> LineMask(mask, list, line)
  }

  /** One axis's patterns against one line: the gate skips patterns, never the first match. */
  method VisitAxis(pats: seq<Pattern>, own: seq<Bits>, gate: bool, mask: Bits, ghost list: seq<Text>,
                   f: File, i: nat, found: Found) returns (r: Found)
    requires i < |f.lines| && MasksFor(pats, list, own) && forall p | p in pats :: Sound(p)
    requires Gated(gate, mask, list, f.lines[i]) && !IsComment(f.lines[i], f.language)
    ensures r == AxisLine(pats, f, i, found)
  {
    var line := f.lines[i];
    for k := 0 to |pats|
      invariant FirstMatch(pats, line, 0) == FirstMatch(pats, line, k)
    {
      assert pats[k] in pats;
      if gate && pats[k].matches(line) {
        GateOpens(pats[k], list, own[k], mask, line);
      }
      if (gate && !Overlaps(mask, own[k])) || !pats[k].matches(line) {
        continue;
      }
      return Take(pats[k], f, i, found);
    }
    return found;
  }

  /** A line without any literal has nothing for any axis. */
  lemma EmptyMaskMatchesNothing(pats: seq<Pattern>, own: seq<Bits>, list: seq<Text>, line: Text, k: nat)
    requires MasksFor(pats, list, own) && (forall p | p in pats :: Sound(p)) && k <= |pats|
    requires LineMask(NONE, list, line)
    ensures FirstMatch(pats, line, k) == |pats|
    decreases |pats| - k
  {
    if k < |pats| {
      assert pats[k] in pats;
      if pats[k].matches(line) {
        GateOpens(pats[k], list, own[k], NONE, line);
      }
      EmptyMaskMatchesNothing(pats, own, list, line, k + 1);
    }
  }

  /** What every axis has gathered after the first `n` files and `i` lines of the next. */
  ghost predicate AllAxes(table: Table, files: seq<File>, n: nat, i: nat, all: map<string, Found>)
    requires n < |files| && i <= |files[n].lines|
  {
    && all.Keys == table.Keys
    && forall axis | axis in table ::
      all[axis] == AxisFile(table[axis], files[n], i, AxisPass(table[axis], files, n))
  }

  /** All axes against one line that is not a comment. */
  method VisitLine(table: Table, masks: Masks, gate: bool, mask: Bits, ghost list: seq<Text>,
                   f: File, i: nat, all: map<string, Found>) returns (r: map<string, Found>)
    requires Tabled(table, list, masks) && SoundTable(table) && all.Keys == table.Keys
    requires i < |f.lines| && Gated(gate, mask, list, f.lines[i]) && !IsComment(f.lines[i], f.language)
    ensures r.Keys == table.Keys
    ensures forall axis | axis in table :: r[axis] == AxisLine(table[axis], f, i, all[axis])
  {
    r := all;
    var rest := table.Keys;
    while rest != {}
      invariant rest <= table.Keys && r.Keys == table.Keys
      invariant forall axis | axis in table ::
        r[axis] == if axis in rest then all[axis] else AxisLine(table[axis], f, i, all[axis])
    {
      var axis :| axis in rest;
      rest := rest - {axis};
      var found := VisitAxis(table[axis], masks[axis], gate, mask, list, f, i, r[axis]);
      r := r[axis := found];
    }
  }

  /** The single pass: one traversal, every axis, each line lowercased and searched for literals once. */
  method NewIndex(table: Table, list: seq<Text>, masks: Masks, scanner: LiteralIndex, gate: bool, files: seq<File>)
    returns (all: map<string, Found>)
    requires Tabled(table, list, masks) && SoundTable(table) && scanner.Valid() && scanner.hints == list
    ensures all.Keys == table.Keys
    ensures forall axis | axis in table :: all[axis] == AxisPass(table[axis], files, |files|)
  {
    all := map axis | axis in table :: Found([], {});
    for n := 0 to |files|
      invariant all.Keys == table.Keys
      invariant forall axis | axis in table :: all[axis] == AxisPass(table[axis], files, n)
    {
      for i := 0 to |files[n].lines|
        invariant AllAxes(table, files, n, i, all)
      {
        all := Look(table, list, masks, scanner, gate, files[n], i, all);
      }
    }
  }

  /** One line of the pass: comments and lines without a signal word are dropped before any pattern runs. */
  method Look(table: Table, list: seq<Text>, masks: Masks, scanner: LiteralIndex, gate: bool,
              f: File, i: nat, all: map<string, Found>) returns (r: map<string, Found>)
    requires Tabled(table, list, masks) && SoundTable(table) && scanner.Valid() && scanner.hints == list
    requires i < |f.lines| && all.Keys == table.Keys
    ensures r.Keys == table.Keys
    ensures forall axis | axis in table :: r[axis] == AxisLine(table[axis], f, i, all[axis])
  {
    var line := f.lines[i];
    if IsComment(line, f.language) {
      return all;
    }
    var mask := NONE;
    if gate {
      mask := scanner.Scan(ToLower(line));
      if mask == NONE {
        NothingToSee(table, masks, list, f, i);
        return all;
      }
    }
    r := VisitLine(table, masks, gate, mask, list, f, i, all);
  }

  lemma NothingToSee(table: Table, masks: Masks, list: seq<Text>, f: File, i: nat)
    requires Tabled(table, list, masks) && SoundTable(table) && i < |f.lines| && LineMask(NONE, list, f.lines[i])
    ensures forall axis, found | axis in table :: AxisLine(table[axis], f, i, found) == found
  {
    forall axis | axis in table ensures FirstMatch(table[axis], f.lines[i], 0) == |table[axis]| {
      EmptyMaskMatchesNothing(table[axis], masks[axis], list, f.lines[i], 0);
    }
  }
}
