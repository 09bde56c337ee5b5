/** The episodic history of a goal: append-only, compressed by summaries that never fold away what matters,
    and the knowledge promoted from it. */
module Episodes {
  import opened Wrappers

  datatype Kind = Observation | Decision | Failure | Effect | Unknown(name: string)

  /** One thing that happened. `body` is everything the store only carries. */
  datatype Episode = Episode(goalId: string, number: int, kind: Kind, body: string, summarisedBy: int) {
    predicate Compressible() {
      kind.Observation? || kind.Decision?
    }
  }

  datatype Summary = Summary(goalId: string, id: int, from: int, to: int, content: string, dropped: nat)

  datatype Error = NothingToCompress | SummaryGap | Incompressible | NoEvidence | NotPromotable

  // ---- sorting by number ----

  function Insert<T>(x: T, s: seq<T>, key: T -> int): seq<T> {
    if s == [] || key(x) <= key(s[0]) then [x] + s else [s[0]] + Insert(x, s[1..], key)
  }

  function Sort<T>(s: seq<T>, key: T -> int): seq<T> {
    if s == [] then [] else Insert(s[0], Sort(s[1..], key), key)
  }

  predicate Sorted<T>(s: seq<T>, key: T -> int) {
    s != [] ==> (forall i | 0 < i < |s| :: key(s[0]) <= key(s[i])) && Sorted(s[1..], key)
  }

  lemma {:induction false} InsertKeepsAll<T>(x: T, s: seq<T>, key: T -> int)
    ensures multiset(Insert(x, s, key)) == multiset(s) + multiset{x}
    ensures |Insert(x, s, key)| == |s| + 1
  {
    if s != [] && key(x) > key(s[0]) {
      InsertKeepsAll(x, s[1..], key);
      assert s == [s[0]] + s[1..];
    }
  }

  lemma InsertedFrom<T>(x: T, s: seq<T>, key: T -> int)
    ensures forall y :: y in Insert(x, s, key) ==> y == x || y in s
  {
    InsertKeepsAll(x, s, key);
    forall y | y in Insert(x, s, key) ensures y == x || y in s {
      assert y in multiset(Insert(x, s, key));
    }
  }

  lemma {:induction false} InsertSorts<T>(x: T, s: seq<T>, key: T -> int)
    requires Sorted(s, key)
    ensures Sorted(Insert(x, s, key), key)
  {
    if s == [] || key(x) <= key(s[0]) {
      assert ([x] + s)[1..] == s;
    } else {
      var rest := Insert(x, s[1..], key);
      InsertSorts(x, s[1..], key);
      InsertedFrom(x, s[1..], key);
      forall i | 0 <= i < |rest| ensures key(s[0]) <= key(rest[i]) {
        assert rest[i] in rest;
      }
      assert ([s[0]] + rest)[1..] == rest;
    }
  }

  lemma {:induction false} SortSorts<T>(s: seq<T>, key: T -> int)
    ensures Sorted(Sort(s, key), key) && multiset(Sort(s, key)) == multiset(s) && |Sort(s, key)| == |s|
  {
    if s != [] {
      SortSorts(s[1..], key);
      InsertSorts(s[0], Sort(s[1..], key), key);
      InsertKeepsAll(s[0], Sort(s[1..], key), key);
      assert s == [s[0]] + s[1..];
    }
  }

  lemma SameMembers<T>(a: seq<T>, b: seq<T>)
    requires multiset(a) == multiset(b)
    ensures forall x :: x in a <==> x in b
  {
    forall x ensures x in a <==> x in b {
      assert x in a <==> x in multiset(a);
    }
  }

  // ---- compressing ----

  function NumberOf(e: Episode): int {
    e.number
  }

  function Numbers(es: seq<Episode>): (r: seq<int>)
    ensures |r| == |es| && forall i | 0 <= i < |es| :: r[i] == es[i].number
  {
    seq(|es|, i requires 0 <= i < |es| => es[i].number)
  }

  /** Fills a range of its own length starting at `from`, so without a gap or a repetition. */
  ghost predicate Fills(ns: seq<int>, from: int) {
    forall n :: n in ns <==> from <= n < from + |ns|
  }

  /** Episodes that may be folded into one summary of a goal: its own, compressible, and filling a range. */
  ghost predicate Foldable(goalId: string, es: seq<Episode>) {
    && es != []
    && (forall e | e in es :: e.goalId == goalId && (e.kind.Observation? || e.kind.Decision?))
    && exists from :: Fills(Numbers(es), from)
  }

  /** A summary that accounts for exactly some foldable episodes. */
  ghost predicate Covers(s: Summary, goalId: string, es: seq<Episode>) {
    && Foldable(goalId, es)
    && s.goalId == goalId
    && s.dropped == |es| == s.to - s.from + 1
    && Fills(Numbers(es), s.from)
  }

  predicate Ascending(ns: seq<int>) {
    forall i, j | 0 <= i <= j < |ns| :: ns[i] <= ns[j]
  }

  lemma {:induction false} SortedAscends<T>(s: seq<T>, key: T -> int, i: nat, j: nat)
    requires Sorted(s, key) && i <= j < |s|
    ensures key(s[i]) <= key(s[j])
  {
    if i > 0 {
      SortedAscends(s[1..], key, i - 1, j - 1);
    }
  }

  /** In an ascending list that fills a range, its i-th number is found no earlier than position i. */
  lemma {:induction false} NoEarlier(ns: seq<int>, from: int, i: nat) returns (p: nat)
    requires Ascending(ns) && Fills(ns, from) && i < |ns|
    ensures i <= p < |ns| && ns[p] == from + i
  {
    assert from + i in ns;
    p :| 0 <= p < |ns| && ns[p] == from + i;
    if i > 0 {
      var before := NoEarlier(ns, from, i - 1);
      assert p > before;
    }
  }

  /** And no later. */
  lemma {:induction false} NoLater(ns: seq<int>, from: int, i: nat) returns (p: nat)
    requires Ascending(ns) && Fills(ns, from) && i < |ns|
    ensures p <= i && ns[p] == from + i
    decreases |ns| - i
  {
    assert from + i in ns;
    p :| 0 <= p < |ns| && ns[p] == from + i;
    if i + 1 < |ns| {
      var after := NoLater(ns, from, i + 1);
      assert p < after;
    }
  }

  lemma FillingCountsUp(ns: seq<int>, from: int)
    requires Ascending(ns) && Fills(ns, from)
    ensures forall i | 0 <= i < |ns| :: ns[i] == from + i
  {
    forall i | 0 <= i < |ns| ensures ns[i] == from + i {
      var p := NoEarlier(ns, from, i);
      var q := NoLater(ns, from, i);
      assert ns[q] <= ns[i] <= ns[p];
    }
  }

  lemma GapNeverFills(ns: seq<int>, i: nat)
    requires Ascending(ns) && 0 < i < |ns| && ns[i] != ns[i-1] + 1
    ensures forall from :: !Fills(ns, from)
  {
    forall from ensures !Fills(ns, from) {
      if Fills(ns, from) {
        FillingCountsUp(ns, from);
        assert false;
      }
    }
  }

  lemma CountingUpFills(ns: seq<int>)
    requires ns != [] && forall i | 0 <= i < |ns| :: ns[i] == ns[0] + i
    ensures Fills(ns, ns[0])
  {
    forall n | ns[0] <= n < ns[0] + |ns| ensures n in ns {
      assert ns[n - ns[0]] == n;
    }
  }

  /** Sorting keeps the episodes, and with them the numbers they fill. */
  lemma SortKeeps(es: seq<Episode>)
    ensures var s := Sort(es, NumberOf);
      && |s| == |es| && Ascending(Numbers(s))
      && (forall e :: e in s <==> e in es)
      && forall from :: Fills(Numbers(s), from) <==> Fills(Numbers(es), from)
  {
    var s := Sort(es, NumberOf);
    SortSorts(es, NumberOf);
    SameMembers(s, es);
    forall i, j | 0 <= i <= j < |s| ensures s[i].number <= s[j].number {
      SortedAscends(s, NumberOf, i, j);
    }
    forall n ensures n in Numbers(s) <==> n in Numbers(es) {
      NumbersOf(s, n);
      NumbersOf(es, n);
    }
  }

  lemma NumbersOf(es: seq<Episode>, n: int)
    ensures n in Numbers(es) <==> exists e :: e in es && e.number == n
  {
    if n in Numbers(es) {
      var i :| 0 <= i < |es| && Numbers(es)[i] == n;
      assert es[i] in es;
    }
    if e :| e in es && e.number == n {
      var i :| 0 <= i < |es| && es[i] == e;
      assert Numbers(es)[i] == n;
    }
  }

  /** Checks a sorted copy and returns a summary of its range, or says why it may not be folded. */
  method Compress(goalId: string, episodes: seq<Episode>, content: string) returns (r: Result<Summary, Error>)
    ensures r.Ok? <==> Foldable(goalId, episodes)
    ensures r.Ok? ==> Covers(r.value, goalId, episodes) && r.value.content == content
    ensures r.Err? ==> (r.error == NothingToCompress <==> episodes == [])
  {
    if |episodes| == 0 {
      return Err(NothingToCompress);
    }
    var sorted := Sort(episodes, NumberOf);
    SortKeeps(episodes);
    for i := 0 to |sorted|
      invariant forall j | 0 <= j < i :: sorted[j].goalId == goalId && sorted[j].Compressible()
      invariant forall j | 0 <= j < i :: sorted[j].number == sorted[0].number + j
    {
      assert sorted[i] in episodes;
      if sorted[i].goalId != goalId {
        return Err(SummaryGap);
      }
      if !sorted[i].Compressible() {
        return Err(Incompressible);
      }
      if i > 0 && sorted[i].number != sorted[i-1].number + 1 {
        GapNeverFills(Numbers(sorted), i);
        return Err(SummaryGap);
      }
    }
    CountingUpFills(Numbers(sorted));
    return Ok(Summary(goalId, 0, sorted[0].number, sorted[|sorted|-1].number, content, |sorted|));
  }

  // ---- knowledge ----

  datatype Knowledge = Knowledge(tenant: string, subject: string, key: string, value: string,
                                 evidenceGoal: string, evidence: seq<int>, supersededBy: string)

  function SubjectKey(tenant: string, subject: string): string {
    tenant + [0 as char] + subject
  }

  function Supersede(k: Knowledge, later: Knowledge): Knowledge {
    if k.key == later.key && k.supersededBy == "" then k.(supersededBy := later.evidenceGoal) else k
  }

  function Promoted(claims: seq<Knowledge>, k: Knowledge): seq<Knowledge> {
    seq(|claims|, i requires 0 <= i < |claims| => Supersede(claims[i], k)) + [k]
  }

  function Identity(n: int): int {
    n
  }

  /** Turns episodes into a claim: one goal's observations and effects, never a decision or a failure. */
  method Promote(tenant: string, subject: string, key: string, value: string, from: seq<Episode>)
    returns (r: Result<Knowledge, Error>)
    ensures r.Ok? <==>
      from != [] && forall e | e in from :: e.goalId == from[0].goalId && e.kind in {Observation, Effect}
    ensures r.Ok? ==> r.value == Knowledge(tenant, subject, key, value, from[0].goalId, r.value.evidence, "")
    ensures r.Ok? ==> Sorted(r.value.evidence, Identity) && multiset(r.value.evidence) == multiset(Numbers(from))
  {
    if |from| == 0 {
      return Err(NoEvidence);
    }
    var numbers := [];
    for i := 0 to |from|
      invariant forall j | 0 <= j < i :: from[j].goalId == from[0].goalId && from[j].kind in {Observation, Effect}
      invariant |numbers| == i && forall j | 0 <= j < i :: numbers[j] == from[j].number
    {
      assert from[i] in from;
      if from[i].goalId != from[0].goalId {
        return Err(NoEvidence);
      }
      if !from[i].kind.Observation? && !from[i].kind.Effect? {
        return Err(NotPromotable);
      }
      numbers := numbers + [from[i].number];
    }
    assert numbers == Numbers(from);
    SortSorts(numbers, Identity);
    return Ok(Knowledge(tenant, subject, key, value, from[0].goalId, Sort(numbers, Identity), ""));
  }

  // ---- the store ----

  function Mark(e: Episode, s: Summary): Episode {
    if s.from <= e.number <= s.to then e.(summarisedBy := s.id) else e
  }

  function MarkAll(es: seq<Episode>, s: Summary): (r: seq<Episode>)
    ensures |r| == |es| && forall i | 0 <= i < |es| :: r[i] == Mark(es[i], s)
  {
    seq(|es|, i requires 0 <= i < |es| => Mark(es[i], s))
  }

  function Get<T>(m: map<string, seq<T>>, k: string): seq<T> {
    if k in m then m[k] else []
  }

  class Mem {
    var episodes: map<string, seq<Episode>>
    var summaries: map<string, seq<Summary>>
    var knowledge: map<string, seq<Knowledge>>
    var nextSum: int

    constructor ()
      ensures episodes == map[] && summaries == map[] && knowledge == map[] && nextSum == 0
    {
      episodes, summaries, knowledge, nextSum := map[], map[], map[], 0;
    }

    /** Assigns the next number under the lock and appends. */
    method AppendEpisode(e: Episode) returns (n: int)
      modifies this`episodes
      ensures n == |old(Get(episodes, e.goalId))| + 1
      ensures episodes == old(episodes)[e.goalId := Apply(old(Get(episodes, e.goalId)), Append(e))]
    {
      n := |Get(episodes, e.goalId)| + 1;
      episodes := episodes[e.goalId := Get(episodes, e.goalId) + [e.(number := n)]];
    }

    /** Stores a summary under a fresh id, and marks the range it claims in place. */
    method SaveSummary(s: Summary) returns (id: int)
      modifies this`episodes, this`summaries, this`nextSum
      ensures id == nextSum == old(nextSum) + 1
      ensures summaries == old(summaries)[s.goalId := old(Get(summaries, s.goalId)) + [s.(id := id)]]
      ensures Get(episodes, s.goalId) == MarkAll(old(Get(episodes, s.goalId)), s.(id := id))
      ensures forall g | g != s.goalId :: Get(episodes, g) == old(Get(episodes, g))
    {
      nextSum := nextSum + 1;
      id := nextSum;
      var kept := s.(id := id);
      summaries := summaries[s.goalId := Get(summaries, s.goalId) + [kept]];
      ghost var before := Get(episodes, s.goalId);
      for i := 0 to |Get(episodes, s.goalId)|
        modifies this`episodes
        invariant |Get(episodes, s.goalId)| == |before|
        invariant forall g | g != s.goalId :: Get(episodes, g) == old(Get(episodes, g))
        invariant forall j | 0 <= j < |before| ::
          Get(episodes, s.goalId)[j] == if j < i then Mark(before[j], kept) else before[j]
      {
        var es := episodes[s.goalId];
        if es[i].number >= kept.from && es[i].number <= kept.to {
          episodes := episodes[s.goalId := es[i := es[i].(summarisedBy := kept.id)]];
        }
      }
    }

    /** A later claim on a key supersedes the earlier one, which is kept. */
    method PromoteKnowledge(k: Knowledge) returns (ok: bool)
      modifies this`knowledge
      ensures ok <==> k.evidenceGoal != "" && k.evidence != []
      ensures !ok ==> knowledge == old(knowledge)
      ensures ok ==> var s := SubjectKey(k.tenant, k.subject);
        knowledge == old(knowledge)[s := Promoted(old(Get(knowledge, s)), k)]
    {
      if k.evidenceGoal == "" || |k.evidence| == 0 {
        return false;
      }
      var s := SubjectKey(k.tenant, k.subject);
      var claims := Get(knowledge, s);
      ghost var before := claims;
      for i := 0 to |claims|
        invariant |claims| == |before|
        invariant forall j | 0 <= j < |before| :: claims[j] == if j < i then Supersede(before[j], k) else before[j]
      {
        if claims[i].key == k.key && claims[i].supersededBy == "" {
          claims := claims[i := claims[i].(supersededBy := k.evidenceGoal)];
        }
      }
      assert claims + [k] == Promoted(before, k);
      knowledge := knowledge[s := claims + [k]];
      return true;
    }
  }

  // ---- any interleaving of appends and saves on one goal ----

  /** The writers' operations. A summary carries the episodes it was compressed from. */
  datatype Op = Append(e: Episode) | Save(s: Summary, read: seq<Episode>)

  function Apply(es: seq<Episode>, op: Op): seq<Episode> {
    match op
    case Append(e) => es + [e.(number := |es| + 1)]
    case Save(s, _) => MarkAll(es, s)
  }

  /** Appends carry no mark. A summary is built by Compress from episodes some earlier state held. */
  ghost predicate Possible(goalId: string, states: seq<seq<Episode>>, n: nat, op: Op)
    requires n < |states|
  {
    match op
    case Append(e) => e.goalId == goalId && e.summarisedBy == 0
    case Save(s, read) => Covers(s, goalId, read) && exists m :: 0 <= m <= n && AllIn(read, states[m])
  }

  predicate AllIn(read: seq<Episode>, es: seq<Episode>) {
    forall e | e in read :: e in es
  }

  ghost predicate History(goalId: string, states: seq<seq<Episode>>, ops: seq<Op>) {
    && |states| == |ops| + 1
    && states[0] == []
    && forall n: nat | n < |ops| :: states[n+1] == Apply(states[n], ops[n]) && Possible(goalId, states, n, ops[n])
  }

  /** Numbers run from 1 without a gap, and nothing that must stay visible is marked. */
  predicate Good(goalId: string, es: seq<Episode>) {
    forall i | 0 <= i < |es| ::
      && es[i].goalId == goalId && es[i].number == i + 1
      && (es[i].summarisedBy != 0 ==> es[i].kind in {Observation, Decision})
  }

  /** Later states extend earlier ones, but for marks. */
  predicate Extends(later: seq<Episode>, earlier: seq<Episode>) {
    && |earlier| <= |later|
    && forall i | 0 <= i < |earlier| :: later[i].(summarisedBy := 0) == earlier[i].(summarisedBy := 0)
  }

  lemma {:induction false} StatesExtend(goalId: string, states: seq<seq<Episode>>, ops: seq<Op>, m: nat, n: nat)
    requires History(goalId, states, ops) && m <= n < |states|
    ensures Extends(states[n], states[m])
    decreases n
  {
    if m < n {
      StatesExtend(goalId, states, ops, m, n - 1);
      assert states[n] == Apply(states[n-1], ops[n-1]);
    }
  }

  /** The episodes that were appended, in order. */
  function Appended(ops: seq<Op>): seq<Episode> {
    if ops == [] then []
    else
      Appended(ops[..|ops|-1]) + match ops[|ops|-1] case Append(e) => [e] case Save(_, _) => []
  }

  /** The record is exactly what was appended, numbered in that order, but for the marks. */
  lemma {:induction false} HistoryIsAppended(goalId: string, states: seq<seq<Episode>>, ops: seq<Op>, n: nat)
    requires History(goalId, states, ops) && n < |states|
    ensures |states[n]| == |Appended(ops[..n])|
    ensures forall i | 0 <= i < |states[n]| ::
      states[n][i].(summarisedBy := 0) == Appended(ops[..n])[i].(summarisedBy := 0, number := i + 1)
    decreases n
  {
    if n > 0 {
      HistoryIsAppended(goalId, states, ops, n - 1);
      assert states[n] == Apply(states[n-1], ops[n-1]);
      assert ops[..n][..n-1] == ops[..n-1];
    }
  }

  /** A save marks exactly the episodes it was compressed from, whatever was appended or marked since. */
  lemma SaveMarksExactly(goalId: string, now: seq<Episode>, earlier: seq<Episode>, s: Summary, read: seq<Episode>)
    requires Good(goalId, now) && Extends(now, earlier) && AllIn(read, earlier) && Covers(s, goalId, read)
    ensures forall i | 0 <= i < |now| ::
      MarkAll(now, s)[i] == if now[i].number in Numbers(read) then now[i].(summarisedBy := s.id) else now[i]
    ensures forall i | 0 <= i < |now| && now[i].number in Numbers(read) :: now[i].kind in {Observation, Decision}
    ensures forall n | n in Numbers(read) :: n in Numbers(now)
    ensures Good(goalId, MarkAll(now, s))
  {
    forall e | e in read ensures 1 <= e.number <= |earlier| && now[e.number-1].kind == e.kind {
      var i :| 0 <= i < |earlier| && earlier[i] == e;
      assert now[i].number == e.number;
    }
    forall i | 0 <= i < |now| && now[i].number in Numbers(read)
      ensures now[i].kind in {Observation, Decision}
    {
      NumbersOf(read, now[i].number);
      var e :| e in read && e.number == now[i].number;
    }
    forall n | n in Numbers(read) ensures n in Numbers(now) {
      NumbersOf(read, n);
      assert Numbers(now)[n-1] == n;
    }
  }

  /** In every history of appends and saves, numbers are exactly 1..n and no failure or effect is ever
      marked as summarised. */
  lemma {:induction false} HistoryIsGood(goalId: string, states: seq<seq<Episode>>, ops: seq<Op>, n: nat)
    requires History(goalId, states, ops) && n < |states|
    ensures Good(goalId, states[n])
    decreases n
  {
    if n > 0 {
      HistoryIsGood(goalId, states, ops, n - 1);
      assert states[n] == Apply(states[n-1], ops[n-1]) && Possible(goalId, states, n - 1, ops[n-1]);
      match ops[n-1]
      case Append(_) =>
      case Save(s, read) =>
        var m :| 0 <= m <= n - 1 && AllIn(read, states[m]);
        StatesExtend(goalId, states, ops, m, n - 1);
        SaveMarksExactly(goalId, states[n-1], states[m], s, read);
    }
  }

  // ---- claims over any history of promotions ----

  /** The claims on a subject after a list of promotions, each as Promote builds it. */
  function Promotions(ks: seq<Knowledge>): (c: seq<Knowledge>)
    ensures |c| == |ks|
  {
    if ks == [] then [] else Promoted(Promotions(ks[..|ks|-1]), ks[|ks|-1])
  }

  predicate Latest(ks: seq<Knowledge>, i: nat)
    requires i < |ks|
  {
    forall j | i < j < |ks| :: ks[j].key != ks[i].key
  }

  lemma LatestInit(ks: seq<Knowledge>, i: nat)
    requires i < |ks| - 1
    ensures Latest(ks, i) <==> Latest(ks[..|ks|-1], i) && ks[|ks|-1].key != ks[i].key
  {
    var init := ks[..|ks|-1];
    assert forall j | 0 <= j < |init| :: init[j] == ks[j];
    if Latest(init, i) && ks[|ks|-1].key != ks[i].key {
      forall j | i < j < |ks| ensures ks[j].key != ks[i].key {
        assert j < |init| ==> init[j].key != init[i].key;
      }
    }
  }

  /** However often a key is promoted, every claim is kept in order and only the latest on its key stands. */
  lemma {:induction false} OnlyTheLatestStands(ks: seq<Knowledge>, i: nat)
    requires forall k | k in ks :: k.evidenceGoal != "" && k.supersededBy == ""
    requires i < |ks|
    ensures Promotions(ks)[i].(supersededBy := "") == ks[i]
    ensures Promotions(ks)[i].supersededBy == "" <==> Latest(ks, i)
  {
    var init, last := ks[..|ks|-1], ks[|ks|-1];
    assert last in ks;
    if i < |init| {
      assert forall k | k in init :: k in ks;
      OnlyTheLatestStands(init, i);
      assert init[i] == ks[i];
      assert Promotions(ks)[i] == Supersede(Promotions(init)[i], last);
      LatestInit(ks, i);
    }
  }

  /** A claim that does not stand names the goal of the next one on its key. */
  lemma {:induction false} SupersededByTheNext(ks: seq<Knowledge>, i: nat, j: nat)
    requires forall k | k in ks :: k.evidenceGoal != "" && k.supersededBy == ""
    requires i < j < |ks| && ks[j].key == ks[i].key && forall m | i < m < j :: ks[m].key != ks[i].key
    ensures Promotions(ks)[i].supersededBy == ks[j].evidenceGoal
  {
    var init, last := ks[..|ks|-1], ks[|ks|-1];
    assert last in ks && forall k | k in init :: k in ks;
    assert forall m | 0 <= m < |init| :: init[m] == ks[m];
    OnlyTheLatestStands(init, i);
    assert ks[j] in ks;
    if j < |init| {
      SupersededByTheNext(init, i, j);
    }
    assert Promotions(ks)[i] == Supersede(Promotions(init)[i], last);
  }

  const NUL := 0 as char

  /** The claims of two tenants are kept apart, whatever the subjects, exactly when neither name continues the other
      behind a zero byte. */
  lemma TenantsAreApart(a: string, b: string)
    requires a != b
    ensures (forall s, t :: SubjectKey(a, s) != SubjectKey(b, t)) <==> !(a + [NUL] <= b) && !(b + [NUL] <= a)
  {
    if a + [NUL] <= b {
      assert SubjectKey(a, b[|a|+1..] + [NUL]) == SubjectKey(b, "");
    } else if b + [NUL] <= a {
      assert SubjectKey(a, "") == SubjectKey(b, a[|b|+1..] + [NUL]);
    } else {
      forall s, t ensures SubjectKey(a, s) != SubjectKey(b, t) {
        if SubjectKey(a, s) == SubjectKey(b, t) {
          SameKeyContinues(a, b, s, t);
        }
      }
    }
  }

  lemma SameKeyContinues(a: string, b: string, s: string, t: string)
    requires a != b && SubjectKey(a, s) == SubjectKey(b, t)
    ensures a + [NUL] <= b || b + [NUL] <= a
  {
    var k := SubjectKey(a, s);
    assert k[..|a|] == a && k[|a|] == NUL && k[..|b|] == b && k[|b|] == NUL;
    if |a| < |b| {
      assert b[..|a|] == k[..|b|][..|a|] && b[|a|] == k[..|b|][|a|];
    } else if |b| < |a| {
      assert a[..|b|] == k[..|a|][..|b|] && a[|b|] == k[..|a|][|b|];
    }
  }

  /** One tenant's subjects never share a key. */
  lemma SubjectsAreApart(a: string, s: string, t: string)
    requires SubjectKey(a, s) == SubjectKey(a, t)
    ensures s == t
  {
    assert SubjectKey(a, s)[|a|+1..] == s && SubjectKey(a, t)[|a|+1..] == t;
  }
}
