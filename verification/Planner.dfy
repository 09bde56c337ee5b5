/** The registry: builds a goal's graph and revises it within its ceilings. */
module Planner {
  import opened Tasks
  import opened Dags
  import opened Plans
  import Protocol

  // ---- growing a valid graph ----

  /** Every edge of a task leads to a task already there or earlier in the list. */
  predicate Grounded(m: Table, ts: seq<Named>) {
    forall j | 0 <= j < |ts| :: Rooted(m, ts[..j], ts[j])
  }

  predicate Rooted(m: Table, before: seq<Named>, t: Named) {
    forall e | e in t.row.Edges() :: e in m || exists b | b in before :: b.id == e
  }

  /** None of these ids is in use. */
  predicate Unused(m: Table, ts: seq<Named>) {
    forall t | t in ts :: t.id !in m
  }

  function Add(m: Table, ts: seq<Named>): Table {
    m + TableOf(ts)
  }

  /** All that a prefix of such a list inherits. */
  lemma PrefixGrounded(m: Table, ts: seq<Named>, k: nat)
    requires k <= |ts|
    requires Grounded(m, ts) && Unused(m, ts) && DistinctIds(ts)
    ensures Grounded(m, ts[..k]) && Unused(m, ts[..k]) && DistinctIds(ts[..k])
  {
    var p := ts[..k];
    forall j | 0 <= j < k ensures Rooted(m, p[..j], p[j]) {
      assert p[..j] == ts[..j] && p[j] == ts[j];
    }
  }

  lemma AddLast(m: Table, ts: seq<Named>)
    requires ts != [] && Grounded(m, ts) && Unused(m, ts) && DistinctIds(ts)
    ensures var a, t := Add(m, ts[..|ts|-1]), ts[|ts|-1];
      t.id !in a && Add(m, ts) == a[t.id := t.row] && forall e | e in t.row.Edges() :: e in a
  {
    var init, t := ts[..|ts|-1], ts[|ts|-1];
    assert t in ts;
    if t.id in TableOf(init) {
      FoundIsDuplicate(ts, |ts| - 1);
    }
    assert Rooted(m, init, t);
    TableOfRows(init);
  }

  /** Adding grounded, distinct, unused tasks keeps a graph closed and acyclic. */
  lemma {:induction false} AddingKeepsGraph(m: Table, ts: seq<Named>)
    requires Closed(m) && Acyclic(m)
    requires Grounded(m, ts) && Unused(m, ts) && DistinctIds(ts)
    ensures Closed(Add(m, ts)) && Acyclic(Add(m, ts)) && |Add(m, ts)| == |m| + |ts|
    decreases |ts|
  {
    if ts == [] {
      assert Add(m, ts) == m;
    } else {
      var n := |ts| - 1;
      PrefixGrounded(m, ts, n);
      AddingKeepsGraph(m, ts[..n]);
      AddLast(m, ts);
      AddingOne(Add(m, ts[..n]), ts[n]);
    }
  }

  lemma AddingOne(m: Table, t: Named)
    requires Closed(m) && Acyclic(m) && t.id !in m && forall e | e in t.row.Edges() :: e in m
    ensures var a := m[t.id := t.row]; Closed(a) && Acyclic(a) && |a| == |m| + 1
  {
    var a := m[t.id := t.row];
    var rank :| Ranked(m, rank);
    var above := rank[t.id := Top(rank, t.row.Edges())];
    forall x, y | x in a && y in a[x].Edges() ensures y in m && y in above && above[y] < above[x] {
      if x != t.id {
        assert x in m && a[x] == m[x];
      }
    }
    assert Ranked(a, above);
    assert a.Keys == m.Keys + {t.id};
  }

  /** A rank above all of these. */
  function Top(rank: map<Id, nat>, ids: seq<Id>): (top: nat)
    ensures forall id | id in ids && id in rank :: rank[id] < top
  {
    if ids == [] then 0 else
      var rest := Top(rank, ids[1..]);
      if ids[0] in rank && rank[ids[0]] >= rest then rank[ids[0]] + 1 else rest
  }

  // ---- the first graph ----

  lemma FanOutIsValid(kind: string, prefix: string, names: seq<string>, join: Id, row: Row)
    requires |join| > 0 && |prefix| > 0 && join[0] != prefix[0]
    requires forall e | e in row.Edges() :: e in Prefixed(prefix, names)
    ensures var ts := FanOut(kind, Prefixed(prefix, names), join, row);
      && Grounded(map[], ts)
      && (DistinctIds(ts) <==> Unrepeated(names))
  {
    var ids := Prefixed(prefix, names);
    var ts := FanOut(kind, ids, join, row);
    var n := |names|;
    forall e | e in row.Edges() ensures exists b | b in ts[..n] :: b.id == e {
      var i :| 0 <= i < n && ids[i] == e;
      assert ts[..n][i].id == e;
    }
    assert ts[n] == Named(join, row);
    forall j | 0 <= j <= n ensures Rooted(map[], ts[..j], ts[j]) {
      if j < n {
        assert ts[j] == Named(ids[j], NewTask(kind, 0, []));
        assert |ts[j].row.Edges()| == 0;
      }
    }
    forall i, j | 0 <= i < j <= n && ts[i].id == ts[j].id ensures j < n && names[i] == names[j] {
      assert ts[i].id[0] == prefix[0];
      assert ts[i].id[|prefix|..] == names[i] && (j < n ==> ts[j].id[|prefix|..] == names[j]);
    }
    forall i, j | 0 <= i < j < n && names[i] == names[j] ensures !DistinctIds(ts) {
      assert ts[i].id == ts[j].id;
    }
  }

  lemma AppendGrounded(m: Table, ts: seq<Named>, t: Named)
    requires Grounded(m, ts) && DistinctIds(ts) && Rooted(m, ts, t) && forall b | b in ts :: b.id != t.id
    ensures Grounded(m, ts + [t]) && DistinctIds(ts + [t])
  {
    var all := ts + [t];
    forall j | 0 <= j < |all| ensures Rooted(m, all[..j], all[j]) {
      if j < |ts| {
        assert all[..j] == ts[..j];
      } else {
        assert all[..j] == ts;
      }
    }
    forall i, j | 0 <= i < j < |all| ensures all[i].id != all[j].id {
      assert i < |ts| && all[i] == ts[i] && ts[i] in ts;
    }
  }

  predicate Unrepeated(names: seq<string>) {
    forall i, j | 0 <= i < j < |names| :: names[i] != names[j]
  }

  lemma FanOutAvoids(kind: string, prefix: string, names: seq<string>, join: Id, row: Row, id: Id)
    requires |prefix| > 0 && |id| > 0 && id[0] != prefix[0] && id != join
    ensures forall b | b in FanOut(kind, Prefixed(prefix, names), join, row) :: b.id != id
  {
    var ts := FanOut(kind, Prefixed(prefix, names), join, row);
    forall b | b in ts ensures b.id != id {
      var i :| 0 <= i < |ts| && ts[i] == b;
      assert i < |names| ==> b.id[0] == prefix[0];
    }
  }

  /** A fan-out with one more task behind its join. */
  lemma FanOutThenOne(kind: string, prefix: string, names: seq<string>, join: Id, row: Row, last: Named)
    requires |join| > 0 && |prefix| > 0 && |last.id| > 0 && join != last.id
    requires join[0] != prefix[0] && last.id[0] != prefix[0]
    requires Unrepeated(names) && row.Edges() == Prefixed(prefix, names) && last.row.Edges() == [join]
    ensures var ts := FanOut(kind, Prefixed(prefix, names), join, row) + [last]; Grounded(map[], ts) && DistinctIds(ts)
  {
    var ts := FanOut(kind, Prefixed(prefix, names), join, row);
    FanOutIsValid(kind, prefix, names, join, row);
    FanOutAvoids(kind, prefix, names, join, row, last.id);
    assert ts[|names|].id == join;
    assert Rooted(map[], ts, last);
    AppendGrounded(map[], ts, last);
  }

  lemma GateIsValid(names: seq<string>, publish: Named)
    requires publish.id == "publish" && publish.row.dependsOn == ["quality-gate"] && publish.row.contributes == []
    requires Unrepeated(names)
    ensures Grounded(map[], Gated(names, publish)) && DistinctIds(Gated(names, publish))
  {
    var ids := Prefixed("generate-", names);
    var gate := NewTask("eval_quality_gate", 0, []).(contributes := ids);
    assert gate.Edges() == ids && publish.row.Edges() == ["quality-gate"];
    FanOutThenOne("generate_eval_cases", "generate-", names, "quality-gate", gate, publish);
  }

  lemma GeneratorsDiffer()
    ensures Unrepeated(GENERATORS)
  {
    assert |GENERATORS[0]| == 21 && |GENERATORS[1]| == 13 && |GENERATORS[2]| == 10 && |GENERATORS[3]| == 24;
  }

  lemma AxesAreValid(g: Goal, join: Id, kind: string)
    requires |join| > 0 && join[0] != 'a'
    ensures Grounded(map[], Axes(g, join, kind)) && (DistinctIds(Axes(g, join, kind)) <==> Unrepeated(AxesOf(g)))
  {
    var ids := Prefixed("assess-", AxesOf(g));
    assert NewTask(kind, 0, ids).Edges() == ids;
    FanOutIsValid(ASSESS_AXIS, "assess-", AxesOf(g), join, NewTask(kind, 0, ids));
  }

  predicate OnlyRepeats(g: Goal) {
    !g.intent.EvalSet? && !Unrepeated(AxesOf(g))
  }

  /** Every planned task waits only on tasks planned before it, and only a repeated axis repeats an id. */
  lemma PlansAreGrounded(g: Goal)
    requires !g.intent.Unplanned?
    ensures Grounded(map[], PlanOf(g)) && (DistinctIds(PlanOf(g)) <==> !OnlyRepeats(g))
  {
    match g.intent
    case Assess => AxesAreValid(g, "synthesise", "synthesise_assessment");
    case Improve => AxesAreValid(g, "synthesise", "synthesise_assessment");
    case Compare => AxesAreValid(g, "compare", "compare_results");
    case EvalSet =>
      GeneratorsDiffer();
      GateIsValid(GENERATORS, Publish(g));
  }

  lemma GroundedIsValid(ts: seq<Named>)
    requires Grounded(map[], ts) && DistinctIds(ts)
    ensures Closed(TableOf(ts)) && Acyclic(TableOf(ts)) && !Cyclic(TableOf(ts))
  {
    var none: Table, rank: map<Id, nat> := map[], map[];
    assert Ranked(none, rank);
    AddingKeepsGraph(none, ts);
    assert Add(none, ts) == TableOf(ts);
    AcyclicHasNoCycle(TableOf(ts));
  }

  datatype BuildError = NoPlanner | TooManyTasks | NoKey | BadGraph

  datatype Outcome = Graph(dag: Dag) | Unbuilt(error: BuildError)

  lemma FanOutNeedsNoKey(kind: string, ids: seq<Id>, join: Id, row: Row)
    requires !EffectBearing(kind) && !NeedsKey(row)
    ensures forall t | t in FanOut(kind, ids, join, row) :: !NeedsKey(t.row)
  {
    var ts := FanOut(kind, ids, join, row);
    forall t | t in ts ensures !NeedsKey(t.row) {
      var i :| 0 <= i < |ts| && ts[i] == t;
      assert t.row == if i < |ids| then NewTask(kind, 0, []) else row;
    }
  }

  lemma PlansNeedNoKey(g: Goal)
    ensures forall t | t in PlanOf(g) :: !NeedsKey(t.row)
  {
    var ids := Prefixed("assess-", AxesOf(g));
    match g.intent
    case Assess => FanOutNeedsNoKey(ASSESS_AXIS, ids, "synthesise", NewTask("synthesise_assessment", 0, ids));
    case Improve => FanOutNeedsNoKey(ASSESS_AXIS, ids, "synthesise", NewTask("synthesise_assessment", 0, ids));
    case Compare => FanOutNeedsNoKey(ASSESS_AXIS, ids, "compare", NewTask("compare_results", 0, ids));
    case EvalSet =>
      var gens := Prefixed("generate-", GENERATORS);
      FanOutNeedsNoKey("generate_eval_cases", gens, "quality-gate",
        NewTask("eval_quality_gate", 0, []).(contributes := gens));
      assert |Publish(g).row.idempotencyKey| > 0;
    case Unplanned =>
  }

  /** The first graph of a goal: valid by construction, and refused only for want of a planner, for its size,
      or for a repeated axis. */
  method Build(g: Goal) returns (r: Outcome)
    ensures r.Graph? ==> fresh(r.dag) && r.dag.goalId == g.id && r.dag.tasks == TableOf(PlanOf(g))
    ensures r.Graph? ==> Closed(r.dag.tasks) && Acyclic(r.dag.tasks)
    ensures r == Unbuilt(NoPlanner) <==> g.intent.Unplanned?
    ensures r == Unbuilt(TooManyTasks) <==> !g.intent.Unplanned? && |PlanOf(g)| > g.maxTasks
    ensures r == Unbuilt(BadGraph) <==> !g.intent.Unplanned? && |PlanOf(g)| <= g.maxTasks && OnlyRepeats(g)
    ensures r != Unbuilt(NoKey)
  {
    if g.intent.Unplanned? {
      return Unbuilt(NoPlanner);
    }
    var tasks := Plan(g);
    if |tasks| > g.maxTasks {
      return Unbuilt(TooManyTasks);
    }
    PlansNeedNoKey(g);
    for i := 0 to |tasks| {
      var t := tasks[i];
      assert t in PlanOf(g);
      if NeedsKey(t.row) {
        return Unbuilt(NoKey);
      }
    }
    PlansAreGrounded(g);
    if DistinctIds(tasks) {
      GroundedIsValid(tasks);
    }
    var built := Dag.NewDAG(g.id, tasks);
    match built
    case Built(d) => return Graph(d);
    case Refused(_) => return Unbuilt(BadGraph);
  }

  // ---- revising ----

  datatype Trouble = Fine | Unserved | TooDeep | Ceiling | Keyless

  datatype Revision = Revision(added: seq<Named>, trouble: Trouble)

  /** Of the first n proposed tasks, those whose ids the graph does not have, in order. */
  function Fresh(m: Table, ts: seq<Named>, n: nat): seq<Named>
    requires n <= |ts|
  {
    if n == 0 then []
    else if ts[n-1].id in m then Fresh(m, ts, n - 1)
    else Fresh(m, ts, n - 1) + [ts[n-1]]
  }

  /** Which bound, if any, refuses a task when the graph already has this many. */
  function Verdict(g: Goal, size: nat, t: Named): Trouble {
    if t.row.spawnDepth > g.maxSpawnDepth then TooDeep
    else if size >= g.maxTasks then Ceiling
    else if NeedsKey(t.row) then Keyless
    else Fine
  }

  /** The n-th task is the first that a bound refuses. Only the size bound keeps what came before it. */
  predicate StopsAt(g: Goal, m: Table, all: seq<Named>, r: Revision, n: nat) {
    && n < |all|
    && (forall i | 0 <= i < n :: Verdict(g, |m| + i, all[i]).Fine?)
    && r.trouble == Verdict(g, |m| + n, all[n]) != Fine
    && r.added == (if r.trouble.Ceiling? then all[..n] else [])
  }

  /** Adds every fresh task, or stops at the first one a bound refuses. */
  ghost predicate Bounded(g: Goal, m: Table, all: seq<Named>, r: Revision) {
    if r.trouble.Fine? then r.added == all && forall i | 0 <= i < |all| :: Verdict(g, |m| + i, all[i]).Fine?
    else exists n: nat :: StopsAt(g, m, all, r, n)
  }

  /** A task that no bound refuses when the graph already has this many. */
  predicate Allowed(g: Goal, size: nat, r: Row) {
    r.spawnDepth <= g.maxSpawnDepth && size < g.maxTasks && !(EffectBearing(r.kind) && r.idempotencyKey == "")
  }

  /** A revision is whole exactly when every task is allowed in its turn. */
  lemma WholeExactly(g: Goal, m: Table, all: seq<Named>, r: Revision)
    requires Bounded(g, m, all, r) && !r.trouble.Unserved?
    ensures r.trouble.Fine? <==> forall i | 0 <= i < |all| :: Allowed(g, |m| + i, all[i].row)
    ensures r.trouble.Fine? ==> r.added == all
  {
    if !r.trouble.Fine? {
      var n: nat :| StopsAt(g, m, all, r, n);
      assert !Allowed(g, |m| + n, all[n].row);
    }
  }

  /** And otherwise the first that is not stops it: for its depth, else for the size of the graph, which alone keeps
      what came before, else for want of a key. */
  lemma StoppedExactly(g: Goal, m: Table, all: seq<Named>, r: Revision, n: nat)
    requires Bounded(g, m, all, r) && !r.trouble.Unserved? && n < |all|
    requires !Allowed(g, |m| + n, all[n].row) && forall i | 0 <= i < n :: Allowed(g, |m| + i, all[i].row)
    ensures r.trouble.TooDeep? <==> all[n].row.spawnDepth > g.maxSpawnDepth
    ensures r.trouble.Ceiling? <==> all[n].row.spawnDepth <= g.maxSpawnDepth && |m| + n >= g.maxTasks
    ensures r.added == if r.trouble.Ceiling? then all[..n] else []
  {
    WholeExactly(g, m, all, r);
    var stop: nat :| StopsAt(g, m, all, r, stop);
    assert !Allowed(g, |m| + stop, all[stop].row);
    assert !Verdict(g, |m| + n, all[n]).Fine?;
    assert stop == n;
  }

  method Revise(g: Goal, m: Table, decode: Decoder) returns (r: Revision, ghost proposed: seq<Named>)
    ensures Replans(g, m, decode, proposed) && ReplansInOrder(g, m, decode, proposed)
    ensures r.trouble.Unserved? <==> g.intent.Unplanned?
    ensures if g.intent.Unplanned? then r.added == [] else Bounded(g, m, Fresh(m, proposed, |proposed|), r)
  {
    if g.intent.Unplanned? {
      return Revision([], Unserved), [];
    }
    var ts := Replan(g, m, decode);
    r := Bound(g, m, ts);
    proposed := ts;
  }

  lemma StopIsBounded(g: Goal, m: Table, ts: seq<Named>, j: nat, r: Revision)
    requires j < |ts| && ts[j].id !in m
    requires var added := Fresh(m, ts, j);
      && (forall i | 0 <= i < |added| :: Verdict(g, |m| + i, added[i]).Fine?)
      && r.trouble == Verdict(g, |m| + |added|, ts[j]) != Fine
      && r.added == if r.trouble.Ceiling? then added else []
    ensures Bounded(g, m, Fresh(m, ts, |ts|), r) && !r.trouble.Unserved?
  {
    hide Fresh;
    var added, all := Fresh(m, ts, j), Fresh(m, ts, |ts|);
    FreshPrefix(m, ts, j, |ts|);
    assert all[|added|] == ts[j] && all[..|added|] == added;
    assert StopsAt(g, m, all, r, |added|);
  }

  /** The loop of Revise. */
  method Bound(g: Goal, m: Table, ts: seq<Named>) returns (r: Revision)
    ensures Bounded(g, m, Fresh(m, ts, |ts|), r) && !r.trouble.Unserved?
  {
    var added := [];
    for j := 0 to |ts|
      invariant added == Fresh(m, ts, j)
      invariant forall i | 0 <= i < |added| :: Verdict(g, |m| + i, added[i]).Fine?
    {
      var t := ts[j];
      if t.id in m {
        continue;
      }
      var trouble := Verdict(g, |m| + |added|, t);
      if !trouble.Fine? {
        r := Revision(if trouble.Ceiling? then added else [], trouble);
        StopIsBounded(g, m, ts, j, r);
        return;
      }
      added := added + [t];
    }
    return Revision(added, Fine);
  }

  lemma {:induction false} FreshPrefix(m: Table, ts: seq<Named>, j: nat, n: nat)
    requires j < n <= |ts| && ts[j].id !in m
    ensures Fresh(m, ts, j) + [ts[j]] <= Fresh(m, ts, n)
    decreases n
  {
    if j < n - 1 {
      FreshPrefix(m, ts, j, n - 1);
    }
  }

  lemma {:induction false} FreshMembers(m: Table, ts: seq<Named>, n: nat)
    requires n <= |ts|
    ensures Unused(m, Fresh(m, ts, n))
    ensures forall t :: t in Fresh(m, ts, n) <==> t.id !in m && exists j :: 0 <= j < n && ts[j] == t
  {
    if n > 0 {
      FreshMembers(m, ts, n - 1);
    }
  }

  /** Leaving out tasks the graph already has leaves the rest distinct and grounded. */
  lemma {:induction false} FreshIsGrounded(m: Table, ts: seq<Named>, n: nat)
    requires n <= |ts| && Grounded(m, ts) && DistinctIds(ts)
    ensures Grounded(m, Fresh(m, ts, n)) && DistinctIds(Fresh(m, ts, n))
  {
    if n > 0 {
      FreshIsGrounded(m, ts, n - 1);
      var t := ts[n-1];
      if t.id !in m {
        var f := Fresh(m, ts, n - 1);
        FreshMembers(m, ts, n - 1);
        forall e | e in t.row.Edges() && e !in m ensures exists b | b in f :: b.id == e {
          assert Rooted(m, ts[..n-1], t);
          var b :| b in ts[..n-1] && b.id == e;
          assert b in f;
        }
        AppendGrounded(m, f, t);
      }
    }
  }

  // ---- what Improve proposes keeps the graph valid ----

  lemma GroundedConcat(m: Table, a: seq<Named>, b: seq<Named>)
    requires Grounded(m, a) && Grounded(m, b)
    ensures Grounded(m, a + b)
  {
    var c := a + b;
    forall j | 0 <= j < |c| ensures Rooted(m, c[..j], c[j]) {
      if j < |a| {
        assert c[..j] == a[..j];
      } else {
        assert Rooted(m, b[..j-|a|], b[j-|a|]);
        assert c[..j] == a + b[..j-|a|];
      }
    }
  }

  lemma ChainIsGrounded(g: Goal, m: Table, assessed: Id, base: string)
    requires assessed in m
    ensures Grounded(m, Chain(g, assessed, base))
  {
    var c := Chain(g, assessed, base);
    assert c[0].row.Edges() == [assessed];
    assert c[1].row.Edges() == [c[0].id] && c[2].row.Edges() == [c[1].id];
    assert c[0] in c[..1] && c[1] in c[..2];
    assert Rooted(m, c[..1], c[1]) && Rooted(m, c[..2], c[2]);
  }

  lemma {:induction false} ChainsAreGrounded(g: Goal, m: Table, assessed: Id, fs: seq<Finding>, n: nat)
    requires n <= |fs| && assessed in m
    ensures Grounded(m, ChainsOf(g, assessed, fs, n))
  {
    if n > 0 {
      ChainsAreGrounded(g, m, assessed, fs, n - 1);
      if fs[n-1].actionable {
        ChainIsGrounded(g, m, assessed, Base(fs[n-1].axis, n - 1));
        GroundedConcat(m, ChainsOf(g, assessed, fs, n - 1), Chain(g, assessed, Base(fs[n-1].axis, n - 1)));
      } else {
        assert ChainsOf(g, assessed, fs, n) == ChainsOf(g, assessed, fs, n - 1);
      }
    }
  }

  lemma {:induction false} AllChainsAreGrounded(g: Goal, m: Table, decode: Decoder, ids: seq<Id>, n: nat)
    requires n <= |ids| && forall id | id in ids :: id in m
    ensures Grounded(m, AllChains(g, m, decode, ids, n))
  {
    if n > 0 {
      AllChainsAreGrounded(g, m, decode, ids, n - 1);
      var fs := Findings(decode, m, ids[n-1]);
      ChainsAreGrounded(g, m, ids[n-1], fs, |fs|);
      GroundedConcat(m, AllChains(g, m, decode, ids, n - 1), ChainsOf(g, ids[n-1], fs, |fs|));
    }
  }

  /** A new task at depth 1 to 3, with a key if it needs one. */
  predicate Plain(t: Named) {
    Protocol.Unclaimed(t.row) && !NeedsKey(t.row) && 1 <= t.row.spawnDepth <= 3
  }

  lemma LinkIsPlain(g: Goal, assessed: Id, base: string, k: nat)
    requires k < 3
    ensures Plain(Link(g, assessed, base, k))
  {
    assert |g.id + ":" + g.revision + ":" + base| > 0;
  }

  /** Exactly the chains of the succeeded assessments are proposed. */
  lemma ProposedBy(g: Goal, m: Table, decode: Decoder, proposed: seq<Named>)
    requires Replans(g, m, decode, proposed)
    ensures forall t :: t in proposed <==>
      g.intent.Improve? && exists id :: id in Assessed(m) && EmittedBy(g, m, decode, id, t)
  {
    if g.intent.Improve? {
      var ids :| Listing(ids, Assessed(m)) && proposed == AllChains(g, m, decode, ids, |ids|);
      AllChainsAreEmitted(g, m, decode, ids, |ids|);
      forall t, id | id in Assessed(m) && EmittedBy(g, m, decode, id, t) ensures t in proposed {
        var p :| 0 <= p < |ids| && ids[p] == id;
      }
    }
  }

  lemma ProposalsArePlain(g: Goal, m: Table, decode: Decoder, proposed: seq<Named>)
    requires Replans(g, m, decode, proposed)
    ensures forall t | t in proposed :: Plain(t)
  {
    ProposedBy(g, m, decode, proposed);
    forall t | t in proposed ensures Plain(t) {
      var id :| id in Assessed(m) && EmittedBy(g, m, decode, id, t);
      var fs := Findings(decode, m, id);
      var i, k :| 0 <= i < |fs| && 0 <= k < 3 && t == Link(g, id, Base(fs[i].axis, i), k);
      LinkIsPlain(g, id, Base(fs[i].axis, i), k);
    }
  }

  lemma ProposalsAreGrounded(g: Goal, m: Table, decode: Decoder, proposed: seq<Named>)
    requires Replans(g, m, decode, proposed)
    ensures Grounded(m, proposed)
  {
    if g.intent.Improve? {
      var ids :| Listing(ids, Assessed(m)) && proposed == AllChains(g, m, decode, ids, |ids|);
      AllChainsAreGrounded(g, m, decode, ids, |ids|);
    }
  }

  /** Whatever a revision adds is unclaimed, at depth one to three, and has a key if it needs one. */
  lemma FreshArePlain(g: Goal, m: Table, decode: Decoder, proposed: seq<Named>)
    requires Replans(g, m, decode, proposed)
    ensures var f := Fresh(m, proposed, |proposed|); forall i | 0 <= i < |f| :: Plain(f[i])
  {
    ProposalsArePlain(g, m, decode, proposed);
    FreshMembers(m, proposed, |proposed|);
    var f := Fresh(m, proposed, |proposed|);
    forall i | 0 <= i < |f| ensures Plain(f[i]) {
      assert f[i] in f;
    }
  }

  lemma AddingIsAStep(k: Protocol.Kernel, ts: seq<Named>, now: int)
    requires Closed(k.tasks) && Acyclic(k.tasks)
    requires Grounded(k.tasks, ts) && Unused(k.tasks, ts) && DistinctIds(ts) && forall t | t in ts :: Plain(t)
    ensures Protocol.Enabled(k, Protocol.Grow(TableOf(ts)), now)
    ensures |Add(k.tasks, ts)| == |k.tasks| + |ts|
  {
    AddingKeepsGraph(k.tasks, ts);
    TableOfRows(ts);
    forall id | id in TableOf(ts) ensures id !in k.tasks && Protocol.Unclaimed(TableOf(ts)[id]) {
      assert Plain(Named(id, TableOf(ts)[id]));
    }
  }

  /** Whatever part of a revision is saved, the graph stays closed and acyclic, no stored row changes, and saving
      it is a step the protocol allows. */
  lemma RevisionIsAStep(g: Goal, k: Protocol.Kernel, decode: Decoder, proposed: seq<Named>, n: nat, now: int)
    requires Closed(k.tasks) && Acyclic(k.tasks)
    requires Replans(g, k.tasks, decode, proposed) && DistinctIds(proposed)
    requires n <= |Fresh(k.tasks, proposed, |proposed|)|
    ensures var added := Fresh(k.tasks, proposed, |proposed|)[..n];
      && Protocol.Enabled(k, Protocol.Grow(TableOf(added)), now)
      && |Add(k.tasks, added)| == |k.tasks| + n
  {
    var m, f := k.tasks, Fresh(k.tasks, proposed, |proposed|);
    ProposalsAreGrounded(g, m, decode, proposed);
    FreshArePlain(g, m, decode, proposed);
    FreshIsGrounded(m, proposed, |proposed|);
    FreshMembers(m, proposed, |proposed|);
    PrefixGrounded(m, f, n);
    AddingIsAStep(k, f[..n], now);
  }

  lemma {:induction false} TableOfConcat(a: seq<Named>, b: seq<Named>)
    ensures TableOf(a + b) == Add(TableOf(a), b)
  {
    if b == [] {
      assert a + b == a;
    } else {
      var n := |b| - 1;
      TableOfConcat(a, b[..n]);
      assert (a + b)[..|a| + n] == a + b[..n];
    }
  }

  /** Merging a graph's own tasks, in any order, with a revision gives a list that NewDAG accepts. */
  lemma MergedIsAccepted(stored: seq<Named>, added: seq<Named>)
    requires DistinctIds(stored) && Closed(TableOf(stored)) && Acyclic(TableOf(stored))
    requires Grounded(TableOf(stored), added) && Unused(TableOf(stored), added) && DistinctIds(added)
    ensures DistinctIds(stored + added) && TableOf(stored + added) == Add(TableOf(stored), added)
    ensures Closed(TableOf(stored + added)) && !Cyclic(TableOf(stored + added))
  {
    TableOfRows(stored);
    assert !Meets(stored, added);
    DistinctConcat(stored, added);
    TableOfConcat(stored, added);
    AddingKeepsGraph(TableOf(stored), added);
    AcyclicHasNoCycle(TableOf(stored + added));
  }

  /** No revision takes a graph past its ceiling. */
  lemma RevisionFits(g: Goal, m: Table, all: seq<Named>, r: Revision)
    requires Bounded(g, m, all, r)
    ensures r.added != [] ==> |m| + |r.added| <= g.maxTasks
  {
    if r.trouble.Fine? {
      if all != [] {
        assert Verdict(g, |m| + (|all| - 1), all[|all|-1]).Fine?;
      }
    } else {
      var n: nat :| StopsAt(g, m, all, r, n);
      if r.added != [] {
        assert Verdict(g, |m| + (n - 1), all[n-1]).Fine?;
      }
    }
  }

  /** With room for the whole chain in depth, what Improve proposes is refused for its size alone. */
  lemma OnlySizeRefuses(g: Goal, m: Table, all: seq<Named>, r: Revision)
    requires g.maxSpawnDepth >= 3 && Bounded(g, m, all, r) && forall i | 0 <= i < |all| :: Plain(all[i])
    ensures r.trouble.Fine? || r.trouble.Ceiling?
    ensures r.trouble.Fine? <==> all == [] || |m| + |all| <= g.maxTasks
  {
    if !r.trouble.Fine? {
      var n: nat :| StopsAt(g, m, all, r, n);
      assert Plain(all[n]);
    } else if all != [] {
      assert Verdict(g, |m| + (|all| - 1), all[|all|-1]).Fine?;
    }
  }

  // ---- replanning converges ----

  /** A later table that has every task `first` proposed, and the assessments it was proposed from as they were. */
  predicate Saved(m: Table, first: seq<Named>, later: Table) {
    && (forall t | t in first :: t.id in later)
    && (forall id | id in Assessed(m) :: id in Assessed(later) && later[id].result == m[id].result)
  }

  /** Saving a complete revision reaches such a table. */
  lemma CompleteRevisionIsSaved(m: Table, first: seq<Named>)
    ensures Saved(m, first, Add(m, Fresh(m, first, |first|)))
  {
    var f := Fresh(m, first, |first|);
    FreshMembers(m, first, |first|);
    TableOfRows(f);
    forall t | t in first ensures t.id in Add(m, f) {
      assert t.id in m || t in f;
    }
    forall id | id in Assessed(m) ensures Add(m, f)[id] == m[id] {
      assert id !in TableOf(f);
    }
  }

  /** And what is frozen stays saved. */
  lemma FrozenStaysSaved(m: Table, first: seq<Named>, now: Table, later: Table)
    requires Saved(m, first, now) && Protocol.Frozen(now, later)
    ensures Saved(m, first, later)
  {
    forall id | id in Assessed(m) ensures id in Assessed(later) && later[id].result == m[id].result {
      assert Protocol.FrozenRow(now[id], later[id]);
    }
  }

  lemma ProposalSource(g: Goal, m: Table, decode: Decoder, proposed: seq<Named>, t: Named) returns (id: Id)
    requires Replans(g, m, decode, proposed) && t in proposed
    ensures g.intent.Improve? && id in Assessed(m) && EmittedBy(g, m, decode, id, t)
  {
    ProposedBy(g, m, decode, proposed);
    id :| id in Assessed(m) && EmittedBy(g, m, decode, id, t);
  }

  lemma SourceProposes(g: Goal, m: Table, decode: Decoder, proposed: seq<Named>, id: Id, t: Named)
    requires Replans(g, m, decode, proposed) && g.intent.Improve?
    requires id in Assessed(m) && EmittedBy(g, m, decode, id, t)
    ensures t in proposed
  {
    ProposedBy(g, m, decode, proposed);
  }

  /** After a complete revision only assessments that have succeeded since add tasks. */
  lemma OnlyNewSuccessesAddTasks(g: Goal, m: Table, decode: Decoder, first: seq<Named>,
                                 later: Table, second: seq<Named>, t: Named)
    returns (id: Id)
    requires Replans(g, m, decode, first) && Replans(g, later, decode, second)
    requires Saved(m, first, later) && t in Fresh(later, second, |second|)
    ensures id in Assessed(later) - Assessed(m) && EmittedBy(g, later, decode, id, t)
  {
    FreshMembers(later, second, |second|);
    id := ProposalSource(g, later, decode, second, t);
    if id in Assessed(m) {
      assert Findings(decode, m, id) == Findings(decode, later, id);
      SourceProposes(g, m, decode, first, id, t);
    }
  }

  /** So with the same results nothing is fresh. */
  lemma SecondRevisionAddsNothing(g: Goal, m: Table, decode: Decoder, first: seq<Named>,
                                  later: Table, second: seq<Named>)
    requires Replans(g, m, decode, first) && Replans(g, later, decode, second)
    requires Saved(m, first, later) && Assessed(later) <= Assessed(m)
    ensures Fresh(later, second, |second|) == []
  {
    var f := Fresh(later, second, |second|);
    if f != [] {
      var _ := OnlyNewSuccessesAddTasks(g, m, decode, first, later, second, f[0]);
    }
  }

  /** Once a complete revision was saved, whatever was done since, revising again adds nothing and finds no fault
      until another assessment succeeds. */
  lemma {:induction false} RevisingAgain(g: Goal, decode: Decoder, m: Table, first: seq<Named>,
                                         later: Table, second: seq<Named>, r: Revision)
    requires Replans(g, m, decode, first) && Protocol.Frozen(Add(m, Fresh(m, first, |first|)), later)
    requires Assessed(later) <= Assessed(m)
    requires Replans(g, later, decode, second) && Bounded(g, later, Fresh(later, second, |second|), r)
    ensures r == Revision([], Fine)
  {
    CompleteRevisionIsSaved(m, first);
    FrozenStaysSaved(m, first, Add(m, Fresh(m, first, |first|)), later);
    SecondRevisionAddsNothing(g, m, decode, first, later, second);
  }
}
