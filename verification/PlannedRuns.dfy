/** Runs in which every task comes from the planner. */
module PlannedRuns {
  import opened Tasks
  import opened Dags
  import opened Gates
  import opened MemoryRuns
  import opened Planner
  import opened Plans
  import opened Progress
  import opened Protocol
  import opened Runs
  import Goals

  // ---- replanning converges over whole runs ----

  /** In any run of the protocol, from the saving of a complete revision on, revising again adds nothing and finds no
      fault until another assessment succeeds. */
  lemma {:induction false} ReplanningConverges(g: Goal, decode: Decoder, ks: seq<Kernel>, es: seq<Event>,
                                               i: nat, j: nat, first: seq<Named>, second: seq<Named>, r: Revision)
    requires IsRun(ks, es) && i < j < |ks| && Replans(g, ks[i].tasks, decode, first)
    requires es[i].act == Grow(TableOf(Fresh(ks[i].tasks, first, |first|)))
    requires Assessed(ks[j].tasks) <= Assessed(ks[i].tasks)
    requires Replans(g, ks[j].tasks, decode, second)
    requires Bounded(g, ks[j].tasks, Fresh(ks[j].tasks, second, |second|), r)
    ensures r == Revision([], Fine)
  {
    assert Next(ks[i], es[i].act, es[i].now, ks[i+1]);
    TerminalTaskIsFrozen(ks, es, i + 1, j);
    RevisingAgain(g, decode, ks[i].tasks, first, ks[j].tasks, second, r);
  }

  /** And so in any run of the in-memory store. */
  lemma {:induction false} MemoryReplanningConverges(g: Goal, decode: Decoder, ks: seq<Kernel>, es: seq<Event>,
                                                     i: nat, j: nat, first: seq<Named>, second: seq<Named>, r: Revision)
    requires IsMemoryRun(ks, es) && i < j < |ks| && Replans(g, ks[i].tasks, decode, first)
    requires es[i].act == Grow(TableOf(Fresh(ks[i].tasks, first, |first|)))
    requires Assessed(ks[j].tasks) <= Assessed(ks[i].tasks)
    requires Replans(g, ks[j].tasks, decode, second)
    requires Bounded(g, ks[j].tasks, Fresh(ks[j].tasks, second, |second|), r)
    ensures r == Revision([], Fine)
  {
    assert MemoryNext(ks[i], es[i].act, es[i].now, ks[i+1]);
    MemoryTerminalIsFrozen(ks, es, i + 1, j);
    RevisingAgain(g, decode, ks[i].tasks, first, ks[j].tasks, second, r);
  }

  // ---- what was planned and what was reported ----

  lemma StepCarries(before: Kernel, ts: seq<Named>, after: Kernel, later: Kernel)
    requires after.tasks == before.tasks + TableOf(ts) && Frozen(after.tasks, later.tasks) && DistinctIds(ts)
    ensures Carries(later.tasks, ts)
  {
    forall id | id in TableOf(ts) ensures id in later.tasks
      && later.tasks[id].dependsOn == TableOf(ts)[id].dependsOn
      && later.tasks[id].contributes == TableOf(ts)[id].contributes
    {
      assert FrozenRow(after.tasks[id], later.tasks[id]);
    }
    PlannedIsCarried(ts, later.tasks);
  }

  /** What was planned keeps its edges, so that what the plan says of when it may run holds for the rest of the run. */
  lemma PlansAreCarried(ks: seq<Kernel>, es: seq<Event>, i: nat, n: nat, ts: seq<Named>)
    requires IsRun(ks, es) && i < n < |ks| && es[i].act == Grow(TableOf(ts)) && DistinctIds(ts)
    ensures Carries(ks[n].tasks, ts)
  {
    assert Next(ks[i], es[i].act, es[i].now, ks[i+1]);
    TerminalTaskIsFrozen(ks, es, i + 1, n);
    StepCarries(ks[i], ts, ks[i+1], ks[n]);
  }

  lemma MemoryPlansAreCarried(ks: seq<Kernel>, es: seq<Event>, i: nat, n: nat, ts: seq<Named>)
    requires IsMemoryRun(ks, es) && i < n < |ks| && es[i].act == Grow(TableOf(ts)) && DistinctIds(ts)
    ensures Carries(ks[n].tasks, ts)
  {
    assert MemoryNext(ks[i], es[i].act, es[i].now, ks[i+1]);
    MemoryTerminalIsFrozen(ks, es, i + 1, n);
    StepCarries(ks[i], ts, ks[i+1], ks[n]);
  }

  /** Call j completed an assessment as succeeded with a result in which finding i may be acted on. */
  predicate Reports(es: seq<Event>, j: nat, m: Table, decode: Decoder, id: Id, i: nat)
    requires j < |es|
  {
    && id in m && m[id].kind == "assess_axis"
    && es[j].act.Complete? && es[j].act.id == id && es[j].act.next == Succeeded && es[j].act.result != ""
    && i < |decode(es[j].act.result)| && decode(es[j].act.result)[i].actionable
  }

  /** A task is proposed from the i-th finding that call j reported. */
  predicate ProposedFrom(g: Goal, es: seq<Event>, j: nat, decode: Decoder, id: Id, i: nat, t: Named)
    requires j < |es| && es[j].act.Complete? && i < |decode(es[j].act.result)|
  {
    t in Chain(g, id, decode(es[j].act.result)[i].axis + "-" + Decimal(i))
  }

  lemma ReportEmits(g: Goal, m: Table, decode: Decoder, proposed: seq<Named>, id: Id, i: nat, t: Named)
    requires Replans(g, m, decode, proposed) && g.intent.Improve? && id in Assessed(m)
    requires i < |Findings(decode, m, id)| && Findings(decode, m, id)[i].actionable
    requires t in Chain(g, id, Base(Findings(decode, m, id)[i].axis, i))
    ensures t in proposed
  {
    var k :| 0 <= k < 3 && t == Link(g, id, Base(Findings(decode, m, id)[i].axis, i), k);
    assert EmittedBy(g, m, decode, id, t);
    SourceProposes(g, m, decode, proposed, id, t);
  }

  lemma EmittedFrom(g: Goal, m: Table, decode: Decoder, proposed: seq<Named>, t: Named) returns (id: Id, i: nat)
    requires Replans(g, m, decode, proposed) && t in proposed
    ensures g.intent.Improve? && id in Assessed(m)
    ensures i < |Findings(decode, m, id)| && Findings(decode, m, id)[i].actionable
    ensures t in Chain(g, id, Base(Findings(decode, m, id)[i].axis, i))
  {
    id := ProposalSource(g, m, decode, proposed, t);
    var fs := Findings(decode, m, id);
    var n, k :| 0 <= n < |fs| && 0 <= k < 3 && fs[n].actionable && t == Link(g, id, Base(fs[n].axis, n), k);
    i := n;
    assert Chain(g, id, Base(fs[n].axis, n))[k] == t;
  }

  /** In any run of the protocol Improve proposes for exactly the findings that workers reported when they completed
      assessments as succeeded. */
  lemma ProposalsAreReported(g: Goal, decode: Decoder, ks: seq<Kernel>, es: seq<Event>, n: nat,
                             proposed: seq<Named>, t: Named)
    requires IsRun(ks, es) && n < |ks| && g.intent.Improve? && Replans(g, ks[n].tasks, decode, proposed)
    ensures t in proposed <==> exists j: nat, id, i: nat ::
      j < n && Reports(es, j, ks[n].tasks, decode, id, i) && ProposedFrom(g, es, j, decode, id, i, t)
  {
    var m := ks[n].tasks;
    if t in proposed {
      var id, i := EmittedFrom(g, m, decode, proposed, t);
      var j := SucceededWasReported(ks, es, n, id);
      assert Reports(es, j, m, decode, id, i) && ProposedFrom(g, es, j, decode, id, i, t);
    }
    if j: nat, id, i: nat :| j < n && Reports(es, j, m, decode, id, i) && ProposedFrom(g, es, j, decode, id, i, t) {
      ReportedStays(ks, es, j, n, id, es[j].act.result);
      ReportEmits(g, m, decode, proposed, id, i, t);
    }
  }

  /** And in any run of the in-memory store. */
  lemma MemoryProposalsAreReported(g: Goal, decode: Decoder, ks: seq<Kernel>, es: seq<Event>, n: nat,
                                   proposed: seq<Named>, t: Named)
    requires IsMemoryRun(ks, es) && n < |ks| && g.intent.Improve? && Replans(g, ks[n].tasks, decode, proposed)
    ensures t in proposed <==> exists j: nat, id, i: nat ::
      j < n && Reports(es, j, ks[n].tasks, decode, id, i) && ProposedFrom(g, es, j, decode, id, i, t)
  {
    var m := ks[n].tasks;
    if t in proposed {
      var id, i := EmittedFrom(g, m, decode, proposed, t);
      var j := MemorySucceededWasReported(ks, es, n, id);
      assert Reports(es, j, m, decode, id, i) && ProposedFrom(g, es, j, decode, id, i, t);
    }
    if j: nat, id, i: nat :| j < n && Reports(es, j, m, decode, id, i) && ProposedFrom(g, es, j, decode, id, i, t) {
      MemoryReportedStays(ks, es, j, n, id, es[j].act.result);
      ReportEmits(g, m, decode, proposed, id, i, t);
    }
  }

  // ---- the planner never plans on top of a dead task ----

  /** Every chain of proposed tasks is there from end to end or not at all. */
  ghost predicate WholeChains(m: Table) {
    forall base: string, k: nat, l: nat | k < 3 && l < 3 :: ChainId(k, base) in m <==> ChainId(l, base) in m
  }

  predicate NoChain(id: Id) {
    |id| > 1 && id[0] != 'v' && (id[0] == 'p' ==> id[1] != 'r')
  }

  lemma FanOutHasNoChain(kind: string, prefix: string, names: seq<string>, join: Id, row: Row)
    requires NoChain(prefix) && NoChain(join)
    ensures forall t | t in FanOut(kind, Prefixed(prefix, names), join, row) :: NoChain(t.id)
  {
    var ts := FanOut(kind, Prefixed(prefix, names), join, row);
    forall t | t in ts ensures NoChain(t.id) {
      var i :| 0 <= i < |ts| && ts[i] == t;
      assert i < |names| ==> t.id[0] == prefix[0] && t.id[1] == prefix[1];
    }
  }

  /** A first plan has no such chain. */
  lemma PlansHaveNoChain(g: Goal)
    ensures forall t | t in PlanOf(g) :: NoChain(t.id)
  {
    var ids := Prefixed("assess-", AxesOf(g));
    var synthesis, comparison := NewTask("synthesise_assessment", 0, ids), NewTask("compare_results", 0, ids);
    var gens := Prefixed("generate-", GENERATORS);
    match g.intent
    case Assess => FanOutHasNoChain(ASSESS_AXIS, "assess-", AxesOf(g), "synthesise", synthesis);
    case Improve => FanOutHasNoChain(ASSESS_AXIS, "assess-", AxesOf(g), "synthesise", synthesis);
    case Compare => FanOutHasNoChain(ASSESS_AXIS, "assess-", AxesOf(g), "compare", comparison);
    case EvalSet =>
      FanOutHasNoChain("generate_eval_cases", "generate-", GENERATORS, "quality-gate",
        NewTask("eval_quality_gate", 0, []).(contributes := gens));
    case Unplanned =>
  }

  lemma PlansAreWhole(g: Goal)
    ensures WholeChains(TableOf(PlanOf(g)))
  {
    PlansHaveNoChain(g);
    TableOfRows(PlanOf(g));
    forall id | id in TableOf(PlanOf(g)) ensures NoChain(id) {
      assert NoChain(Dags.Named(id, TableOf(PlanOf(g))[id]).id);
    }
    forall base: string, k: nat | k < 3 ensures !NoChain(ChainId(k, base)) {
      ChainIdIsChain(k, base);
    }
  }

  lemma ChainIdIsChain(k: nat, base: string)
    requires k < 3
    ensures !NoChain(ChainId(k, base))
  {
  }

  lemma LinkIdIs(g: Goal, assessed: Id, base: string, k: nat)
    requires k < 3
    ensures Link(g, assessed, base, k).id == ChainId(k, base)
    ensures Link(g, assessed, base, k).row.dependsOn == [if k == 0 then assessed else ChainId(k - 1, base)]
  {
  }

  /** One proposed link brings the others. */
  lemma LinksComeTogether(g: Goal, m: Table, decode: Decoder, proposed: seq<Named>, t: Named,
                          base: string, k: nat, l: nat)
    returns (other: Named)
    requires Replans(g, m, decode, proposed) && t in proposed && k < 3 && l < 3 && t.id == ChainId(k, base)
    ensures other in proposed && other.id == ChainId(l, base)
  {
    var id := ProposalSource(g, m, decode, proposed, t);
    var fs := Findings(decode, m, id);
    var i, k' :| 0 <= i < |fs| && 0 <= k' < 3 && fs[i].actionable && t == Link(g, id, Base(fs[i].axis, i), k');
    LinkIdIs(g, id, Base(fs[i].axis, i), k');
    StemsDiffer(k, base, k', Base(fs[i].axis, i));
    other := Link(g, id, base, l);
    LinkIdIs(g, id, base, l);
    assert EmittedBy(g, m, decode, id, other);
    SourceProposes(g, m, decode, proposed, id, other);
  }

  lemma FreshIds(m: Table, ts: seq<Named>, id: Id)
    ensures id in TableOf(Fresh(m, ts, |ts|)) <==> id !in m && exists t :: t in ts && t.id == id
  {
    var f := Fresh(m, ts, |ts|);
    FreshMembers(m, ts, |ts|);
    TableOfRows(f);
    if t :| t in ts && t.id == id && id !in m {
      assert t in f;
    }
  }

  /** A complete revision of whole chains adds whole chains. */
  lemma RevisionIsWhole(g: Goal, m: Table, decode: Decoder, proposed: seq<Named>)
    requires Replans(g, m, decode, proposed) && WholeChains(m)
    ensures WholeChains(TableOf(Fresh(m, proposed, |proposed|)))
  {
    var f := TableOf(Fresh(m, proposed, |proposed|));
    forall base: string, k: nat, l: nat | k < 3 && l < 3 && ChainId(k, base) in f ensures ChainId(l, base) in f {
      FreshIds(m, proposed, ChainId(k, base));
      FreshIds(m, proposed, ChainId(l, base));
      var t :| t in proposed && t.id == ChainId(k, base);
      var other := LinksComeTogether(g, m, decode, proposed, t, base, k, l);
    }
  }

  /** Assessments that had succeeded when the plan was revised have still. */
  predicate StillSucceeded(m: Table, later: Table) {
    forall id | id in Assessed(m) :: id in later && later[id].state.Succeeded?
  }

  /** What an added task requires either is an assessment that succeeded or is added with it. */
  lemma AddedOnNew(g: Goal, m: Table, decode: Decoder, proposed: seq<Named>, later: Table, d: Id, p: Id)
    requires Replans(g, m, decode, proposed) && WholeChains(m)
    requires var f := TableOf(Fresh(m, proposed, |proposed|)); d in f && p in f[d].dependsOn && f.Keys !! later.Keys
    requires StillSucceeded(m, later)
    ensures p in later ==> later[p].state.Succeeded?
  {
    var f := Fresh(m, proposed, |proposed|);
    TableOfRows(f);
    FreshMembers(m, proposed, |proposed|);
    var t := Dags.Named(d, TableOf(f)[d]);
    assert t in f;
    var id := ProposalSource(g, m, decode, proposed, t);
    var fs := Findings(decode, m, id);
    var i, k :| 0 <= i < |fs| && 0 <= k < 3 && fs[i].actionable && t == Link(g, id, Base(fs[i].axis, i), k);
    var base := Base(fs[i].axis, i);
    LinkIdIs(g, id, base, k);
    if k > 0 {
      ComesWithIt(g, m, decode, proposed, base, k);
    }
  }

  lemma ComesWithIt(g: Goal, m: Table, decode: Decoder, proposed: seq<Named>, base: string, k: nat)
    requires Replans(g, m, decode, proposed) && WholeChains(m) && 0 < k < 3
    requires ChainId(k, base) in TableOf(Fresh(m, proposed, |proposed|))
    ensures ChainId(k - 1, base) in TableOf(Fresh(m, proposed, |proposed|))
  {
    RevisionIsWhole(g, m, decode, proposed);
  }

  lemma FrozenStillSucceeded(m: Table, later: Table)
    requires Frozen(m, later)
    ensures StillSucceeded(m, later)
  {
    forall id | id in Assessed(m) ensures id in later && later[id].state.Succeeded? {
      assert FrozenRow(m[id], later[id]);
    }
  }

  /** Saving a complete revision leaves nothing to propagate, however stale the graph it was made from. */
  lemma RevisionNeverLeaks(g: Goal, m: Table, decode: Decoder, proposed: seq<Named>, k: Kernel)
    requires Replans(g, m, decode, proposed) && WholeChains(m) && StillSucceeded(m, k.tasks)
    requires TableOf(Fresh(m, proposed, |proposed|)).Keys !! k.tasks.Keys
    ensures !Leaks(k, Grow(TableOf(Fresh(m, proposed, |proposed|))))
  {
    var f := TableOf(Fresh(m, proposed, |proposed|));
    forall d, p | d in f && p in f[d].dependsOn && p in k.tasks ensures !Dead(k.tasks[p].state) {
      AddedOnNew(g, m, decode, proposed, k.tasks, d, p);
    }
  }

  // ---- runs whose graph comes from the planner ----

  /** Call i saves a first plan, or a complete revision of the graph as it was at some earlier point. */
  ghost predicate PlannedGrow(g: Goal, decode: Decoder, ks: seq<Kernel>, added: Table, i: nat)
    requires i < |ks|
  {
    || (ks[i].tasks == map[] && added == TableOf(PlanOf(g)))
    || exists s, proposed :: 0 <= s <= i && Replans(g, ks[s].tasks, decode, proposed)
         && added == TableOf(Fresh(ks[s].tasks, proposed, |proposed|))
  }

  ghost predicate IsPlannedRun(g: Goal, decode: Decoder, ks: seq<Kernel>, es: seq<Event>) {
    && IsMemoryRun(ks, es)
    && forall i: nat | i < |es| && es[i].act.Grow? :: PlannedGrow(g, decode, ks, es[i].act.added, i)
  }

  lemma PlannedGrowIsWhole(g: Goal, decode: Decoder, ks: seq<Kernel>, added: Table, i: nat)
    requires i < |ks| && PlannedGrow(g, decode, ks, added, i)
    requires forall s | 0 <= s <= i :: WholeChains(ks[s].tasks)
    ensures WholeChains(added)
  {
    if ks[i].tasks == map[] && added == TableOf(PlanOf(g)) {
      PlansAreWhole(g);
    } else {
      var s, proposed :| 0 <= s <= i && Replans(g, ks[s].tasks, decode, proposed)
        && added == TableOf(Fresh(ks[s].tasks, proposed, |proposed|));
      RevisionIsWhole(g, ks[s].tasks, decode, proposed);
    }
  }

  lemma StepKeepsWhole(k: Kernel, l: Label, now: int, k': Kernel)
    requires MemoryNext(k, l, now, k') && WholeChains(k.tasks) && (l.Grow? ==> WholeChains(l.added))
    ensures WholeChains(k'.tasks)
  {
    assert k'.tasks.Keys == if l.Grow? then k.tasks.Keys + l.added.Keys else k.tasks.Keys;
    forall base: string, a: nat, b: nat | a < 3 && b < 3
      ensures ChainId(a, base) in k'.tasks <==> ChainId(b, base) in k'.tasks
    {
      assert ChainId(a, base) in k.tasks <==> ChainId(b, base) in k.tasks;
      assert l.Grow? ==> (ChainId(a, base) in l.added <==> ChainId(b, base) in l.added);
    }
  }

  lemma NoTasksAreWhole()
    ensures WholeChains(map[])
  {
  }

  lemma PlannedStepIsWhole(g: Goal, decode: Decoder, ks: seq<Kernel>, es: seq<Event>, n: nat)
    requires IsPlannedRun(g, decode, ks, es) && n < |es|
    requires forall s | 0 <= s <= n :: WholeChains(ks[s].tasks)
    ensures WholeChains(ks[n+1].tasks)
  {
    hide WholeChains, PlannedGrow;
    var k, l, k' := ks[n], es[n].act, ks[n+1];
    assert MemoryNext(k, l, es[n].now, k');
    if l.Grow? {
      PlannedGrowIsWhole(g, decode, ks, l.added, n);
    }
    StepKeepsWhole(k, l, es[n].now, k');
  }

  /** In every state of a planned run, every chain is whole. */
  lemma {:induction false} PlannedRunIsWhole(g: Goal, decode: Decoder, ks: seq<Kernel>, es: seq<Event>, n: nat)
    requires IsPlannedRun(g, decode, ks, es) && n < |ks|
    ensures forall s | 0 <= s <= n :: WholeChains(ks[s].tasks)
  {
    hide WholeChains, PlannedGrow, MemoryNext;
    if n == 0 {
      NoTasksAreWhole();
    } else {
      PlannedRunIsWhole(g, decode, ks, es, n - 1);
      PlannedStepIsWhole(g, decode, ks, es, n - 1);
    }
  }

  /** The planner never causes a leak. */
  lemma PlanningNeverLeaks(g: Goal, decode: Decoder, ks: seq<Kernel>, es: seq<Event>, i: nat)
    requires IsPlannedRun(g, decode, ks, es) && i < |es| && es[i].act.Grow?
    ensures !Leaks(ks[i], es[i].act)
  {
    assert MemoryNext(ks[i], es[i].act, es[i].now, ks[i+1]);
    PlannedRunIsWhole(g, decode, ks, es, i);
    if ks[i].tasks != map[] || es[i].act.added != TableOf(PlanOf(g)) {
      var s, proposed :| 0 <= s <= i && Replans(g, ks[s].tasks, decode, proposed)
        && es[i].act.added == TableOf(Fresh(ks[s].tasks, proposed, |proposed|));
      MemoryTerminalIsFrozen(ks, es, s, i);
      FrozenStillSucceeded(ks[s].tasks, ks[i].tasks);
      RevisionNeverLeaks(g, ks[s].tasks, decode, proposed, ks[i]);
    }
  }

  /** So a planned goal whose workers never complete into cancelled is never stalled, and while it runs it can move
      as long as anything of it is unfinished; when it does not run, exactly what is under way can move. */
  lemma PlannedGoalsProgress(g: Goal, decode: Decoder, ks: seq<Kernel>, es: seq<Event>, n: nat, now: int)
    requires IsPlannedRun(g, decode, ks, es) && n < |ks|
    requires forall i | 0 <= i < n && es[i].act.Complete? :: !es[i].act.next.Cancelled?
    ensures Goals.Claimable(ks[n].goal) ==> (CanProgress(ks[n], now) <==> Unfinished(ks[n].tasks) != {})
    ensures !Goals.Claimable(ks[n].goal) ==>
      (CanProgress(ks[n], now) <==> exists id :: id in ks[n].tasks && UnderWay(ks[n].tasks[id], now))
    ensures !Stalled(ks[n].tasks)
  {
    forall i | 0 <= i < n ensures !Leaks(ks[i], es[i].act) {
      if es[i].act.Grow? {
        PlanningNeverLeaks(g, decode, ks, es, i);
      }
    }
    MemoryRunsProgress(ks, es, n, now);
  }
}
