/** What holds over whole runs, for any number of callers and whatever times their clocks showed. */
module Runs {
  import opened Wrappers
  import opened Tasks
  import opened Protocol
  import Goals

  datatype Event = Event(act: Label, now: int)

  function FreshRow(): Row {
    Row("", [], [], 0, "", Pending, 0, false, "", "", Unset)
  }

  /** A run of the protocol from an empty store. */
  ghost predicate IsRun(ks: seq<Kernel>, es: seq<Event>) {
    && |ks| == |es| + 1
    && ks[0] == Kernel(Goals.NoGoal, map[])
    && forall i | 0 <= i < |es| :: Next(ks[i], es[i].act, es[i].now, ks[i+1])
  }

  /** A run of the durable store's statements. */
  ghost predicate IsStatementRun(ks: seq<Kernel>, es: seq<Event>) {
    && |ks| == |es| + 1
    && ks[0] == Kernel(Goals.NoGoal, map[])
    && forall i | 0 <= i < |es| :: Statement(ks[i], es[i].act, es[i].now, ks[i+1])
  }

  lemma EmptyInv()
    ensures Inv(Kernel(Goals.NoGoal, map[]))
  {
    var none: Table, rank: map<Id, nat> := map[], map[];
    assert Ranked(none, rank);
  }

  lemma {:induction false} RunInv(ks: seq<Kernel>, es: seq<Event>, n: nat)
    requires IsRun(ks, es) && n < |ks|
    ensures Inv(ks[n])
  {
    if n == 0 {
      EmptyInv();
    } else {
      RunInv(ks, es, n - 1);
      StepKeepsInv(ks[n-1], es[n-1].act, es[n-1].now, ks[n-1+1]);
    }
  }

  // ---- what never changes again ----

  /** Over any run tasks and edges stay, and a terminal task keeps its state, result, attempt and everything else
      but the end of a lease that cancelling left on it. */
  lemma {:induction false} TerminalTaskIsFrozen(ks: seq<Kernel>, es: seq<Event>, i: nat, j: nat)
    requires IsRun(ks, es) && i <= j < |ks|
    ensures Frozen(ks[i].tasks, ks[j].tasks)
    decreases j
  {
    if i < j {
      TerminalTaskIsFrozen(ks, es, i, j - 1);
      RunInv(ks, es, j - 1);
      StepFreezes(ks[j-1], es[j-1].act, es[j-1].now, ks[j-1+1]);
    }
  }

  /** However many stale writers save whatever they hold, a finished goal keeps its state and hands out nothing. */
  lemma {:induction false} TerminalGoalIsAbsorbing(ks: seq<Kernel>, es: seq<Event>, i: nat, j: nat)
    requires IsStatementRun(ks, es) && i <= j < |ks|
    requires ks[i].goal.Goal? && ks[i].goal.state in {Goals.Succeeded, Goals.Failed, Goals.Refused, Goals.Cancelled}
    ensures ks[j].goal == ks[i].goal
    ensures j < |es| ==> !es[j].act.Claim?
    decreases j
  {
    if i < j {
      TerminalGoalIsAbsorbing(ks, es, i, j - 1);
      assert Statement(ks[j-1], es[j-1].act, es[j-1].now, ks[j-1+1]);
    }
    assert j < |es| ==> Statement(ks[j], es[j].act, es[j].now, ks[j+1]);
  }

  lemma StepsAreStatements(ks: seq<Kernel>, es: seq<Event>)
    requires IsRun(ks, es)
    ensures IsStatementRun(ks, es)
  {
    forall i | 0 <= i < |es| ensures Statement(ks[i], es[i].act, es[i].now, ks[i+1]) {
      assert Next(ks[i], es[i].act, es[i].now, ks[i+1]);
    }
  }

  // ---- after a cancel ----

  /** What a run leaves of a task that was planned after a cancel: it is never claimed. */
  predicate NeverClaimed(r: Row) {
    (r.state.Pending? || r.state.Blocked?) && r.attempt == 0 && r.leasedBy == "" && r.expiry.Unset?
  }

  /** After a cancel an unfinished task is one that was running under a live lease at that moment and has not been
      claimed since, or one planned since that nobody ever claims. */
  lemma UnfinishedAfterCancel(ks: seq<Kernel>, es: seq<Event>, i: nat, j: nat, id: Id)
    requires IsRun(ks, es) && i < j < |ks| && es[i].act.Cancel? && id in Unfinished(ks[j].tasks)
    ensures id in ks[i].tasks ==>
      ks[i].tasks[id].state.Running? && ks[i].tasks[id].expiry.After(es[i].now)
        && ks[j].tasks[id].attempt == ks[i].tasks[id].attempt
    ensures id !in ks[i].tasks ==> ks[j].tasks[id].state.Pending? && NeverClaimed(ks[j].tasks[id])
  {
    if id in ks[i].tasks {
      assert Next(ks[i], es[i].act, es[i].now, ks[i+1]);
      RunInv(ks, es, i);
      CancelIsExact(ks[i], es[i].now, ks[i+1]);
      TerminalTaskIsFrozen(ks, es, i + 1, j);
      AttemptAfterCancel(ks, es, i, j, id);
    } else {
      PlannedAfterCancel(ks, es, i, j, id);
    }
  }

  /** No claim succeeds, and no second cancel. */
  lemma AfterCancel(ks: seq<Kernel>, es: seq<Event>, i: nat, j: nat)
    requires IsRun(ks, es) && i < j < |es| && es[i].act.Cancel?
    ensures !es[j].act.Claim? && !es[j].act.Cancel?
  {
    assert Next(ks[i], es[i].act, es[i].now, ks[i+1]);
    StepsAreStatements(ks, es);
    TerminalGoalIsAbsorbing(ks, es, i + 1, j);
    assert Next(ks[j], es[j].act, es[j].now, ks[j+1]);
  }

  lemma {:induction false} AttemptAfterCancel(ks: seq<Kernel>, es: seq<Event>, i: nat, j: nat, id: Id)
    requires IsRun(ks, es) && i < j < |ks| && es[i].act.Cancel? && id in ks[i].tasks
    ensures id in ks[j].tasks && ks[j].tasks[id].attempt == ks[i].tasks[id].attempt
    decreases j
  {
    if i + 1 < j {
      AttemptAfterCancel(ks, es, i, j - 1, id);
      AfterCancel(ks, es, i, j - 1);
    }
    assert Next(ks[j-1], es[j-1].act, es[j-1].now, ks[j-1+1]);
  }

  lemma {:induction false} PlannedAfterCancel(ks: seq<Kernel>, es: seq<Event>, i: nat, j: nat, id: Id)
    requires IsRun(ks, es) && i < j < |ks| && es[i].act.Cancel? && id !in ks[i].tasks
    ensures id in ks[j].tasks ==> NeverClaimed(ks[j].tasks[id])
    decreases j
  {
    assert Next(ks[j-1], es[j-1].act, es[j-1].now, ks[j-1+1]);
    if i + 1 < j {
      PlannedAfterCancel(ks, es, i, j - 1, id);
      AfterCancel(ks, es, i, j - 1);
      if es[j-1].act.Grow? && id in es[j-1].act.added {
        assert Unclaimed(es[j-1].act.added[id]);
      }
    }
  }

  /** Saving a graph adds tasks the store did not have, and nothing else adds or removes any. */
  ghost predicate OnlyGrowAdds(ks: seq<Kernel>, es: seq<Event>) {
    && |ks| == |es| + 1
    && forall i | 0 <= i < |es| ::
      if es[i].act.Grow? then
        && ks[i+1].tasks.Keys == ks[i].tasks.Keys + es[i].act.added.Keys
        && es[i].act.added.Keys !! ks[i].tasks.Keys
      else
        ks[i+1].tasks.Keys == ks[i].tasks.Keys
  }

  lemma {:induction false} AddedByGrow(ks: seq<Kernel>, es: seq<Event>, p: nat, q: nat, id: Id)
    requires OnlyGrowAdds(ks, es) && p <= q < |ks|
    ensures ks[p].tasks.Keys <= ks[q].tasks.Keys
    ensures id in ks[q].tasks.Keys - ks[p].tasks.Keys <==>
      exists m :: p <= m < q && es[m].act.Grow? && id in es[m].act.added
    decreases q
  {
    if p < q {
      AddedByGrow(ks, es, p, q - 1, id);
      assert ks[q-1+1].tasks.Keys >= ks[q-1].tasks.Keys;
      if m :| p <= m < q && es[m].act.Grow? && id in es[m].act.added {
        AddedByGrow(ks, es, p, m, id);
      }
    }
  }

  /** Tasks planned since and still unfinished are all that the unfinished ones can gain. */
  lemma ShrinksUnlessPlanned(ks: seq<Kernel>, es: seq<Event>, p: nat, q: nat)
    requires OnlyGrowAdds(ks, es) && p <= q < |ks| && Frozen(ks[p].tasks, ks[q].tasks)
    ensures Unfinished(ks[q].tasks) <= Unfinished(ks[p].tasks) <==>
      forall m | p <= m < q && es[m].act.Grow? :: es[m].act.added.Keys !! Unfinished(ks[q].tasks)
  {
    forall id ensures id in Unfinished(ks[q].tasks) && id !in Unfinished(ks[p].tasks) <==>
      id in Unfinished(ks[q].tasks) && exists m :: p <= m < q && es[m].act.Grow? && id in es[m].act.added
    {
      AddedByGrow(ks, es, p, q, id);
      assert id in ks[p].tasks ==> FrozenRow(ks[p].tasks[id], ks[q].tasks[id]);
    }
  }

  /** Between two moments of a run, a cancel or anything else before them, the set of unfinished tasks only shrinks
      exactly when no task planned in between is left unfinished. */
  lemma UnfinishedShrinks(ks: seq<Kernel>, es: seq<Event>, p: nat, q: nat)
    requires IsRun(ks, es) && p <= q < |ks|
    ensures Unfinished(ks[q].tasks) <= Unfinished(ks[p].tasks) <==>
      forall m | p <= m < q && es[m].act.Grow? :: es[m].act.added.Keys !! Unfinished(ks[q].tasks)
  {
    forall i | 0 <= i < |es| ensures Next(ks[i], es[i].act, es[i].now, ks[i+1]) {
    }
    TerminalTaskIsFrozen(ks, es, p, q);
    ShrinksUnlessPlanned(ks, es, p, q);
  }

  /** A worker loads the goal, the goal is cancelled, and the worker saves the graph it replanned. */
  function LatePlanning(b: Id): seq<Event> {
    [Event(Create(Goals.Running), 0), Event(Cancel, 1), Event(Grow(map[b := FreshRow()]), 2)]
  }

  function LatePlanned(b: Id): seq<Kernel> {
    var cancelled := Goals.Goal(Goals.Cancelled);
    [Kernel(Goals.NoGoal, map[]), Kernel(Goals.Goal(Goals.Running), map[]), Kernel(cancelled, map[]),
     Kernel(cancelled, map[b := FreshRow()])]
  }

  /** Nothing was unfinished after the cancel, and then something is. */
  lemma PlanningOutlivesCancel(b: Id)
    ensures var ks, es := LatePlanned(b), LatePlanning(b);
      && IsRun(ks, es) && es[1].act.Cancel?
      && Unfinished(ks[2].tasks) == {} && Unfinished(ks[3].tasks) == {b}
  {
    var ks, es := LatePlanned(b), LatePlanning(b);
    OneFreshTask(b);
    assert ks[2].tasks == CancelAll(ks[1].tasks, 1);
    forall i | 0 <= i < 3 ensures Next(ks[i], es[i].act, es[i].now, ks[i+1]) {
    }
  }

  /** A graph of one fresh task may be saved over none. */
  lemma OneFreshTask(a: Id)
    ensures var none: Table, one: Table := map[], map[a := FreshRow()];
      none + one == one && Closed(one) && Acyclic(one) && DepsReady(one, a)
  {
    var one: Table := map[a := FreshRow()];
    var rank: map<Id, nat> := map[a := 0];
    assert FreshRow().Edges() == [];
    assert Ranked(one, rank);
  }

  // ---- what is doomed ----

  /** However a table moved on, the head of a doom path has not started; and with nothing left to propagate it is
      dead. */
  lemma {:induction false} DoomPathAhead(m: Table, m': Table, p: seq<Id>)
    requires DoomPath(m, p) && Frozen(m, m') && DepSafe(m')
    ensures p[0] in m' && !Started(m'[p[0]].state) && (Settled(m') ==> Dead(m'[p[0]].state))
    decreases |p|
  {
    assert p[0+1] in m[p[0]].dependsOn;
    assert FrozenRow(m[p[0]], m'[p[0]]) && FrozenRow(m[p[1]], m'[p[1]]);
    if |p| > 2 {
      var q := p[1..];
      forall i | 0 <= i < |q| - 1 ensures !Terminal(m[q[i]].state) && q[i+1] in m[q[i]].dependsOn {
        assert q[i] == p[i+1] && q[i+1] == p[i+1+1];
      }
      DoomPathAhead(m, m', q);
    }
    assert Settled(m') ==> !Hit(m', p[0]);
  }

  /** Whatever is done between the rounds of propagation and after them, a task that was doomed never starts; and
      once a round finds nothing to block it is dead. */
  lemma DoomedNeverStarts(ks: seq<Kernel>, es: seq<Event>, i: nat, j: nat, id: Id)
    requires IsRun(ks, es) && i <= j < |ks| && id in DoomedSet(ks[i].tasks)
    ensures id in ks[j].tasks && !Started(ks[j].tasks[id].state)
    ensures Settled(ks[j].tasks) ==> Dead(ks[j].tasks[id].state)
  {
    var p :| DoomPath(ks[i].tasks, p) && p[0] == id;
    TerminalTaskIsFrozen(ks, es, i, j);
    RunInv(ks, es, j);
    DoomPathAhead(ks[i].tasks, ks[j].tasks, p);
  }

  // ---- lease fencing ----

  /** Who, by the history alone, is entitled to write to a task. */
  function Holder(es: seq<Event>, id: Id): Option<string> {
    if es == [] then None
    else
      match es[|es|-1].act
      case Claim(i, w, _) => if i == id then Some(w) else Holder(es[..|es|-1], id)
      case Complete(i, _, _, _) => if i == id then None else Holder(es[..|es|-1], id)
      case Release(i, _) => if i == id then None else Holder(es[..|es|-1], id)
      case _ => Holder(es[..|es|-1], id)
  }

  /** When, by the history alone, that entitlement ends. */
  function LeaseEnd(es: seq<Event>, id: Id): Expiry {
    if es == [] then Unset
    else
      match es[|es|-1].act
      case Claim(i, _, until) => if i == id then At(until) else LeaseEnd(es[..|es|-1], id)
      case Renew(i, _, until) => if i == id then At(until) else LeaseEnd(es[..|es|-1], id)
      case Complete(i, _, _, _) => if i == id then Unset else LeaseEnd(es[..|es|-1], id)
      case Release(i, _) => if i == id then Unset else LeaseEnd(es[..|es|-1], id)
      case _ => LeaseEnd(es[..|es|-1], id)
  }

  function Claims(es: seq<Event>, id: Id): nat {
    if es == [] then 0
    else
      Claims(es[..|es|-1], id) + if es[|es|-1].act.Claim? && es[|es|-1].act.id == id then 1 else 0
  }

  /** The row a task was added with. */
  function Planned(es: seq<Event>, id: Id): Option<Row> {
    if es == [] then None
    else
      match es[|es|-1].act
      case Grow(added) => if id in added then Some(added[id]) else Planned(es[..|es|-1], id)
      case _ => Planned(es[..|es|-1], id)
  }

  /** The result of a task's latest completion, or else the one it was added with. */
  function Reported(es: seq<Event>, id: Id): string {
    if es == [] then ""
    else
      match es[|es|-1].act
      case Complete(i, _, _, result) => if i == id then result else Reported(es[..|es|-1], id)
      case Grow(added) => if id in added then added[id].result else Reported(es[..|es|-1], id)
      case _ => Reported(es[..|es|-1], id)
  }

  /** What the latest person asked about a task answered. */
  function Answered(es: seq<Event>, id: Id): bool {
    if es == [] then false
    else
      match es[|es|-1].act
      case Decide(i, approve) => if i == id then approve else Answered(es[..|es|-1], id)
      case Grow(added) => if id in added then false else Answered(es[..|es|-1], id)
      case _ => Answered(es[..|es|-1], id)
  }

  /** The columns no call writes. */
  predicate SamePlan(r: Row, planned: Row) {
    && r.kind == planned.kind && r.dependsOn == planned.dependsOn && r.contributes == planned.contributes
    && r.spawnDepth == planned.spawnDepth && r.idempotencyKey == planned.idempotencyKey
  }

  /** The columns of a lease. */
  predicate LeaseTracked(m: Table, es: seq<Event>, id: Id) {
    if id in m then
      && m[id].leasedBy == (match Holder(es, id) case Some(w) => w case None => "")
      && m[id].expiry == LeaseEnd(es, id)
      && (m[id].expiry.At? <==> Holder(es, id).Some?)
      && m[id].attempt == Claims(es, id)
    else
      Holder(es, id) == None && LeaseEnd(es, id) == Unset && Claims(es, id) == 0
  }

  /** What was planned, reported and answered. */
  predicate WorkTracked(m: Table, es: seq<Event>, id: Id) {
    if id in m then
      && m[id].result == Reported(es, id)
      && m[id].approved == Answered(es, id)
      && Planned(es, id).Some? && SamePlan(m[id], Planned(es, id).value)
    else
      Planned(es, id) == None
  }

  /** Every stored column but the state is exactly what the history says. */
  predicate Tracked(m: Table, es: seq<Event>, id: Id) {
    LeaseTracked(m, es, id) && WorkTracked(m, es, id)
  }

  lemma LeaseTrackStep(k: Kernel, es: seq<Event>, k': Kernel, id: Id)
    requires es != [] && LeaseTracked(k.tasks, es[..|es|-1], id)
    requires Statement(k, es[|es|-1].act, es[|es|-1].now, k')
    ensures LeaseTracked(k'.tasks, es, id)
  {
    var l := es[|es|-1].act;
    if l.Grow? && id in l.added {
      assert Unclaimed(l.added[id]);
    }
  }

  lemma WorkTrackStep(k: Kernel, es: seq<Event>, k': Kernel, id: Id)
    requires es != [] && WorkTracked(k.tasks, es[..|es|-1], id)
    requires Statement(k, es[|es|-1].act, es[|es|-1].now, k')
    ensures WorkTracked(k'.tasks, es, id)
  {
    var l := es[|es|-1].act;
    if l.Grow? && id in l.added {
      assert Unclaimed(l.added[id]);
    }
  }

  lemma {:induction false} RunTracks(ks: seq<Kernel>, es: seq<Event>, n: nat, id: Id)
    requires IsStatementRun(ks, es) && n < |ks|
    ensures Tracked(ks[n].tasks, es[..n], id)
  {
    if n > 0 {
      RunTracks(ks, es, n - 1, id);
      assert es[..n][..n-1] == es[..n-1];
      assert Statement(ks[n-1], es[n-1].act, es[n-1].now, ks[n-1+1]);
      LeaseTrackStep(ks[n-1], es[..n], ks[n], id);
      WorkTrackStep(ks[n-1], es[..n], ks[n], id);
    }
  }

  /** Where a call on one task takes its state. */
  function Moved(s: State, l: Label): State {
    match l
    case Claim(_, _, _) => Running
    case Complete(_, _, next, _) => next
    case Release(_, _) => Ready
    case Decide(_, approve) => if approve then Ready else Cancelled
    case _ => s
  }

  /** And the state is what the latest call on the task made it, until a cancel or a round of blocking takes it. */
  lemma CallsWriteStates(ks: seq<Kernel>, es: seq<Event>, j: nat)
    requires IsStatementRun(ks, es) && j < |es| && OneRow(es[j].act)
    ensures es[j].act.id in ks[j].tasks && es[j].act.id in ks[j+1].tasks
    ensures ks[j+1].tasks[es[j].act.id].state == Moved(ks[j].tasks[es[j].act.id].state, es[j].act)
    ensures forall id | id in ks[j].tasks && id != es[j].act.id ::
      id in ks[j+1].tasks && ks[j+1].tasks[id] == ks[j].tasks[id]
  {
    assert Statement(ks[j], es[j].act, es[j].now, ks[j+1]);
  }

  predicate CompletesInto(l: Label, id: Id, next: State, result: string) {
    l.Complete? && l.id == id && l.next == next && l.result == result
  }

  lemma SucceedsHow(k: Kernel, l: Label, now: int, k': Kernel, id: Id)
    requires Inv(k) && Next(k, l, now, k') && id in k'.tasks && k'.tasks[id].state.Succeeded?
    ensures CompletesInto(l, id, Succeeded, k'.tasks[id].result)
      || (id in k.tasks && k.tasks[id].state.Succeeded? && k.tasks[id].result == k'.tasks[id].result)
  {
    if l.Grow? {
      assert forall a | a in l.added :: Unclaimed(l.added[a]);
    } else {
      StepFreezes(k, l, now, k');
      assert FrozenRow(k.tasks[id], k'.tasks[id]);
    }
  }

  /** A succeeded task was completed as such, and what is stored is what its worker reported then. */
  lemma {:induction false} SucceededWasReported(ks: seq<Kernel>, es: seq<Event>, n: nat, id: Id) returns (j: nat)
    requires IsRun(ks, es) && n < |ks| && id in ks[n].tasks && ks[n].tasks[id].state.Succeeded?
    ensures j < n && CompletesInto(es[j].act, id, Succeeded, ks[n].tasks[id].result)
  {
    RunInv(ks, es, n - 1);
    assert Next(ks[n-1], es[n-1].act, es[n-1].now, ks[n-1+1]);
    SucceedsHow(ks[n-1], es[n-1].act, es[n-1].now, ks[n], id);
    if CompletesInto(es[n-1].act, id, Succeeded, ks[n].tasks[id].result) {
      j := n - 1;
    } else {
      j := SucceededWasReported(ks, es, n - 1, id);
    }
  }

  /** And once so completed it stays as it was reported. */
  lemma ReportedStays(ks: seq<Kernel>, es: seq<Event>, j: nat, n: nat, id: Id, result: string)
    requires IsRun(ks, es) && j < n < |ks| && CompletesInto(es[j].act, id, Succeeded, result)
    ensures id in ks[n].tasks && ks[n].tasks[id].state.Succeeded? && ks[n].tasks[id].result == result
  {
    StepsAreStatements(ks, es);
    CallsWriteStates(ks, es, j);
    RunTracks(ks, es, j + 1, id);
    assert es[..j+1][..j] == es[..j];
    TerminalTaskIsFrozen(ks, es, j + 1, n);
    assert FrozenRow(ks[j+1].tasks[id], ks[n].tasks[id]);
  }

  /** Nothing is claimed before every task it requires was completed as succeeded and every task that contributes to
      it has ended. */
  lemma ClaimsComeAfter(ks: seq<Kernel>, es: seq<Event>, j: nat, d: Id) returns (i: nat)
    requires IsRun(ks, es) && j < |es| && es[j].act.Claim?
    requires es[j].act.id in ks[j].tasks && d in ks[j].tasks[es[j].act.id].Edges()
    ensures d in ks[j].tasks && ks[j].tasks[d].state in {Succeeded, Failed, Blocked, Cancelled}
    ensures d in ks[j].tasks[es[j].act.id].dependsOn ==>
      i < j && CompletesInto(es[i].act, d, Succeeded, ks[j].tasks[d].result)
  {
    assert Next(ks[j], es[j].act, es[j].now, ks[j+1]);
    RunInv(ks, es, j);
    i := 0;
    if d in ks[j].tasks[es[j].act.id].dependsOn {
      i := SucceededWasReported(ks, es, j, d);
    }
  }

  predicate Touches(l: Label, id: Id) {
    (l.Claim? || l.Complete? || l.Release?) && l.id == id
  }

  /** Event i is a claim of the task by this worker, and nobody has claimed, completed or released it since. */
  ghost predicate LatestClaim(es: seq<Event>, i: nat, id: Id, worker: string) {
    && i < |es| && es[i].act.Claim? && es[i].act.id == id && es[i].act.worker == worker
    && forall j | i < j < |es| :: !Touches(es[j].act, id)
  }

  lemma {:induction false} HolderClaimed(es: seq<Event>, id: Id) returns (i: nat)
    requires Holder(es, id).Some?
    ensures LatestClaim(es, i, id, Holder(es, id).value)
    decreases |es|
  {
    var l := es[|es|-1].act;
    if l.Claim? && l.id == id {
      i := |es| - 1;
    } else {
      i := HolderClaimed(es[..|es|-1], id);
      forall j | i < j < |es| ensures !Touches(es[j].act, id) {
        if j < |es| - 1 {
          assert es[..|es|-1][j] == es[j];
        }
      }
    }
  }

  predicate WritesUnderLease(l: Label) {
    l.Renew? || l.Complete? || l.Release?
  }

  /** Whoever holds a task by the history made its latest claim, and reads the clock before that lease ends. */
  lemma HeldByLatestClaimer(m: Table, es: seq<Event>, id: Id, worker: string, now: int) returns (i: nat)
    requires Tracked(m, es, id) && Held(m, id, worker, now)
    ensures LatestClaim(es, i, id, worker) && LeaseEnd(es, id).After(now)
  {
    i := HolderClaimed(es, id);
  }

  /** A write under a lease comes from the worker of that task's latest claim, nobody having completed or
      released it since, whose own reading of the clock is strictly before that lease ends. */
  lemma OnlyTheHolderWrites(ks: seq<Kernel>, es: seq<Event>, j: nat) returns (i: nat)
    requires IsStatementRun(ks, es) && j < |es| && WritesUnderLease(es[j].act)
    ensures i < j && LatestClaim(es[..j], i, es[j].act.id, es[j].act.worker)
    ensures LeaseEnd(es[..j], es[j].act.id).At? && es[j].now < LeaseEnd(es[..j], es[j].act.id).t
  {
    var id := es[j].act.id;
    assert Statement(ks[j], es[j].act, es[j].now, ks[j+1]);
    RunTracks(ks, es, j, id);
    i := HeldByLatestClaimer(ks[j].tasks, es[..j], id, es[j].act.worker, es[j].now);
  }

  /** What lets a claimed task be claimed again. */
  ghost predicate Separated(m: Table, es: seq<Event>, i: nat, id: Id, now: int) {
    || (id in m && m[id].state.Ready? && exists j | i < j < |es| :: Touches(es[j].act, id))
    || (LeaseEnd(es, id).At? && LeaseEnd(es, id).t <= now)
  }

  lemma ClaimAgain(k: Kernel, es: seq<Event>, i: nat, id: Id, now: int)
    requires Inv(k) && Tracked(k.tasks, es, id) && Claimable(k.tasks, id, now)
    requires i < |es| && es[i].act.Claim? && es[i].act.id == id
    ensures Separated(k.tasks, es, i, id, now)
  {
    ClaimsCount(es, i, id);
    assert LeaseOk(k.tasks[id]);
    if k.tasks[id].state.Ready? && forall j | i < j < |es| :: !Touches(es[j].act, id) {
      HolderStays(es, i, id);
    }
  }

  /** Two claims of one task are separated by a return to ready or by the end of the earlier lease. */
  lemma ClaimsAreSeparated(ks: seq<Kernel>, es: seq<Event>, i: nat, j: nat)
    requires IsRun(ks, es) && i < j < |es| && es[i].act.Claim? && es[j].act.Claim?
    requires es[i].act.id == es[j].act.id
    ensures Separated(ks[j].tasks, es[..j], i, es[j].act.id, es[j].now)
  {
    assert Next(ks[j], es[j].act, es[j].now, ks[j+1]);
    RunInv(ks, es, j);
    StepsAreStatements(ks, es);
    RunTracks(ks, es, j, es[j].act.id);
    ClaimAgain(ks[j], es[..j], i, es[j].act.id, es[j].now);
  }

  lemma {:induction false} ClaimsCount(es: seq<Event>, i: nat, id: Id)
    requires i < |es| && es[i].act.Claim? && es[i].act.id == id
    ensures Claims(es, id) > 0
    decreases |es|
  {
    if i < |es| - 1 {
      ClaimsCount(es[..|es|-1], i, id);
    }
  }

  lemma {:induction false} HolderStays(es: seq<Event>, i: nat, id: Id)
    requires i < |es| && es[i].act.Claim? && es[i].act.id == id
    requires forall k | i < k < |es| :: !Touches(es[k].act, id)
    ensures Holder(es, id).Some?
    decreases |es|
  {
    if i < |es| - 1 {
      HolderStays(es[..|es|-1], i, id);
    }
  }

  // ---- when the durable store keeps to the protocol ----

  /** A run of statements is a run of the protocol exactly when every statement of it was lawful. */
  lemma LawfulRuns(ks: seq<Kernel>, es: seq<Event>)
    requires IsStatementRun(ks, es)
    ensures IsRun(ks, es) <==> forall j | 0 <= j < |es| :: Lawful(ks[j], es[j].act)
  {
    if IsRun(ks, es) {
      forall j | 0 <= j < |es| ensures Lawful(ks[j], es[j].act) {
        RunInv(ks, es, j);
        assert Next(ks[j], es[j].act, es[j].now, ks[j+1]);
        StatementIsStep(ks[j], es[j].act, es[j].now, ks[j+1]);
      }
    } else if forall j | 0 <= j < |es| :: Lawful(ks[j], es[j].act) {
      forall j | 0 <= j < |es| ensures Next(ks[j], es[j].act, es[j].now, ks[j+1]) {
        LawfulStep(ks, es, j);
      }
    }
  }

  lemma {:induction false} LawfulStep(ks: seq<Kernel>, es: seq<Event>, n: nat)
    requires IsStatementRun(ks, es) && n < |es| && forall j | 0 <= j <= n :: Lawful(ks[j], es[j].act)
    ensures Inv(ks[n]) && Next(ks[n], es[n].act, es[n].now, ks[n+1])
  {
    if n == 0 {
      EmptyInv();
    } else {
      LawfulStep(ks, es, n - 1);
      StepKeepsInv(ks[n-1], es[n-1].act, es[n-1].now, ks[n-1+1]);
    }
    assert Statement(ks[n], es[n].act, es[n].now, ks[n+1]);
    StatementIsStep(ks[n], es[n].act, es[n].now, ks[n+1]);
  }

  /** Callers that name themselves, report only outcomes a running task may have, and write under a lease with a
      reading of the clock no older than the cancel they come after. */
  predicate Careful(es: seq<Event>) {
    && (forall i | 0 <= i < |es| && es[i].act.Claim? :: es[i].act.worker != "")
    && (forall i | 0 <= i < |es| && es[i].act.Complete? :: CanTransition(Running, es[i].act.next))
    && (forall i, j | 0 <= i < j < |es| && es[i].act.Cancel? && WritesUnderLease(es[j].act) :: es[i].now <= es[j].now)
  }

  /** A lease left on a cancelled task had ended when some cancel among the first n events read the clock. */
  ghost predicate KeptLeasesEnded(m: Table, es: seq<Event>, n: nat)
    requires n <= |es|
  {
    forall id | id in m && m[id].state.Cancelled? && m[id].expiry.At? ::
      exists i :: 0 <= i < n && es[i].act.Cancel? && m[id].expiry.t <= es[i].now
  }

  predicate LeasesNamed(m: Table) {
    forall id | id in m && m[id].expiry.At? :: m[id].leasedBy != ""
  }

  /** Among careful callers a held task is running. */
  lemma CarefulWriteIsLawful(k: Kernel, es: seq<Event>, n: nat)
    requires Inv(k) && Careful(es) && n < |es| && KeptLeasesEnded(k.tasks, es, n)
    requires StatementEnabled(k, es[n].act, es[n].now) && WritesUnderLease(es[n].act)
    ensures Lawful(k, es[n].act) && k.tasks[es[n].act.id].state.Running?
  {
    var l := es[n].act;
    HeldIsRunning(k.tasks, l.id, l.worker, es[n].now);
  }

  lemma CarefulStep(k: Kernel, es: seq<Event>, n: nat, k': Kernel)
    requires Inv(k) && Careful(es) && n < |es| && KeptLeasesEnded(k.tasks, es, n) && LeasesNamed(k.tasks)
    requires Statement(k, es[n].act, es[n].now, k')
    ensures Lawful(k, es[n].act)
    ensures KeptLeasesEnded(k'.tasks, es, n + 1) && LeasesNamed(k'.tasks)
  {
    var l := es[n].act;
    if WritesUnderLease(l) {
      CarefulWriteIsLawful(k, es, n);
    }
    forall id | id in k'.tasks && k'.tasks[id].state.Cancelled? && k'.tasks[id].expiry.At?
      ensures exists i :: 0 <= i < n + 1 && es[i].act.Cancel? && k'.tasks[id].expiry.t <= es[i].now
    {
      CancelledHow(k, l, es[n].now, k', id);
      if !(l.Cancel? && k.tasks[id] != k'.tasks[id]) {
        var i :| 0 <= i < n && es[i].act.Cancel? && k.tasks[id].expiry.t <= es[i].now;
        assert k'.tasks[id].expiry.t <= es[i].now;
      }
    }
    forall id | id in k'.tasks && k'.tasks[id].expiry.At? ensures k'.tasks[id].leasedBy != "" {
      if l.Grow? && id in l.added {
        assert Unclaimed(l.added[id]);
      }
    }
  }

  /** A cancelled task with a lease was that before, or has just been cancelled with its lease over. */
  lemma CancelledHow(k: Kernel, l: Label, now: int, k': Kernel, id: Id)
    requires Inv(k) && LeasesNamed(k.tasks) && Statement(k, l, now, k')
    requires WritesUnderLease(l) ==> k.tasks[l.id].state.Running?
    requires id in k'.tasks && k'.tasks[id].state.Cancelled? && k'.tasks[id].expiry.At?
    ensures id in k.tasks && (k'.tasks[id] == k.tasks[id] || (l.Cancel? && k'.tasks[id].expiry.t <= now))
  {
    assert l.Grow? ==> forall a | a in l.added :: Unclaimed(l.added[a]);
    assert LeaseOk(k.tasks[id]);
    if l.Block? && id in l.ids {
      DoomedIsWaiting(k.tasks, id);
    }
  }

  lemma {:induction false} CarefulPrefix(ks: seq<Kernel>, es: seq<Event>, n: nat)
    requires IsStatementRun(ks, es) && Careful(es) && n < |ks|
    ensures Inv(ks[n]) && KeptLeasesEnded(ks[n].tasks, es, n) && LeasesNamed(ks[n].tasks)
    ensures n < |es| ==> Lawful(ks[n], es[n].act)
  {
    if n == 0 {
      EmptyInv();
    } else {
      CarefulPrefix(ks, es, n - 1);
      assert Statement(ks[n-1], es[n-1].act, es[n-1].now, ks[n-1+1]);
      CarefulStep(ks[n-1], es, n - 1, ks[n]);
      StatementIsStep(ks[n-1], es[n-1].act, es[n-1].now, ks[n]);
      StepKeepsInv(ks[n-1], es[n-1].act, es[n-1].now, ks[n]);
    }
    if n < |es| {
      assert Statement(ks[n], es[n].act, es[n].now, ks[n+1]);
      CarefulStep(ks[n], es, n, ks[n+1]);
    }
  }

  /** Among careful callers the durable store keeps to the protocol, and with it to every theorem about runs. */
  lemma CarefulRunsAreLawful(ks: seq<Kernel>, es: seq<Event>)
    requires IsStatementRun(ks, es) && Careful(es)
    ensures IsRun(ks, es)
  {
    forall j | 0 <= j < |es| ensures Lawful(ks[j], es[j].act) {
      CarefulPrefix(ks, es, j);
    }
    LawfulRuns(ks, es);
  }

  lemma CarefulStepKeepsRow(k: Kernel, es: seq<Event>, n: nat, k': Kernel, id: Id)
    requires Inv(k) && Careful(es) && n < |es| && KeptLeasesEnded(k.tasks, es, n)
    requires Next(k, es[n].act, es[n].now, k') && id in k.tasks && Terminal(k.tasks[id].state)
    ensures id in k'.tasks && k'.tasks[id] == k.tasks[id]
  {
    if WritesUnderLease(es[n].act) {
      CarefulWriteIsLawful(k, es, n);
    }
    StepFreezes(k, es[n].act, es[n].now, k');
    assert FrozenRow(k.tasks[id], k'.tasks[id]);
  }

  /** And there a terminal task's row never changes at all. */
  lemma {:induction false} CarefulTerminalRowStays(ks: seq<Kernel>, es: seq<Event>, i: nat, j: nat, id: Id)
    requires IsStatementRun(ks, es) && Careful(es) && i <= j < |ks|
    requires id in ks[i].tasks && Terminal(ks[i].tasks[id].state)
    ensures id in ks[j].tasks && ks[j].tasks[id] == ks[i].tasks[id]
    decreases j
  {
    hide Inv, Careful, KeptLeasesEnded, LeasesNamed, Next, Frozen, IsStatementRun;
    if i < j {
      CarefulTerminalRowStays(ks, es, i, j - 1, id);
      CarefulPrefix(ks, es, j - 1);
      CarefulRunsAreLawful(ks, es);
      assert Next(ks[j-1], es[j-1].act, es[j-1].now, ks[j-1+1]);
      CarefulStepKeepsRow(ks[j-1], es, j - 1, ks[j], id);
    }
  }

  // ---- and when it does not ----

  /** A worker reads the clock, claims, works until after its lease has ended and the goal was cancelled, and
      completes with the reading it started from. */
  function LateEvents(a: Id, worker: string, result: string): seq<Event> {
    [Event(Create(Goals.Running), 0), Event(Grow(map[a := FreshRow()]), 0), Event(Claim(a, worker, 60), 0),
     Event(Cancel, 70), Event(Complete(a, worker, Succeeded, result), 0)]
  }

  function LateStates(a: Id, worker: string, result: string): seq<Kernel> {
    var r := ClaimedRow(FreshRow(), worker, 60);
    var running, cancelled := Goals.Goal(Goals.Running), Goals.Goal(Goals.Cancelled);
    [Kernel(Goals.NoGoal, map[]), Kernel(running, map[]), Kernel(running, map[a := FreshRow()]),
     Kernel(running, map[a := r]), Kernel(cancelled, map[a := r.(state := Cancelled)]),
     Kernel(cancelled, map[a := CompletedRow(r, Succeeded, result)])]
  }

  /** The durable store lets that completion turn a cancelled task into a succeeded one, a move the table forbids;
      the in-memory store, which looks it up, refuses the same call. */
  lemma LateCompletionRevives(a: Id, worker: string, result: string)
    ensures var ks, es := LateStates(a, worker, result), LateEvents(a, worker, result);
      && IsStatementRun(ks, es)
      && ks[4].tasks[a].state == Cancelled && ks[5].tasks[a].state == Succeeded
      && !CanTransition(Cancelled, Succeeded) && !Enabled(ks[4], es[4].act, es[4].now)
  {
    var ks, es := LateStates(a, worker, result), LateEvents(a, worker, result);
    OneFreshTask(a);
    assert ks[4].tasks == CancelAll(ks[3].tasks, 70);
    forall i | 0 <= i < 5 ensures Statement(ks[i], es[i].act, es[i].now, ks[i+1]) {
    }
  }
}
