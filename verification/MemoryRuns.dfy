/** Runs of the in-memory store: how they are runs of the protocol, and why they keep moving. */
module MemoryRuns {
  import opened Wrappers
  import opened Tasks
  import opened Protocol
  import opened Runs
  import opened Progress
  import Goals

  predicate Propagates(l: Label) {
    (l.Complete? && l.next == Failed) || (l.Decide? && !l.approve)
  }

  /** A method of the in-memory store: one step, with failure propagation under the same lock. */
  ghost predicate MemoryNext(k: Kernel, l: Label, now: int, k': Kernel) {
    && !l.Block? && Enabled(k, l, now)
    && var mid := Apply(k, l, now);
      k' == if Propagates(l) then mid.(tasks := Propagated(mid.tasks)) else mid
  }

  /** A method is one step of the protocol, or one and the blocking of what it doomed. */
  lemma MethodIsSteps(k: Kernel, l: Label, now: int, k': Kernel)
    requires MemoryNext(k, l, now, k')
    ensures var mid := Apply(k, l, now);
      && Next(k, l, now, mid)
      && (if Propagates(l) then Next(mid, Block(DoomedSet(mid.tasks)), now, k') else k' == mid)
  {
  }

  lemma MethodKeepsInv(k: Kernel, l: Label, now: int, k': Kernel)
    requires Inv(k) && MemoryNext(k, l, now, k')
    ensures Inv(k')
  {
    var mid := Apply(k, l, now);
    MethodIsSteps(k, l, now, k');
    StepKeepsInv(k, l, now, mid);
    if Propagates(l) {
      StepKeepsInv(mid, Block(DoomedSet(mid.tasks)), now, k');
    }
  }

  /** A run of the in-memory store's methods from an empty store. */
  ghost predicate IsMemoryRun(ks: seq<Kernel>, es: seq<Event>) {
    && |ks| == |es| + 1
    && ks[0] == Kernel(Goals.NoGoal, map[])
    && forall i | 0 <= i < |es| :: MemoryNext(ks[i], es[i].act, es[i].now, ks[i+1])
  }

  // ---- every such run is a run of the protocol ----

  predicate OnlyBlocks(es: seq<Event>, from: nat, to: nat)
    requires to <= |es|
  {
    forall j | from < j < to :: es[j].act.Block?
  }

  /** A run of the protocol that goes through the first n calls of a memory run: `at` says where each of its states
      is found, and between two of them there is the call and perhaps a round of blocking. */
  ghost predicate Expands(ks: seq<Kernel>, es: seq<Event>, n: nat, ks': seq<Kernel>, es': seq<Event>, at: seq<nat>)
    requires n < |ks| && |ks| == |es| + 1
  {
    && IsRun(ks', es')
    && |at| == n + 1 && at[0] == 0 && at[n] == |es'|
    && (forall i | 0 <= i <= n :: at[i] <= |es'| && ks'[at[i]] == ks[i])
    && (forall i | 0 <= i < n :: at[i] < at[i+1] && es'[at[i]] == es[i] && OnlyBlocks(es', at[i], at[i+1]))
  }

  /** What a history says of one task. */
  datatype Past = Past(holder: Option<string>, leaseEnd: Expiry, claims: nat,
                       planned: Option<Row>, reported: string, answered: bool)

  function PastOf(es: seq<Event>, id: Id): Past {
    Past(Holder(es, id), LeaseEnd(es, id), Claims(es, id), Planned(es, id), Reported(es, id), Answered(es, id))
  }

  /** The same callers hold the same leases, and the same was planned, reported and answered. */
  ghost predicate SameHistory(a: seq<Event>, b: seq<Event>) {
    forall id :: PastOf(a, id) == PastOf(b, id)
  }

  lemma SameAfter(a: seq<Event>, b: seq<Event>, e: Event)
    requires SameHistory(a, b)
    ensures SameHistory(a + [e], b + [e])
    ensures e.act.Block? ==> SameHistory(a + [e], b)
  {
    var a', b' := a + [e], b + [e];
    assert a'[..|a|] == a && b'[..|b|] == b;
    forall id
      ensures PastOf(a', id) == PastOf(b', id) && (e.act.Block? ==> PastOf(a', id) == PastOf(b, id))
    {
      assert PastOf(a, id) == PastOf(b, id);
    }
  }

  lemma ExtendRun(ks: seq<Kernel>, es: seq<Event>, e: Event, k: Kernel)
    requires IsRun(ks, es) && Next(ks[|es|], e.act, e.now, k)
    ensures IsRun(ks + [k], es + [e])
  {
    var ks', es' := ks + [k], es + [e];
    forall i | 0 <= i < |es'| ensures Next(ks'[i], es'[i].act, es'[i].now, ks'[i+1]) {
      if i < |es| {
        assert Next(ks[i], es[i].act, es[i].now, ks[i+1]);
      }
    }
  }

  /** One more call. */
  lemma ExpandCall(ks: seq<Kernel>, es: seq<Event>, n: nat, ks1: seq<Kernel>, es1: seq<Event>, at1: seq<nat>)
    returns (ks': seq<Kernel>, es': seq<Event>, at: seq<nat>)
    requires IsMemoryRun(ks, es) && n < |es| && Expands(ks, es, n, ks1, es1, at1) && SameHistory(es1, es[..n])
    ensures Expands(ks, es, n + 1, ks', es', at) && SameHistory(es', es[..n+1])
  {
    var e := es[n];
    assert MemoryNext(ks[n], e.act, e.now, ks[n+1]);
    var mid := Apply(ks[n], e.act, e.now);
    MethodIsSteps(ks[n], e.act, e.now, ks[n+1]);
    ExtendRun(ks1, es1, e, mid);
    SameAfter(es1, es[..n], e);
    assert es[..n+1] == es[..n] + [e];
    ks', es' := ks1 + [mid], es1 + [e];
    if Propagates(e.act) {
      var b := Event(Block(DoomedSet(mid.tasks)), e.now);
      ExtendRun(ks', es', b, ks[n+1]);
      SameAfter(es', es[..n+1], b);
      ks', es' := ks' + [ks[n+1]], es' + [b];
    }
    at := at1 + [|es'|];
    forall i | 0 <= i < n + 1 ensures at[i] < at[i+1] && es'[at[i]] == es[i] && OnlyBlocks(es', at[i], at[i+1]) {
      if i < n {
        assert at1[i] < at1[i+1] && OnlyBlocks(es1, at1[i], at1[i+1]);
      }
    }
  }

  lemma {:induction false} MemoryRunExpands(ks: seq<Kernel>, es: seq<Event>, n: nat)
    returns (ks': seq<Kernel>, es': seq<Event>, at: seq<nat>)
    requires IsMemoryRun(ks, es) && n < |ks|
    ensures Expands(ks, es, n, ks', es', at) && SameHistory(es', es[..n])
  {
    if n == 0 {
      ks', es', at := [ks[0]], [], [0];
    } else {
      var ks1, es1, at1 := MemoryRunExpands(ks, es, n - 1);
      ks', es', at := ExpandCall(ks, es, n - 1, ks1, es1, at1);
    }
  }

  lemma MemoryRunInv(ks: seq<Kernel>, es: seq<Event>, n: nat)
    requires IsMemoryRun(ks, es) && n < |ks|
    ensures Inv(ks[n])
  {
    var ks', es', at := MemoryRunExpands(ks, es, n);
    RunInv(ks', es', at[n]);
  }

  /** The stored lease and attempt count are exactly what the history of calls says. */
  lemma MemoryRunTracks(ks: seq<Kernel>, es: seq<Event>, n: nat, id: Id)
    requires IsMemoryRun(ks, es) && n < |ks|
    ensures Tracked(ks[n].tasks, es[..n], id)
  {
    var ks', es', at := MemoryRunExpands(ks, es, n);
    StepsAreStatements(ks', es');
    RunTracks(ks', es', |es'|, id);
    assert es'[..|es'|] == es' && PastOf(es', id) == PastOf(es[..n], id);
  }

  /** A call of the expanded run that is no round of blocking is one of the memory run. */
  lemma {:induction false} CallOf(ks: seq<Kernel>, es: seq<Event>, n: nat, ks': seq<Kernel>, es': seq<Event>,
                                  at: seq<nat>, i: nat, j': nat) returns (j: nat)
    requires n < |ks| && |ks| == |es| + 1 && Expands(ks, es, n, ks', es', at)
    requires i <= n && j' < at[i] && !es'[j'].act.Block?
    ensures j < i && at[j] == j' && es[j] == es'[j']
  {
    if j' >= at[i-1] {
      assert OnlyBlocks(es', at[i-1], at[i-1+1]);
      j := i - 1;
    } else {
      j := CallOf(ks, es, n, ks', es', at, i - 1, j');
    }
  }

  /** A succeeded task was completed as such, and what is stored is what its worker reported then. */
  lemma MemorySucceededWasReported(ks: seq<Kernel>, es: seq<Event>, n: nat, id: Id) returns (j: nat)
    requires IsMemoryRun(ks, es) && n < |ks| && id in ks[n].tasks && ks[n].tasks[id].state.Succeeded?
    ensures j < n && CompletesInto(es[j].act, id, Succeeded, ks[n].tasks[id].result)
  {
    var ks', es', at := MemoryRunExpands(ks, es, n);
    var j' := SucceededWasReported(ks', es', at[n], id);
    j := CallOf(ks, es, n, ks', es', at, n, j');
  }

  lemma MemoryReportedStays(ks: seq<Kernel>, es: seq<Event>, j: nat, n: nat, id: Id, result: string)
    requires IsMemoryRun(ks, es) && j < n < |ks| && CompletesInto(es[j].act, id, Succeeded, result)
    ensures id in ks[n].tasks && ks[n].tasks[id].state.Succeeded? && ks[n].tasks[id].result == result
  {
    var ks', es', at := MemoryRunExpands(ks, es, n);
    assert at[j] < at[j+1] <= |es'|;
    ReportedStays(ks', es', at[j], at[n], id, result);
  }

  /** Nothing is claimed before every task it requires was completed as succeeded and every task that contributes to
      it has ended. */
  lemma MemoryClaimsComeAfter(ks: seq<Kernel>, es: seq<Event>, j: nat, d: Id) returns (i: nat)
    requires IsMemoryRun(ks, es) && j < |es| && es[j].act.Claim?
    requires es[j].act.id in ks[j].tasks && d in ks[j].tasks[es[j].act.id].Edges()
    ensures d in ks[j].tasks && ks[j].tasks[d].state in {Succeeded, Failed, Blocked, Cancelled}
    ensures d in ks[j].tasks[es[j].act.id].dependsOn ==>
      i < j && CompletesInto(es[i].act, d, Succeeded, ks[j].tasks[d].result)
  {
    assert MemoryNext(ks[j], es[j].act, es[j].now, ks[j+1]);
    MemoryRunInv(ks, es, j);
    i := 0;
    if d in ks[j].tasks[es[j].act.id].dependsOn {
      i := MemorySucceededWasReported(ks, es, j, d);
    }
  }

  lemma DoomedIsUnfinished(m: Table, id: Id)
    requires id in DoomedSet(m)
    ensures !Terminal(m[id].state)
  {
    var p :| DoomPath(m, p) && p[0] == id;
  }

  /** Right after a successful call the task is where the call takes it, whatever the call also blocked. */
  lemma MemoryCallsWriteStates(ks: seq<Kernel>, es: seq<Event>, j: nat)
    requires IsMemoryRun(ks, es) && j < |es| && OneRow(es[j].act)
    ensures es[j].act.id in ks[j].tasks && es[j].act.id in ks[j+1].tasks
    ensures ks[j+1].tasks[es[j].act.id].state == Moved(ks[j].tasks[es[j].act.id].state, es[j].act)
  {
    var l := es[j].act;
    assert MemoryNext(ks[j], l, es[j].now, ks[j+1]);
    var mid := Apply(ks[j], l, es[j].now).tasks;
    if Propagates(l) && l.id in DoomedSet(mid) {
      DoomedIsUnfinished(mid, l.id);
    }
  }

  /** A write under a lease comes from the latest claimer, before its lease ends by its own clock. */
  lemma MemoryWritesAreFenced(ks: seq<Kernel>, es: seq<Event>, j: nat) returns (i: nat)
    requires IsMemoryRun(ks, es) && j < |es| && WritesUnderLease(es[j].act)
    ensures i < j && LatestClaim(es[..j], i, es[j].act.id, es[j].act.worker)
    ensures LeaseEnd(es[..j], es[j].act.id).At? && es[j].now < LeaseEnd(es[..j], es[j].act.id).t
  {
    assert MemoryNext(ks[j], es[j].act, es[j].now, ks[j+1]);
    MemoryRunTracks(ks, es, j, es[j].act.id);
    i := HeldByLatestClaimer(ks[j].tasks, es[..j], es[j].act.id, es[j].act.worker, es[j].now);
  }

  lemma MemoryClaimsAreSeparated(ks: seq<Kernel>, es: seq<Event>, i: nat, j: nat)
    requires IsMemoryRun(ks, es) && i < j < |es| && es[i].act.Claim? && es[j].act.Claim?
    requires es[i].act.id == es[j].act.id
    ensures Separated(ks[j].tasks, es[..j], i, es[j].act.id, es[j].now)
  {
    assert MemoryNext(ks[j], es[j].act, es[j].now, ks[j+1]);
    MemoryRunInv(ks, es, j);
    MemoryRunTracks(ks, es, j, es[j].act.id);
    ClaimAgain(ks[j], es[..j], i, es[j].act.id, es[j].now);
  }

  /** A terminal task is frozen and a terminal goal keeps its state and hands out nothing. */
  lemma MemoryTerminalIsFrozen(ks: seq<Kernel>, es: seq<Event>, i: nat, j: nat)
    requires IsMemoryRun(ks, es) && i <= j < |ks|
    ensures Frozen(ks[i].tasks, ks[j].tasks)
    ensures ks[i].goal.Goal? && ks[i].goal.state in {Goals.Succeeded, Goals.Failed, Goals.Refused, Goals.Cancelled} ==>
      ks[j].goal == ks[i].goal && (j < |es| ==> !es[j].act.Claim?)
  {
    var ks', es', at := MemoryRunExpands(ks, es, j);
    assert at[i] <= at[j];
    TerminalTaskIsFrozen(ks', es', at[i], at[j]);
    if ks[i].goal.Goal? && Goals.Terminal(ks[i].goal.state) {
      StepsAreStatements(ks', es');
      TerminalGoalIsAbsorbing(ks', es', at[i], at[j]);
      assert j < |es| ==> MemoryNext(ks[j], es[j].act, es[j].now, ks[j+1]);
    }
  }

  /** What a cancel leaves unfinished, and what is planned after it, is not claimed again. */
  lemma MemoryUnfinishedAfterCancel(ks: seq<Kernel>, es: seq<Event>, i: nat, j: nat, id: Id)
    requires IsMemoryRun(ks, es) && i < j < |ks| && es[i].act.Cancel? && id in Unfinished(ks[j].tasks)
    ensures id in ks[i].tasks ==>
      ks[i].tasks[id].state.Running? && ks[i].tasks[id].expiry.After(es[i].now)
        && ks[j].tasks[id].attempt == ks[i].tasks[id].attempt
    ensures id !in ks[i].tasks ==> ks[j].tasks[id].state.Pending? && NeverClaimed(ks[j].tasks[id])
  {
    var ks', es', at := MemoryRunExpands(ks, es, j);
    assert at[i] < at[i+1] <= |es'|;
    UnfinishedAfterCancel(ks', es', at[i], at[j], id);
  }

  /** The unfinished tasks only shrink exactly when no task planned in between is left unfinished. */
  lemma MemoryUnfinishedShrinks(ks: seq<Kernel>, es: seq<Event>, p: nat, q: nat)
    requires IsMemoryRun(ks, es) && p <= q < |ks|
    ensures Unfinished(ks[q].tasks) <= Unfinished(ks[p].tasks) <==>
      forall m | p <= m < q && es[m].act.Grow? :: es[m].act.added.Keys !! Unfinished(ks[q].tasks)
  {
    assert OnlyGrowAdds(ks, es) by {
      forall i | 0 <= i < |es| ensures MemoryNext(ks[i], es[i].act, es[i].now, ks[i+1]) {
      }
    }
    MemoryTerminalIsFrozen(ks, es, p, q);
    ShrinksUnlessPlanned(ks, es, p, q);
  }

  /** A run of the protocol in which nothing propagates is one of the in-memory store. */
  lemma PlainRunIsMemoryRun(ks: seq<Kernel>, es: seq<Event>)
    requires IsRun(ks, es) && forall i | 0 <= i < |es| :: !es[i].act.Block? && !Propagates(es[i].act)
    ensures IsMemoryRun(ks, es)
  {
    forall i | 0 <= i < |es| ensures MemoryNext(ks[i], es[i].act, es[i].now, ks[i+1]) {
      assert Next(ks[i], es[i].act, es[i].now, ks[i+1]);
    }
  }

  /** There too a graph saved late outlives the cancel. */
  lemma MemoryPlanningOutlivesCancel(b: Id)
    ensures var ks, es := LatePlanned(b), LatePlanning(b);
      && IsMemoryRun(ks, es) && es[1].act.Cancel?
      && Unfinished(ks[2].tasks) == {} && Unfinished(ks[3].tasks) == {b}
  {
    PlanningOutlivesCancel(b);
    PlainRunIsMemoryRun(LatePlanned(b), LatePlanning(b));
  }

  /** A task that was doomed never starts; and when nothing is left to propagate it is dead. */
  lemma MemoryDoomedNeverStarts(ks: seq<Kernel>, es: seq<Event>, i: nat, j: nat, id: Id)
    requires IsMemoryRun(ks, es) && i <= j < |ks| && id in DoomedSet(ks[i].tasks)
    ensures id in ks[j].tasks && !Started(ks[j].tasks[id].state)
    ensures Settled(ks[j].tasks) ==> Dead(ks[j].tasks[id].state)
  {
    var ks', es', at := MemoryRunExpands(ks, es, j);
    assert at[i] <= at[j];
    DoomedNeverStarts(ks', es', at[i], at[j], id);
  }

  // ---- what leaves a dead dependency behind ----

  /** The two calls that leave a dead dependency behind without propagating it: completing into
      cancelled a task something unfinished requires, and planning a task on top of a dead one. */
  predicate Leaks(k: Kernel, l: Label) {
    match l
    case Complete(id, w, next, result) =>
      next.Cancelled? && exists d | d in k.tasks :: !Terminal(k.tasks[d].state) && id in k.tasks[d].dependsOn
    case Grow(added) =>
      exists d | d in added :: exists p | p in added[d].dependsOn :: p in k.tasks && Dead(k.tasks[p].state)
    case _ => false
  }

  /** From a settled table, an in-memory step leaves it settled exactly when it does not leak. */
  lemma SettledUnlessLeaking(k: Kernel, l: Label, now: int, k': Kernel)
    requires Inv(k) && Settled(k.tasks) && MemoryNext(k, l, now, k')
    ensures Settled(k'.tasks) <==> !Leaks(k, l)
  {
    if Propagates(l) {
      PropagatedIsSettled(Apply(k, l, now).tasks);
    } else {
      match l {
        case Complete(id, w, next, result) => CompleteSettles(k, id, w, next, result, now);
        case Grow(added) => GrowSettles(k, added, now);
        case Cancel => CancelSettles(k, now);
        case Claim(id, w, until) => RowSettles(k.tasks, k'.tasks, id);
        case Renew(id, w, until) => RenewSettles(k.tasks, k'.tasks, id);
        case Release(id, w) => RowSettles(k.tasks, k'.tasks, id);
        case Decide(id, approve) => RowSettles(k.tasks, k'.tasks, id);
        case _ =>
      }
    }
  }

  /** Changing one row without killing or reviving it keeps a table settled. */
  lemma RowSettles(m: Table, m': Table, id: Id)
    requires Settled(m) && id in m && id in m' && m' == m[id := m'[id]]
    requires m'[id].dependsOn == m[id].dependsOn && !Terminal(m[id].state) && !Dead(m'[id].state)
    ensures Settled(m')
  {
    forall a | a in m' ensures !Hit(m', a) {
      assert !Hit(m, a);
    }
  }

  /** Nor does changing only a lease. */
  lemma RenewSettles(m: Table, m': Table, id: Id)
    requires Settled(m) && id in m && id in m' && m' == m[id := m'[id]]
    requires m'[id] == m[id].(expiry := m'[id].expiry)
    ensures Settled(m')
  {
    forall a | a in m' ensures !Hit(m', a) {
      assert !Hit(m, a);
    }
  }

  lemma CompleteSettles(k: Kernel, id: Id, w: string, next: State, result: string, now: int)
    requires Inv(k) && Settled(k.tasks) && Enabled(k, Complete(id, w, next, result), now)
    requires !next.Failed?
    ensures Settled(Apply(k, Complete(id, w, next, result), now).tasks) <==> !Leaks(k, Complete(id, w, next, result))
  {
    var l := Complete(id, w, next, result);
    var m, m' := k.tasks, Apply(k, l, now).tasks;
    if !next.Cancelled? {
      RowSettles(m, m', id);
    } else {
      if d :| d in m && !Terminal(m[d].state) && id in m[d].dependsOn {
        assert d != id by { NoSelfEdge(m, id); }
        assert Hit(m', d);
      } else {
        forall a | a in m' ensures !Hit(m', a) {
          assert !Hit(m, a);
        }
      }
    }
  }

  lemma NoSelfEdge(m: Table, id: Id)
    requires Acyclic(m) && id in m
    ensures id !in m[id].dependsOn
  {
    assert forall d | d in m[id].dependsOn :: d in m[id].Edges();
  }

  lemma GrowSettles(k: Kernel, added: Table, now: int)
    requires Inv(k) && Settled(k.tasks) && Enabled(k, Grow(added), now)
    ensures Settled(k.tasks + added) <==> !Leaks(k, Grow(added))
  {
    var m' := k.tasks + added;
    if Leaks(k, Grow(added)) {
      var d :| d in added && exists p | p in added[d].dependsOn :: p in k.tasks && Dead(k.tasks[p].state);
      assert Unclaimed(added[d]);
      assert Hit(m', d);
    } else {
      forall a | a in m' ensures !Hit(m', a) {
        assert a in k.tasks ==> !Hit(k.tasks, a) && Closed(k.tasks);
        assert forall p | p in added :: Unclaimed(added[p]);
        assert a in k.tasks ==> forall p | p in m'[a].dependsOn :: p in m'[a].Edges();
      }
    }
  }

  lemma CancelSettles(k: Kernel, now: int)
    requires Inv(k) && Enabled(k, Cancel, now)
    ensures Settled(Apply(k, Cancel, now).tasks)
  {
    var k' := Apply(k, Cancel, now);
    assert Next(k, Cancel, now, k');
    CancelIsExact(k, now, k');
    StepKeepsInv(k, Cancel, now, k');
    forall a | a in k'.tasks && !Terminal(k'.tasks[a].state) ensures !Hit(k'.tasks, a) {
      assert DepsReady(k'.tasks, a);
    }
  }

  // ---- progress ----

  lemma {:induction false} MemoryRunSettled(ks: seq<Kernel>, es: seq<Event>, n: nat)
    requires IsMemoryRun(ks, es) && n < |ks|
    requires forall i | 0 <= i < n :: !Leaks(ks[i], es[i].act)
    ensures Settled(ks[n].tasks)
  {
    if n > 0 {
      MemoryRunSettled(ks, es, n - 1);
      MemoryRunInv(ks, es, n - 1);
      assert MemoryNext(ks[n-1], es[n-1].act, es[n-1].now, ks[n-1+1]);
      SettledUnlessLeaking(ks[n-1], es[n-1].act, es[n-1].now, ks[n]);
    }
  }

  /** In every state of every run of the in-memory store, whatever the time: a running goal can move exactly when some
      unfinished task of it is not stuck, which without a leaking call is as long as anything is unfinished; any other
      goal exactly when one of its tasks is under way. */
  lemma MemoryRunsProgress(ks: seq<Kernel>, es: seq<Event>, n: nat, now: int)
    requires IsMemoryRun(ks, es) && n < |ks|
    ensures Goals.Claimable(ks[n].goal) ==>
      (CanProgress(ks[n], now) <==> exists id :: id in Unfinished(ks[n].tasks) && !Stuck(ks[n].tasks, id))
    ensures !Goals.Claimable(ks[n].goal) ==>
      (CanProgress(ks[n], now) <==> exists id :: id in ks[n].tasks && UnderWay(ks[n].tasks[id], now))
    ensures (forall i | 0 <= i < n :: !Leaks(ks[i], es[i].act)) ==>
      && (Goals.Claimable(ks[n].goal) ==> (CanProgress(ks[n], now) <==> Unfinished(ks[n].tasks) != {}))
      && !Stalled(ks[n].tasks)
  {
    var m := ks[n].tasks;
    MemoryRunInv(ks, es, n);
    ProgressExactly(ks[n], now);
    StalledExactly(ks[n]);
    if forall i | 0 <= i < n :: !Leaks(ks[i], es[i].act) {
      MemoryRunSettled(ks, es, n);
      forall id ensures !Stuck(m, id) {
        SettledIsNotStuck(m, id);
      }
      if id :| id in Unfinished(m) {
        assert !Stuck(m, id);
      }
    }
  }

  // ---- the leak is real ----

  /** Two planned tasks, the second requiring the first. */
  function Waiting(a: Id, b: Id): Table {
    map[a := FreshRow(), b := FreshRow().(dependsOn := [a])]
  }

  function Begun(a: Id, b: Id, worker: string): Table {
    Waiting(a, b)[a := ClaimedRow(FreshRow(), worker, 60)]
  }

  function Stranded(a: Id, b: Id, worker: string): Table {
    Waiting(a, b)[a := CompletedRow(ClaimedRow(FreshRow(), worker, 60), Cancelled, "")]
  }

  function StrandingEvents(a: Id, b: Id, worker: string): seq<Event> {
    [Event(Create(Goals.Running), 0), Event(Grow(Waiting(a, b)), 0), Event(Claim(a, worker, 60), 0),
     Event(Complete(a, worker, Cancelled, ""), 1)]
  }

  function StrandingStates(a: Id, b: Id, worker: string): seq<Kernel> {
    var running := Goals.Goal(Goals.Running);
    [Kernel(Goals.NoGoal, map[]), Kernel(running, map[]), Kernel(running, Waiting(a, b)),
     Kernel(running, Begun(a, b, worker)), Kernel(running, Stranded(a, b, worker))]
  }

  lemma TwoAreGrown(a: Id, b: Id, now: int)
    requires a != b
    ensures var running := Goals.Goal(Goals.Running);
      MemoryNext(Kernel(running, map[]), Grow(Waiting(a, b)), now, Kernel(running, Waiting(a, b)))
  {
    hide Propagated, DoomedSet, DepsReady;
    var m, none: Table := Waiting(a, b), map[];
    var rank: map<Id, nat> := map[a := 0, b := 1];
    assert m[a].Edges() == [] && m[b].Edges() == [a];
    assert Ranked(m, rank);
    assert none + m == m;
  }

  lemma FirstIsClaimed(a: Id, b: Id, worker: string, now: int)
    requires a != b
    ensures var running := Goals.Goal(Goals.Running);
      MemoryNext(Kernel(running, Waiting(a, b)), Claim(a, worker, 60), now, Kernel(running, Begun(a, b, worker)))
  {
    assert DepsReady(Waiting(a, b), a);
  }

  lemma FirstIsCancelled(a: Id, b: Id, worker: string, now: int)
    requires a != b && now < 60
    ensures var running := Goals.Goal(Goals.Running);
      MemoryNext(Kernel(running, Begun(a, b, worker)), Complete(a, worker, Cancelled, ""), now,
                 Kernel(running, Stranded(a, b, worker)))
  {
    var m := Begun(a, b, worker);
    assert m[a := CompletedRow(m[a], Cancelled, "")] == Stranded(a, b, worker);
  }

  /** There nothing can move, whatever the goal does. */
  lemma NothingMoves(g: Goals.Stored, a: Id, b: Id, worker: string, now: int)
    requires a != b
    ensures var k := Kernel(g, Stranded(a, b, worker)); b in Unfinished(k.tasks) && !CanProgress(k, now)
  {
    var m := Stranded(a, b, worker);
    assert a in m[b].dependsOn;
    assert !DepsReady(m, b);
  }

  /** And from there on the second task is never started, whatever is done. */
  lemma StrandedNeverStarts(ks: seq<Kernel>, es: seq<Event>, i: nat, j: nat, a: Id, b: Id, worker: string)
    requires IsMemoryRun(ks, es) && i <= j < |ks| && a != b && ks[i].tasks == Stranded(a, b, worker)
    ensures b in ks[j].tasks && !Started(ks[j].tasks[b].state)
  {
    assert DoomPath(Stranded(a, b, worker), [b, a]);
    MemoryDoomedNeverStarts(ks, es, i, j, b);
  }

  lemma StrandingIsRun(a: Id, b: Id, worker: string)
    requires a != b
    ensures IsMemoryRun(StrandingStates(a, b, worker), StrandingEvents(a, b, worker))
  {
    TwoAreGrown(a, b, 0);
    FirstIsClaimed(a, b, worker, 0);
    FirstIsCancelled(a, b, worker, 1);
  }

  /** From an empty store, a worker completing into cancelled leaves the task that required its own where no call can
      move it; a cancel, or the propagation of another failure, may still end it. */
  lemma CancelledCompletionStrands(a: Id, b: Id, worker: string)
    requires a != b
    ensures var ks, es := StrandingStates(a, b, worker), StrandingEvents(a, b, worker);
      && IsMemoryRun(ks, es) && ks[4] == Kernel(Goals.Goal(Goals.Running), Stranded(a, b, worker))
      && b in Unfinished(ks[4].tasks) && forall now: int :: !CanProgress(ks[4], now)
  {
    StrandingIsRun(a, b, worker);
    forall now: int ensures b in Unfinished(Stranded(a, b, worker))
      && !CanProgress(Kernel(Goals.Goal(Goals.Running), Stranded(a, b, worker)), now)
    {
      NothingMoves(Goals.Goal(Goals.Running), a, b, worker, now);
    }
  }
}
