/** The goal's own state machine. */
module Goals {
  datatype State = Draft | Running | Paused | Succeeded | Failed | Refused | Cancelled

  predicate Terminal(s: State) {
    s.Succeeded? || s.Failed? || s.Refused? || s.Cancelled?
  }

  /** A goal as stored: absent, or in some state. */
  datatype Stored = NoGoal | Goal(state: State)

  predicate Claimable(g: Stored) {
    g == Goal(Running)
  }
}

/** One goal's durable state and the one relation both stores step by. Every call carries its own reading of the
    clock, which may be older or newer than any other call's. */
module Protocol {
  import opened Tasks
  import Goals

  datatype Kernel = Kernel(goal: Goals.Stored, tasks: Table)

  datatype Label =
    | Create(state: Goals.State)
    | Save(state: Goals.State)
    | Grow(added: Table)
    | Claim(id: Id, worker: string, until: int)
    | Renew(id: Id, worker: string, until: int)
    | Complete(id: Id, worker: string, next: State, result: string)
    | Release(id: Id, worker: string)
    | Decide(id: Id, approve: bool)
    | Cancel
    | Block(ids: set<Id>)
    | Refuse

  /** This worker still holds a live lease, as a caller that read the clock at `now` sees it. */
  predicate Held(m: Table, id: Id, worker: string, now: int) {
    id in m && m[id].leasedBy == worker && m[id].expiry.After(now)
  }

  predicate Unclaimed(r: Row) {
    r.state.Pending? && r.attempt == 0 && !r.approved && r.leasedBy == "" && r.expiry.Unset?
  }

  /** What the durable store's statements check. */
  ghost predicate StatementEnabled(k: Kernel, l: Label, now: int) {
    match l
    case Create(s) => k.goal.NoGoal?
    case Save(s) => k.goal.Goal? && (Goals.Terminal(k.goal.state) ==> s == k.goal.state)
    case Grow(added) =>
      && added.Keys !! k.tasks.Keys
      && (forall id | id in added :: Unclaimed(added[id]))
      && Closed(k.tasks + added) && Acyclic(k.tasks + added)
    case Claim(id, w, until) => Goals.Claimable(k.goal) && Claimable(k.tasks, id, now)
    case Renew(id, w, until) => Held(k.tasks, id, w, now)
    case Complete(id, w, next, result) => Held(k.tasks, id, w, now)
    case Release(id, w) => Held(k.tasks, id, w, now)
    case Decide(id, approve) => id in k.tasks && k.tasks[id].state.AwaitingApproval?
    case Cancel => k.goal.Goal? && !Goals.Terminal(k.goal.state)
    case Block(ids) => ids <= DoomedSet(k.tasks)
    case Refuse => true
  }

  /** The protocol also looks every outcome up in the transition table. */
  ghost predicate Enabled(k: Kernel, l: Label, now: int) {
    && StatementEnabled(k, l, now)
    && (l.Complete? ==> CanTransition(k.tasks[l.id].state, l.next))
    && (l.Release? ==> CanTransition(k.tasks[l.id].state, Ready))
  }

  function ClaimedRow(r: Row, worker: string, until: int): Row {
    r.(state := Running, leasedBy := worker, expiry := At(until), attempt := r.attempt + 1)
  }

  function CompletedRow(r: Row, next: State, result: string): Row {
    r.(state := next, result := result, leasedBy := "", expiry := Unset)
  }

  function ReleasedRow(r: Row): Row {
    r.(state := Ready, leasedBy := "", expiry := Unset)
  }

  function DecidedRow(r: Row, approve: bool): Row {
    r.(state := if approve then Ready else Cancelled, approved := approve)
  }

  function CancelAll(m: Table, now: int): Table {
    map id | id in m :: if m[id].Cancellable(now) then m[id].(state := Cancelled) else m[id]
  }

  /** The steps that write one task's row. */
  predicate OneRow(l: Label) {
    l.Claim? || l.Renew? || l.Complete? || l.Release? || l.Decide?
  }

  function NewRow(r: Row, l: Label): Row
    requires OneRow(l)
  {
    match l
    case Claim(_, w, until) => ClaimedRow(r, w, until)
    case Renew(_, _, until) => r.(expiry := At(until))
    case Complete(_, _, next, result) => CompletedRow(r, next, result)
    case Release(_, _) => ReleasedRow(r)
    case Decide(_, approve) => DecidedRow(r, approve)
  }

  /** What a step writes. */
  ghost function Apply(k: Kernel, l: Label, now: int): Kernel
    requires OneRow(l) ==> l.id in k.tasks
  {
    var m := k.tasks;
    if OneRow(l) then k.(tasks := m[l.id := NewRow(m[l.id], l)])
    else
      match l
      case Create(s) => k.(goal := Goals.Goal(s))
      case Save(s) => k.(goal := Goals.Goal(s))
      case Grow(added) => k.(tasks := m + added)
      case Cancel => Kernel(Goals.Goal(Goals.Cancelled), CancelAll(m, now))
      case Block(ids) => k.(tasks := BlockAll(m, ids))
      case _ => k
  }

  /** One atomic step of the protocol. */
  ghost predicate Next(k: Kernel, l: Label, now: int, k': Kernel) {
    Enabled(k, l, now) && k' == Apply(k, l, now)
  }

  /** One statement of the durable store. */
  ghost predicate Statement(k: Kernel, l: Label, now: int, k': Kernel) {
    StatementEnabled(k, l, now) && k' == Apply(k, l, now)
  }

  // ---- the invariant ----

  predicate Started(s: State) {
    s.Running? || s.AwaitingApproval? || s.Succeeded? || s.Failed?
  }

  /** Whatever has started had every prerequisite met. */
  predicate DepSafe(m: Table) {
    forall id | id in m && Started(m[id].state) :: DepsReady(m, id)
  }

  /** A lease, live or not, is on a running task or on a cancelled one that kept it; a running task has one. */
  predicate LeaseOk(r: Row) {
    && (r.leasedBy != "" ==> r.expiry.At?)
    && (r.state.Running? ==> r.expiry.At?)
    && (r.expiry.At? ==> r.state.Running? || r.state.Cancelled?)
    && (r.state.Pending? ==> r.attempt == 0)
  }

  predicate LeaseSafe(m: Table) {
    forall id | id in m :: LeaseOk(m[id])
  }

  ghost predicate Inv(k: Kernel) {
    Closed(k.tasks) && Acyclic(k.tasks) && DepSafe(k.tasks) && LeaseSafe(k.tasks)
  }

  /** What no step ever undoes: edges stay, and of a terminal row all but the end of a lease it kept. */
  predicate FrozenRow(r: Row, r': Row) {
    && r'.dependsOn == r.dependsOn && r'.contributes == r.contributes
    && (Terminal(r.state) ==> r' == r.(expiry := r'.expiry))
  }

  predicate Frozen(m: Table, m': Table) {
    forall id | id in m :: id in m' && FrozenRow(m[id], m'[id])
  }

  lemma FrozenKeepsReady(m: Table, m': Table, id: Id)
    requires Closed(m) && Frozen(m, m') && id in m && DepsReady(m, id)
    ensures DepsReady(m', id)
  {
    forall d | d in m'[id].dependsOn ensures d in m' && m'[d].state == Succeeded {
      assert d in m[id].Edges();
    }
    forall d | d in m'[id].contributes ensures d in m' && Terminal(m'[d].state) {
      assert d in m[id].Edges();
    }
  }

  lemma SameEdges(m: Table, m': Table)
    requires m'.Keys == m.Keys && Closed(m) && Acyclic(m) && Frozen(m, m')
    ensures Closed(m') && Acyclic(m')
  {
    var rank :| Ranked(m, rank);
    assert forall a | a in m' :: m'[a].Edges() == m[a].Edges();
    assert Ranked(m', rank);
  }

  /** A doomed task has not started, so blocking it is a move the table allows and takes no lease away. */
  lemma DoomedIsWaiting(m: Table, id: Id)
    requires DepSafe(m) && id in DoomedSet(m)
    ensures m[id].state.Pending? || m[id].state.Ready?
  {
    var p :| DoomPath(m, p) && p[0] == id;
    assert p[0+1] in m[p[0]].dependsOn;
    assert p[1] in m && m[p[1]].state != Succeeded;
  }

  /** A held task is running, unless it was cancelled and kept its lease. */
  lemma HeldIsRunning(m: Table, id: Id, worker: string, now: int)
    requires LeaseSafe(m) && Held(m, id, worker, now)
    ensures m[id].state.Running? || m[id].state.Cancelled?
  {
    assert LeaseOk(m[id]);
  }

  /** Everything a one-row step does to its row. */
  lemma OneRowStep(k: Kernel, l: Label, now: int)
    requires Inv(k) && OneRow(l) && Enabled(k, l, now)
    ensures var r, r' := k.tasks[l.id], NewRow(k.tasks[l.id], l);
      && FrozenRow(r, r') && LeaseOk(r') && (Terminal(r.state) ==> l.Renew?)
      && (Started(r'.state) ==> DepsReady(k.tasks, l.id))
      && (r.state == r'.state || CanTransition(r.state, r'.state)
          || (l.Claim? && CanTransition(r.state, Ready) && CanTransition(Ready, r'.state)))
  {
    assert LeaseOk(k.tasks[l.id]);
  }

  lemma StepFreezes(k: Kernel, l: Label, now: int, k': Kernel)
    requires Inv(k) && Next(k, l, now, k')
    ensures Frozen(k.tasks, k'.tasks)
  {
    if OneRow(l) {
      OneRowStep(k, l, now);
    } else if l.Block? {
      forall id | id in l.ids ensures !Terminal(k.tasks[id].state) {
        DoomedIsWaiting(k.tasks, id);
      }
    }
  }

  lemma StepKeepsGraph(k: Kernel, l: Label, now: int, k': Kernel)
    requires Inv(k) && Next(k, l, now, k')
    ensures Closed(k'.tasks) && Acyclic(k'.tasks)
  {
    if !l.Grow? {
      StepFreezes(k, l, now, k');
      SameEdges(k.tasks, k'.tasks);
    }
  }

  lemma StepKeepsLeases(k: Kernel, l: Label, now: int, k': Kernel)
    requires Inv(k) && Next(k, l, now, k')
    ensures LeaseSafe(k'.tasks)
  {
    if OneRow(l) {
      OneRowStep(k, l, now);
    }
    forall id | id in k'.tasks ensures LeaseOk(k'.tasks[id]) {
      if l.Grow? && id in l.added {
        assert Unclaimed(l.added[id]);
      } else {
        assert LeaseOk(k.tasks[id]);
        if l.Block? && id in l.ids {
          DoomedIsWaiting(k.tasks, id);
        }
      }
    }
  }

  lemma StepKeepsDeps(k: Kernel, l: Label, now: int, k': Kernel)
    requires Inv(k) && Next(k, l, now, k')
    ensures DepSafe(k'.tasks)
  {
    StepFreezes(k, l, now, k');
    forall id | id in k'.tasks && Started(k'.tasks[id].state) ensures DepsReady(k'.tasks, id) {
      StartedWasReady(k, l, now, k', id);
      FrozenKeepsReady(k.tasks, k'.tasks, id);
    }
  }

  lemma StartedWasReady(k: Kernel, l: Label, now: int, k': Kernel, id: Id)
    requires Inv(k) && Next(k, l, now, k')
    requires id in k'.tasks && Started(k'.tasks[id].state)
    ensures id in k.tasks && DepsReady(k.tasks, id)
  {
    if OneRow(l) {
      OneRowStep(k, l, now);
    } else if l.Grow? {
      assert forall a | a in l.added :: Unclaimed(l.added[a]);
    }
  }

  /** Every step of either store keeps the invariant. */
  lemma StepKeepsInv(k: Kernel, l: Label, now: int, k': Kernel)
    requires Inv(k) && Next(k, l, now, k')
    ensures Inv(k')
  {
    StepKeepsGraph(k, l, now, k');
    StepKeepsLeases(k, l, now, k');
    StepKeepsDeps(k, l, now, k');
  }

  /** Every state change is a move of the table; a claim of a pending task is two, through ready. */
  lemma StepsAreLegal(k: Kernel, l: Label, now: int, k': Kernel, id: Id)
    requires Inv(k) && Next(k, l, now, k') && id in k.tasks
    ensures id in k'.tasks
    ensures var a, b := k.tasks[id].state, k'.tasks[id].state;
      a == b || CanTransition(a, b) || (l.Claim? && l.id == id && CanTransition(a, Ready) && CanTransition(Ready, b))
  {
    if OneRow(l) {
      OneRowStep(k, l, now);
    } else if l.Block? && id in l.ids {
      DoomedIsWaiting(k.tasks, id);
    }
  }

  /** A goal may be saved in another state, or cancelled, exactly while it is a draft, runs or is paused. */
  lemma GoalsMove(m: Table, from: Goals.State, to: Goals.State, now: int)
    ensures var k := Kernel(Goals.Goal(from), m);
      && (Enabled(k, Save(to), now) <==> from == to || from in {Goals.Draft, Goals.Running, Goals.Paused})
      && (Enabled(k, Cancel, now) <==> from in {Goals.Draft, Goals.Running, Goals.Paused})
  {
  }

  // ---- cancelling ----

  function Unfinished(m: Table): set<Id> {
    set id | id in m && !Terminal(m[id].state)
  }

  function Taken(m: Table, now: int): set<Id> {
    set id | id in m && m[id].Cancellable(now)
  }

  predicate LiveAt(r: Row, now: int) {
    r.leasedBy != "" && r.expiry.After(now)
  }

  /** Cancelling leaves only finished tasks and ones running under a live lease, and takes exactly the rest. */
  lemma CancelIsExact(k: Kernel, now: int, k': Kernel)
    requires Inv(k) && Next(k, Cancel, now, k')
    ensures forall id | id in k'.tasks ::
      Terminal(k'.tasks[id].state) || (k'.tasks[id].state.Running? && LiveAt(k'.tasks[id], now))
    ensures |Taken(k.tasks, now)| == |Unfinished(k.tasks)| - |Unfinished(k'.tasks)|
  {
    forall id | id in k'.tasks && !Terminal(k'.tasks[id].state)
      ensures k'.tasks[id].state.Running? && LiveAt(k'.tasks[id], now)
    {
      assert LeaseOk(k.tasks[id]);
    }
    CancelCounts(k.tasks, now);
  }

  lemma CancelCounts(m: Table, now: int)
    ensures |Taken(m, now)| == |Unfinished(m)| - |Unfinished(CancelAll(m, now))|
  {
    assert Unfinished(CancelAll(m, now)) == Unfinished(m) - Taken(m, now);
    assert Taken(m, now) <= Unfinished(m);
  }

  // ---- the durable store's statements ----

  /** A statement that never leaves the table: an outcome that may follow running, and no write under a lease
      that a cancelled task kept. */
  predicate Lawful(k: Kernel, l: Label) {
    && (l.Complete? ==> CanTransition(Running, l.next))
    && (l.Complete? || l.Release? ==> l.id in k.tasks && !k.tasks[l.id].state.Cancelled?)
  }

  /** On an invariant state a statement is a step of the protocol exactly when it is lawful. */
  lemma StatementIsStep(k: Kernel, l: Label, now: int, k': Kernel)
    requires Inv(k) && Statement(k, l, now, k')
    ensures Next(k, l, now, k') <==> Lawful(k, l)
  {
    if l.Complete? || l.Release? {
      HeldIsRunning(k.tasks, l.id, l.worker, now);
    }
  }
}
