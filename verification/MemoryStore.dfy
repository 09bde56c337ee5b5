/** The in-process store: every method runs under one mutex, so every method is one atomic step. */
module MemoryStore {
  import opened Tasks
  import opened Dags
  import opened MemoryRuns
  import opened Protocol
  import opened Wrappers
  import Goals
  import Order

  datatype Error =
    | GoalExists | GoalNotFound | GoalTerminal | GoalEnded
    | TaskNotFound | NoWork | LeaseLost | IllegalMove | NotClaimable

  /** A goal record: its state, and everything else a save carries. */
  datatype Goal = Goal(state: Goals.State, rest: string)

  /** A graph that keeps every stored task as it is and adds only unclaimed ones. */
  ghost predicate Extends(m: Table, d: Table) {
    && (forall id | id in m :: id in d && d[id] == m[id])
    && (forall id | id in d && id !in m :: Unclaimed(d[id]))
    && Closed(d) && Acyclic(d)
  }

  /** Putting a graph in the place of the stored one is the growing step exactly when it extends that. */
  lemma SavingGrows(k: Kernel, d: Table, now: int)
    ensures MemoryNext(k, Grow(d - k.tasks.Keys), now, Kernel(k.goal, d)) <==> Extends(k.tasks, d)
  {
    var m, added := k.tasks, d - k.tasks.Keys;
    assert Extends(m, d) || m + added == d ==> m + added == d;
    assert forall id | id in added :: added[id] == d[id];
  }

  class Memory {
    var goals: map<string, Goal>
    var dags: map<string, Dag>

    predicate Valid()
      reads this, dags.Values
    {
      forall g | g in dags :: dags[g].goalId == g && Closed(dags[g].tasks)
    }

    ghost function DagOf(g: string): set<Dag>
      reads this
    {
      if g in dags then {dags[g]} else {}
    }

    ghost function TasksOf(g: string): Table
      reads this, DagOf(g)
    {
      if g in dags then dags[g].tasks else map[]
    }

    /** One goal as the protocol sees it. */
    ghost function View(g: string): Kernel
      reads this, DagOf(g)
    {
      Kernel(if g in goals then Goals.Goal(goals[g].state) else Goals.NoGoal, TasksOf(g))
    }

    /** This call did `l` to one goal and nothing to any other. */
    twostate predicate Did(g: string, l: Label, now: int)
      reads this, dags.Values
    {
      && MemoryNext(old(View(g)), l, now, View(g))
      && forall h | h != g :: View(h) == old(View(h))
    }

    constructor ()
      ensures Valid() && goals == map[] && dags == map[]
    {
      goals, dags := map[], map[];
    }

    method CreateGoal(g: string, goal: Goal, now: int) returns (r: Result<(), Error>)
      requires Valid()
      modifies this
      ensures Valid()
      ensures r.Ok? <==> g !in old(goals)
      ensures Did(g, if r.Ok? then Create(goal.state) else Refuse, now)
    {
      if g in goals {
        return Err(GoalExists);
      }
      goals := goals[g := goal];
      return Ok(());
    }

    /** Hands out a copy: what the caller then does to it is not a write. */
    method LoadGoal(g: string) returns (r: Result<Goal, Error>)
      ensures r == if g in goals then Ok(goals[g]) else Err(GoalNotFound)
    {
      if g !in goals {
        return Err(GoalNotFound);
      }
      return Ok(goals[g]);
    }

    /** Saves a whole record, unless that would move the state of a goal that has ended. */
    method SaveGoal(g: string, incoming: Goal, now: int) returns (r: Result<(), Error>)
      requires Valid()
      modifies this
      ensures Valid()
      ensures r == Err(GoalNotFound) <==> g !in old(goals)
      ensures goals == if r.Ok? then old(goals)[g := incoming] else old(goals)
      ensures Did(g, if r.Ok? then Save(incoming.state) else Refuse, now)
    {
      if g !in goals {
        return Err(GoalNotFound);
      }
      if Goals.Terminal(goals[g].state) && incoming.state != goals[g].state {
        return Err(GoalTerminal);
      }
      goals := goals[g := incoming];
      return Ok(());
    }

    /** Replaces whatever graph the goal had. Exactly when it keeps the stored tasks and puts new ones on top, as a
        replanned graph does, it is the protocol's growing step. */
    method SaveDAG(d: Dag, now: int)
      requires Valid()
      modifies this
      ensures goals == old(goals) && dags == old(dags)[d.goalId := d]
      ensures Closed(d.tasks) ==> Valid()
      ensures Extends(old(TasksOf(d.goalId)), d.tasks) <==>
        Did(d.goalId, Grow(d.tasks - old(TasksOf(d.goalId)).Keys), now)
    {
      ghost var before := TasksOf(d.goalId);
      ghost var k := View(d.goalId);
      dags := dags[d.goalId := d];
      SavingGrows(k, d.tasks, now);
    }

    method LoadDAG(g: string) returns (r: Result<Dag, Error>)
      ensures r == if g in dags then Ok(dags[g]) else Err(GoalNotFound)
    {
      if g !in dags {
        return Err(GoalNotFound);
      }
      return Ok(dags[g]);
    }

    /** The first claimable task in id order. */
    ghost predicate First(m: Table, id: Id, now: int) {
      Claimable(m, id, now) && forall other | Claimable(m, other, now) :: other == id || Order.Less(id, other)
    }

    /** Leases the first claimable task in id order; the goal's own state is checked first. */
    method Claim(g: string, worker: string, lease: int, now: int) returns (r: Result<Id, Error>)
      requires Valid()
      modifies DagOf(g)
      ensures Valid()
      ensures r.Ok? <==> Goals.Claimable(old(View(g)).goal) && exists id :: Claimable(old(TasksOf(g)), id, now)
      ensures r.Ok? ==> First(old(TasksOf(g)), r.value, now)
      ensures Did(g, if r.Ok? then Label.Claim(r.value, worker, now + lease) else Refuse, now)
    {
      hide DepsReady, Propagated;
      if g !in goals {
        return Err(GoalNotFound);
      }
      if goals[g].state != Goals.Running {
        return Err(NoWork);
      }
      if g !in dags {
        return Err(GoalNotFound);
      }
      var d := dags[g];
      var ids := d.ClaimableSet(now);
      if ids == [] {
        assert forall id | Claimable(d.tasks, id, now) :: id in ids;
        return Err(NoWork);
      }
      var id := ids[0];
      assert id in ids;
      LeaseOut(d, id, worker, now + lease, now);
      return Ok(id);
    }

    /** The moves of one claim, each checked against the table; a reclaim passes through ready. */
    method LeaseOut(d: Dag, id: Id, worker: string, until: int, now: int)
      requires Claimable(d.tasks, id, now)
      modifies d
      ensures d.tasks == old(d.tasks)[id := ClaimedRow(old(d.tasks)[id], worker, until)]
    {
      if d.tasks[id].state == Running {
        var ok := d.Transition(id, Ready);
        assert ok;
      }
      if d.tasks[id].state == Pending {
        var ok := d.Transition(id, Ready);
        assert ok;
      }
      var ok := d.Transition(id, Running);
      assert ok;
      var t := d.tasks[id];
      d.tasks := d.tasks[id := t.(leasedBy := worker, expiry := At(until), attempt := t.attempt + 1)];
    }

    /** Whether this worker still holds a live lease on the task. */
    method HeldBy(g: string, id: Id, worker: string, now: int) returns (r: Result<Dag, Error>)
      ensures r.Ok? <==> Held(TasksOf(g), id, worker, now)
      ensures r.Ok? ==> g in dags && r.value == dags[g]
      ensures r == Err(LeaseLost) <==> id in TasksOf(g) && !Held(TasksOf(g), id, worker, now)
    {
      if g !in dags {
        return Err(GoalNotFound);
      }
      var d := dags[g];
      if id !in d.tasks {
        return Err(TaskNotFound);
      }
      if d.tasks[id].leasedBy != worker {
        return Err(LeaseLost);
      }
      if !d.tasks[id].expiry.After(now) {
        return Err(LeaseLost);
      }
      return Ok(d);
    }

    method Renew(g: string, id: Id, worker: string, lease: int, now: int) returns (r: Result<(), Error>)
      requires Valid()
      modifies DagOf(g)
      ensures Valid()
      ensures r.Ok? <==> Held(old(TasksOf(g)), id, worker, now)
      ensures Did(g, if r.Ok? then Label.Renew(id, worker, now + lease) else Refuse, now)
    {
      var held := HeldBy(g, id, worker, now);
      if held.Err? {
        return Err(held.error);
      }
      var d := held.value;
      d.tasks := d.tasks[id := d.tasks[id].(expiry := At(now + lease))];
      return Ok(());
    }

    /** Records an outcome and gives the lease up, and on failure blocks everything downstream. */
    method Complete(g: string, id: Id, worker: string, next: State, result: string, now: int)
      returns (r: Result<(), Error>)
      requires Valid()
      modifies DagOf(g)
      ensures Valid()
      ensures r.Ok? <==> Held(old(TasksOf(g)), id, worker, now) && CanTransition(old(TasksOf(g))[id].state, next)
      ensures Did(g, if r.Ok? then Label.Complete(id, worker, next, result) else Refuse, now)
      ensures r.Ok? ==> id in TasksOf(g) && TasksOf(g)[id].state == next && TasksOf(g)[id].result == result
    {
      var held := HeldBy(g, id, worker, now);
      if held.Err? {
        return Err(held.error);
      }
      var d := held.value;
      var ok := Finish(d, id, next, result);
      if !ok {
        return Err(IllegalMove);
      }
      return Ok(());
    }

    /** The writes of Complete: the task's own row, then whatever its failure blocks. */
    method Finish(d: Dag, id: Id, next: State, result: string) returns (ok: bool)
      requires id in d.tasks && Closed(d.tasks)
      modifies d
      ensures ok == CanTransition(old(d.tasks)[id].state, next)
      ensures ok ==> d.tasks == var m := old(d.tasks)[id := CompletedRow(old(d.tasks)[id], next, result)];
                                if next == Failed then Propagated(m) else m
      ensures ok ==> id in d.tasks && d.tasks[id].state == next && d.tasks[id].result == result
      ensures !ok ==> d.tasks == old(d.tasks)
      ensures Closed(d.tasks)
    {
      ok := Record(d, id, next, result);
      if ok && next == Failed {
        if id in DoomedSet(d.tasks) {
          DoomedIsUnfinished(d.tasks, id);
        }
        BlockedStaysClosed(d.tasks, DoomedSet(d.tasks));
        var _ := d.PropagateFailure();
      }
    }

    method Record(d: Dag, id: Id, next: State, result: string) returns (ok: bool)
      requires id in d.tasks && Closed(d.tasks)
      modifies d
      ensures ok == CanTransition(old(d.tasks)[id].state, next)
      ensures d.tasks == if ok then old(d.tasks)[id := CompletedRow(old(d.tasks)[id], next, result)] else old(d.tasks)
      ensures ok ==> d.tasks[id].state == next && d.tasks[id].result == result
      ensures Closed(d.tasks)
    {
      PutKeepsClosed(d.tasks, id, CompletedRow(d.tasks[id], next, result));
      ok := d.Transition(id, next);
      if ok {
        d.tasks := d.tasks[id := d.tasks[id].(result := result)];
        d.tasks := d.tasks[id := d.tasks[id].(leasedBy := "", expiry := Unset)];
      }
    }

    /** Gives a task back without consuming its outcome. */
    method Release(g: string, id: Id, worker: string, now: int) returns (r: Result<(), Error>)
      requires Valid()
      modifies DagOf(g)
      ensures Valid()
      ensures r.Ok? <==> Held(old(TasksOf(g)), id, worker, now) && CanTransition(old(TasksOf(g))[id].state, Ready)
      ensures Did(g, if r.Ok? then Label.Release(id, worker) else Refuse, now)
    {
      var held := HeldBy(g, id, worker, now);
      if held.Err? {
        return Err(held.error);
      }
      var d := held.value;
      var ok := GiveBack(d, id);
      if !ok {
        return Err(IllegalMove);
      }
      return Ok(());
    }

    /** The writes of Release. */
    method GiveBack(d: Dag, id: Id) returns (ok: bool)
      requires id in d.tasks && Closed(d.tasks)
      modifies d
      ensures ok == CanTransition(old(d.tasks)[id].state, Ready)
      ensures d.tasks == if ok then old(d.tasks)[id := ReleasedRow(old(d.tasks)[id])] else old(d.tasks)
      ensures Closed(d.tasks)
    {
      PutKeepsClosed(d.tasks, id, ReleasedRow(d.tasks[id]));
      ok := d.Transition(id, Ready);
      if ok {
        d.tasks := d.tasks[id := d.tasks[id].(leasedBy := "", expiry := Unset)];
      }
    }

    /** Answers a parked task; a second answer finds it no longer parked. */
    method Decide(g: string, id: Id, approve: bool, now: int) returns (r: Result<(), Error>)
      requires Valid()
      modifies DagOf(g)
      ensures Valid()
      ensures r.Ok? <==> id in old(TasksOf(g)) && old(TasksOf(g))[id].state.AwaitingApproval?
      ensures Did(g, if r.Ok? then Label.Decide(id, approve) else Refuse, now)
    {
      if g !in dags {
        return Err(GoalNotFound);
      }
      var d := dags[g];
      if id !in d.tasks {
        return Err(TaskNotFound);
      }
      if d.tasks[id].state != AwaitingApproval {
        return Err(NotClaimable);
      }
      Answer(d, id, approve);
      return Ok(());
    }

    /** The writes of Decide: the task's own row, then whatever a refusal blocks. */
    method Answer(d: Dag, id: Id, approve: bool)
      requires id in d.tasks && d.tasks[id].state.AwaitingApproval? && Closed(d.tasks)
      modifies d
      ensures d.tasks == var m := old(d.tasks)[id := DecidedRow(old(d.tasks)[id], approve)];
                         if approve then m else Propagated(m)
      ensures Closed(d.tasks)
    {
      RecordAnswer(d, id, approve);
      if !approve {
        BlockedStaysClosed(d.tasks, DoomedSet(d.tasks));
        var _ := d.PropagateFailure();
      }
    }

    method RecordAnswer(d: Dag, id: Id, approve: bool)
      requires id in d.tasks && d.tasks[id].state.AwaitingApproval? && Closed(d.tasks)
      modifies d
      ensures d.tasks == old(d.tasks)[id := DecidedRow(old(d.tasks)[id], approve)]
      ensures Closed(d.tasks)
    {
      PutKeepsClosed(d.tasks, id, DecidedRow(d.tasks[id], approve));
      var ok := d.Transition(id, if approve then Ready else Cancelled);
      assert ok;
      d.tasks := d.tasks[id := d.tasks[id].(approved := approve)];
    }

    /** Stops a run: the goal first, then every task no live worker is holding. */
    method Cancel(g: string, now: int) returns (r: Result<nat, Error>)
      requires Valid()
      modifies this, DagOf(g)
      ensures Valid()
      ensures r.Ok? <==> g in old(goals) && !Goals.Terminal(old(goals)[g].state)
      ensures r != Err(IllegalMove)
      ensures r.Ok? ==> r.value == |Taken(old(TasksOf(g)), now)|
      ensures Did(g, if r.Ok? then Label.Cancel else Refuse, now)
    {
      if g !in goals {
        return Err(GoalNotFound);
      }
      if Goals.Terminal(goals[g].state) {
        return Err(GoalEnded);
      }
      goals := goals[g := goals[g].(state := Goals.Cancelled)];
      if g !in dags {
        return Ok(0);
      }
      r := CancelTasks(dags[g], now);
    }

    /** The loop of Cancel, in the map's arbitrary order. */
    method CancelTasks(d: Dag, now: int) returns (r: Result<nat, Error>)
      modifies d
      ensures r == Ok(|Taken(old(d.tasks), now)|)
      ensures d.tasks == CancelAll(old(d.tasks), now)
    {
      ghost var m, all := d.tasks, Taken(d.tasks, now);
      var rest, took := d.tasks.Keys, 0;
      assert all - rest == {};
      while rest != {}
        invariant rest <= m.Keys && took == |all - rest|
        invariant d.tasks == CancelSome(m, all - rest)
      {
        var id :| id in rest;
        CancelNext(m, now, all, rest, id);
        rest := rest - {id};
        var one := CancelOne(d, id, now);
        if one.Err? {
          return one;
        }
        took := took + one.value;
      }
      assert all - rest == all;
      return Ok(took);
    }

    /** One task of the loop; the illegal move it guards against cannot happen. */
    method CancelOne(d: Dag, id: Id, now: int) returns (r: Result<nat, Error>)
      requires id in d.tasks
      modifies d
      ensures r == Ok(if old(d.tasks)[id].Cancellable(now) then 1 else 0)
      ensures d.tasks == if r == Ok(1) then old(d.tasks)[id := old(d.tasks)[id].(state := Cancelled)] else old(d.tasks)
    {
      if !d.tasks[id].Cancellable(now) {
        return Ok(0);
      }
      var ok := d.Transition(id, Cancelled);
      if !ok {
        return Err(IllegalMove);
      }
      return Ok(1);
    }

    ghost function CancelSome(m: Table, ids: set<Id>): Table {
      map id | id in m :: if id in ids then m[id].(state := Cancelled) else m[id]
    }

    /** One turn of the loop: the next task is cancelled if it may be, and left alone otherwise. */
    lemma CancelNext(m: Table, now: int, all: set<Id>, rest: set<Id>, id: Id)
      requires all == Taken(m, now) && id in rest && rest <= m.Keys
      ensures var done, done' := CancelSome(m, all - rest), CancelSome(m, all - (rest - {id}));
        && done[id] == m[id]
        && done' == (if m[id].Cancellable(now) then done[id := m[id].(state := Cancelled)] else done)
      ensures |all - (rest - {id})| == |all - rest| + if m[id].Cancellable(now) then 1 else 0
    {
      assert all - (rest - {id}) == if m[id].Cancellable(now) then (all - rest) + {id} else all - rest;
    }
  }
}
