/** When an unfinished goal can move, in any invariant state of either store. */
module Progress {
  import opened Tasks
  import opened Protocol
  import Goals

  /** The calls that move a task: a worker's claim, outcome or return, and a person's decision. */
  predicate MovesTask(l: Label) {
    l.Claim? || l.Complete? || l.Release? || l.Decide?
  }

  /** Some call that moves a task would be let through at this time. */
  ghost predicate CanProgress(k: Kernel, now: int) {
    exists l :: MovesTask(l) && Enabled(k, l, now)
  }

  /** A worker is on the task under a live lease, or a person is asked. */
  predicate UnderWay(r: Row, now: int) {
    (r.state.Running? && r.expiry.After(now)) || r.state.AwaitingApproval?
  }

  /** There is work for somebody: a task is under way, or the goal runs and a task can be claimed. */
  predicate Work(k: Kernel, now: int) {
    || (exists id | id in k.tasks :: UnderWay(k.tasks[id], now))
    || (Goals.Claimable(k.goal) && exists id | id in k.tasks :: Claimable(k.tasks, id, now))
  }

  lemma CallIsWork(k: Kernel, l: Label, now: int)
    requires Inv(k) && MovesTask(l) && Enabled(k, l, now)
    ensures Work(k, now)
  {
    if l.Claim? {
      assert Claimable(k.tasks, l.id, now);
    } else {
      assert LeaseOk(k.tasks[l.id]);
      assert UnderWay(k.tasks[l.id], now);
    }
  }

  lemma WorkIsCall(k: Kernel, id: Id, now: int) returns (l: Label)
    requires id in k.tasks
    requires UnderWay(k.tasks[id], now) || (Goals.Claimable(k.goal) && Claimable(k.tasks, id, now))
    ensures MovesTask(l) && Enabled(k, l, now)
  {
    l := if k.tasks[id].state.AwaitingApproval? then Decide(id, true)
         else if UnderWay(k.tasks[id], now) then Release(id, k.tasks[id].leasedBy)
         else Claim(id, "", now);
  }

  /** Some such call would be let through exactly when there is work. */
  lemma ProgressIsWork(k: Kernel, now: int)
    requires Inv(k)
    ensures CanProgress(k, now) <==> Work(k, now)
  {
    hide Inv, Enabled, Claimable, UnderWay;
    if l :| MovesTask(l) && Enabled(k, l, now) {
      CallIsWork(k, l, now);
    }
    if Work(k, now) {
      var id :| id in k.tasks
        && (UnderWay(k.tasks[id], now) || (Goals.Claimable(k.goal) && Claimable(k.tasks, id, now)));
      var l := WorkIsCall(k, id, now);
    }
  }

  /** A chain of dependencies through unfinished tasks down to one that requires a dead task. */
  ghost predicate StuckPath(m: Table, p: seq<Id>) {
    && p != []
    && (forall i | 0 <= i < |p| :: p[i] in m && !Terminal(m[p[i]].state))
    && (forall i | 0 <= i < |p| - 1 :: p[i+1] in m[p[i]].Edges())
    && Hit(m, p[|p|-1])
  }

  ghost predicate Stuck(m: Table, id: Id) {
    exists p :: StuckPath(m, p) && p[0] == id
  }

  lemma StuckAbove(m: Table, id: Id, d: Id)
    requires id in m && !Terminal(m[id].state) && d in m[id].Edges() && Stuck(m, d)
    ensures Stuck(m, id)
  {
    var p :| StuckPath(m, p) && p[0] == d;
    var q := [id] + p;
    forall i | 0 <= i < |q| - 1 ensures q[i+1] in m[q[i]].Edges() {
      if i > 0 {
        assert q[i] == p[i-1] && q[i+1] == p[i-1+1];
      }
    }
    assert StuckPath(m, q);
  }

  lemma StuckPathTop(m: Table, p: seq<Id>)
    requires StuckPath(m, p)
    ensures Hit(m, p[0]) || exists d | d in m[p[0]].Edges() :: d in m && !Terminal(m[d].state)
  {
    if |p| > 1 {
      assert p[0+1] in m[p[0]].Edges();
    }
  }

  /** A task whose dependencies let it run is not stuck. */
  lemma ReadyIsNotStuck(m: Table, id: Id)
    requires id in m && DepsReady(m, id)
    ensures !Stuck(m, id)
  {
    forall p | p != [] && p[0] == id ensures !StuckPath(m, p) {
      if StuckPath(m, p) {
        StuckPathTop(m, p);
      }
    }
  }

  /** Below every unfinished task that is not stuck there is one whose dependencies let it run. */
  lemma {:induction false} RunnableBelow(m: Table, rank: map<Id, nat>, id: Id) returns (low: Id)
    requires Closed(m) && Ranked(m, rank) && id in m && !Terminal(m[id].state) && !Stuck(m, id)
    ensures low in m && !Terminal(m[low].state) && DepsReady(m, low)
    decreases rank[id]
  {
    if d :| d in m[id].Edges() && !Terminal(m[d].state) {
      if Stuck(m, d) {
        StuckAbove(m, id, d);
      }
      low := RunnableBelow(m, rank, d);
    } else {
      assert Hit(m, id) ==> StuckPath(m, [id]);
      LowestIsRunnable(m, id);
      low := id;
    }
  }

  /** Whatever the time, a running goal can move exactly when some unfinished task of it is not stuck, and any other
      goal exactly when one of its tasks is under way; that one is never stuck either. */
  lemma ProgressExactly(k: Kernel, now: int)
    requires Inv(k)
    ensures Goals.Claimable(k.goal) ==>
      (CanProgress(k, now) <==> exists id :: id in Unfinished(k.tasks) && !Stuck(k.tasks, id))
    ensures !Goals.Claimable(k.goal) ==>
      (CanProgress(k, now) <==> exists id :: id in k.tasks && UnderWay(k.tasks[id], now))
    ensures forall id | id in k.tasks && UnderWay(k.tasks[id], now) :: !Stuck(k.tasks, id)
  {
    var m := k.tasks;
    ProgressIsWork(k, now);
    forall id | id in m && (UnderWay(m[id], now) || Claimable(m, id, now))
      ensures id in Unfinished(m) && !Stuck(m, id)
    {
      ReadyIsNotStuck(m, id);
    }
    if id :| id in Unfinished(m) && !Stuck(m, id) {
      var rank :| Ranked(m, rank);
      var low := RunnableBelow(m, rank, id);
      assert UnderWay(m[low], now) || Claimable(m, low, now);
    }
  }

  lemma RunnableIsNoStall(m: Table, id: Id)
    requires id in m && !Terminal(m[id].state) && DepsReady(m, id)
    ensures !Stalled(m)
  {
    assert IsReady(m, id) || m[id].state.Running? || m[id].state.AwaitingApproval?;
  }

  /** And a stall is reported exactly when everything unfinished is stuck. */
  lemma StalledExactly(k: Kernel)
    requires Inv(k)
    ensures Stalled(k.tasks) <==>
      Unfinished(k.tasks) != {} && forall id | id in Unfinished(k.tasks) :: Stuck(k.tasks, id)
  {
    var m := k.tasks;
    if Stalled(m) {
      forall id | id in Unfinished(m) ensures Stuck(m, id) {
        if !Stuck(m, id) {
          var rank :| Ranked(m, rank);
          var low := RunnableBelow(m, rank, id);
          RunnableIsNoStall(m, low);
        }
      }
      var id :| id in m && !Terminal(m[id].state);
      assert id in Unfinished(m);
    } else if id :| id in Unfinished(m) {
      if id :| id in m && (IsReady(m, id) || m[id].state.Running? || m[id].state.AwaitingApproval?) {
        ReadyIsNotStuck(m, id);
        assert id in Unfinished(m);
      }
    }
  }

  /** With nothing left to propagate nothing is stuck. */
  lemma SettledIsNotStuck(m: Table, id: Id)
    requires Settled(m)
    ensures !Stuck(m, id)
  {
    forall p | p != [] && p[|p|-1] in m ensures !StuckPath(m, p) {
      assert !Hit(m, p[|p|-1]);
    }
  }
}
