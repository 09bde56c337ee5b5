/** The durable store: guarded UPDATEs over rows, each statement (or transaction) one atomic step. */
module PostgresStore {
  import opened Tasks
  import opened Dags
  import opened Protocol
  import opened Wrappers
  import Goals
  import Order

  datatype Error =
    | GoalNotFound | GoalTerminal | GoalEnded | NoWork | LeaseLost | NotClaimable | NoIdempotency | BadGraph

  /** The rows an UPDATE's WHERE clause selects. */
  function Where(m: Table, p: (Id, Row) -> bool): set<Id> {
    set id | id in m && p(id, m[id])
  }

  /** An UPDATE: every selected row is rewritten at once. */
  function Update(m: Table, p: (Id, Row) -> bool, write: Row -> Row): Table {
    map id | id in m :: if p(id, m[id]) then write(m[id]) else m[id]
  }

  lemma UpdateOne(m: Table, id: Id, p: (Id, Row) -> bool, write: Row -> Row)
    requires forall i, r | p(i, r) :: i == id
    ensures Update(m, p, write) == if id in m && p(id, m[id]) then m[id := write(m[id])] else m
    ensures Where(m, p) == if id in m && p(id, m[id]) then {id} else {}
  {
  }

  /** INSERT ... ON CONFLICT: a new row starts unleased; an old one takes only kind and edges. */
  function UpsertRow(m: Table, id: Id, t: Row): Row {
    if id in m then m[id].(kind := t.kind, dependsOn := t.dependsOn, contributes := t.contributes)
    else t.(leasedBy := "", expiry := Unset, approved := false)
  }

  /** Nothing of the work on a stored task has changed. */
  predicate KeepsWork(m: Table, m': Table) {
    forall id | id in m :: id in m'
      && m'[id].state == m[id].state && m'[id].attempt == m[id].attempt && m'[id].approved == m[id].approved
      && m'[id].result == m[id].result && m'[id].leasedBy == m[id].leasedBy && m'[id].expiry == m[id].expiry
      && m'[id].spawnDepth == m[id].spawnDepth && m'[id].idempotencyKey == m[id].idempotencyKey
  }

  /** A new row has everything of the task it was made for, but no lease and no answer. */
  predicate AddsAsPlanned(m: Table, d: Table, m': Table) {
    forall id | id in m' && id !in m :: id in d
      && m'[id].kind == d[id].kind && m'[id].dependsOn == d[id].dependsOn && m'[id].contributes == d[id].contributes
      && m'[id].spawnDepth == d[id].spawnDepth && m'[id].idempotencyKey == d[id].idempotencyKey
      && m'[id].state == d[id].state && m'[id].attempt == d[id].attempt && m'[id].result == d[id].result
      && m'[id].leasedBy == "" && m'[id].expiry == Unset && !m'[id].approved
  }

  function Upsert(m: Table, d: Table): Table {
    m + map id | id in d :: UpsertRow(m, id, d[id])
  }

  /** A snapshot of the stored graph, however old, with some new tasks planned on top. */
  ghost predicate Extends(m: Table, d: Table) {
    && (forall id | id in m && id in d ::
          && d[id].kind == m[id].kind
          && d[id].dependsOn == m[id].dependsOn && d[id].contributes == m[id].contributes)
    && (forall id | id in d && id !in m :: Unclaimed(d[id]))
    && Closed(m + (d - m.Keys)) && Acyclic(m + (d - m.Keys))
  }

  class Postgres {
    var goals: map<string, Goals.State>
    var tasks: map<string, Table>

    /** A goal's rows. */
    function RowsOf(g: string): Table
      reads this
    {
      if g in tasks then tasks[g] else map[]
    }

    ghost function View(g: string): Kernel
      reads this
    {
      Kernel(if g in goals then Goals.Goal(goals[g]) else Goals.NoGoal, RowsOf(g))
    }

    /** This statement did `l` to one goal and nothing to any other. */
    twostate predicate Did(g: string, l: Label, now: int)
      reads this
    {
      Statement(old(View(g)), l, now, View(g)) && Others(g)
    }

    twostate predicate Others(g: string)
      reads this
    {
      forall h | h != g :: View(h) == old(View(h))
    }

    /** Runs one UPDATE over a goal's rows and reports how many it wrote. */
    method Execute(g: string, p: (Id, Row) -> bool, write: Row -> Row) returns (affected: nat)
      modifies this
      ensures goals == old(goals) && tasks == old(tasks)[g := Update(old(RowsOf(g)), p, write)]
      ensures affected == |Where(old(RowsOf(g)), p)|
    {
      affected := |Where(RowsOf(g), p)|;
      tasks := tasks[g := Update(RowsOf(g), p, write)];
    }

    /** A transaction with the goal row locked: the check and the write are one step. */
    method SaveGoal(g: string, incoming: Goals.State, now: int) returns (r: Result<(), Error>)
      modifies this
      ensures r == Err(GoalNotFound) <==> g !in old(goals)
      ensures Did(g, if r.Ok? then Save(incoming) else Refuse, now)
    {
      if g !in goals {
        return Err(GoalNotFound);
      }
      if Goals.Terminal(goals[g]) && incoming != goals[g] {
        return Err(GoalTerminal);
      }
      goals := goals[g := incoming];
      return Ok(());
    }

    /** Upserts a snapshot in one transaction. However stale it is, no state, attempt, lease or result of a
        stored task changes; when it only adds tasks, and only then, it is the protocol's growing step. */
    method SaveDAG(g: string, d: Table, now: int) returns (r: Result<(), Error>)
      modifies this
      ensures r.Err? <==> exists id | id in d :: NeedsKey(d[id])
      ensures goals == old(goals)
      ensures RowsOf(g) == if r.Ok? then Upsert(old(RowsOf(g)), d) else old(RowsOf(g))
      ensures KeepsWork(old(RowsOf(g)), RowsOf(g)) && AddsAsPlanned(old(RowsOf(g)), d, RowsOf(g))
      ensures r.Ok? ==>
        (Extends(old(RowsOf(g)), d) <==> Next(old(View(g)), Grow(d - old(RowsOf(g)).Keys), now, View(g)))
      ensures Others(g)
    {
      hide KeepsWork, AddsAsPlanned;
      UpsertKeeps(RowsOf(g), d);
      var staged := Stage(RowsOf(g), d);
      if staged.Err? {
        return Err(staged.error);
      }
      ghost var k := View(g);
      tasks := tasks[g := staged.value];
      if Extends(k.tasks, d) {
        UpsertGrows(k, d, now);
      } else if Next(k, Grow(d - k.tasks.Keys), now, View(g)) {
        GrowthExtends(k, d, now);
      }
      return Ok(());
    }

    /** The loop of SaveDAG inside its transaction, in the map's arbitrary order; an error rolls it back. */
    method Stage(m: Table, d: Table) returns (r: Result<Table, Error>)
      ensures r.Err? <==> exists id | id in d :: NeedsKey(d[id])
      ensures r.Ok? ==> r.value == Upsert(m, d)
    {
      var staged, rest := m, d.Keys;
      while rest != {}
        invariant rest <= d.Keys && forall id | id in d && id !in rest :: !NeedsKey(d[id])
        invariant staged == Upsert(m, d - rest)
      {
        var id :| id in rest;
        if NeedsKey(d[id]) {
          return Err(NoIdempotency);
        }
        UpsertNext(m, d, rest, id);
        rest := rest - {id};
        staged := staged[id := UpsertRow(staged, id, d[id])];
      }
      assert d - {} == d;
      return Ok(staged);
    }

    /** Rebuilds the graph from rows; a stored graph that keeps the invariant always loads. */
    method LoadDAG(g: string) returns (r: Result<Dag, Error>)
      ensures RowsOf(g) == map[] ==> r == Err(GoalNotFound)
      ensures r.Ok? ==> r.value.tasks == RowsOf(g)
      ensures RowsOf(g) != map[] && Closed(RowsOf(g)) && Acyclic(RowsOf(g)) ==> r.Ok?
    {
      var m := RowsOf(g);
      if m == map[] {
        return Err(GoalNotFound);
      }
      var ids := Order.SortedKeys(m.Keys);
      var ts := seq(|ids|, i requires 0 <= i < |ids| && ids[i] in m => Named(ids[i], m[ids[i]]));
      RowsRebuild(m, ids, ts);
      var built := Dag.NewDAG(g, ts);
      match built {
        case Built(d) => return Ok(d);
        case Refused(_) =>
          if Acyclic(m) {
            AcyclicHasNoCycle(m);
          }
          return Err(BadGraph);
      }
    }

    /** Takes the first claimable row nobody has locked; `locked` are the rows SKIP LOCKED steps over. */
    method Claim(g: string, worker: string, lease: int, locked: set<Id>, now: int) returns (r: Result<Id, Error>)
      modifies this
      ensures r.Ok? <==> Goals.Claimable(old(View(g)).goal) && Free(old(RowsOf(g)), locked, now) != {}
      ensures r.Ok? ==> r.value in Free(old(RowsOf(g)), locked, now)
      ensures r.Ok? ==> forall id | id in Free(old(RowsOf(g)), locked, now) :: id == r.value || Order.Less(r.value, id)
      ensures Did(g, if r.Ok? then Label.Claim(r.value, worker, now + lease) else Refuse, now)
    {
      if g !in goals || goals[g] != Goals.Running {
        return Err(NoWork);
      }
      var m := RowsOf(g);
      var free := Free(m, locked, now);
      if free == {} {
        return Err(NoWork);
      }
      var chosen := Order.Least(free);
      var p := (id: Id, r: Row) => id == chosen;
      var write := (r: Row) => ClaimedRow(r, worker, now + lease);
      UpdateOne(m, chosen, p, write);
      var _ := Execute(g, p, write);
      return Ok(chosen);
    }

    method Renew(g: string, id: Id, worker: string, lease: int, now: int) returns (r: Result<(), Error>)
      modifies this
      ensures r.Ok? <==> Held(old(RowsOf(g)), id, worker, now)
      ensures Did(g, if r.Ok? then Label.Renew(id, worker, now + lease) else Refuse, now)
    {
      var m := RowsOf(g);
      var p := HeldClause(id, worker, now);
      var write := (r: Row) => r.(expiry := At(now + lease));
      UpdateOne(m, id, p, write);
      var affected := Execute(g, p, write);
      return if affected == 0 then Err(LeaseLost) else Ok(());
    }

    /** The completing statement. It never consults the transition table. */
    method Complete(g: string, id: Id, worker: string, next: State, result: string, now: int)
      returns (r: Result<(), Error>)
      modifies this
      ensures r.Ok? <==> Held(old(RowsOf(g)), id, worker, now)
      ensures Did(g, if r.Ok? then Label.Complete(id, worker, next, result) else Refuse, now)
      ensures r.Ok? ==> id in RowsOf(g) && RowsOf(g)[id].state == next && RowsOf(g)[id].result == result
    {
      var m := RowsOf(g);
      var p := HeldClause(id, worker, now);
      var write := (r: Row) => CompletedRow(r, next, result);
      UpdateOne(m, id, p, write);
      var affected := Execute(g, p, write);
      return if affected == 0 then Err(LeaseLost) else Ok(());
    }

    /** Nor does the releasing one. */
    method Release(g: string, id: Id, worker: string, now: int) returns (r: Result<(), Error>)
      modifies this
      ensures r.Ok? <==> Held(old(RowsOf(g)), id, worker, now)
      ensures Did(g, if r.Ok? then Label.Release(id, worker) else Refuse, now)
    {
      var m := RowsOf(g);
      var p := HeldClause(id, worker, now);
      var write := (r: Row) => ReleasedRow(r);
      UpdateOne(m, id, p, write);
      var affected := Execute(g, p, write);
      return if affected == 0 then Err(LeaseLost) else Ok(());
    }

    method Decide(g: string, id: Id, approve: bool, now: int) returns (r: Result<(), Error>)
      modifies this
      ensures r.Ok? <==> id in old(RowsOf(g)) && old(RowsOf(g))[id].state.AwaitingApproval?
      ensures Did(g, if r.Ok? then Label.Decide(id, approve) else Refuse, now)
    {
      var m := RowsOf(g);
      var p := (i: Id, r: Row) => i == id && r.state == AwaitingApproval;
      var write := (r: Row) => DecidedRow(r, approve);
      UpdateOne(m, id, p, write);
      var affected := Execute(g, p, write);
      return if affected == 0 then Err(NotClaimable) else Ok(());
    }

    /** One transaction: the goal row first, then every task no live lease protects. */
    method Cancel(g: string, now: int) returns (r: Result<nat, Error>)
      modifies this
      ensures r.Ok? <==> g in old(goals) && !Goals.Terminal(old(goals)[g])
      ensures r.Ok? ==> r.value == |Taken(old(RowsOf(g)), now)|
      ensures Did(g, if r.Ok? then Label.Cancel else Refuse, now)
    {
      if g !in goals {
        return Err(GoalNotFound);
      }
      if Goals.Terminal(goals[g]) {
        return Err(GoalEnded);
      }
      goals := goals[g := Goals.Cancelled];
      var m := RowsOf(g);
      var p := (id: Id, r: Row) => !Terminal(r.state) && !(r.leasedBy != "" && r.expiry.After(now));
      var affected := Execute(g, p, (r: Row) => r.(state := Cancelled));
      assert RowsOf(g) == CancelAll(m, now);
      assert Where(m, p) == Taken(m, now);
      return Ok(affected);
    }

    /** One round of propagation: every task with a dead required dependency is blocked at once. */
    method Round(g: string, now: int) returns (affected: nat, ghost ids: set<Id>)
      modifies this
      ensures goals == old(goals) && RowsOf(g) == BlockAll(old(RowsOf(g)), ids)
      ensures affected == |ids| && ids <= DoomedSet(old(RowsOf(g)))
      ensures forall id :: id in ids <==> Hit(old(RowsOf(g)), id)
      ensures Did(g, Block(ids), now)
    {
      var m := RowsOf(g);
      var p := (id: Id, r: Row) => Hit(m, id);
      ids := Where(m, p);
      HitsAreDoomed(m);
      affected := Execute(g, p, (r: Row) => r.(state := Blocked));
      assert RowsOf(g) == BlockAll(m, ids);
    }

    /** Rounds until one changes nothing. Left undisturbed they reach the in-memory sweep's table. */
    method PropagateFailure(g: string, now: int)
      modifies this
      ensures goals == old(goals)
      ensures RowsOf(g) == Propagated(old(RowsOf(g))) && Others(g)
    {
      ghost var m := RowsOf(g);
      ghost var done: set<Id> := {};
      assert BlockAll(m, {}) == m;
      while true
        invariant goals == old(goals) && PartlyBlocked(m, RowsOf(g), done) && Others(g)
        decreases DoomedSet(m) - done
      {
        ghost var c := RowsOf(g);
        var affected, ids := Round(g, now);
        RoundIsPartial(m, c, done, ids);
        if affected == 0 {
          break;
        }
        done := done + ids;
      }
      SettledIsFixpoint(m, RowsOf(g), done);
    }
  }

  /** The claimable rows that no other transaction has locked. */
  function Free(m: Table, locked: set<Id>, now: int): set<Id> {
    set id | id in m && Claimable(m, id, now) && id !in locked
  }

  /** The predicate for a lease still held, shared by every write under one. */
  function HeldClause(id: Id, worker: string, now: int): (Id, Row) -> bool {
    (i: Id, r: Row) => i == id && r.leasedBy == worker && r.expiry.After(now)
  }

  lemma HitsAreDoomed(m: Table)
    ensures forall id | Hit(m, id) :: id in DoomedSet(m)
  {
    assert BlockAll(m, {}) == m;
    forall id | Hit(m, id) ensures id in DoomedSet(m) {
      HitIsDoomed(m, m, {}, id);
    }
  }

  lemma RoundIsPartial(m: Table, c: Table, done: set<Id>, ids: set<Id>)
    requires PartlyBlocked(m, c, done)
    requires forall id :: id in ids <==> Hit(c, id)
    ensures PartlyBlocked(m, BlockAll(c, ids), done + ids)
    ensures if ids == {} then Settled(c) && BlockAll(c, ids) == c
            else DoomedSet(m) - (done + ids) < DoomedSet(m) - done
  {
    forall id | id in ids ensures id in DoomedSet(m) && id !in done {
      HitIsDoomed(m, c, done, id);
    }
    if ids != {} {
      var x :| x in ids;
      assert x in DoomedSet(m) - done && x !in DoomedSet(m) - (done + ids);
    }
  }

  lemma UpsertNext(m: Table, d: Table, rest: set<Id>, id: Id)
    requires id in rest && rest <= d.Keys
    ensures var staged := Upsert(m, d - rest);
      staged[id := UpsertRow(staged, id, d[id])] == Upsert(m, d - (rest - {id}))
  {
  }

  lemma UpsertKeeps(m: Table, d: Table)
    ensures KeepsWork(m, Upsert(m, d)) && AddsAsPlanned(m, d, Upsert(m, d))
    ensures KeepsWork(m, m) && AddsAsPlanned(m, d, m)
  {
  }

  /** An upsert of a snapshot with new tasks on top is the growing step, and only such an upsert is. */
  lemma UpsertGrows(k: Kernel, d: Table, now: int)
    requires Extends(k.tasks, d)
    ensures Next(k, Grow(d - k.tasks.Keys), now, Kernel(k.goal, Upsert(k.tasks, d)))
  {
    var added := d - k.tasks.Keys;
    UpsertIsUnion(k.tasks, d);
    assert forall id | id in added :: added[id] == d[id];
    assert Enabled(k, Grow(added), now);
  }

  lemma GrowthExtends(k: Kernel, d: Table, now: int)
    requires Next(k, Grow(d - k.tasks.Keys), now, Kernel(k.goal, Upsert(k.tasks, d)))
    ensures Extends(k.tasks, d)
  {
    var m, added := k.tasks, d - k.tasks.Keys;
    assert forall id | id in added :: added[id] == d[id];
    assert Upsert(m, d) == m + added;
    forall id | id in m && id in d ensures UpsertRow(m, id, d[id]) == m[id] {
    }
  }

  lemma UpsertIsUnion(m: Table, d: Table)
    requires Extends(m, d)
    ensures Upsert(m, d) == m + (d - m.Keys)
  {
    forall id | id in d ensures UpsertRow(m, id, d[id]) == if id in m then m[id] else d[id] {
      assert id !in m ==> Unclaimed(d[id]);
    }
  }

  lemma RowsRebuild(m: Table, ids: seq<Id>, ts: seq<Named>)
    requires Order.Sorted(ids) && forall id :: id in m <==> id in ids
    requires |ts| == |ids| && forall i | 0 <= i < |ids| :: ids[i] in m && ts[i] == Named(ids[i], m[ids[i]])
    ensures DistinctIds(ts) && TableOf(ts) == m
  {
    forall i, j | 0 <= i < j < |ts| ensures ts[i].id != ts[j].id {
      Order.LessIsStrict(ids[i], ids[j]);
    }
    RowsOfTable(m, ids, ts);
  }

  lemma RowsOfTable(m: Table, ids: seq<Id>, ts: seq<Named>)
    requires DistinctIds(ts) && forall id :: id in m <==> id in ids
    requires |ts| == |ids| && forall i | 0 <= i < |ids| :: ids[i] in m && ts[i] == Named(ids[i], m[ids[i]])
    ensures TableOf(ts) == m
  {
    TableOfDistinct(ts);
    forall id | id in m ensures id in TableOf(ts) && TableOf(ts)[id] == m[id] {
      var i :| 0 <= i < |ids| && ids[i] == id;
      assert ts[i].id == id;
    }
    TableOfRows(ts);
    forall id | id in TableOf(ts) ensures id in m {
      var i :| 0 <= i < |ts| && ts[i] == Named(id, TableOf(ts)[id]);
    }
  }
}
