/** The task state machine and the facts about a goal's task table that every store relies on. */
module Tasks {

  type Id = string

  datatype State =
    | Pending | Ready | Running | AwaitingApproval
    | Succeeded | Failed | Blocked | Cancelled

  predicate Terminal(s: State) {
    s.Succeeded? || s.Failed? || s.Blocked? || s.Cancelled?
  }

  /** The terminal states that can never satisfy a required dependency. */
  predicate Dead(s: State) {
    s.Failed? || s.Blocked? || s.Cancelled?
  }

  /** The transition table. */
  predicate CanTransition(from: State, to: State) {
    match from
    case Pending => to.Ready? || to.Blocked? || to.Cancelled?
    case Ready => to.Running? || to.Blocked? || to.Cancelled?
    case Running => to.Succeeded? || to.Failed? || to.AwaitingApproval? || to.Ready? || to.Cancelled?
    case AwaitingApproval => to.Ready? || to.Cancelled? || to.Failed?
    case Succeeded => false
    case Failed => false
    case Blocked => false
    case Cancelled => false
  }

  /** The same table read from where a move ends. */
  lemma MovesByTarget(from: State, to: State)
    ensures CanTransition(from, to) <==>
      match to
      case Pending => false
      case Ready => from in {Pending, Running, AwaitingApproval}
      case Running => from == Ready
      case AwaitingApproval => from == Running
      case Succeeded => from == Running
      case Failed => from in {Running, AwaitingApproval}
      case Blocked => from in {Pending, Ready}
      case Cancelled => from in {Pending, Ready, Running, AwaitingApproval}
  {
  }

  /** A state is terminal exactly when no move leaves it, and dead when it is terminal without having succeeded. */
  lemma TerminalIsStuck(s: State)
    ensures Terminal(s) <==> forall to :: !CanTransition(s, to)
    ensures Dead(s) <==> s != Succeeded && forall to :: !CanTransition(s, to)
  {
    assert Terminal(s) || CanTransition(s, Cancelled);
  }

  /** A lease expiry; `Unset` is Go's zero time and SQL's NULL. */
  datatype Expiry = Unset | At(t: int) {
    predicate After(now: int) {
      At? && t > now
    }
  }

  /** One task's stored columns. */
  datatype Row = Row(
    kind: string,
    dependsOn: seq<Id>,
    contributes: seq<Id>,
    spawnDepth: nat,
    idempotencyKey: string,
    state: State,
    attempt: nat,
    approved: bool,
    result: string,
    leasedBy: string,
    expiry: Expiry)
  {
    /** Every dependency, required and contributory. */
    function Edges(): seq<Id> {
      dependsOn + contributes
    }

    predicate Cancellable(now: int) {
      !Terminal(state) && !(leasedBy != "" && expiry.After(now))
    }
  }

  /** The task kinds that change something outside the platform. */
  predicate EffectBearing(kind: string) {
    kind == "open_pull_request" || kind == "write_source" || kind == "deliver_change" || kind == "publish_eval_set"
  }

  predicate NeedsKey(r: Row) {
    EffectBearing(r.kind) && r.idempotencyKey == ""
  }

  type Table = map<Id, Row>

  predicate Closed(m: Table) {
    forall a, b | a in m && b in m[a].Edges() :: b in m
  }

  lemma PutKeepsClosed(m: Table, id: Id, row: Row)
    requires Closed(m) && id in m && row.dependsOn == m[id].dependsOn && row.contributes == m[id].contributes
    ensures Closed(m[id := row])
  {
    var m' := m[id := row];
    assert forall a | a in m' :: m'[a].Edges() == m[a].Edges();
  }

  /** Every required dependency succeeded and every contributory one is terminal. */
  predicate DepsReady(m: Table, id: Id)
    requires id in m
  {
    && (forall d | d in m[id].dependsOn :: d in m ==> m[d].state == Succeeded)
    && (forall d | d in m[id].contributes :: d in m ==> Terminal(m[d].state))
  }

  predicate Claimable(m: Table, id: Id, now: int) {
    && id in m
    && (m[id].state.Pending? || m[id].state.Ready? || (m[id].state.Running? && !m[id].expiry.After(now)))
    && DepsReady(m, id)
  }

  predicate IsReady(m: Table, id: Id) {
    id in m && (m[id].state.Pending? || m[id].state.Ready?) && DepsReady(m, id)
  }

  /** No task is ready, running or parked, yet some task is unfinished. */
  predicate Stalled(m: Table) {
    && (forall id | id in m :: !IsReady(m, id))
    && (forall id | id in m :: !m[id].state.Running? && !m[id].state.AwaitingApproval?)
    && exists id :: id in m && !Terminal(m[id].state)
  }

  // ---- cycles ----

  ghost predicate IsPath(m: Table, p: seq<Id>) {
    && |p| >= 2
    && forall i | 0 <= i < |p| - 1 :: p[i] in m && p[i+1] in m[p[i]].Edges()
  }

  ghost predicate Reaches(m: Table, a: Id, b: Id) {
    exists p :: IsPath(m, p) && p[0] == a && p[|p|-1] == b
  }

  ghost predicate Cyclic(m: Table) {
    exists a :: Reaches(m, a, a)
  }

  /** A rank puts every task strictly above everything it depends on. */
  ghost predicate Ranked(m: Table, rank: map<Id, nat>) {
    && m.Keys <= rank.Keys
    && forall a, b | a in m && b in m[a].Edges() :: b in rank && rank[b] < rank[a]
  }

  ghost predicate Acyclic(m: Table) {
    exists rank :: Ranked(m, rank)
  }

  lemma EdgeReaches(m: Table, a: Id, b: Id)
    requires a in m && b in m[a].Edges()
    ensures Reaches(m, a, b)
  {
    assert IsPath(m, [a, b]);
  }

  lemma ReachesTransitive(m: Table, a: Id, b: Id, c: Id)
    requires Reaches(m, a, b) && Reaches(m, b, c)
    ensures Reaches(m, a, c)
  {
    var p :| IsPath(m, p) && p[0] == a && p[|p|-1] == b;
    var q :| IsPath(m, q) && q[0] == b && q[|q|-1] == c;
    var r := p + q[1..];
    forall i | 0 <= i < |r| - 1 ensures r[i] in m && r[i+1] in m[r[i]].Edges() {
      if i >= |p| - 1 {
        assert r[i] == q[i - (|p| - 1)] && r[i+1] == q[i + 1 - (|p| - 1)];
      }
    }
    assert IsPath(m, r);
  }

  lemma {:induction false} RankDescends(m: Table, rank: map<Id, nat>, p: seq<Id>)
    requires Ranked(m, rank) && IsPath(m, p)
    ensures p[0] in rank && p[|p|-1] in rank && rank[p[|p|-1]] < rank[p[0]]
    decreases |p|
  {
    assert p[0] in m && p[1] in m[p[0]].Edges();
    if |p| > 2 {
      forall i | 0 <= i < |p[1..]| - 1 ensures p[1..][i] in m && p[1..][i+1] in m[p[1..][i]].Edges() {
        assert p[i+1] in m && p[i+1+1] in m[p[i+1]].Edges();
      }
      RankDescends(m, rank, p[1..]);
    }
  }

  /** A rank rules out every cycle. */
  lemma AcyclicHasNoCycle(m: Table)
    requires Acyclic(m)
    ensures !Cyclic(m)
  {
    var rank :| Ranked(m, rank);
    forall a | Reaches(m, a, a) ensures false {
      var p :| IsPath(m, p) && p[0] == a && p[|p|-1] == a;
      RankDescends(m, rank, p);
    }
  }

  // ---- failure propagation ----

  /** `id` is unfinished and one of its required dependencies is dead. */
  predicate Hit(m: Table, id: Id) {
    && id in m && !Terminal(m[id].state)
    && exists d | d in m[id].dependsOn :: d in m && Dead(m[d].state)
  }

  /** Nothing is left for failure propagation to do. */
  predicate Settled(m: Table) {
    forall id | id in m :: !Hit(m, id)
  }

  /** A chain of required dependencies from p[0] through unfinished tasks down to a dead one. */
  ghost predicate DoomPath(m: Table, p: seq<Id>) {
    && |p| >= 2
    && (forall i | 0 <= i < |p| :: p[i] in m)
    && (forall i | 0 <= i < |p| - 1 :: !Terminal(m[p[i]].state) && p[i+1] in m[p[i]].dependsOn)
    && Dead(m[p[|p|-1]].state)
  }

  ghost predicate Doomed(m: Table, id: Id) {
    exists p :: DoomPath(m, p) && p[0] == id
  }

  ghost function DoomedSet(m: Table): (r: set<Id>) {
    set id | id in m && Doomed(m, id)
  }

  function BlockAll(m: Table, ids: set<Id>): (r: Table) {
    map id | id in m :: if id in ids then m[id].(state := Blocked) else m[id]
  }

  /** `c` is `m` with some of its doomed tasks already blocked. */
  ghost predicate PartlyBlocked(m: Table, c: Table, ids: set<Id>) {
    && ids <= DoomedSet(m)
    && c == BlockAll(m, ids)
  }

  /** Whatever one sweep may block was doomed from the start. */
  lemma HitIsDoomed(m: Table, c: Table, ids: set<Id>, id: Id)
    requires PartlyBlocked(m, c, ids) && Hit(c, id)
    ensures id !in ids && id in DoomedSet(m)
  {
    assert id !in ids;
    var d :| d in c[id].dependsOn && d in c && Dead(c[d].state);
    if d in ids {
      var p :| DoomPath(m, p) && p[0] == d;
      var q := [id] + p;
      forall i | 0 <= i < |q| - 1 ensures !Terminal(m[q[i]].state) && q[i+1] in m[q[i]].dependsOn {
        if i > 0 {
          assert q[i] == p[i-1] && q[i+1] == p[i-1+1];
        }
      }
      assert DoomPath(m, q);
    } else {
      assert DoomPath(m, [id, d]);
    }
  }

  /** The finished table of failure propagation. */
  ghost function Propagated(m: Table): (r: Table) {
    BlockAll(m, DoomedSet(m))
  }

  lemma PropagatedIsSettled(m: Table)
    ensures Settled(Propagated(m))
  {
    var c := Propagated(m);
    forall id | id in c && Hit(c, id) ensures false {
      HitIsDoomed(m, c, DoomedSet(m), id);
    }
  }

  /** A settled table has blocked a doom path from its dead end all the way to its head. */
  lemma {:induction false} SettledCoversPath(m: Table, ids: set<Id>, p: seq<Id>)
    requires Settled(BlockAll(m, ids)) && DoomPath(m, p)
    ensures p[0] in ids
    decreases |p|
  {
    var c := BlockAll(m, ids);
    if |p| > 2 {
      var q := p[1..];
      forall i | 0 <= i < |q| - 1 ensures !Terminal(m[q[i]].state) && q[i+1] in m[q[i]].dependsOn {
        assert q[i] == p[i+1] && q[i+1] == p[i+1+1];
      }
      SettledCoversPath(m, ids, q);
    }
    if p[0] !in ids {
      assert p[0+1] in m[p[0]].dependsOn;
      assert p[1] in c && Dead(c[p[1]].state);
      assert Hit(c, p[0]);
    }
  }

  /** Least fixpoint: however a settled table is reached by blocking tasks of `m`, every doomed one is in it. */
  lemma PropagatedIsLeast(m: Table, ids: set<Id>)
    requires ids <= m.Keys && Settled(BlockAll(m, ids))
    ensures DoomedSet(m) <= ids
  {
    forall id | id in DoomedSet(m) ensures id in ids {
      var p :| DoomPath(m, p) && p[0] == id;
      SettledCoversPath(m, ids, p);
    }
  }

  /** Blocking doomed tasks until nothing is hit blocks exactly the doomed ones. */
  lemma SettledIsFixpoint(m: Table, c: Table, ids: set<Id>)
    requires PartlyBlocked(m, c, ids) && Settled(c)
    ensures c == Propagated(m) && ids == DoomedSet(m)
  {
    PropagatedIsLeast(m, ids);
  }

  // ---- progress ----

  /** Some unfinished task of lowest rank: everything it depends on has finished. */
  lemma {:induction false} LowestUnfinished(m: Table, rank: map<Id, nat>, id: Id) returns (low: Id)
    requires Closed(m) && Ranked(m, rank) && id in m && !Terminal(m[id].state)
    ensures low in m && !Terminal(m[low].state)
    ensures forall d | d in m[low].Edges() :: Terminal(m[d].state)
    decreases rank[id]
  {
    if d :| d in m[id].Edges() && !Terminal(m[d].state) {
      low := LowestUnfinished(m, rank, d);
    } else {
      low := id;
    }
  }

  /** An unfinished task whose dependencies have all finished, none of the required ones dead, may run. */
  lemma LowestIsRunnable(m: Table, id: Id)
    requires Closed(m) && !Hit(m, id) && id in m && !Terminal(m[id].state)
    requires forall d | d in m[id].Edges() :: Terminal(m[d].state)
    ensures DepsReady(m, id)
  {
    forall d | d in m[id].dependsOn ensures m[d].state == Succeeded {
      assert d in m[id].Edges();
    }
    forall d | d in m[id].contributes ensures Terminal(m[d].state) {
      assert d in m[id].Edges();
    }
  }

  /** A stall on a valid graph always comes from a failure nobody propagated. */
  lemma StalledNeedsPropagation(m: Table)
    requires Closed(m) && Acyclic(m) && Stalled(m)
    ensures !Settled(m)
  {
    if Settled(m) {
      var rank :| Ranked(m, rank);
      var id :| id in m && !Terminal(m[id].state);
      var low := LowestUnfinished(m, rank, id);
      assert !IsReady(m, low);
      LowestIsRunnable(m, low);
    }
  }

  /** Propagation leaves no stall behind. */
  lemma NeverStalledAfterPropagation(m: Table)
    requires Closed(m) && Acyclic(m)
    ensures !Stalled(Propagated(m))
  {
    var c := Propagated(m);
    var rank :| Ranked(m, rank);
    assert Ranked(c, rank) by {
      forall a, b | a in c && b in c[a].Edges() ensures b in rank && rank[b] < rank[a] {
        assert c[a].Edges() == m[a].Edges();
      }
    }
    assert Closed(c) by {
      forall a, b | a in c && b in c[a].Edges() ensures b in c {
        assert c[a].Edges() == m[a].Edges();
      }
    }
    PropagatedIsSettled(m);
    if Stalled(c) {
      StalledNeedsPropagation(c);
    }
  }
}
