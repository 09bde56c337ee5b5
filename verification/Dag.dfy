/** A goal's task graph as the object the in-memory store works on. */
module Dags {
  import opened Tasks
  import Order

  datatype Named = Named(id: Id, row: Row)
  datatype BuildError = Duplicate | UnknownTask | Cycle
  datatype BuildResult = Built(dag: Dag) | Refused(error: BuildError)

  predicate DistinctIds(ts: seq<Named>) {
    forall i, j | 0 <= i < j < |ts| :: ts[i].id != ts[j].id
  }

  /** The table a list of tasks describes. */
  function TableOf(ts: seq<Named>): Table {
    if ts == [] then map[] else TableOf(ts[..|ts|-1])[ts[|ts|-1].id := ts[|ts|-1].row]
  }

  lemma {:induction false} TableOfRows(ts: seq<Named>)
    ensures forall t | t in ts :: t.id in TableOf(ts)
    ensures forall id | id in TableOf(ts) :: Named(id, TableOf(ts)[id]) in ts
  {
    if ts != [] {
      TableOfRows(ts[..|ts|-1]);
      assert ts == ts[..|ts|-1] + [ts[|ts|-1]];
    }
  }

  lemma {:induction false} TableOfDistinct(ts: seq<Named>)
    requires DistinctIds(ts)
    ensures forall j | 0 <= j < |ts| :: ts[j].id in TableOf(ts) && TableOf(ts)[ts[j].id] == ts[j].row
  {
    TableOfRows(ts);
    forall j | 0 <= j < |ts| ensures TableOf(ts)[ts[j].id] == ts[j].row {
      assert ts[j] in ts;
      var i :| 0 <= i < |ts| && ts[i] == Named(ts[j].id, TableOf(ts)[ts[j].id]);
    }
  }

  lemma FoundIsDuplicate(ts: seq<Named>, i: nat)
    requires i < |ts| && ts[i].id in TableOf(ts[..i])
    ensures !DistinctIds(ts)
  {
    TableOfRows(ts[..i]);
    var j :| 0 <= j < i && ts[..i][j] == Named(ts[i].id, TableOf(ts[..i])[ts[i].id]);
    assert ts[j].id == ts[i].id;
  }

  lemma FreshStaysDistinct(ts: seq<Named>, i: nat)
    requires i < |ts| && DistinctIds(ts[..i]) && ts[i].id !in TableOf(ts[..i])
    ensures DistinctIds(ts[..i+1])
  {
    TableOfRows(ts[..i]);
    var p, q := ts[..i], ts[..i+1];
    forall j, k | 0 <= j < k < |q| ensures q[j].id != q[k].id {
      assert q[j] == p[j] && p[j] in p;
      assert k < i ==> q[k] == p[k];
    }
  }

  // ---- the three-colour search, on values ----

  datatype Colour = White | Grey | Black

  function ColourOf(colour: map<Id, Colour>, id: Id): Colour {
    if id in colour then colour[id] else White
  }

  predicate Covered(colour: map<Id, Colour>, stack: seq<Id>, p: int, deps: seq<Id>) {
    forall d | d in deps :: ColourOf(colour, d) == Black || exists j | p < j < |stack| :: 0 <= j && stack[j] == d
  }

  /** What the search knows between two looks at the top of its stack.
      `pos` is where a grey task sits, `rank` the order in which tasks turned black, below `n`.
      Tasks in `open` are still pushing their dependencies. */
  ghost predicate SearchInv(m: Table, colour: map<Id, Colour>, stack: seq<Id>,
                            pos: map<Id, nat>, rank: map<Id, nat>, n: nat, open: set<Id>)
  {
    && colour.Keys <= m.Keys
    && (forall a | a in colour :: colour[a] != White)
    && (forall s | s in stack :: s in m)
    && (forall a | a in colour && colour[a] == Grey :: GreyInv(m, colour, stack, pos, a, a in open))
    && (forall a | a in colour && colour[a] == Black :: BlackInv(m, colour, rank, n, a))
  }

  /** A grey task sits in the stack below things it reaches; each of its dependencies is finished or above it. */
  ghost predicate GreyInv(m: Table, colour: map<Id, Colour>, stack: seq<Id>, pos: map<Id, nat>, a: Id, open: bool)
    requires a in m
  {
    && a in pos && pos[a] < |stack| && stack[pos[a]] == a
    && (forall j | pos[a] < j < |stack| :: stack[j] != a && Reaches(m, a, stack[j]))
    && (!open ==> Covered(colour, stack, pos[a], m[a].Edges()))
  }

  /** A black task's dependencies are black and finished earlier. */
  ghost predicate BlackInv(m: Table, colour: map<Id, Colour>, rank: map<Id, nat>, n: nat, a: Id)
    requires a in m
  {
    && a in rank && rank[a] < n
    && forall d | d in m[a].Edges() :: ColourOf(colour, d) == Black && d in rank && rank[d] < rank[a]
  }

  /** A grey dependency closes a cycle through the task being visited. */
  lemma GreyMeansCycle(m: Table, colour: map<Id, Colour>, stack: seq<Id>,
                       pos: map<Id, nat>, rank: map<Id, nat>, n: nat, cur: Id, d: Id)
    requires SearchInv(m, colour, stack, pos, rank, n, {cur})
    requires ColourOf(colour, cur) == Grey && d in m[cur].Edges()
    requires ColourOf(colour, d) == Grey && pos[d] <= pos[cur]
    ensures Cyclic(m)
  {
    assert GreyInv(m, colour, stack, pos, cur, true);
    EdgeReaches(m, cur, d);
    if d != cur {
      assert GreyInv(m, colour, stack, pos, d, false);
      assert Reaches(m, d, stack[pos[cur]]);
      ReachesTransitive(m, cur, d, cur);
    }
  }

  /** Pushing a white dependency of the open task. */
  lemma PushKeeps(m: Table, colour: map<Id, Colour>, stack: seq<Id>,
                  pos: map<Id, nat>, rank: map<Id, nat>, n: nat, cur: Id, d: Id)
    requires SearchInv(m, colour, stack, pos, rank, n, {cur})
    requires ColourOf(colour, cur) == Grey && d in m[cur].Edges()
    requires d in m && ColourOf(colour, d) == White
    requires forall a | a in colour && colour[a] == Grey :: pos[a] <= pos[cur]
    ensures SearchInv(m, colour, stack + [d], pos, rank, n, {cur})
  {
    assert GreyInv(m, colour, stack, pos, cur, true);
    EdgeReaches(m, cur, d);
    forall a | a in colour && colour[a] == Grey ensures GreyInv(m, colour, stack + [d], pos, a, a == cur) {
      assert GreyInv(m, colour, stack, pos, a, a == cur);
      if a != cur {
        assert Reaches(m, a, stack[pos[cur]]);
        ReachesTransitive(m, a, cur, d);
        PushCovers(colour, stack, pos[a], m[a].Edges(), d);
      }
    }
  }

  lemma PushCovers(colour: map<Id, Colour>, stack: seq<Id>, p: nat, deps: seq<Id>, d: Id)
    requires Covered(colour, stack, p, deps)
    ensures Covered(colour, stack + [d], p, deps)
    ensures p < |stack| ==> Covered(colour, stack + [d], p, deps + [d])
  {
    var stack' := stack + [d];
    forall e | e in deps && ColourOf(colour, e) != Black
      ensures exists j | p < j < |stack'| :: 0 <= j && stack'[j] == e
    {
      var j :| p < j < |stack| && 0 <= j && stack[j] == e;
      assert stack'[j] == e;
    }
    assert stack'[|stack|] == d;
  }

  /** The visited task has looked at its first k edges: each is black or on the stack above it. */
  ghost predicate Pushing(m: Table, colour: map<Id, Colour>, stack: seq<Id>,
                          pos: map<Id, nat>, rank: map<Id, nat>, n: nat, cur: Id, k: nat)
    requires cur in m && k <= |m[cur].Edges()|
  {
    && SearchInv(m, colour, stack, pos, rank, n, {cur})
    && ColourOf(colour, cur) == Grey && Covered(colour, stack, pos[cur], m[cur].Edges()[..k])
  }

  lemma GreyEndsSearch(m: Table, colour: map<Id, Colour>, stack: seq<Id>,
                       pos: map<Id, nat>, rank: map<Id, nat>, n: nat, cur: Id, k: nat)
    requires cur in m && k < |m[cur].Edges()| && Pushing(m, colour, stack, pos, rank, n, cur, k)
    requires forall a | a in colour && colour[a] == Grey :: pos[a] <= pos[cur]
    requires ColourOf(colour, m[cur].Edges()[k]) == Grey
    ensures Cyclic(m)
  {
    GreyMeansCycle(m, colour, stack, pos, rank, n, cur, m[cur].Edges()[k]);
  }

  lemma PushWhite(m: Table, colour: map<Id, Colour>, stack: seq<Id>,
                  pos: map<Id, nat>, rank: map<Id, nat>, n: nat, cur: Id, k: nat)
    requires Closed(m) && cur in m && k < |m[cur].Edges()| && Pushing(m, colour, stack, pos, rank, n, cur, k)
    requires forall a | a in colour && colour[a] == Grey :: pos[a] <= pos[cur]
    requires ColourOf(colour, m[cur].Edges()[k]) == White
    ensures Pushing(m, colour, stack + [m[cur].Edges()[k]], pos, rank, n, cur, k + 1)
  {
    var edges := m[cur].Edges();
    PushKeeps(m, colour, stack, pos, rank, n, cur, edges[k]);
    PushCovers(colour, stack, pos[cur], edges[..k], edges[k]);
    assert edges[..k+1] == edges[..k] + [edges[k]];
  }

  lemma SkipBlack(m: Table, colour: map<Id, Colour>, stack: seq<Id>,
                  pos: map<Id, nat>, rank: map<Id, nat>, n: nat, cur: Id, k: nat)
    requires cur in m && k < |m[cur].Edges()| && Pushing(m, colour, stack, pos, rank, n, cur, k)
    requires ColourOf(colour, m[cur].Edges()[k]) == Black
    ensures Pushing(m, colour, stack, pos, rank, n, cur, k + 1)
  {
    hide SearchInv;
    var edges := m[cur].Edges();
    assert edges[..k+1] == edges[..k] + [edges[k]];
  }

  lemma AllPushed(m: Table, colour: map<Id, Colour>, stack: seq<Id>,
                  pos: map<Id, nat>, rank: map<Id, nat>, n: nat, cur: Id)
    requires cur in m && Pushing(m, colour, stack, pos, rank, n, cur, |m[cur].Edges()|)
    ensures SearchInv(m, colour, stack, pos, rank, n, {})
  {
    var edges := m[cur].Edges();
    assert edges[..|edges|] == edges;
    forall a | a in colour && colour[a] == Grey ensures GreyInv(m, colour, stack, pos, a, false) {
      assert GreyInv(m, colour, stack, pos, a, a == cur);
    }
  }

  /** The top of the stack turns grey. */
  lemma VisitKeeps(m: Table, colour: map<Id, Colour>, stack: seq<Id>,
                   pos: map<Id, nat>, rank: map<Id, nat>, n: nat, cur: Id)
    requires SearchInv(m, colour, stack, pos, rank, n, {})
    requires stack != [] && cur == stack[|stack|-1] && ColourOf(colour, cur) == White
    ensures SearchInv(m, colour[cur := Grey], stack, pos[cur := |stack| - 1], rank, n, {cur})
    ensures forall a | a in colour && colour[a] == Grey :: pos[a] < |stack| - 1
  {
    var colour' := colour[cur := Grey];
    var pos' := pos[cur := |stack| - 1];
    forall a | a in colour && colour[a] == Grey
      ensures GreyInv(m, colour', stack, pos', a, false) && pos[a] < |stack| - 1
    {
      assert GreyInv(m, colour, stack, pos, a, false);
      assert stack[pos[a]] == a;
    }
    forall a | a in colour && colour[a] == Black ensures BlackInv(m, colour', rank, n, a) {
      assert BlackInv(m, colour, rank, n, a);
    }
  }

  /** A grey task back on top has only finished dependencies: it turns black and is popped. */
  lemma FinishKeeps(m: Table, colour: map<Id, Colour>, stack: seq<Id>,
                    pos: map<Id, nat>, rank: map<Id, nat>, n: nat, cur: Id)
    requires SearchInv(m, colour, stack, pos, rank, n, {})
    requires stack != [] && cur == stack[|stack|-1] && ColourOf(colour, cur) == Grey
    ensures SearchInv(m, colour[cur := Black], stack[..|stack|-1], pos, rank[cur := n], n + 1, {})
  {
    var colour' := colour[cur := Black];
    assert GreyInv(m, colour, stack, pos, cur, false);
    assert pos[cur] == |stack| - 1;
    forall a | a in colour' && colour'[a] == Grey ensures GreyInv(m, colour', stack[..|stack|-1], pos, a, false) {
      GreyPops(m, colour, colour', stack, pos, a);
    }
    forall a | a in colour' && colour'[a] == Black ensures BlackInv(m, colour', rank[cur := n], n + 1, a) {
      if a != cur {
        assert BlackInv(m, colour, rank, n, a);
      } else {
        forall d | d in m[cur].Edges() ensures ColourOf(colour, d) == Black && BlackInv(m, colour, rank, n, d) {
          assert Covered(colour, stack, pos[cur], m[cur].Edges());
        }
      }
    }
    assert forall s | s in stack[..|stack|-1] :: s in stack;
  }

  /** Popping a finished entry. */
  lemma PopKeeps(m: Table, colour: map<Id, Colour>, stack: seq<Id>,
                 pos: map<Id, nat>, rank: map<Id, nat>, n: nat)
    requires SearchInv(m, colour, stack, pos, rank, n, {})
    requires stack != [] && ColourOf(colour, stack[|stack|-1]) == Black
    ensures SearchInv(m, colour, stack[..|stack|-1], pos, rank, n, {})
  {
    forall a | a in colour && colour[a] == Grey ensures GreyInv(m, colour, stack[..|stack|-1], pos, a, false) {
      GreyPops(m, colour, colour, stack, pos, a);
    }
    assert forall s | s in stack[..|stack|-1] :: s in stack;
  }

  lemma GreyPops(m: Table, colour: map<Id, Colour>, colour': map<Id, Colour>, stack: seq<Id>, pos: map<Id, nat>, a: Id)
    requires a in m && GreyInv(m, colour, stack, pos, a, false)
    requires a != stack[|stack|-1] && ColourOf(colour', stack[|stack|-1]) == Black
    requires forall b | ColourOf(colour, b) == Black :: ColourOf(colour', b) == Black
    ensures GreyInv(m, colour', stack[..|stack|-1], pos, a, false)
  {
    assert stack[pos[a]] == a;
    PopCovers(colour, colour', stack, pos[a], m[a].Edges());
  }

  predicate KeepsBlack(colour: map<Id, Colour>, colour': map<Id, Colour>) {
    forall a | a in colour && colour[a] == Black :: a in colour' && colour'[a] == Black
  }

  lemma InGraph(m: Table, colour: map<Id, Colour>, stack: seq<Id>,
                pos: map<Id, nat>, rank: map<Id, nat>, n: nat, cur: Id)
    requires SearchInv(m, colour, stack, pos, rank, n, {})
    requires stack != [] && cur == stack[|stack|-1]
    ensures cur in m
    ensures ColourOf(colour, cur) == White ==> m.Keys - colour[cur := Grey].Keys < m.Keys - colour.Keys
    ensures cur in colour ==> m.Keys - colour[cur := Black].Keys == m.Keys - colour.Keys
  {
    assert cur in stack;
    if ColourOf(colour, cur) == White {
      assert cur in m.Keys - colour.Keys && cur !in m.Keys - colour[cur := Grey].Keys;
    }
  }

  lemma NoGrey(m: Table, colour: map<Id, Colour>, pos: map<Id, nat>, rank: map<Id, nat>, n: nat, a: Id)
    requires SearchInv(m, colour, [], pos, rank, n, {}) && a in m
    ensures ColourOf(colour, a) != White ==> a in colour && colour[a] == Black
  {
    assert forall b | b in colour && colour[b] == Grey :: GreyInv(m, colour, [], pos, b, false);
  }

  lemma RootKeeps(m: Table, colour: map<Id, Colour>, root: Id, pos: map<Id, nat>, rank: map<Id, nat>, n: nat)
    requires SearchInv(m, colour, [], pos, rank, n, {}) && root in m
    ensures SearchInv(m, colour, [root], pos, rank, n, {})
  {
    forall a | a in colour ensures colour[a] == Black {
      NoGrey(m, colour, pos, rank, n, a);
    }
  }

  /** Once every task is black the finishing order ranks the whole graph. */
  lemma AllBlackIsRanked(m: Table, colour: map<Id, Colour>,
                         pos: map<Id, nat>, rank: map<Id, nat>, n: nat, ids: seq<Id>)
    requires SearchInv(m, colour, [], pos, rank, n, {})
    requires forall a | a in m :: a in ids
    requires forall k | 0 <= k < |ids| :: ids[k] in colour && colour[ids[k]] == Black
    ensures Ranked(m, rank) && !Cyclic(m)
  {
    forall a | a in m ensures BlackInv(m, colour, rank, n, a) {
      assert a in colour && colour[a] == Black;
    }
    assert Ranked(m, rank);
    AcyclicHasNoCycle(m);
  }

  lemma PopCovers(colour: map<Id, Colour>, colour': map<Id, Colour>, stack: seq<Id>, p: nat, deps: seq<Id>)
    requires Covered(colour, stack, p, deps) && stack != []
    requires ColourOf(colour', stack[|stack|-1]) == Black
    requires forall a | ColourOf(colour, a) == Black :: ColourOf(colour', a) == Black
    ensures Covered(colour', stack[..|stack|-1], p, deps)
  {
    var stack' := stack[..|stack|-1];
    forall d | d in deps && ColourOf(colour', d) != Black
      ensures exists j | p < j < |stack'| :: 0 <= j && stack'[j] == d
    {
      var j :| p < j < |stack| && 0 <= j && stack[j] == d;
      assert stack'[j] == d;
    }
  }

  predicate Known(edges: seq<Id>, m: Table) {
    forall e | e in edges :: e in m
  }

  /** A filtering loop over sorted ids has kept exactly the chosen ones among the first `i`. */
  ghost predicate PickedSoFar(ids: seq<Id>, i: nat, chosen: set<Id>, out: seq<Id>) {
    && i <= |ids|
    && Order.Sorted(out)
    && (forall id | id in out :: id in chosen)
    && (forall id, k | id in out && i <= k < |ids| :: Order.Less(id, ids[k]))
    && (forall k | 0 <= k < i && ids[k] in chosen :: ids[k] in out)
  }

  lemma PickNext(ids: seq<Id>, i: nat, chosen: set<Id>, out: seq<Id>)
    requires Order.Sorted(ids) && i < |ids| && PickedSoFar(ids, i, chosen, out)
    ensures PickedSoFar(ids, i + 1, chosen, if ids[i] in chosen then out + [ids[i]] else out)
  {
    assert forall id | id in out :: Order.Less(id, ids[i]);
  }

  class Dag {
    const goalId: string
    var tasks: Table

    constructor Empty(goalId: string)
      ensures this.goalId == goalId && tasks == map[]
    {
      this.goalId, tasks := goalId, map[];
    }

    /** Builds a graph, or says which of the three checks failed first. */
    static method NewDAG(goalId: string, ts: seq<Named>) returns (r: BuildResult)
      ensures r.Built? ==> fresh(r.dag) && r.dag.goalId == goalId && r.dag.tasks == TableOf(ts)
      ensures r.Built? <==> DistinctIds(ts) && Closed(TableOf(ts)) && !Cyclic(TableOf(ts))
      ensures r.Built? ==> Acyclic(TableOf(ts))
      ensures r == Refused(Duplicate) <==> !DistinctIds(ts)
      ensures r == Refused(UnknownTask) <==> DistinctIds(ts) && !Closed(TableOf(ts))
    {
      var d := new Dag.Empty(goalId);
      var distinct := d.Gather(ts);
      if !distinct {
        return Refused(Duplicate);
      }
      var closed := d.EdgesKnown(ts);
      if !closed {
        return Refused(UnknownTask);
      }
      var cyclic, rank := d.DetectCycle();
      if cyclic {
        return Refused(Cycle);
      }
      return Built(d);
    }

    /** First loop of NewDAG: puts the tasks in the map, stopping at a repeated id. */
    method Gather(ts: seq<Named>) returns (distinct: bool)
      requires tasks == map[]
      modifies this
      ensures distinct == DistinctIds(ts)
      ensures distinct ==> tasks == TableOf(ts)
    {
      for i := 0 to |ts|
        invariant DistinctIds(ts[..i]) && tasks == TableOf(ts[..i])
      {
        if ts[i].id in tasks {
          FoundIsDuplicate(ts, i);
          return false;
        }
        FreshStaysDistinct(ts, i);
        assert ts[..i+1][..i] == ts[..i];
        tasks := tasks[ts[i].id := ts[i].row];
      }
      assert ts[..|ts|] == ts;
      return true;
    }

    /** Second loop of NewDAG: every edge names a task of the graph. */
    method EdgesKnown(ts: seq<Named>) returns (closed: bool)
      requires DistinctIds(ts) && tasks == TableOf(ts)
      ensures closed == Closed(tasks)
    {
      TableOfDistinct(ts);
      for i := 0 to |ts|
        invariant forall j | 0 <= j < i :: Known(ts[j].row.Edges(), tasks)
      {
        var edges := ts[i].row.Edges();
        for k := 0 to |edges|
          invariant Known(edges[..k], tasks)
        {
          if edges[k] !in tasks {
            assert edges[k] in tasks[ts[i].id].Edges();
            return false;
          }
          assert edges[..k+1] == edges[..k] + [edges[k]];
        }
        assert edges[..|edges|] == edges;
      }
      TableOfRows(ts);
      forall a, b | a in tasks && b in tasks[a].Edges() ensures b in tasks {
        var j :| 0 <= j < |ts| && ts[j] == Named(a, tasks[a]);
      }
      return true;
    }

    /** The iterative depth-first search for a cycle. */
    method DetectCycle() returns (cyclic: bool, ghost rank: map<Id, nat>)
      requires Closed(tasks)
      ensures cyclic <==> Cyclic(tasks)
      ensures !cyclic ==> Ranked(tasks, rank)
    {
      ghost var m := tasks;
      var colour: map<Id, Colour> := map[];
      ghost var pos: map<Id, nat>, n: nat := map[], 0;
      rank := map[];
      cyclic := false;
      var ids := Order.SortedKeys(tasks.Keys);
      for i := 0 to |ids|
        invariant !cyclic && SearchInv(m, colour, [], pos, rank, n, {})
        invariant forall k | 0 <= k < i :: ids[k] in colour && colour[ids[k]] == Black
      {
        NoGrey(m, colour, pos, rank, n, ids[i]);
        if ColourOf(colour, ids[i]) == White {
          cyclic, colour, pos, rank, n := Search(ids[i], colour, m, pos, rank, n);
          if cyclic {
            break;
          }
        }
      }
      if !cyclic {
        AllBlackIsRanked(m, colour, pos, rank, n, ids);
      }
    }

    /** Everything reachable from one root, on an explicit stack. */
    method Search(root: Id, colour0: map<Id, Colour>, ghost m: Table,
                  ghost pos0: map<Id, nat>, ghost rank0: map<Id, nat>, ghost n0: nat)
      returns (cyclic: bool, colour: map<Id, Colour>,
               ghost pos: map<Id, nat>, ghost rank: map<Id, nat>, ghost n: nat)
      requires Closed(tasks) && m == tasks
      requires root in tasks && ColourOf(colour0, root) == White
      requires SearchInv(m, colour0, [], pos0, rank0, n0, {})
      ensures cyclic ==> Cyclic(m)
      ensures !cyclic ==> SearchInv(m, colour, [], pos, rank, n, {}) && ColourOf(colour, root) == Black
      ensures !cyclic ==> KeepsBlack(colour0, colour)
    {
      hide SearchInv;
      colour, pos, rank, n := colour0, pos0, rank0, n0;
      var stack := [root];
      RootKeeps(m, colour, root, pos, rank, n);
      while stack != []
        invariant SearchInv(m, colour, stack, pos, rank, n, {})
        invariant KeepsBlack(colour0, colour)
        invariant if stack != [] then stack[0] == root else ColourOf(colour, root) == Black
        decreases m.Keys - colour.Keys, |stack|
      {
        var cur := stack[|stack|-1];
        InGraph(m, colour, stack, pos, rank, n, cur);
        match ColourOf(colour, cur) {
          case White =>
            VisitKeeps(m, colour, stack, pos, rank, n, cur);
            colour := colour[cur := Grey];
            pos := pos[cur := |stack| - 1];
            cyclic, stack := PushEdges(tasks[cur].Edges(), cur, colour, stack, m, pos, rank, n);
            if cyclic {
              return;
            }
          case Grey =>
            FinishKeeps(m, colour, stack, pos, rank, n, cur);
            colour := colour[cur := Black];
            rank, n := rank[cur := n], n + 1;
            stack := stack[..|stack|-1];
          case Black =>
            PopKeeps(m, colour, stack, pos, rank, n);
            stack := stack[..|stack|-1];
        }
      }
      cyclic := false;
    }

    /** One visit's loop over the edges: a grey one ends the search, white ones are pushed. */
    static method PushEdges(edges: seq<Id>, cur: Id, colour: map<Id, Colour>, base: seq<Id>,
                            ghost m: Table, ghost pos: map<Id, nat>, ghost rank: map<Id, nat>, ghost n: nat)
      returns (cyclic: bool, stack: seq<Id>)
      requires Closed(m) && cur in m && edges == m[cur].Edges() && ColourOf(colour, cur) == Grey
      requires SearchInv(m, colour, base, pos, rank, n, {cur})
      requires forall a | a in colour && colour[a] == Grey :: pos[a] <= pos[cur]
      ensures cyclic ==> Cyclic(m)
      ensures !cyclic ==> base <= stack && SearchInv(m, colour, stack, pos, rank, n, {})
    {
      stack := base;
      assert Pushing(m, colour, stack, pos, rank, n, cur, 0);
      hide Pushing, SearchInv;
      for k := 0 to |edges|
        invariant base <= stack && Pushing(m, colour, stack, pos, rank, n, cur, k)
      {
        match ColourOf(colour, edges[k]) {
          case Grey =>
            GreyEndsSearch(m, colour, stack, pos, rank, n, cur, k);
            return true, stack;
          case White =>
            PushWhite(m, colour, stack, pos, rank, n, cur, k);
            stack := stack + [edges[k]];
          case Black =>
            SkipBlack(m, colour, stack, pos, rank, n, cur, k);
        }
      }
      AllPushed(m, colour, stack, pos, rank, n, cur);
      return false, stack;
    }

    /** The ids of the tasks that could run, in order. */
    method ReadySet() returns (out: seq<Id>)
      requires Closed(tasks)
      ensures Order.Sorted(out)
      ensures forall id :: id in out <==> IsReady(tasks, id)
    {
      ghost var chosen := set id | id in tasks && IsReady(tasks, id);
      out := [];
      var ids := Order.SortedKeys(tasks.Keys);
      for i := 0 to |ids|
        invariant PickedSoFar(ids, i, chosen, out)
      {
        var t := tasks[ids[i]];
        var deps := DependenciesSucceeded(ids[i]);
        var take := (t.state == Pending || t.state == Ready) && deps;
        assert take <==> ids[i] in chosen;
        PickNext(ids, i, chosen, out);
        out := if take then out + [ids[i]] else out;
      }
    }

    /** The ids of the tasks a worker may take now, in order. */
    method ClaimableSet(now: int) returns (out: seq<Id>)
      requires Closed(tasks)
      ensures Order.Sorted(out)
      ensures forall id :: id in out <==> Claimable(tasks, id, now)
    {
      ghost var chosen := set id | id in tasks && Claimable(tasks, id, now);
      out := [];
      var ids := Order.SortedKeys(tasks.Keys);
      for i := 0 to |ids|
        invariant PickedSoFar(ids, i, chosen, out)
      {
        var take := MayTake(ids[i], now);
        assert take <==> ids[i] in chosen;
        PickNext(ids, i, chosen, out);
        out := if take then out + [ids[i]] else out;
      }
    }

    /** One task's test inside ClaimableSet: waiting, or running under an expired lease. */
    method MayTake(id: Id, now: int) returns (r: bool)
      requires Closed(tasks) && id in tasks
      ensures r == Claimable(tasks, id, now)
    {
      match tasks[id].state {
        case Pending =>
        case Ready =>
        case Running =>
          if tasks[id].expiry.After(now) {
            return false;
          }
        case _ => return false;
      }
      r := DependenciesSucceeded(id);
    }

    method DependenciesSucceeded(id: Id) returns (r: bool)
      requires Closed(tasks) && id in tasks
      ensures r == DepsReady(tasks, id)
    {
      var t := tasks[id];
      for i := 0 to |t.dependsOn|
        invariant forall j | 0 <= j < i :: t.dependsOn[j] in tasks && tasks[t.dependsOn[j]].state == Succeeded
      {
        assert t.dependsOn[i] in t.Edges();
        if tasks[t.dependsOn[i]].state != Succeeded {
          return false;
        }
      }
      for i := 0 to |t.contributes|
        invariant forall j | 0 <= j < i :: t.contributes[j] in tasks && Terminal(tasks[t.contributes[j]].state)
      {
        assert t.contributes[i] in t.Edges();
        if !Terminal(tasks[t.contributes[i]].state) {
          return false;
        }
      }
      return true;
    }

    /** Moves a task, refusing a move the table does not list. */
    method Transition(id: Id, next: State) returns (ok: bool)
      requires id in tasks
      modifies this
      ensures ok == CanTransition(old(tasks)[id].state, next)
      ensures tasks == if ok then old(tasks)[id := old(tasks)[id].(state := next)] else old(tasks)
    {
      ok := CanTransition(tasks[id].state, next);
      if ok {
        tasks := tasks[id := tasks[id].(state := next)];
      }
    }

    /** Blocks everything downstream of a dead task, in place, sweeping until a sweep changes nothing. */
    method PropagateFailure() returns (blocked: nat)
      requires Closed(tasks)
      modifies this
      ensures tasks == Propagated(old(tasks))
      ensures blocked == |DoomedSet(old(tasks))|
    {
      ghost var m := tasks;
      ghost var done: set<Id> := {};
      blocked := 0;
      var changed := true;
      while changed
        invariant PartlyBlocked(m, tasks, done) && blocked == |done|
        invariant !changed ==> Settled(tasks)
        decreases DoomedSet(m) - done, changed
      {
        ghost var start := done;
        var count;
        count, done := Sweep(m, done);
        blocked, changed := blocked + count, count > 0;
        if changed {
          SweepDecreases(DoomedSet(m), start, done);
        }
      }
      SettledIsFixpoint(m, tasks, done);
    }

    /** One sweep over the tasks in id order; `done` is what earlier sweeps blocked. */
    method Sweep(ghost m: Table, ghost done: set<Id>) returns (count: nat, ghost done': set<Id>)
      requires Closed(m) && PartlyBlocked(m, tasks, done)
      modifies this
      ensures PartlyBlocked(m, tasks, done') && done <= done' && |done'| == |done| + count
      ensures if count == 0 then Settled(tasks) else exists x :: x in done' && x !in done
    {
      count, done' := 0, done;
      var ids := Order.SortedKeys(tasks.Keys);
      for i := 0 to |ids|
        invariant PartlyBlocked(m, tasks, done') && done <= done' && |done'| == |done| + count
        invariant count == 0 ==> forall j | 0 <= j < i :: !Hit(tasks, ids[j])
        invariant count > 0 ==> exists x :: x in done' && x !in done
      {
        BlockedStaysClosed(m, done');
        var hit := IsHit(ids[i]);
        if hit {
          BlockOne(m, tasks, done', ids[i]);
          tasks := tasks[ids[i] := tasks[ids[i]].(state := Blocked)];
          done', count := done' + {ids[i]}, count + 1;
        }
      }
    }

    /** One task's test inside the sweep: unfinished, with a dead required dependency. */
    method IsHit(id: Id) returns (hit: bool)
      requires Closed(tasks) && id in tasks
      ensures hit == Hit(tasks, id)
    {
      var t := tasks[id];
      if Terminal(t.state) {
        return false;
      }
      for i := 0 to |t.dependsOn|
        invariant forall j | 0 <= j < i :: t.dependsOn[j] in tasks && !Dead(tasks[t.dependsOn[j]].state)
      {
        assert t.dependsOn[i] in t.Edges();
        if Dead(tasks[t.dependsOn[i]].state) {
          return true;
        }
      }
      return false;
    }

    /** Nothing to run and nobody at work or awaited, yet something left to do. */
    method Stalled() returns (r: bool)
      requires Closed(tasks)
      ensures r == Tasks.Stalled(tasks)
    {
      var ready := ReadySet();
      if ready != [] {
        assert ready[0] in ready;
        return false;
      }
      var remaining := false;
      var rest := tasks.Keys;
      while rest != {}
        invariant rest <= tasks.Keys
        invariant forall id | id in tasks && id !in rest ::
          !tasks[id].state.Running? && !tasks[id].state.AwaitingApproval?
        invariant remaining <==> exists id | id in tasks.Keys - rest :: !Terminal(tasks[id].state)
      {
        var id :| id in rest;
        rest := rest - {id};
        var t := tasks[id];
        if t.state == Running || t.state == AwaitingApproval {
          return false;
        }
        if !Terminal(t.state) {
          remaining := true;
        }
      }
      return remaining;
    }
  }

  lemma BlockOne(m: Table, c: Table, done: set<Id>, id: Id)
    requires PartlyBlocked(m, c, done) && Hit(c, id)
    ensures id !in done && PartlyBlocked(m, c[id := c[id].(state := Blocked)], done + {id})
    ensures |done + {id}| == |done| + 1
  {
    HitIsDoomed(m, c, done, id);
  }

  lemma SweepDecreases(all: set<Id>, start: set<Id>, done: set<Id>)
    requires start <= done <= all
    requires exists x :: x in done && x !in start
    ensures all - done < all - start
  {
    var x :| x in done && x !in start;
    assert x in all - start && x !in all - done;
  }

  lemma BlockedStaysClosed(m: Table, ids: set<Id>)
    requires Closed(m)
    ensures Closed(BlockAll(m, ids))
  {
    var c := BlockAll(m, ids);
    forall a, b | a in c && b in c[a].Edges() ensures b in c {
      assert c[a].Edges() == m[a].Edges();
    }
  }
}
