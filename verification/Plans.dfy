/** The planners: the first tasks of each intent, and what Improve proposes once assessments succeed. */
module Plans {
  import opened Tasks
  import opened Dags
  import Order

  const ASSESS_AXIS := "assess_axis"
  const PROPOSE_CHANGE := "propose_change"
  const VERIFY_PROPOSAL := "verify_proposal"
  const OPEN_PR := "open_pull_request"

  datatype Intent = Assess | Improve | EvalSet | Compare | Unplanned

  datatype Goal = Goal(
    id: string, intent: Intent, axes: seq<string>, revision: string, maxTasks: int, maxSpawnDepth: int)

  datatype Finding = Finding(axis: string, weakness: string, actionable: bool)

  /** What the JSON decoder makes of a non-empty result. */
  type Decoder = string -> seq<Finding>

  function NewTask(kind: string, depth: nat, dependsOn: seq<Id>): Row {
    Row(kind, dependsOn, [], depth, "", Pending, 0, false, "", "", Unset)
  }

  function AxesOf(g: Goal): seq<string> {
    if g.axes != [] then g.axes
    else ["model", "prompt", "skills", "context", "tools", "memory", "harness", "loop", "graph"]
  }

  // ---- the first plan ----

  const GENERATORS := ["seed_from_real_traces", "schema_driven", "llm_driven", "adversarial_perturbation"]

  /** One task per name, then a join that requires or awaits all of them. */
  function FanOut(kind: string, ids: seq<Id>, join: Id, row: Row): (ts: seq<Named>)
    ensures |ts| == |ids| + 1
  {
    seq(|ids|, i requires 0 <= i < |ids| => Named(ids[i], NewTask(kind, 0, []))) + [Named(join, row)]
  }

  function Prefixed(prefix: string, names: seq<string>): (ids: seq<Id>)
    ensures |ids| == |names| && forall i | 0 <= i < |names| :: ids[i] == prefix + names[i]
  {
    seq(|names|, i requires 0 <= i < |names| => prefix + names[i])
  }

  /** What the planner of each intent returns. */
  function PlanOf(g: Goal): seq<Named> {
    match g.intent
    case Assess => Axes(g, "synthesise", "synthesise_assessment")
    case Improve => Axes(g, "synthesise", "synthesise_assessment")
    case Compare => Axes(g, "compare", "compare_results")
    case EvalSet =>
      Gated(GENERATORS, Publish(g))
    case Unplanned => []
  }

  function Gated(names: seq<string>, publish: Named): seq<Named> {
    var ids := Prefixed("generate-", names);
    var gate := NewTask("eval_quality_gate", 0, []).(contributes := ids);
    FanOut("generate_eval_cases", ids, "quality-gate", gate) + [publish]
  }

  function Publish(g: Goal): Named {
    Named("publish", NewTask("publish_eval_set", 0, ["quality-gate"])
      .(idempotencyKey := g.id + ":" + g.revision + ":evalset"))
  }

  function Axes(g: Goal, join: Id, kind: string): seq<Named> {
    var ids := Prefixed("assess-", AxesOf(g));
    FanOut(ASSESS_AXIS, ids, join, NewTask(kind, 0, ids))
  }

  /** The loop each Plan runs over its names. */
  method PlanEach(kind: string, prefix: string, names: seq<string>) returns (tasks: seq<Named>, deps: seq<Id>)
    ensures deps == Prefixed(prefix, names)
    ensures |tasks| == |deps| && forall i | 0 <= i < |deps| :: tasks[i] == Named(deps[i], NewTask(kind, 0, []))
  {
    tasks, deps := [], [];
    for i := 0 to |names|
      invariant |tasks| == |deps| == i
      invariant forall j | 0 <= j < i ::
        deps[j] == prefix + names[j] && tasks[j] == Named(deps[j], NewTask(kind, 0, []))
    {
      var id := prefix + names[i];
      tasks := tasks + [Named(id, NewTask(kind, 0, []))];
      deps := deps + [id];
    }
  }

  method Plan(g: Goal) returns (tasks: seq<Named>)
    ensures tasks == PlanOf(g)
  {
    var deps;
    match g.intent
    case Assess =>
      tasks, deps := PlanEach(ASSESS_AXIS, "assess-", AxesOf(g));
      tasks := tasks + [Named("synthesise", NewTask("synthesise_assessment", 0, deps))];
    case Improve =>
      tasks, deps := PlanEach(ASSESS_AXIS, "assess-", AxesOf(g));
      tasks := tasks + [Named("synthesise", NewTask("synthesise_assessment", 0, deps))];
    case Compare =>
      tasks, deps := PlanEach(ASSESS_AXIS, "assess-", AxesOf(g));
      tasks := tasks + [Named("compare", NewTask("compare_results", 0, deps))];
    case EvalSet =>
      tasks, deps := PlanEach("generate_eval_cases", "generate-", GENERATORS);
      tasks := tasks + [Named("quality-gate", NewTask("eval_quality_gate", 0, []).(contributes := deps))];
      tasks := tasks + [Named("publish", NewTask("publish_eval_set", 0, ["quality-gate"])
        .(idempotencyKey := g.id + ":" + g.revision + ":evalset"))];
    case Unplanned =>
      tasks := [];
  }

  // ---- ids derived from findings ----

  function Decimal(n: nat): (s: string)
    ensures |s| > 0 && forall i | 0 <= i < |s| :: '0' <= s[i] <= '9'
  {
    if n < 10 then [('0' as int + n) as char] else Decimal(n / 10) + [('0' as int + n % 10) as char]
  }

  lemma {:induction false} DecimalIsInjective(a: nat, b: nat)
    requires Decimal(a) == Decimal(b)
    ensures a == b
  {
    var s, t := Decimal(a), Decimal(b);
    assert s[|s|-1] == t[|t|-1];
    if a >= 10 && b >= 10 {
      assert s[..|s|-1] == Decimal(a / 10) && t[..|t|-1] == Decimal(b / 10);
      DecimalIsInjective(a / 10, b / 10);
    }
  }

  function Base(axis: string, i: nat): string {
    axis + "-" + Decimal(i)
  }

  function Stem(k: nat): string {
    if k == 0 then "propose-" else if k == 1 then "verify-" else "pr-"
  }

  /** The id of one task of a chain. */
  function ChainId(k: nat, base: string): Id {
    Stem(k) + base
  }

  lemma DashIsLast(axis: string, i: nat, k: nat)
    requires k < |Base(axis, i)| && Base(axis, i)[k] == '-'
    ensures k <= |axis|
  {
    forall j | |axis| < j < |Base(axis, i)| ensures Base(axis, i)[j] != '-' {
      assert Base(axis, i)[j] == Decimal(i)[j - |axis| - 1];
    }
  }

  /** The name says which finding of which axis it came from, even for axes with dashes and digits in them. */
  lemma BaseIsInjective(a: string, i: nat, b: string, j: nat)
    requires Base(a, i) == Base(b, j)
    ensures a == b && i == j
  {
    var s := Base(a, i);
    assert s[|a|] == '-' && s[|b|] == '-';
    DashIsLast(a, i, |b|);
    DashIsLast(b, j, |a|);
    assert s[..|a|] == a && s[..|b|] == b;
    assert s[|a|+1..] == Decimal(i) && s[|b|+1..] == Decimal(j);
    DecimalIsInjective(i, j);
  }

  lemma StemsDiffer(k: nat, x: string, l: nat, y: string)
    requires k < 3 && l < 3 && Stem(k) + x == Stem(l) + y
    ensures k == l && x == y
  {
    var s := Stem(k) + x;
    assert s[0] == Stem(k)[0] == Stem(l)[0] && s[2] == Stem(k)[2] == Stem(l)[2];
    assert s[|Stem(k)|..] == x && s[|Stem(l)|..] == y;
  }

  // ---- what Improve proposes ----

  /** One task of the chain propose, verify, open a pull request. */
  function Link(g: Goal, assessed: Id, base: string, k: nat): Named {
    if k == 0 then Named(Stem(0) + base, NewTask(PROPOSE_CHANGE, 1, [assessed]))
    else if k == 1 then Named(Stem(1) + base, NewTask(VERIFY_PROPOSAL, 2, [Stem(0) + base]))
    else Named(Stem(2) + base,
      NewTask(OPEN_PR, 3, [Stem(1) + base]).(idempotencyKey := g.id + ":" + g.revision + ":" + base))
  }

  function Chain(g: Goal, assessed: Id, base: string): seq<Named> {
    [Link(g, assessed, base, 0), Link(g, assessed, base, 1), Link(g, assessed, base, 2)]
  }

  function Findings(decode: Decoder, m: Table, id: Id): seq<Finding> {
    if id !in m || m[id].result == "" then [] else decode(m[id].result)
  }

  /** The chains of the first n findings of one assessment. */
  function ChainsOf(g: Goal, assessed: Id, fs: seq<Finding>, n: nat): seq<Named>
    requires n <= |fs|
  {
    if n == 0 then []
    else ChainsOf(g, assessed, fs, n - 1) +
         if fs[n-1].actionable then Chain(g, assessed, Base(fs[n-1].axis, n - 1)) else []
  }

  /** The chains of the first n assessments. */
  function AllChains(g: Goal, m: Table, decode: Decoder, ids: seq<Id>, n: nat): seq<Named>
    requires n <= |ids|
  {
    if n == 0 then []
    else AllChains(g, m, decode, ids, n - 1) +
         var fs := Findings(decode, m, ids[n-1]); ChainsOf(g, ids[n-1], fs, |fs|)
  }

  function Assessed(m: Table): set<Id> {
    set id | id in m && m[id].kind == ASSESS_AXIS && m[id].state.Succeeded?
  }

  /** Each of these keys, once. */
  ghost predicate Listing(ids: seq<Id>, keys: set<Id>) {
    (forall i, j | 0 <= i < j < |ids| :: ids[i] != ids[j]) && forall id :: id in ids <==> id in keys
  }

  /** What replanning may return: for Improve the chains of every succeeded assessment. */
  ghost predicate Replans(g: Goal, m: Table, decode: Decoder, out: seq<Named>) {
    if g.intent.Improve? then exists ids :: Listing(ids, Assessed(m)) && out == AllChains(g, m, decode, ids, |ids|)
    else out == []
  }

  /** The same, in id order. */
  ghost predicate ReplansInOrder(g: Goal, m: Table, decode: Decoder, out: seq<Named>) {
    if g.intent.Improve? then
      exists ids :: Order.Sorted(ids) && Listing(ids, Assessed(m)) && out == AllChains(g, m, decode, ids, |ids|)
    else out == []
  }

  /** So replanning is a function of the goal and the graph. */
  lemma ReplanIsDeterministic(g: Goal, m: Table, decode: Decoder, out1: seq<Named>, out2: seq<Named>)
    requires ReplansInOrder(g, m, decode, out1) && ReplansInOrder(g, m, decode, out2)
    ensures out1 == out2
  {
    if g.intent.Improve? {
      var ids1 :| Order.Sorted(ids1) && Listing(ids1, Assessed(m)) && out1 == AllChains(g, m, decode, ids1, |ids1|);
      var ids2 :| Order.Sorted(ids2) && Listing(ids2, Assessed(m)) && out2 == AllChains(g, m, decode, ids2, |ids2|);
      Order.SortedIsUnique(ids1, ids2);
    }
  }

  method Replan(g: Goal, m: Table, decode: Decoder) returns (out: seq<Named>)
    ensures Replans(g, m, decode, out) && ReplansInOrder(g, m, decode, out)
  {
    out := [];
    if !g.intent.Improve? {
      return;
    }
    var ids := Order.SortedKeys(Assessed(m));
    for p := 0 to |ids|
      invariant out == AllChains(g, m, decode, ids, p)
    {
      var fs := Findings(decode, m, ids[p]);
      ghost var before := out;
      for i := 0 to |fs|
        invariant out == before + ChainsOf(g, ids[p], fs, i)
      {
        if !fs[i].actionable {
          continue;
        }
        var base := Base(fs[i].axis, i);
        out := out + [Link(g, ids[p], base, 0)];
        out := out + [Link(g, ids[p], base, 1)];
        out := out + [Link(g, ids[p], base, 2)];
      }
    }
    SortedListing(ids, Assessed(m));
  }

  lemma SortedListing(ids: seq<Id>, keys: set<Id>)
    requires Order.Sorted(ids) && forall id :: id in ids <==> id in keys
    ensures Listing(ids, keys)
  {
    forall i, j | 0 <= i < j < |ids| ensures ids[i] != ids[j] {
      Order.LessIsStrict(ids[i], ids[j]);
    }
  }

  /** `t` belongs to the chain of one of the first n findings. */
  ghost predicate Emitted(g: Goal, assessed: Id, fs: seq<Finding>, n: nat, t: Named) {
    exists i, k :: 0 <= i < n && i < |fs| && 0 <= k < 3 && fs[i].actionable
      && t == Link(g, assessed, Base(fs[i].axis, i), k)
  }

  lemma {:induction false} ChainsAreEmitted(g: Goal, assessed: Id, fs: seq<Finding>, n: nat)
    requires n <= |fs|
    ensures forall t :: t in ChainsOf(g, assessed, fs, n) <==> Emitted(g, assessed, fs, n, t)
  {
    if n > 0 {
      ChainsAreEmitted(g, assessed, fs, n - 1);
      var f := fs[n-1];
      var last := if f.actionable then Chain(g, assessed, Base(f.axis, n - 1)) else [];
      assert forall t :: t in ChainsOf(g, assessed, fs, n) <==> t in ChainsOf(g, assessed, fs, n - 1) || t in last;
      forall t | Emitted(g, assessed, fs, n, t) ensures t in ChainsOf(g, assessed, fs, n) {
        var i, k :| 0 <= i < n && 0 <= k < 3 && fs[i].actionable && t == Link(g, assessed, Base(fs[i].axis, i), k);
        if i == n - 1 {
          assert t == last[k];
        }
      }
      forall t | t in last ensures Emitted(g, assessed, fs, n, t) {
        var k :| 0 <= k < |last| && last[k] == t;
        assert t == Link(g, assessed, Base(f.axis, n - 1), k);
      }
    }
  }

  ghost predicate EmittedBy(g: Goal, m: Table, decode: Decoder, assessed: Id, t: Named) {
    var fs := Findings(decode, m, assessed);
    Emitted(g, assessed, fs, |fs|, t)
  }

  lemma {:induction false} AllChainsAreEmitted(g: Goal, m: Table, decode: Decoder, ids: seq<Id>, n: nat)
    requires n <= |ids|
    ensures forall t ::
      t in AllChains(g, m, decode, ids, n) <==> exists p :: 0 <= p < n && EmittedBy(g, m, decode, ids[p], t)
  {
    if n > 0 {
      AllChainsAreEmitted(g, m, decode, ids, n - 1);
      var fs := Findings(decode, m, ids[n-1]);
      ChainsAreEmitted(g, ids[n-1], fs, |fs|);
    }
  }

  // ---- the ids are pairwise distinct ----

  ghost predicate Meets(a: seq<Named>, b: seq<Named>) {
    exists x, y :: x in a && y in b && x.id == y.id
  }

  lemma MeetsConcat(a: seq<Named>, b: seq<Named>, c: seq<Named>)
    ensures Meets(a + b, c) <==> Meets(a, c) || Meets(b, c)
  {
  }

  lemma MeetingRepeats(a: seq<Named>, b: seq<Named>)
    requires Meets(a, b)
    ensures !DistinctIds(a + b)
  {
    var x, y :| x in a && y in b && x.id == y.id;
    var i :| 0 <= i < |a| && a[i] == x;
    var j :| 0 <= j < |b| && b[j] == y;
    var c := a + b;
    assert c[i] == x && c[|a| + j] == y;
  }

  lemma DistinctConcat(a: seq<Named>, b: seq<Named>)
    ensures DistinctIds(a + b) <==> DistinctIds(a) && DistinctIds(b) && !Meets(a, b)
  {
    var c := a + b;
    if DistinctIds(c) {
      forall i, j | 0 <= i < j < |b| ensures b[i].id != b[j].id {
        assert c[|a| + i] == b[i] && c[|a| + j] == b[j];
      }
      forall i, j | 0 <= i < j < |a| ensures a[i].id != a[j].id {
        assert c[i] == a[i] && c[j] == a[j];
      }
      if Meets(a, b) {
        MeetingRepeats(a, b);
      }
    } else if DistinctIds(a) && DistinctIds(b) {
      var i, j :| 0 <= i < j < |c| && c[i].id == c[j].id;
      assert j >= |a|;
      assert i < |a|;
      assert c[i] in a && c[j] in b;
    }
  }

  lemma LinksDiffer(g: Goal, x: Named, y: Named, from: Id, a: string, i: nat, k: nat, to: Id, b: string, j: nat, l: nat)
    requires k < 3 && l < 3 && x == Link(g, from, Base(a, i), k) && y == Link(g, to, Base(b, j), l)
    ensures x.id == y.id <==> a == b && i == j && k == l
  {
    if x.id == y.id {
      StemsDiffer(k, Base(a, i), l, Base(b, j));
      BaseIsInjective(a, i, b, j);
    }
  }

  lemma ChainIsDistinct(g: Goal, assessed: Id, axis: string, i: nat)
    ensures DistinctIds(Chain(g, assessed, Base(axis, i)))
  {
    var last := Chain(g, assessed, Base(axis, i));
    forall k: nat, l: nat | k < l < 3 ensures last[k].id != last[l].id {
      LinksDiffer(g, last[k], last[l], assessed, axis, i, k, assessed, axis, i, l);
    }
  }

  /** A finding's chain and those of the findings before it. */
  lemma EarlierChainsDiffer(g: Goal, assessed: Id, fs: seq<Finding>, n: nat, x: Named, y: Named)
    requires n < |fs| && x in ChainsOf(g, assessed, fs, n) && y in Chain(g, assessed, Base(fs[n].axis, n))
    ensures x.id != y.id
  {
    ChainsAreEmitted(g, assessed, fs, n);
    var i, k :| 0 <= i < n && 0 <= k < 3 && fs[i].actionable && x == Link(g, assessed, Base(fs[i].axis, i), k);
    var l :| 0 <= l < 3 && Chain(g, assessed, Base(fs[n].axis, n))[l] == y;
    LinksDiffer(g, x, y, assessed, fs[i].axis, i, k, assessed, fs[n].axis, n, l);
  }

  lemma {:induction false} OneAssessmentIsDistinct(g: Goal, assessed: Id, fs: seq<Finding>, n: nat)
    requires n <= |fs|
    ensures DistinctIds(ChainsOf(g, assessed, fs, n))
  {
    if n > 0 {
      OneAssessmentIsDistinct(g, assessed, fs, n - 1);
      var init, last := ChainsOf(g, assessed, fs, n - 1), Chain(g, assessed, Base(fs[n-1].axis, n - 1));
      ChainIsDistinct(g, assessed, fs[n-1].axis, n - 1);
      forall x, y | x in init && y in last ensures x.id != y.id {
        EarlierChainsDiffer(g, assessed, fs, n - 1, x, y);
      }
      DistinctConcat(init, last);
    }
  }

  /** Two assessments that report the same axis at the same place in their results. */
  predicate Clash(fs: seq<Finding>, gs: seq<Finding>) {
    exists i | 0 <= i < |fs| && i < |gs| :: fs[i].actionable && gs[i].actionable && fs[i].axis == gs[i].axis
  }

  /** No two of the first n assessments clash. */
  predicate NoClash(m: Table, decode: Decoder, ids: seq<Id>, n: nat)
    requires n <= |ids|
  {
    forall p, q | 0 <= p < q < n :: !Clash(Findings(decode, m, ids[p]), Findings(decode, m, ids[q]))
  }

  lemma ChainsMeet(g: Goal, from: Id, fs: seq<Finding>, to: Id, gs: seq<Finding>)
    ensures Clash(fs, gs) <==> Meets(ChainsOf(g, from, fs, |fs|), ChainsOf(g, to, gs, |gs|))
  {
    var a, b := ChainsOf(g, from, fs, |fs|), ChainsOf(g, to, gs, |gs|);
    ChainsAreEmitted(g, from, fs, |fs|);
    ChainsAreEmitted(g, to, gs, |gs|);
    if Clash(fs, gs) {
      var i :| 0 <= i < |fs| && i < |gs| && fs[i].actionable && gs[i].actionable && fs[i].axis == gs[i].axis;
      var x, y := Link(g, from, Base(fs[i].axis, i), 0), Link(g, to, Base(gs[i].axis, i), 0);
      assert Emitted(g, from, fs, |fs|, x) && Emitted(g, to, gs, |gs|, y);
      assert x in a && y in b && x.id == y.id;
    }
    if Meets(a, b) {
      var x, y :| x in a && y in b && x.id == y.id;
      var i, k :| 0 <= i < |fs| && 0 <= k < 3 && fs[i].actionable && x == Link(g, from, Base(fs[i].axis, i), k);
      var j, l :| 0 <= j < |gs| && 0 <= l < 3 && gs[j].actionable && y == Link(g, to, Base(gs[j].axis, j), l);
      LinksDiffer(g, x, y, from, fs[i].axis, i, k, to, gs[j].axis, j, l);
    }
  }

  lemma {:induction false} SomeChainMeets(g: Goal, m: Table, decode: Decoder, ids: seq<Id>, n: nat,
                                          to: Id, gs: seq<Finding>)
    requires n <= |ids|
    ensures Meets(AllChains(g, m, decode, ids, n), ChainsOf(g, to, gs, |gs|))
      <==> exists p :: 0 <= p < n && Clash(Findings(decode, m, ids[p]), gs)
  {
    if n > 0 {
      var fs := Findings(decode, m, ids[n-1]);
      var init, last := AllChains(g, m, decode, ids, n - 1), ChainsOf(g, ids[n-1], fs, |fs|);
      var b := ChainsOf(g, to, gs, |gs|);
      SomeChainMeets(g, m, decode, ids, n - 1, to, gs);
      ChainsMeet(g, ids[n-1], fs, to, gs);
      MeetsConcat(init, last, b);
    }
  }

  /** The derived ids are pairwise distinct exactly when no two assessments clash. */
  lemma {:induction false} DistinctUnlessClash(g: Goal, m: Table, decode: Decoder, ids: seq<Id>, n: nat)
    requires n <= |ids|
    ensures DistinctIds(AllChains(g, m, decode, ids, n)) <==> NoClash(m, decode, ids, n)
  {
    if n > 0 {
      DistinctUnlessClash(g, m, decode, ids, n - 1);
      var fs := Findings(decode, m, ids[n-1]);
      OneAssessmentIsDistinct(g, ids[n-1], fs, |fs|);
      DistinctConcat(AllChains(g, m, decode, ids, n - 1), ChainsOf(g, ids[n-1], fs, |fs|));
      SomeChainMeets(g, m, decode, ids, n - 1, ids[n-1], fs);
    }
  }

  /** Every succeeded assessment reports the axis its own id names. */
  predicate OwnAxis(m: Table, decode: Decoder) {
    forall id | id in Assessed(m) :: forall i | 0 <= i < |Findings(decode, m, id)| ::
      Findings(decode, m, id)[i].actionable ==> id == "assess-" + Findings(decode, m, id)[i].axis
  }

  lemma OwnAxisIsDistinct(g: Goal, m: Table, decode: Decoder, out: seq<Named>)
    requires OwnAxis(m, decode) && Replans(g, m, decode, out)
    ensures DistinctIds(out)
  {
    if g.intent.Improve? {
      var ids :| Listing(ids, Assessed(m)) && out == AllChains(g, m, decode, ids, |ids|);
      forall p, q | 0 <= p < q < |ids| ensures !Clash(Findings(decode, m, ids[p]), Findings(decode, m, ids[q])) {
        assert ids[p] in Assessed(m) && ids[q] in Assessed(m);
      }
      DistinctUnlessClash(g, m, decode, ids, |ids|);
    }
  }
}
