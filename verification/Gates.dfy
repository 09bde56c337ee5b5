/** What the plans mean for the workers: when each planned task may run, whatever became of the others. */
module Gates {
  import opened Tasks
  import opened Dags
  import opened Plans

  /** A table, in any states, whose tasks have the edges they were planned with. */
  predicate Carries(m: Table, ts: seq<Named>) {
    forall t | t in ts ::
      t.id in m && m[t.id].dependsOn == t.row.dependsOn && m[t.id].contributes == t.row.contributes
  }

  /** A graph that was just planned carries its plan, and so does whatever it turns into. */
  lemma PlannedIsCarried(ts: seq<Named>, m: Table)
    requires DistinctIds(ts) && forall id | id in TableOf(ts) ::
      id in m && m[id].dependsOn == TableOf(ts)[id].dependsOn && m[id].contributes == TableOf(ts)[id].contributes
    ensures Carries(m, ts)
  {
    TableOfDistinct(ts);
    forall t | t in ts ensures t.id in TableOf(ts) && TableOf(ts)[t.id] == t.row {
      var j :| 0 <= j < |ts| && ts[j] == t;
    }
  }

  lemma SecondStep(m: Table, p: seq<Id>)
    requires DoomPath(m, p) && |p| > 2
    ensures p[2] in m[p[1]].dependsOn
  {
    assert p[1+1] in m[p[1]].dependsOn;
  }

  /** A task that requires only tasks that cannot be doomed is doomed by a dead one, and by nothing else. */
  lemma DoomedByOne(m: Table, id: Id)
    requires id in m && forall d | d in m[id].dependsOn :: d in m && m[d].dependsOn == []
    ensures id in DoomedSet(m) <==> !Terminal(m[id].state) && exists d | d in m[id].dependsOn :: Dead(m[d].state)
  {
    if id in DoomedSet(m) {
      var p :| DoomPath(m, p) && p[0] == id;
      assert !Terminal(m[p[0]].state) && p[0+1] in m[p[0]].dependsOn;
      if |p| > 2 {
        SecondStep(m, p);
      }
    }
    if !Terminal(m[id].state) {
      if d :| d in m[id].dependsOn && Dead(m[d].state) {
        assert DoomPath(m, [id, d]);
      }
    }
  }

  lemma FanOutTasks(kind: string, prefix: string, names: seq<string>, join: Id, row: Row)
    ensures var ts := FanOut(kind, Prefixed(prefix, names), join, row);
      && (forall i | 0 <= i < |names| :: ts[i] == Named(prefix + names[i], NewTask(kind, 0, [])))
      && ts[|names|] == Named(join, row)
  {
  }

  // ---- eval sets ----

  /** The four ways of making a case. */
  const WAYS: set<string> := {"seed_from_real_traces", "schema_driven", "llm_driven", "adversarial_perturbation"}

  lemma EvalSetTasks(g: Goal)
    requires g.intent.EvalSet?
    ensures |PlanOf(g)| == 6
    ensures forall i | 0 <= i < 4 ::
      PlanOf(g)[i] == Named("generate-" + GENERATORS[i], NewTask("generate_eval_cases", 0, []))
    ensures PlanOf(g)[4] == Named("quality-gate",
      NewTask("eval_quality_gate", 0, []).(contributes := Prefixed("generate-", GENERATORS)))
    ensures PlanOf(g)[5] == Publish(g)
  {
    FanOutTasks("generate_eval_cases", "generate-", GENERATORS, "quality-gate",
      NewTask("eval_quality_gate", 0, []).(contributes := Prefixed("generate-", GENERATORS)));
  }

  lemma WaysAreGenerators(name: string)
    ensures name in WAYS <==> name in GENERATORS
  {
    assert GENERATORS == [GENERATORS[0], GENERATORS[1], GENERATORS[2], GENERATORS[3]];
  }

  /** Generators need nothing, and the gate awaits all of them and requires none. */
  lemma GateAwaits(g: Goal, m: Table)
    requires g.intent.EvalSet? && Carries(m, PlanOf(g))
    ensures forall name | name in WAYS ::
      "generate-" + name in m && m["generate-" + name].dependsOn == m["generate-" + name].contributes == []
    ensures "quality-gate" in m && m["quality-gate"].dependsOn == []
    ensures forall d :: d in m["quality-gate"].contributes <==> exists name | name in WAYS :: d == "generate-" + name
  {
    var ts, ids := PlanOf(g), Prefixed("generate-", GENERATORS);
    EvalSetTasks(g);
    hide PlanOf;
    assert ts[4] in ts;
    forall name | name in WAYS
      ensures "generate-" + name in m && m["generate-" + name].dependsOn == m["generate-" + name].contributes == []
      ensures "generate-" + name in ids
    {
      WaysAreGenerators(name);
      var i :| 0 <= i < |GENERATORS| && GENERATORS[i] == name;
      assert ts[i] in ts && ids[i] == "generate-" + name;
    }
    forall d | d in ids ensures exists name | name in WAYS :: d == "generate-" + name {
      var i :| 0 <= i < |ids| && ids[i] == d;
      WaysAreGenerators(GENERATORS[i]);
    }
  }

  lemma PublishRequires(g: Goal, m: Table)
    requires g.intent.EvalSet? && Carries(m, PlanOf(g))
    ensures "publish" in m && m["publish"].dependsOn == ["quality-gate"] && m["publish"].contributes == []
  {
    EvalSetTasks(g);
    assert PlanOf(g)[5] in PlanOf(g);
  }

  /** Generators need nothing; the gate waits until all have ended and nothing they do can doom it; publishing
      requires the gate. */
  lemma EvalSetGates(g: Goal, m: Table)
    requires g.intent.EvalSet? && Carries(m, PlanOf(g))
    ensures forall name | name in WAYS :: "generate-" + name in m && DepsReady(m, "generate-" + name)
    ensures "quality-gate" in m && "quality-gate" !in DoomedSet(m)
    ensures DepsReady(m, "quality-gate") <==> forall name | name in WAYS :: Terminal(m["generate-" + name].state)
    ensures "publish" in m && (DepsReady(m, "publish") <==> m["quality-gate"].state.Succeeded?)
    ensures "publish" in DoomedSet(m) <==> !Terminal(m["publish"].state) && Dead(m["quality-gate"].state)
  {
    GateAwaits(g, m);
    PublishRequires(g, m);
    hide PlanOf, Carries, Terminal, Dead;
    DoomedByOne(m, "quality-gate");
    DoomedByOne(m, "publish");
    assert "quality-gate" in m["publish"].dependsOn;
  }

  /** Publishing is the only thing that is seen outside, and it carries a key that a retry repeats. */
  lemma OnlyPublishingHasEffects(g: Goal, t: Named)
    requires g.intent.EvalSet? && t in PlanOf(g)
    ensures EffectBearing(t.row.kind) <==> t.id == "publish"
    ensures t.id == "publish" ==>
      t.row.kind == "publish_eval_set" && t.row.idempotencyKey == g.id + ":" + g.revision + ":evalset"
  {
    EvalSetTasks(g);
    var i :| 0 <= i < 6 && PlanOf(g)[i] == t;
    assert i < 4 ==> t.id[0] == 'g';
  }

  // ---- assessments ----

  /** The axes a goal asks for: its own, or else all nine. */
  predicate AskedFor(g: Goal, axes: seq<string>) {
    if g.axes != [] then axes == g.axes
    else axes == ["model", "prompt", "skills", "context", "tools", "memory", "harness", "loop", "graph"]
  }

  /** The task that joins an assessment's axes, and its kind. */
  function JoinOf(g: Goal): (Id, string)
    requires g.intent.Assess? || g.intent.Improve? || g.intent.Compare?
  {
    if g.intent.Compare? then ("compare", "compare_results") else ("synthesise", "synthesise_assessment")
  }

  lemma AssessmentTasks(g: Goal, axes: seq<string>)
    requires (g.intent.Assess? || g.intent.Improve? || g.intent.Compare?) && AskedFor(g, axes)
    ensures |PlanOf(g)| == |axes| + 1
    ensures forall i | 0 <= i < |axes| :: PlanOf(g)[i] == Named("assess-" + axes[i], NewTask("assess_axis", 0, []))
    ensures PlanOf(g)[|axes|] == Named(JoinOf(g).0, NewTask(JoinOf(g).1, 0, Prefixed("assess-", axes)))
  {
    FanOutTasks(ASSESS_AXIS, "assess-", axes, JoinOf(g).0, NewTask(JoinOf(g).1, 0, Prefixed("assess-", axes)));
  }

  /** There is one assessing task for each axis asked for, and no other. */
  lemma OneTaskPerAxis(g: Goal, axes: seq<string>, id: Id)
    requires (g.intent.Assess? || g.intent.Improve? || g.intent.Compare?) && AskedFor(g, axes)
    ensures (exists t | t in PlanOf(g) :: t.id == id && t.row.kind == "assess_axis")
       <==> exists a | a in axes :: id == "assess-" + a
    ensures |PlanOf(g)| == |axes| + 1
  {
    AssessmentTasks(g, axes);
    hide PlanOf, JoinOf;
    if t :| t in PlanOf(g) && t.id == id && t.row.kind == "assess_axis" {
      var i :| 0 <= i < |PlanOf(g)| && PlanOf(g)[i] == t;
      assert axes[i] in axes;
    }
    if a :| a in axes && id == "assess-" + a {
      var i :| 0 <= i < |axes| && axes[i] == a;
      assert PlanOf(g)[i] in PlanOf(g);
    }
  }

  /** Axes need nothing; the join requires every one of them, so that one dead axis dooms it. */
  lemma AssessmentGates(g: Goal, m: Table, axes: seq<string>)
    requires (g.intent.Assess? || g.intent.Improve? || g.intent.Compare?) && AskedFor(g, axes) && Carries(m, PlanOf(g))
    ensures forall a | a in axes :: "assess-" + a in m && DepsReady(m, "assess-" + a)
    ensures var join := JoinOf(g).0;
      && join in m
      && (DepsReady(m, join) <==> forall a | a in axes :: m["assess-" + a].state.Succeeded?)
      && (join in DoomedSet(m) <==>
            !Terminal(m[join].state) && exists a | a in axes :: Dead(m["assess-" + a].state))
  {
    var ts, join, ids := PlanOf(g), JoinOf(g).0, Prefixed("assess-", axes);
    AssessmentTasks(g, axes);
    hide PlanOf, JoinOf, Terminal, Dead;
    assert ts[|axes|] in ts;
    forall i | 0 <= i < |axes| ensures ids[i] in m && m[ids[i]].dependsOn == m[ids[i]].contributes == [] {
      assert ts[i] in ts;
    }
    forall a | a in axes ensures "assess-" + a in ids {
      var i :| 0 <= i < |axes| && axes[i] == a;
      assert ids[i] == "assess-" + a;
    }
    forall d | d in ids ensures exists a | a in axes :: d == "assess-" + a {
      var i :| 0 <= i < |ids| && ids[i] == d;
      assert axes[i] in axes;
    }
    DoomedByOne(m, join);
  }

  // ---- proposals ----

  /** A change is proposed on its assessment, verified once proposed, and opened as a pull request once verified. */
  lemma ProposalGates(g: Goal, m: Table, assessed: Id, axis: string, i: nat)
    requires Carries(m, Chain(g, assessed, axis + "-" + Decimal(i)))
    ensures var base := axis + "-" + Decimal(i);
      && "propose-" + base in m && "verify-" + base in m && "pr-" + base in m
      && (DepsReady(m, "propose-" + base) <==> (assessed in m ==> m[assessed].state.Succeeded?))
      && (DepsReady(m, "verify-" + base) <==> m["propose-" + base].state.Succeeded?)
      && (DepsReady(m, "pr-" + base) <==> m["verify-" + base].state.Succeeded?)
  {
    var base := axis + "-" + Decimal(i);
    var c := Chain(g, assessed, base);
    assert c[0] in c && c[1] in c && c[2] in c;
    assert m["propose-" + base].dependsOn == [assessed] && assessed in m["propose-" + base].dependsOn;
    assert "propose-" + base in m["verify-" + base].dependsOn && "verify-" + base in m["pr-" + base].dependsOn;
  }

  /** Only the pull request is seen outside; its key names the goal, the revision and the finding, and no clock. */
  lemma OnlyPullRequestsHaveEffects(g: Goal, assessed: Id, axis: string, i: nat, t: Named)
    requires t in Chain(g, assessed, axis + "-" + Decimal(i))
    ensures var base := axis + "-" + Decimal(i);
      && (EffectBearing(t.row.kind) <==> t.id == "pr-" + base)
      && (t.id == "propose-" + base ==> t.row.kind == "propose_change" && t.row.spawnDepth == 1)
      && (t.id == "verify-" + base ==> t.row.kind == "verify_proposal" && t.row.spawnDepth == 2)
      && (t.id == "pr-" + base ==> t.row.kind == "open_pull_request" && t.row.spawnDepth == 3)
      && (t.id == "pr-" + base ==> t.row.idempotencyKey == g.id + ":" + g.revision + ":" + base)
  {
    var base := axis + "-" + Decimal(i);
    var k :| 0 <= k < 3 && t == Link(g, assessed, base, k);
    assert t.id == ChainId(k, base);
    assert t.id[0] == Stem(k)[0] && t.id[2] == Stem(k)[2];
    assert ("propose-" + base)[2] == 'o' && ("pr-" + base)[2] == '-';
  }

  /** A number as its decimal digits say it. */
  function Value(digits: string): int {
    if digits == [] then 0 else 10 * Value(digits[..|digits|-1]) + (digits[|digits|-1] as int - '0' as int)
  }

  lemma {:induction false} DecimalReadsBack(n: nat)
    ensures Value(Decimal(n)) == n
  {
    if n >= 10 {
      DecimalReadsBack(n / 10);
      assert Decimal(n)[..|Decimal(n)|-1] == Decimal(n / 10);
    }
  }
}
