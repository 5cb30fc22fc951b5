/** The table seen by one rule: its own rows in order, without ids and without run timestamps.
    Evaluating a rule is a function of that view alone, so the order of the rules does not matter. */
module AlertViews {
  import opened Common
  import opened AlertTable
  import opened AlertEval
  import opened AlertInvariants
  import opened AlertReconcile

  function Erase(e: Event): Event {
    e.(id := 0, firedAt := 0, resolvedAt := None)
  }

  function View(t: seq<Event>, rule: int): seq<Event> {
    if t == [] then []
    else
      var n := |t| - 1;
      View(t[..n], rule) + if t[n].ruleId == Some(rule) then [Erase(t[n])] else []
  }

  // ---------- what the evaluator does to a view ----------

  function ClearView(v: seq<Event>, rule: int, tenant: Option<int>, bucket: Option<int>): seq<Event> {
    seq(|v|, i requires 0 <= i < |v| =>
          if AnyMatch(v[i], rule, tenant, bucket) then v[i].(status := Resolved) else v[i])
  }

  function StepView(v: seq<Event>, rule: Rule, op: Op): seq<Event> {
    match op
    case Ensure(tenant, bucket) =>
      if HasOpen(v, rule.id, tenant, bucket) then v else v + [Erase(NewEvent(0, rule, tenant, bucket, 0))]
    case Clear(tenant, bucket) => ClearView(v, rule.id, tenant, bucket)
  }

  function ExecView(v: seq<Event>, rule: Rule, ops: seq<Op>): seq<Event>
    decreases |ops|
  {
    if ops == [] then v else ExecView(StepView(v, rule, ops[0]), rule, ops[1..])
  }

  /** Evaluating `rule` on the readings `w`, as a function of its own view. */
  function EvalView(v: seq<Event>, w: Readings, rule: Rule): seq<Event> {
    var plan := PlanOf(w, rule);
    var looped := ExecView(v, rule, plan.ops);
    ExecView(looped, rule, SweepOps(OpenByRule(looped, rule.id), plan.sweep))
  }

  // ---------- views of the table operations ----------

  lemma ViewAppend(t: seq<Event>, e: Event, rule: int)
    ensures View(t + [e], rule) == View(t, rule) + if e.ruleId == Some(rule) then [Erase(e)] else []
  {
    assert (t + [e])[..|t|] == t;
  }

  lemma {:induction false} ViewHasOpen(t: seq<Event>, rule: int, tenant: Option<int>, bucket: Option<int>)
    ensures HasOpen(View(t, rule), rule, tenant, bucket) <==> HasOpen(t, rule, tenant, bucket)
  {
    if t != [] {
      var n := |t| - 1;
      ViewHasOpen(t[..n], rule, tenant, bucket);
      HasOpenAppend(View(t[..n], rule), if t[n].ruleId == Some(rule) then [Erase(t[n])] else [], rule, tenant, bucket);
      HasOpenAppend(t[..n], [t[n]], rule, tenant, bucket);
      assert t == t[..n] + [t[n]];
      HasOpenOne(t[n], rule, tenant, bucket);
      HasOpenOne(Erase(t[n]), rule, tenant, bucket);
    }
  }

  lemma HasOpenOne(e: Event, rule: int, tenant: Option<int>, bucket: Option<int>)
    ensures HasOpen([e], rule, tenant, bucket) <==> KeyMatch(e, rule, tenant, bucket)
  {
    assert [e][0] == e;
  }

  lemma HasOpenAppend(t: seq<Event>, u: seq<Event>, rule: int, tenant: Option<int>, bucket: Option<int>)
    ensures HasOpen(t + u, rule, tenant, bucket)
            <==> HasOpen(t, rule, tenant, bucket) || HasOpen(u, rule, tenant, bucket)
  {
    assert forall i :: 0 <= i < |t| ==> (t + u)[i] == t[i];
    assert forall i :: 0 <= i < |u| ==> (t + u)[i + |t|] == u[i];
    assert forall i :: |t| <= i < |t + u| ==> (t + u)[i] == u[i - |t|];
  }

  lemma {:induction false} ViewOpenByRule(t: seq<Event>, rule: int, sweep: Sweep)
    ensures SweepOps(OpenByRule(View(t, rule), rule), sweep) == SweepOps(OpenByRule(t, rule), sweep)
  {
    if t != [] {
      var n := |t| - 1;
      ViewOpenByRule(t[..n], rule, sweep);
      var x := if t[n].ruleId == Some(rule) && IsOpen(t[n]) then [t[n]] else [];
      SweepOpsAppend(OpenByRule(t[..n], rule), x, sweep);
      if t[n].ruleId == Some(rule) {
        var v := View(t[..n], rule);
        assert (v + [Erase(t[n])])[..|v|] == v;
        var y := if IsOpen(t[n]) then [Erase(t[n])] else [];
        SweepOpsAppend(OpenByRule(v, rule), y, sweep);
        assert View(t, rule) == v + [Erase(t[n])] && OpenByRule(View(t, rule), rule) == OpenByRule(v, rule) + y;
        assert SweepOps(y, sweep) == SweepOps(x, sweep);
      } else {
        assert View(t, rule) == View(t[..n], rule) && x == [];
      }
    }
  }

  lemma SweepOpsFirst(a: seq<Event>, b: seq<Event>, first: seq<Op>, sweep: Sweep)
    requires a != [] && first == if Unseen(a[0], sweep) then [Clear(a[0].tenantId, a[0].bucketId)] else []
    ensures SweepOps(a + b, sweep) == first + SweepOps(a[1..] + b, sweep)
    ensures SweepOps(a, sweep) == first + SweepOps(a[1..], sweep)
  {
    assert (a + b)[1..] == a[1..] + b && (a + b)[0] == a[0];
  }

  lemma {:induction false} SweepOpsAppend(a: seq<Event>, b: seq<Event>, sweep: Sweep)
    ensures SweepOps(a + b, sweep) == SweepOps(a, sweep) + SweepOps(b, sweep)
  {
    if a == [] {
      assert a + b == b;
    } else {
      var first := if Unseen(a[0], sweep) then [Clear(a[0].tenantId, a[0].bucketId)] else [];
      SweepOpsAppend(a[1..], b, sweep);
      SweepOpsFirst(a, b, first, sweep);
      hide Unseen, SweepOps;
      assert first + (SweepOps(a[1..], sweep) + SweepOps(b, sweep))
             == first + SweepOps(a[1..], sweep) + SweepOps(b, sweep);
    }
  }

  lemma {:induction false} ViewResolve(t: seq<Event>, rule: int, tenant: Option<int>, bucket: Option<int>, now: nat)
    ensures View(ResolveRows(t, rule, tenant, bucket, now), rule) == ClearView(View(t, rule), rule, tenant, bucket)
  {
    if t != [] {
      var n := |t| - 1;
      var u := ResolveRows(t, rule, tenant, bucket, now);
      ViewResolve(t[..n], rule, tenant, bucket, now);
      assert u[..n] == ResolveRows(t[..n], rule, tenant, bucket, now);
      var v := View(t[..n], rule);
      if t[n].ruleId == Some(rule) {
        assert ClearView(v + [Erase(t[n])], rule, tenant, bucket) == ClearView(v, rule, tenant, bucket) + [Erase(u[n])];
      }
    }
  }

  lemma {:induction false} ViewOfOther(t: seq<Event>, u: seq<Event>, rule: int, other: int)
    requires Touches(rule, t, u) && other != rule
    ensures View(u, other) == View(t, other)
    decreases |u|
  {
    if u != [] {
      var n := |u| - 1;
      if |t| == |u| {
        ViewOfOther(t[..n], u[..n], rule, other);
      } else {
        ViewOfOther(t, u[..n], rule, other);
      }
    }
  }

  // ---------- the evaluator works on views ----------

  lemma StepOnView(db: Db, w: World, rule: Rule, op: Op)
    requires !Step(db, w, rule, op).failed
    ensures View(Step(db, w, rule, op).db.events, rule.id) == StepView(View(db.events, rule.id), rule, op)
  {
    StepSucceeds(db, w, rule, op);
    match op
    case Ensure(tenant, bucket) =>
      ViewHasOpen(db.events, rule.id, tenant, bucket);
      ViewAppend(db.events, NewEvent(db.nextEvent, rule, tenant, bucket, db.calls + 1), rule.id);
    case Clear(tenant, bucket) =>
      ViewResolve(db.events, rule.id, tenant, bucket, db.calls);
  }

  lemma {:induction false} ExecOnView(db: Db, w: World, rule: Rule, ops: seq<Op>)
    requires !Exec(db, w, rule, ops).failed
    ensures View(Exec(db, w, rule, ops).db.events, rule.id) == ExecView(View(db.events, rule.id), rule, ops)
    decreases |ops|
  {
    if ops != [] {
      StepOnView(db, w, rule, ops[0]);
      ExecOnView(Step(db, w, rule, ops[0]).db, w, rule, ops[1..]);
    }
  }

  lemma EvalOnView(db: Db, w: World, rule: Rule)
    requires !EvalRule(db, w, rule).failed
    ensures View(EvalRule(db, w, rule).db.events, rule.id) == EvalView(View(db.events, rule.id), w.readings, rule)
  {
    var plan := PlanOf(w.readings, rule);
    var start := if plan.listing then Tick(db) else db;
    ExecOnView(start, w, rule, plan.ops);
    var a := Exec(start, w, rule, plan.ops);
    ViewOpenByRule(a.db.events, rule.id, plan.sweep);
    var v := View(a.db.events, rule.id);
    if plan.sweep == NoSweep {
      NoSweepOps(OpenByRule(v, rule.id));
    } else {
      ExecOnView(Tick(a.db), w, rule, SweepOps(OpenByRule(a.db.events, rule.id), plan.sweep));
    }
  }

  lemma {:induction false} NoSweepOps(open: seq<Event>)
    ensures SweepOps(open, NoSweep) == []
  {
    if open != [] { NoSweepOps(open[1..]); }
  }

  /** After an error-free pass over `rules`, each rule's view is a function of its view before the pass. */
  lemma {:induction false} RulesOnViews(db: Db, w: World, rules: seq<Rule>, rule: int)
    requires DistinctRules(rules) && !RunRules(db, w, rules).failed
    ensures var u := RunRules(db, w, rules).db.events;
            && (forall k :: 0 <= k < |rules| && rules[k].id == rule
                  ==> View(u, rule) == EvalView(View(db.events, rule), w.readings, rules[k]))
            && ((forall k :: 0 <= k < |rules| ==> rules[k].id != rule) ==> View(u, rule) == View(db.events, rule))
    decreases |rules|
  {
    if rules != [] {
      var o, rest := EvalRule(db, w, rules[0]), rules[1..];
      EvalFrame(db, w, rules[0]);
      RulesOnViews(o.db, w, rest, rule);
      assert forall k :: 0 <= k < |rest| ==> rest[k] == rules[k + 1];
      if rules[0].id == rule {
        EvalOnView(db, w, rules[0]);
      } else {
        ViewOfOther(db.events, o.db.events, rules[0].id, rule);
        assert forall k :: 0 < k < |rules| ==> rules[k] == rest[k - 1];
      }
    }
  }

  /** Permuting the rules gives every rule the same events, up to event ids and run timestamps,
      and even with different call numbers and faults along the way. */
  lemma OrderIrrelevant(db: Db, readings: Readings, faults1: nat -> Fault, faults2: nat -> Fault,
                        rules1: seq<Rule>, rules2: seq<Rule>, rule: int)
    requires DistinctRules(rules1) && DistinctRules(rules2)
    requires forall r :: r in rules1 <==> r in rules2
    requires !RunRules(db, World(readings, faults1), rules1).failed
    requires !RunRules(db, World(readings, faults2), rules2).failed
    ensures View(RunRules(db, World(readings, faults1), rules1).db.events, rule)
         == View(RunRules(db, World(readings, faults2), rules2).db.events, rule)
  {
    RulesOnViews(db, World(readings, faults1), rules1, rule);
    RulesOnViews(db, World(readings, faults2), rules2, rule);
    if k :| 0 <= k < |rules1| && rules1[k].id == rule {
      assert rules1[k] in rules2;
    } else {
      assert forall k :: 0 <= k < |rules2| ==> rules2[k] in rules1;
    }
  }

  /** Rows without a rule, and rows of rules that were not evaluated, are not written at all. */
  lemma {:induction false} OthersUntouched(db: Db, w: World, rules: seq<Rule>, i: nat)
    requires i < |db.events|
    requires forall k :: 0 <= k < |rules| ==> db.events[i].ruleId != Some(rules[k].id)
    ensures var u := RunRules(db, w, rules).db.events; i < |u| && u[i] == db.events[i]
    decreases |rules|
  {
    if rules != [] {
      EvalFrame(db, w, rules[0]);
      var o := EvalRule(db, w, rules[0]);
      if !o.failed { OthersUntouched(o.db, w, rules[1..], i); }
    }
  }
}
