/** At most one open event per key, the all-null keys included: what breaks it, exactly. */
module AlertKeys {
  import opened Common
  import opened AlertTable
  import opened AlertEval
  import opened AlertInvariants
  import opened AlertReconcile
  import opened AlertMachine

  /** No two open events of one rule share tenant and bucket, null or not. */
  ghost predicate UniqueOpen(t: seq<Event>) {
    forall i, j :: 0 <= i < j < |t| && IsOpen(t[i]) && IsOpen(t[j]) ==> !SameKey(t[i], t[j])
  }

  /** Some rule has an open event on the tenant and another one where nulling the tenant puts it. */
  ghost predicate MergesTenant(t: seq<Event>, x: int) {
    exists r, b :: HasOpen(t, r, Some(x), b) && HasOpen(t, r, None, b)
  }

  ghost predicate MergesBucket(t: seq<Event>, x: int) {
    exists r, y :: HasOpen(t, r, y, Some(x)) && HasOpen(t, r, y, None)
  }

  // ---------- what keeps open keys unique ----------

  lemma InsertKeepsUnique(t: seq<Event>, e: Event)
    requires UniqueOpen(t) && e.ruleId.Some? && !HasOpen(t, e.ruleId.value, e.tenantId, e.bucketId)
    ensures UniqueOpen(t + [e])
  {
    var u := t + [e];
    forall i, j | 0 <= i < j < |u| && IsOpen(u[i]) && IsOpen(u[j]) ensures !SameKey(u[i], u[j]) {
      if j == |t| { assert !KeyMatch(t[i], e.ruleId.value, e.tenantId, e.bucketId); }
    }
  }

  lemma StepKeepsUnique(db: Db, w: World, rule: Rule, op: Op)
    requires UniqueOpen(db.events)
    ensures UniqueOpen(Step(db, w, rule, op).db.events)
  {
    StepEvents(db, w, rule, op);
    hide Step;
    var u := Step(db, w, rule, op).db.events;
    if u != db.events && op.Ensure? {
      InsertKeepsUnique(db.events, NewEvent(db.nextEvent, rule, op.tenant, op.bucket, db.calls + 1));
    }
  }

  lemma {:induction false} ExecKeepsUnique(db: Db, w: World, rule: Rule, ops: seq<Op>)
    requires UniqueOpen(db.events)
    ensures UniqueOpen(Exec(db, w, rule, ops).db.events)
    decreases |ops|
  {
    if ops != [] {
      StepKeepsUnique(db, w, rule, ops[0]);
      ExecKeepsUnique(Step(db, w, rule, ops[0]).db, w, rule, ops[1..]);
    }
  }

  lemma EvalKeepsUnique(db: Db, w: World, rule: Rule)
    requires UniqueOpen(db.events)
    ensures UniqueOpen(EvalRule(db, w, rule).db.events)
  {
    hide UniqueOpen;
    var plan := PlanOf(w.readings, rule);
    var start := if plan.listing then Tick(db) else db;
    ExecKeepsUnique(start, w, rule, plan.ops);
    var a := Exec(start, w, rule, plan.ops);
    ExecKeepsUnique(Tick(a.db), w, rule, SweepOps(OpenByRule(a.db.events, rule.id), plan.sweep));
  }

  lemma {:induction false} RulesKeepUnique(db: Db, w: World, rules: seq<Rule>)
    requires UniqueOpen(db.events)
    ensures UniqueOpen(RunRules(db, w, rules).db.events)
    decreases |rules|
  {
    if rules != [] {
      EvalKeepsUnique(db, w, rules[0]);
      RulesKeepUnique(EvalRule(db, w, rules[0]).db, w, rules[1..]);
    }
  }

  /** A rewriting of single rows that opens nothing and moves no open row to another key. */
  lemma RewriteKeepsUnique(t: seq<Event>, u: seq<Event>)
    requires UniqueOpen(t) && |u| == |t|
    requires forall i :: 0 <= i < |t| && IsOpen(u[i]) && u[i].ruleId.Some? ==>
               IsOpen(t[i]) && t[i].ruleId == u[i].ruleId && t[i].tenantId == u[i].tenantId
               && t[i].bucketId == u[i].bucketId
    ensures UniqueOpen(u)
  {
    forall i, j | 0 <= i < j < |u| && IsOpen(u[i]) && IsOpen(u[j]) ensures !SameKey(u[i], u[j]) {
      assert SameKey(u[i], u[j]) ==> SameKey(t[i], t[j]);
    }
  }

  predicate DropsSubject(a: Action) {
    a.DropTenant? || a.DropBucket?
  }

  /** Runs, operators and rule edits never break it. */
  lemma OthersKeepUnique(db: Db, a: Action)
    requires UniqueOpen(db.events) && !DropsSubject(a)
    ensures UniqueOpen(Apply(db, a).events)
  {
    if a.Evaluate? {
      RulesKeepUnique(Tick(db), a.w, EnabledRules(db.rules, db.nextRule));
    } else {
      hide UniqueOpen;
      RewriteKeepsUnique(db.events, Apply(db, a).events);
    }
  }

  // ---------- what breaks it ----------

  lemma MergedPair(t: seq<Event>, u: seq<Event>, r: int, a1: Option<int>, b1: Option<int>, a2: Option<int>,
                   b2: Option<int>, a: Option<int>, b: Option<int>)
    requires |u| == |t| && HasOpen(t, r, a1, b1) && HasOpen(t, r, a2, b2) && (a1 != a2 || b1 != b2)
    requires forall i ::
               0 <= i < |t| && (KeyMatch(t[i], r, a1, b1) || KeyMatch(t[i], r, a2, b2))
               ==> KeyMatch(u[i], r, a, b)
    ensures !UniqueOpen(u)
  {
    var i :| 0 <= i < |t| && KeyMatch(t[i], r, a1, b1);
    var j :| 0 <= j < |t| && KeyMatch(t[j], r, a2, b2);
    assert KeyMatch(u[i], r, a, b) && KeyMatch(u[j], r, a, b) && i != j;
    assert SameKey(u[i], u[j]) && SameKey(u[j], u[i]);
  }

  lemma OpenKey(t: seq<Event>, i: int, r: int)
    requires 0 <= i < |t| && IsOpen(t[i]) && t[i].ruleId == Some(r)
    ensures HasOpen(t, r, t[i].tenantId, t[i].bucketId)
  {
    assert KeyMatch(t[i], r, t[i].tenantId, t[i].bucketId);
  }

  /** Deleting a tenant leaves two open events on one key exactly when some rule already has an open event there. */
  lemma MergesExactly(t: seq<Event>, x: int)
    requires UniqueOpen(t)
    ensures UniqueOpen(ForgetTenant(t, x)) <==> !MergesTenant(t, x)
  {
    var u := ForgetTenant(t, x);
    if MergesTenant(t, x) {
      var r, b :| HasOpen(t, r, Some(x), b) && HasOpen(t, r, None, b);
      MergedPair(t, u, r, Some(x), b, None, b, None, b);
    } else {
      forall i, j | 0 <= i < j < |u| && IsOpen(u[i]) && IsOpen(u[j]) ensures !SameKey(u[i], u[j]) {
        if SameKey(u[i], u[j]) {
          OpenKey(t, i, t[i].ruleId.value);
          OpenKey(t, j, t[j].ruleId.value);
        }
      }
    }
  }

  /** The same for buckets. */
  lemma BucketMergesExactly(t: seq<Event>, x: int)
    requires UniqueOpen(t)
    ensures UniqueOpen(ForgetBucket(t, x)) <==> !MergesBucket(t, x)
  {
    var u := ForgetBucket(t, x);
    if MergesBucket(t, x) {
      var r, y :| HasOpen(t, r, y, Some(x)) && HasOpen(t, r, y, None);
      MergedPair(t, u, r, y, Some(x), y, None, y, None);
    } else {
      forall i, j | 0 <= i < j < |u| && IsOpen(u[i]) && IsOpen(u[j]) ensures !SameKey(u[i], u[j]) {
        if SameKey(u[i], u[j]) {
          OpenKey(t, i, t[i].ruleId.value);
          OpenKey(t, j, t[j].ruleId.value);
        }
      }
    }
  }

  // ---------- histories ----------

  ghost predicate Merges(db: Db, a: Action) {
    (a.DropTenant? && MergesTenant(db.events, a.tenant)) || (a.DropBucket? && MergesBucket(db.events, a.bucket))
  }

  lemma ActionMerges(db: Db, a: Action)
    requires UniqueOpen(db.events)
    ensures UniqueOpen(Apply(db, a).events) <==> !Merges(db, a)
  {
    match a
    case DropTenant(x) => MergesExactly(db.events, x);
    case DropBucket(x) => BucketMergesExactly(db.events, x);
    case _ => OthersKeepUnique(db, a);
  }

  ghost predicate AlwaysUnique(actions: seq<Action>) {
    forall k :: 0 <= k <= |actions| ==> UniqueOpen(History(EMPTY, actions[..k]).events)
  }

  ghost predicate NeverMerges(actions: seq<Action>) {
    forall k :: 0 <= k < |actions| ==> !Merges(History(EMPTY, actions[..k]), actions[k])
  }

  lemma UniquePrefixes(front: seq<Action>, a: Action)
    ensures AlwaysUnique(front + [a]) <==> AlwaysUnique(front) && UniqueOpen(Apply(History(EMPTY, front), a).events)
  {
    hide UniqueOpen, History, Apply;
    var all := front + [a];
    HistoryNext(EMPTY, front, a);
    forall k | 0 <= k <= |front| ensures all[..k] == front[..k] { SamePrefix(front, a, k); }
    SamePrefix(front, a, 0);
    if AlwaysUnique(all) {
      forall k | 0 <= k <= |front|
        ensures UniqueOpen(History(EMPTY, front[..k]).events)
      {
        assert all[..k] == front[..k];
      }
    }
  }

  lemma MergingPrefixes(front: seq<Action>, a: Action)
    ensures NeverMerges(front + [a]) <==> NeverMerges(front) && !Merges(History(EMPTY, front), a)
  {
    hide Merges, History;
    var all := front + [a];
    forall k | 0 <= k <= |front| ensures all[..k] == front[..k] { SamePrefix(front, a, k); }
    SamePrefix(front, a, 0);
    if NeverMerges(all) {
      forall k | 0 <= k < |front| ensures !Merges(History(EMPTY, front[..k]), front[k]) {
        assert all[..k] == front[..k] && all[k] == front[k];
      }
    }
  }

  /** In every state of a history each key has at most one open event exactly when no deletion in it merged two. */
  lemma {:induction false} UniqueExactly(actions: seq<Action>)
    ensures AlwaysUnique(actions) <==> NeverMerges(actions)
    decreases |actions|
  {
    if actions == [] {
      assert actions[..0] == [] && History(EMPTY, []) == EMPTY;
    } else {
      var (front, a) := (actions[..|actions| - 1], actions[|actions| - 1]);
      assert actions == front + [a];
      UniqueExactly(front);
      UniquePrefixes(front, a);
      MergingPrefixes(front, a);
      assert front[..|front|] == front;
      assert AlwaysUnique(front) ==> UniqueOpen(History(EMPTY, front).events);
      hide UniqueOpen, Merges, History, Apply;
      if AlwaysUnique(front) { ActionMerges(History(EMPTY, front), a); }
    }
  }
}
