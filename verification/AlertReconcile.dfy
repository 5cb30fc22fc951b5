/** What an error-free evaluation achieves: the open events are the ones the rule selects,
    the counters are exact, and a second evaluation finds nothing left to do. */
module AlertReconcile {
  import opened Common
  import opened AlertTable
  import opened AlertEval
  import opened AlertInvariants

  // ---------- one operation is done, and stays done ----------

  ghost predicate Done(t: seq<Event>, rule: int, op: Op) {
    match op
    case Ensure(tenant, bucket) => HasOpen(t, rule, tenant, bucket)
    case Clear(tenant, bucket) => forall i :: 0 <= i < |t| ==> !AnyMatch(t[i], rule, tenant, bucket)
  }

  /** Neither operation undoes the other. */
  predicate Apart(a: Op, b: Op) {
    && (a.Ensure? && b.Clear? ==> !Covers(b.tenant, b.bucket, a.tenant, a.bucket))
    && (b.Ensure? && a.Clear? ==> !Covers(a.tenant, a.bucket, b.tenant, b.bucket))
  }

  lemma StepEvents(db: Db, w: World, rule: Rule, op: Op)
    ensures var u := Step(db, w, rule, op).db.events;
            || u == db.events
            || (op.Ensure? && !HasOpen(db.events, rule.id, op.tenant, op.bucket)
                && u == db.events + [NewEvent(db.nextEvent, rule, op.tenant, op.bucket, db.calls + 1)])
            || (op.Clear? && u == ResolveRows(db.events, rule.id, op.tenant, op.bucket, db.calls))
  {
    if op.Clear? {
      ProjectFrame(Closed(db, rule, op.tenant, op.bucket), w, rule, op.tenant, op.bucket, false);
    } else {
      ProjectFrame(Insert(Tick(db), w, rule, op.tenant, op.bucket).db, w, rule, op.tenant, op.bucket, true);
    }
  }

  /** The same for a step that does not fail, with its counts. */
  lemma StepSucceeds(db: Db, w: World, rule: Rule, op: Op)
    requires !Step(db, w, rule, op).failed
    ensures var o := Step(db, w, rule, op);
            match op
            case Ensure(tenant, bucket) =>
              && o.resolved == 0
              && (HasOpen(db.events, rule.id, tenant, bucket) ==> o.created == 0 && o.db.events == db.events)
              && (!HasOpen(db.events, rule.id, tenant, bucket) ==>
                    o.created == 1
                    && o.db.events == db.events + [NewEvent(db.nextEvent, rule, tenant, bucket, db.calls + 1)])
            case Clear(tenant, bucket) =>
              && o.created == 0 && o.resolved == CountAny(db.events, rule.id, tenant, bucket)
              && o.db.events == ResolveRows(db.events, rule.id, tenant, bucket, db.calls)
  {
    if op.Clear? {
      ProjectFrame(Closed(db, rule, op.tenant, op.bucket), w, rule, op.tenant, op.bucket, false);
    } else {
      ProjectFrame(Insert(Tick(db), w, rule, op.tenant, op.bucket).db, w, rule, op.tenant, op.bucket, true);
    }
  }

  lemma StepDoes(db: Db, w: World, rule: Rule, op: Op)
    requires !Step(db, w, rule, op).failed
    ensures Done(Step(db, w, rule, op).db.events, rule.id, op)
  {
    StepSucceeds(db, w, rule, op);
    if op.Ensure? && !HasOpen(db.events, rule.id, op.tenant, op.bucket) {
      var u := Step(db, w, rule, op).db.events;
      assert KeyMatch(u[|u| - 1], rule.id, op.tenant, op.bucket);
    }
  }

  lemma StepKeepsDone(db: Db, w: World, rule: Rule, op: Op, other: Op)
    requires Done(db.events, rule.id, other) && Apart(op, other)
    ensures Done(Step(db, w, rule, op).db.events, rule.id, other)
  {
    StepEvents(db, w, rule, op);
    var t, u := db.events, Step(db, w, rule, op).db.events;
    if other.Ensure? {
      var i :| 0 <= i < |t| && KeyMatch(t[i], rule.id, other.tenant, other.bucket);
      assert u[i] == t[i];
    }
  }

  lemma {:induction false} ExecKeepsDone(db: Db, w: World, rule: Rule, ops: seq<Op>, other: Op)
    requires Done(db.events, rule.id, other)
    requires forall i :: 0 <= i < |ops| ==> Apart(ops[i], other)
    ensures Done(Exec(db, w, rule, ops).db.events, rule.id, other)
    decreases |ops|
  {
    if ops != [] {
      StepKeepsDone(db, w, rule, ops[0], other);
      var o := Step(db, w, rule, ops[0]);
      if !o.failed { ExecKeepsDone(o.db, w, rule, ops[1..], other); }
    }
  }

  ghost predicate PairwiseApart(ops: seq<Op>) {
    forall i, j :: 0 <= i < j < |ops| ==> Apart(ops[i], ops[j])
  }

  ghost predicate AllDone(t: seq<Event>, rule: int, ops: seq<Op>) {
    forall i :: 0 <= i < |ops| ==> Done(t, rule, ops[i])
  }

  lemma {:induction false} ExecDoes(db: Db, w: World, rule: Rule, ops: seq<Op>)
    requires PairwiseApart(ops) && !Exec(db, w, rule, ops).failed
    ensures AllDone(Exec(db, w, rule, ops).db.events, rule.id, ops)
    decreases |ops|
  {
    if ops != [] {
      var o, rest := Step(db, w, rule, ops[0]), ops[1..];
      StepDoes(db, w, rule, ops[0]);
      ExecDoes(o.db, w, rule, rest);
      forall i | 0 <= i < |rest| ensures Apart(rest[i], ops[0]) { assert Apart(ops[0], ops[i + 1]); }
      ExecKeepsDone(o.db, w, rule, rest, ops[0]);
      var u := Exec(db, w, rule, ops).db.events;
      forall i | 0 <= i < |ops| ensures Done(u, rule.id, ops[i]) {
        if i > 0 { assert Done(u, rule.id, rest[i - 1]); }
      }
    }
  }

  // ---------- the plan of a rule ----------

  ghost predicate DistinctTenants(ts: seq<TenantRow>) {
    forall i, j :: 0 <= i < j < |ts| ==> ts[i].id != ts[j].id
  }

  ghost predicate DistinctBuckets(bs: seq<BucketRow>) {
    forall i, j :: 0 <= i < j < |bs| ==> bs[i].id != bs[j].id
  }

  /** The listings come from tables with a primary key. */
  ghost predicate PrimaryKeys(w: Readings) {
    (w.tenants.Some? ==> DistinctTenants(w.tenants.value)) && (w.buckets.Some? ==> DistinctBuckets(w.buckets.value))
  }

  ghost predicate TenantListed(w: Readings, rule: Rule, ts: seq<TenantRow>, x: int, over: bool) {
    exists k :: 0 <= k < |ts| && ts[k].id == x && TenantConsidered(ts[k]) && TenantOver(w, rule, ts[k]) == over
  }

  ghost predicate BucketListed(w: Readings, rule: Rule, bs: seq<BucketRow>, x: int, over: bool) {
    exists k :: 0 <= k < |bs| && bs[k].id == x && BucketConsidered(w, bs[k]) && BucketOver(w, rule, bs[k]) == over
  }

  lemma {:induction false} TenantOpsExact(w: Readings, rule: Rule, ts: seq<TenantRow>, op: Op)
    ensures op in TenantOps(w, rule, ts) <==>
              op.tenant.Some? && op.bucket.None? && TenantListed(w, rule, ts, op.tenant.value, op.Ensure?)
  {
    if ts != [] {
      TenantOpsExact(w, rule, ts[1..], op);
      if op.tenant.Some? {
        var (x, over) := (op.tenant.value, op.Ensure?);
        if TenantListed(w, rule, ts[1..], x, over) {
          var k :| 0 <= k < |ts[1..]| && ts[1..][k].id == x && TenantConsidered(ts[1..][k])
                   && TenantOver(w, rule, ts[1..][k]) == over;
          assert ts[k + 1] == ts[1..][k];
        }
        if TenantListed(w, rule, ts, x, over) {
          var k :| 0 <= k < |ts| && ts[k].id == x && TenantConsidered(ts[k]) && TenantOver(w, rule, ts[k]) == over;
          if k > 0 { assert ts[1..][k - 1] == ts[k]; }
        }
      }
    }
  }

  lemma {:induction false} TenantsSeenExact(w: Readings, rule: Rule, ts: seq<TenantRow>, x: int)
    ensures x in TenantsSeen(ts) <==> TenantListed(w, rule, ts, x, true) || TenantListed(w, rule, ts, x, false)
  {
    if ts != [] {
      TenantsSeenExact(w, rule, ts[1..], x);
      assert forall k :: 0 <= k < |ts[1..]| ==> ts[1..][k] == ts[k + 1];
      assert forall k :: 0 < k < |ts| ==> ts[k] == ts[1..][k - 1];
    }
  }

  lemma {:induction false} BucketOpsExact(w: Readings, rule: Rule, bs: seq<BucketRow>, op: Op)
    ensures op in BucketOps(w, rule, bs) <==>
              op.tenant.None? && op.bucket.Some? && BucketListed(w, rule, bs, op.bucket.value, op.Ensure?)
  {
    if bs != [] {
      BucketOpsExact(w, rule, bs[1..], op);
      if op.bucket.Some? {
        var (x, over) := (op.bucket.value, op.Ensure?);
        if BucketListed(w, rule, bs[1..], x, over) {
          var k :|
            0 <= k < |bs[1..]| && bs[1..][k].id == x && BucketConsidered(w, bs[1..][k])
            && BucketOver(w, rule, bs[1..][k]) == over;
          assert bs[k + 1] == bs[1..][k];
        }
        if BucketListed(w, rule, bs, x, over) {
          var k :| 0 <= k < |bs| && bs[k].id == x && BucketConsidered(w, bs[k]) && BucketOver(w, rule, bs[k]) == over;
          if k > 0 { assert bs[1..][k - 1] == bs[k]; }
        }
      }
    }
  }

  lemma {:induction false} BucketsSeenExact(w: Readings, rule: Rule, bs: seq<BucketRow>, x: int)
    ensures x in BucketsSeen(w, bs) <==> BucketListed(w, rule, bs, x, true) || BucketListed(w, rule, bs, x, false)
  {
    if bs != [] {
      BucketsSeenExact(w, rule, bs[1..], x);
      assert forall k :: 0 <= k < |bs[1..]| ==> bs[1..][k] == bs[k + 1];
      assert forall k :: 0 < k < |bs| ==> bs[k] == bs[1..][k - 1];
    }
  }

  /** Every key of the plan is protected from the sweep, and no two operations collide. */
  ghost predicate PlanSound(plan: Plan) {
    && PairwiseApart(plan.ops)
    && forall i :: 0 <= i < |plan.ops| ==>
         match plan.sweep
         case NoSweep => true
         case ByTenant(seen) => plan.ops[i].tenant.Some? && plan.ops[i].tenant.value in seen
         case ByBucket(seen) => plan.ops[i].bucket.Some? && plan.ops[i].bucket.value in seen
  }

  lemma PlanIsSound(w: Readings, rule: Rule)
    requires PrimaryKeys(w)
    ensures PlanSound(PlanOf(w, rule))
  {
    var plan := PlanOf(w, rule);
    forall i | 0 <= i < |plan.ops|
      ensures match plan.sweep
              case NoSweep => true
              case ByTenant(seen) => plan.ops[i].tenant.Some? && plan.ops[i].tenant.value in seen
              case ByBucket(seen) => plan.ops[i].bucket.Some? && plan.ops[i].bucket.value in seen
    {
      assert plan.ops[i] in plan.ops;
      match plan.sweep {
        case NoSweep =>
        case ByTenant(_) =>
          TenantOpsExact(w, rule, w.tenants.value, plan.ops[i]);
          TenantsSeenExact(w, rule, w.tenants.value, plan.ops[i].tenant.value);
        case ByBucket(_) =>
          BucketOpsExact(w, rule, w.buckets.value, plan.ops[i]);
          BucketsSeenExact(w, rule, w.buckets.value, plan.ops[i].bucket.value);
      }
    }
    forall i, j | 0 <= i < j < |plan.ops| ensures Apart(plan.ops[i], plan.ops[j]) {
      assert plan.ops[i] in plan.ops && plan.ops[j] in plan.ops;
      match plan.sweep {
        case NoSweep =>
        case ByTenant(_) =>
          TenantOpsExact(w, rule, w.tenants.value, plan.ops[i]);
          TenantOpsExact(w, rule, w.tenants.value, plan.ops[j]);
        case ByBucket(_) =>
          BucketOpsExact(w, rule, w.buckets.value, plan.ops[i]);
          BucketOpsExact(w, rule, w.buckets.value, plan.ops[j]);
      }
    }
  }

  // ---------- the sweep ----------

  lemma {:induction false} SweepOpsExact(open: seq<Event>, sweep: Sweep, op: Op)
    ensures op in SweepOps(open, sweep) <==>
              op.Clear? && exists e :: e in open && Unseen(e, sweep) && op == Clear(e.tenantId, e.bucketId)
  {
    if open != [] { SweepOpsExact(open[1..], sweep, op); }
  }

  /** Clearing only closes: a row that is still open was not changed. */
  lemma {:induction false} ClearingCloses(db: Db, w: World, rule: Rule, ops: seq<Op>)
    requires forall i :: 0 <= i < |ops| ==> ops[i].Clear?
    ensures var u := Exec(db, w, rule, ops).db.events;
            |u| == |db.events| && forall i :: 0 <= i < |u| && IsOpen(u[i]) ==> u[i] == db.events[i]
    decreases |ops|
  {
    if ops != [] {
      StepEvents(db, w, rule, ops[0]);
      var o := Step(db, w, rule, ops[0]);
      if !o.failed { ClearingCloses(o.db, w, rule, ops[1..]); }
    }
  }

  /** Everything a rule's plan asks for holds, and no unseen subject keeps an open event. */
  ghost predicate Settled(t: seq<Event>, rule: int, plan: Plan) {
    && AllDone(t, rule, plan.ops)
    && forall i :: 0 <= i < |t| && t[i].ruleId == Some(rule) && IsOpen(t[i]) ==> !Unseen(t[i], plan.sweep)
  }

  lemma SweepSettles(db: Db, w: World, rule: Rule, plan: Plan)
    requires AllDone(db.events, rule.id, plan.ops) && PlanSound(plan) && !RunSweep(db, w, rule, plan.sweep).failed
    ensures Settled(RunSweep(db, w, rule, plan.sweep).db.events, rule.id, plan)
  {
    if plan.sweep != NoSweep {
      var open := OpenByRule(db.events, rule.id);
      var ops := SweepOps(open, plan.sweep);
      var u := RunSweep(db, w, rule, plan.sweep).db.events;
      forall k | 0 <= k < |ops|
        ensures ops[k].Clear? && !(exists i :: 0 <= i < |plan.ops| && !Apart(ops[k], plan.ops[i]))
      {
        assert ops[k] in ops;
        SweepOpsExact(open, plan.sweep, ops[k]);
      }
      ExecDoes(Tick(db), w, rule, ops);
      ClearingCloses(Tick(db), w, rule, ops);
      forall i | 0 <= i < |plan.ops| ensures Done(u, rule.id, plan.ops[i]) {
        ExecKeepsDone(Tick(db), w, rule, ops, plan.ops[i]);
      }
      forall i | 0 <= i < |u| && u[i].ruleId == Some(rule.id) && IsOpen(u[i]) ensures !Unseen(u[i], plan.sweep) {
        OpenByRuleExact(db.events, rule.id, u[i]);
        var op := Clear(u[i].tenantId, u[i].bucketId);
        SweepOpsExact(open, plan.sweep, op);
        assert AnyMatch(u[i], rule.id, op.tenant, op.bucket) && !Done(u, rule.id, op);
        assert op !in ops;
      }
    }
  }

  lemma EvalSettles(db: Db, w: World, rule: Rule)
    requires PrimaryKeys(w.readings) && !EvalRule(db, w, rule).failed
    ensures Settled(EvalRule(db, w, rule).db.events, rule.id, PlanOf(w.readings, rule))
  {
    var plan := PlanOf(w.readings, rule);
    PlanIsSound(w.readings, rule);
    var start := if plan.listing then Tick(db) else db;
    ExecDoes(start, w, rule, plan.ops);
    SweepSettles(Exec(start, w, rule, plan.ops).db, w, rule, plan);
  }

  // ---------- reconciliation of one rule ----------

  ghost predicate TenantHasOpen(t: seq<Event>, rule: int, x: int) {
    exists i :: 0 <= i < |t| && t[i].ruleId == Some(rule) && IsOpen(t[i]) && t[i].tenantId == Some(x)
  }

  ghost predicate BucketHasOpen(t: seq<Event>, rule: int, x: int) {
    exists i :: 0 <= i < |t| && t[i].ruleId == Some(rule) && IsOpen(t[i]) && t[i].bucketId == Some(x)
  }

  /** A listed subject is selected when it is considered and over the threshold. */
  ghost predicate TenantSelected(w: Readings, rule: Rule, x: int) {
    w.tenants.Some? && TenantListed(w, rule, w.tenants.value, x, true)
  }

  ghost predicate BucketSelected(w: Readings, rule: Rule, x: int) {
    w.buckets.Some? && BucketListed(w, rule, w.buckets.value, x, true)
  }

  lemma SettledTenants(t: seq<Event>, w: Readings, rule: Rule, x: int)
    requires SubjectOf(rule.ruleType) == Tenants && w.tenants.Some?
    requires Settled(t, rule.id, PlanOf(w, rule))
    ensures TenantHasOpen(t, rule.id, x) <==> TenantSelected(w, rule, x)
  {
    var plan := PlanOf(w, rule);
    var ts := w.tenants.value;
    TenantOpsExact(w, rule, ts, Ensure(Some(x), None));
    TenantOpsExact(w, rule, ts, Clear(Some(x), None));
    TenantsSeenExact(w, rule, ts, x);
    if TenantSelected(w, rule, x) {
      var k :| 0 <= k < |plan.ops| && plan.ops[k] == Ensure(Some(x), None);
      assert Done(t, rule.id, plan.ops[k]);
      var i :| 0 <= i < |t| && KeyMatch(t[i], rule.id, Some(x), None);
    } else if TenantListed(w, rule, ts, x, false) {
      var k :| 0 <= k < |plan.ops| && plan.ops[k] == Clear(Some(x), None);
      assert Done(t, rule.id, plan.ops[k]);
      assert forall i :: 0 <= i < |t| ==> !AnyMatch(t[i], rule.id, Some(x), None);
    }
  }

  lemma SettledBuckets(t: seq<Event>, w: Readings, rule: Rule, x: int)
    requires SubjectOf(rule.ruleType) == Buckets && w.buckets.Some?
    requires Settled(t, rule.id, PlanOf(w, rule))
    ensures BucketHasOpen(t, rule.id, x) <==> BucketSelected(w, rule, x)
  {
    var plan := PlanOf(w, rule);
    var bs := w.buckets.value;
    BucketOpsExact(w, rule, bs, Ensure(None, Some(x)));
    BucketOpsExact(w, rule, bs, Clear(None, Some(x)));
    BucketsSeenExact(w, rule, bs, x);
    if BucketSelected(w, rule, x) {
      var k :| 0 <= k < |plan.ops| && plan.ops[k] == Ensure(None, Some(x));
      assert Done(t, rule.id, plan.ops[k]);
      var i :| 0 <= i < |t| && KeyMatch(t[i], rule.id, None, Some(x));
    } else if BucketListed(w, rule, bs, x, false) {
      var k :| 0 <= k < |plan.ops| && plan.ops[k] == Clear(None, Some(x));
      assert Done(t, rule.id, plan.ops[k]);
      assert forall i :: 0 <= i < |t| ==> !AnyMatch(t[i], rule.id, None, Some(x));
    }
  }

  // ---------- a whole run ----------

  ghost predicate DistinctRules(rules: seq<Rule>) {
    forall i, j :: 0 <= i < j < |rules| ==> rules[i].id != rules[j].id
  }

  lemma SettledFrame(t: seq<Event>, u: seq<Event>, other: int, rule: int, plan: Plan)
    requires Settled(t, rule, plan) && Touches(other, t, u) && other != rule
    ensures Settled(u, rule, plan)
  {
    forall k | 0 <= k < |plan.ops| ensures Done(u, rule, plan.ops[k]) {
      var op := plan.ops[k];
      assert Done(t, rule, op);
      if op.Ensure? {
        var i :| 0 <= i < |t| && KeyMatch(t[i], rule, op.tenant, op.bucket);
        assert u[i] == t[i];
      }
    }
  }

  ghost predicate AllSettled(t: seq<Event>, w: Readings, rules: seq<Rule>) {
    forall k :: 0 <= k < |rules| ==> Settled(t, rules[k].id, PlanOf(w, rules[k]))
  }

  lemma {:induction false} RulesKeepSettled(db: Db, w: World, rules: seq<Rule>, rule: int, plan: Plan)
    requires Settled(db.events, rule, plan)
    requires forall k :: 0 <= k < |rules| ==> rules[k].id != rule
    ensures Settled(RunRules(db, w, rules).db.events, rule, plan)
    decreases |rules|
  {
    if rules != [] {
      EvalFrame(db, w, rules[0]);
      var o := EvalRule(db, w, rules[0]);
      SettledFrame(db.events, o.db.events, rules[0].id, rule, plan);
      if !o.failed { RulesKeepSettled(o.db, w, rules[1..], rule, plan); }
    }
  }

  lemma {:induction false} RulesSettle(db: Db, w: World, rules: seq<Rule>)
    requires PrimaryKeys(w.readings) && DistinctRules(rules) && !RunRules(db, w, rules).failed
    ensures AllSettled(RunRules(db, w, rules).db.events, w.readings, rules)
    decreases |rules|
  {
    if rules != [] {
      var o, rest := EvalRule(db, w, rules[0]), rules[1..];
      EvalSettles(db, w, rules[0]);
      RulesSettle(o.db, w, rest);
      RulesKeepSettled(o.db, w, rest, rules[0].id, PlanOf(w.readings, rules[0]));
      var u := RunRules(db, w, rules).db.events;
      forall k | 0 <= k < |rules| ensures Settled(u, rules[k].id, PlanOf(w.readings, rules[k])) {
        if k > 0 { assert rules[k] == rest[k - 1]; }
      }
    }
  }

  /** The listing holds exactly the enabled rules, once each. */
  lemma {:induction false} EnabledRulesExact(rules: map<int, Rule>, below: nat)
    requires forall id :: id in rules ==> rules[id].id == id
    ensures forall r ::
              r in EnabledRules(rules, below)
              <==> 0 <= r.id < below && r.id in rules && rules[r.id] == r && r.enabled
    ensures DistinctRules(EnabledRules(rules, below))
  {
    if below > 0 {
      EnabledRulesExact(rules, below - 1);
      var listed := EnabledRules(rules, below - 1);
      assert forall k :: 0 <= k < |listed| ==> listed[k] in listed;
    }
  }

  ghost predicate RunSettled(db: Db, w: Readings, t: seq<Event>) {
    AllSettled(t, w, EnabledRules(db.rules, db.nextRule))
  }

  /** In the order of their ids. */
  lemma {:induction false} EnabledRulesAscend(rules: map<int, Rule>, below: nat, i: nat, j: nat)
    requires i < j < |EnabledRules(rules, below)| && forall r :: r in rules ==> rules[r].id == r
    ensures EnabledRules(rules, below)[i].id < EnabledRules(rules, below)[j].id
  {
    var front := EnabledRules(rules, below - 1);
    if j < |front| {
      EnabledRulesAscend(rules, below - 1, i, j);
    } else {
      assert front[i] in front;
      EnabledRulesExact(rules, below - 1);
    }
  }

  lemma RunSettles(db: Db, w: World)
    requires RulesOk(db) && PrimaryKeys(w.readings) && !Run(db, w).out.failed
    ensures RunSettled(db, w.readings, Run(db, w).out.db.events)
  {
    EnabledRulesExact(db.rules, db.nextRule);
    RulesSettle(Tick(db), w, EnabledRules(db.rules, db.nextRule));
  }

  /** Whatever the table held before, after an error-free run a tenant has an open event for an enabled
      tenant-quota rule exactly when it is active, has a positive quota and uses at least the threshold. */
  lemma TenantsReconciled(db: Db, w: World, rule: Rule, x: int)
    requires RulesOk(db) && PrimaryKeys(w.readings) && !Run(db, w).out.failed
    requires rule.id in db.rules && db.rules[rule.id] == rule && rule.enabled
    requires SubjectOf(rule.ruleType) == Tenants && w.readings.tenants.Some?
    ensures TenantHasOpen(Run(db, w).out.db.events, rule.id, x) <==> TenantSelected(w.readings, rule, x)
  {
    RunSettles(db, w);
    EnabledRulesExact(db.rules, db.nextRule);
    var rules := EnabledRules(db.rules, db.nextRule);
    var k :| 0 <= k < |rules| && rules[k] == rule;
    SettledTenants(Run(db, w).out.db.events, w.readings, rules[k], x);
  }

  /** The same for buckets, which in addition need a usage row. */
  lemma BucketsReconciled(db: Db, w: World, rule: Rule, x: int)
    requires RulesOk(db) && PrimaryKeys(w.readings) && !Run(db, w).out.failed
    requires rule.id in db.rules && db.rules[rule.id] == rule && rule.enabled
    requires SubjectOf(rule.ruleType) == Buckets && w.readings.buckets.Some?
    ensures BucketHasOpen(Run(db, w).out.db.events, rule.id, x) <==> BucketSelected(w.readings, rule, x)
  {
    RunSettles(db, w);
    EnabledRulesExact(db.rules, db.nextRule);
    var rules := EnabledRules(db.rules, db.nextRule);
    var k :| 0 <= k < |rules| && rules[k] == rule;
    SettledBuckets(Run(db, w).out.db.events, w.readings, rules[k], x);
  }

  // ---------- platform rules ----------

  ghost predicate RuleHasOpen(t: seq<Event>, rule: int) {
    exists i :: 0 <= i < |t| && t[i].ruleId == Some(rule) && IsOpen(t[i])
  }

  /** The run has something to go by: for the audit rules only when the window could be read. */
  predicate PlatformRead(w: Readings, rule: Rule) {
    rule.ruleType == Rgw5xxRate || AuditReading(w, rule).Some?
  }

  /** A known rate, or the window's rate or count, reaches the threshold. */
  predicate PlatformOver(w: Readings, rule: Rule) {
    if rule.ruleType == Rgw5xxRate
    then w.errorRate.Some? && w.errorRate.value + SLACK >= ConfigNumber(rule, "error_rate", 0.05)
    else AuditReading(w, rule).Some? && AuditOver(rule, AuditReading(w, rule).value)
  }

  lemma SettledPlatform(t: seq<Event>, w: Readings, rule: Rule)
    requires SubjectOf(rule.ruleType) == Platform && PlatformRead(w, rule) && Settled(t, rule.id, PlanOf(w, rule))
    ensures RuleHasOpen(t, rule.id) <==> PlatformOver(w, rule)
  {
    var op := Decide(PlatformOver(w, rule), None, None);
    assert PlatformOps(w, rule) == [op] && PlanOf(w, rule).ops[0] == op && Done(t, rule.id, op);
    if op.Ensure? {
      var i :| 0 <= i < |t| && KeyMatch(t[i], rule.id, None, None);
    } else {
      forall i | 0 <= i < |t| ensures !(t[i].ruleId == Some(rule.id) && IsOpen(t[i])) {
        assert !AnyMatch(t[i], rule.id, None, None);
      }
    }
  }

  /** After an error-free run that could read what the rule is about, it has an open event exactly when the rate or the
      count reaches its threshold. */
  lemma PlatformReconciled(db: Db, w: World, rule: Rule)
    requires RulesOk(db) && PrimaryKeys(w.readings) && !Run(db, w).out.failed
    requires rule.id in db.rules && db.rules[rule.id] == rule && rule.enabled
    requires SubjectOf(rule.ruleType) == Platform && PlatformRead(w.readings, rule)
    ensures RuleHasOpen(Run(db, w).out.db.events, rule.id) <==> PlatformOver(w.readings, rule)
  {
    RunSettles(db, w);
    EnabledRulesExact(db.rules, db.nextRule);
    var rules := EnabledRules(db.rules, db.nextRule);
    var k :| 0 <= k < |rules| && rules[k] == rule;
    SettledPlatform(Run(db, w).out.db.events, w.readings, rules[k]);
  }

  /** An audit window that could not be read leaves everything alone. */
  lemma UnreadWindowIdle(db: Db, w: World, rule: Rule)
    requires SubjectOf(rule.ruleType) == Platform && !PlatformRead(w.readings, rule)
    ensures EvalRule(db, w, rule) == Out(db, 0, 0, false)
  {
  }

  // ---------- a usage report that could not be read ----------

  /** Its error is dropped, and an error-free run then closes every capacity alert. */
  lemma NoUsageClosesBuckets(db: Db, w: World, rule: Rule, x: int)
    requires RulesOk(db) && PrimaryKeys(w.readings) && !Run(db, w).out.failed && w.readings.usage == []
    requires rule.id in db.rules && db.rules[rule.id] == rule && rule.enabled
    requires SubjectOf(rule.ruleType) == Buckets && w.readings.buckets.Some?
    ensures !BucketHasOpen(Run(db, w).out.db.events, rule.id, x)
  {
    BucketsReconciled(db, w, rule, x);
  }

  /** So the open capacity alerts are the right ones, by the report that was lost, exactly when there should be none. */
  lemma NoUsageCapacityRight(db: Db, w: World, rule: Rule, lost: seq<UsageRow>)
    requires RulesOk(db) && PrimaryKeys(w.readings) && !Run(db, w).out.failed && w.readings.usage == []
    requires rule.id in db.rules && db.rules[rule.id] == rule && rule.enabled
    requires SubjectOf(rule.ruleType) == Buckets && w.readings.buckets.Some?
    ensures var (t, known) := (Run(db, w).out.db.events, w.readings.(usage := lost));
            (forall x :: BucketHasOpen(t, rule.id, x) <==> BucketSelected(known, rule, x))
            <==> forall x :: !BucketSelected(known, rule, x)
  {
    hide BucketSelected, BucketHasOpen, Run;
    forall x ensures !BucketHasOpen(Run(db, w).out.db.events, rule.id, x) { NoUsageClosesBuckets(db, w, rule, x); }
  }

  lemma {:induction false} NothingUsed(granted: seq<string>)
    ensures UsedBytes(granted, map[]) == 0
  {
    if granted != [] { NothingUsed(granted[1..]); }
  }

  /** And every quota alert, unless its threshold is zero up to the slack; then every tenant with a quota fires. */
  lemma NoUsageQuota(db: Db, w: World, rule: Rule, x: int)
    requires RulesOk(db) && PrimaryKeys(w.readings) && !Run(db, w).out.failed && w.readings.usage == []
    requires rule.id in db.rules && db.rules[rule.id] == rule && rule.enabled
    requires SubjectOf(rule.ruleType) == Tenants && w.readings.tenants.Some?
    ensures TenantHasOpen(Run(db, w).out.db.events, rule.id, x) <==>
              SLACK >= ConfigNumber(rule, "threshold_percent", 1.0)
              && exists k :: 0 <= k < |w.readings.tenants.value|
                     && w.readings.tenants.value[k].id == x && TenantConsidered(w.readings.tenants.value[k])
  {
    var ts := w.readings.tenants.value;
    TenantsReconciled(db, w, rule, x);
    forall k | 0 <= k < |ts| && TenantConsidered(ts[k])
      ensures TenantOver(w.readings, rule, ts[k]) <==> SLACK >= ConfigNumber(rule, "threshold_percent", 1.0)
    {
      if ts[k].id in w.readings.grants { NothingUsed(w.readings.grants[ts[k].id]); }
      assert TenantUsed(w.readings, ts[k]) == 0;
      NothingOver(ts[k].quotaBytes.value);
    }
  }

  /** The open quota alerts are the right ones, by the report that was lost, exactly when there should be none, or, with
      a threshold of zero up to the slack, one for every tenant with a quota. */
  lemma NoUsageQuotaRight(db: Db, w: World, rule: Rule, lost: seq<UsageRow>)
    requires RulesOk(db) && PrimaryKeys(w.readings) && !Run(db, w).out.failed && w.readings.usage == []
    requires rule.id in db.rules && db.rules[rule.id] == rule && rule.enabled
    requires SubjectOf(rule.ruleType) == Tenants && w.readings.tenants.Some?
    ensures var (t, known, ts) := (Run(db, w).out.db.events, w.readings.(usage := lost), w.readings.tenants.value);
            (forall x :: TenantHasOpen(t, rule.id, x) <==> TenantSelected(known, rule, x)) <==>
              if SLACK >= ConfigNumber(rule, "threshold_percent", 1.0)
              then forall k :: 0 <= k < |ts| && TenantConsidered(ts[k]) ==> TenantOver(known, rule, ts[k])
              else forall x :: !TenantSelected(known, rule, x)
  {
    var (t, known, ts) := (Run(db, w).out.db.events, w.readings.(usage := lost), w.readings.tenants.value);
    var low := SLACK >= ConfigNumber(rule, "threshold_percent", 1.0);
    forall x ensures TenantHasOpen(t, rule.id, x) <==>
                       low && exists k :: 0 <= k < |ts| && ts[k].id == x && TenantConsidered(ts[k])
    {
      NoUsageQuota(db, w, rule, x);
    }
    hide Run, TenantHasOpen, TenantOver, TenantConsidered;
    if low && forall x :: TenantHasOpen(t, rule.id, x) <==> TenantSelected(known, rule, x) {
      forall k | 0 <= k < |ts| && TenantConsidered(ts[k]) ensures TenantOver(known, rule, ts[k]) {
        assert TenantHasOpen(t, rule.id, ts[k].id) && TenantSelected(known, rule, ts[k].id);
      }
    }
  }

  lemma NothingOver(quota: int)
    requires quota > 0
    ensures 0 as real / quota as real == 0.0
  {
  }

  // ---------- runs without a fault ----------

  lemma {:induction false} FineExecSucceeds(db: Db, w: World, rule: Rule, ops: seq<Op>)
    requires forall k :: w.faults(k) == Fine
    ensures !Exec(db, w, rule, ops).failed
    decreases |ops|
  {
    if ops != [] { FineExecSucceeds(Step(db, w, rule, ops[0]).db, w, rule, ops[1..]); }
  }

  lemma {:induction false} FineRulesSucceed(db: Db, w: World, rules: seq<Rule>)
    requires forall k :: w.faults(k) == Fine
    ensures !RunRules(db, w, rules).failed
    decreases |rules|
  {
    if rules != [] {
      var plan := PlanOf(w.readings, rules[0]);
      var start := if plan.listing then Tick(db) else db;
      FineExecSucceeds(start, w, rules[0], plan.ops);
      var a := Exec(start, w, rules[0], plan.ops);
      FineExecSucceeds(Tick(a.db), w, rules[0], SweepOps(OpenByRule(a.db.events, rules[0].id), plan.sweep));
      FineRulesSucceed(EvalRule(db, w, rules[0]).db, w, rules[1..]);
    }
  }

  /** A run in which every call succeeds is error-free. */
  lemma FineRunSucceeds(db: Db, w: World)
    requires forall k :: w.faults(k) == Fine
    ensures !Run(db, w).out.failed
  {
    FineRulesSucceed(Tick(db), w, EnabledRules(db.rules, db.nextRule));
  }

  // ---------- running again ----------

  /** Nothing of the tables or of the tenant's mirror moved. */
  predicate Idle(db: Db, o: Out) {
    o.db == db.(calls := o.db.calls) && o.created == 0 && o.resolved == 0
  }

  lemma {:induction false} ExecIdle(db: Db, w: World, rule: Rule, ops: seq<Op>)
    requires AllDone(db.events, rule.id, ops)
    ensures Idle(db, Exec(db, w, rule, ops))
    decreases |ops|
  {
    if ops != [] {
      assert Done(db.events, rule.id, ops[0]);
      if ops[0].Clear? { ResolveNothing(db.events, rule.id, ops[0].tenant, ops[0].bucket, db.calls); }
      var o := Step(db, w, rule, ops[0]);
      if !o.failed {
        assert forall i :: 0 <= i < |ops[1..]| ==> ops[1..][i] == ops[i + 1];
        ExecIdle(o.db, w, rule, ops[1..]);
      }
    }
  }

  lemma EvalIdle(db: Db, w: World, rule: Rule)
    requires Settled(db.events, rule.id, PlanOf(w.readings, rule))
    ensures Idle(db, EvalRule(db, w, rule))
  {
    var plan := PlanOf(w.readings, rule);
    var start := if plan.listing then Tick(db) else db;
    ExecIdle(start, w, rule, plan.ops);
    var a := Exec(start, w, rule, plan.ops);
    var open := OpenByRule(db.events, rule.id);
    if SweepOps(open, plan.sweep) != [] {
      var op := SweepOps(open, plan.sweep)[0];
      SweepOpsExact(open, plan.sweep, op);
      var e :| e in open && Unseen(e, plan.sweep) && op == Clear(e.tenantId, e.bucketId);
      OpenByRuleExact(db.events, rule.id, e);
      assert false;
    }
  }

  lemma {:induction false} RulesIdle(db: Db, w: World, rules: seq<Rule>)
    requires AllSettled(db.events, w.readings, rules)
    ensures Idle(db, RunRules(db, w, rules))
    decreases |rules|
  {
    if rules != [] {
      EvalIdle(db, w, rules[0]);
      var o := EvalRule(db, w, rules[0]);
      if !o.failed {
        assert forall k :: 0 <= k < |rules[1..]| ==> rules[1..][k] == rules[k + 1];
        RulesIdle(o.db, w, rules[1..]);
      }
    }
  }

  /** A second run on the same readings creates and resolves nothing and leaves the tables and the
      mirror as they were, even when its own calls fail. */
  lemma SecondRunIdle(db: Db, w: World, faults: nat -> Fault)
    requires RulesOk(db) && PrimaryKeys(w.readings) && !Run(db, w).out.failed
    ensures var first := Run(db, w).out.db;
            Idle(first, Run(first, w.(faults := faults)).out)
  {
    RunSettles(db, w);
    RulesRunKeepsRules(Tick(db), w, EnabledRules(db.rules, db.nextRule));
    var first := Run(db, w).out.db;
    RulesIdle(Tick(first), w.(faults := faults), EnabledRules(first.rules, first.nextRule));
  }

  lemma {:induction false} RulesRunKeepsRules(db: Db, w: World, rules: seq<Rule>)
    ensures var after := RunRules(db, w, rules).db; after.rules == db.rules && after.nextRule == db.nextRule
    decreases |rules|
  {
    if rules != [] {
      EvalFrame(db, w, rules[0]);
      var o := EvalRule(db, w, rules[0]);
      if !o.failed { RulesRunKeepsRules(o.db, w, rules[1..]); }
    }
  }

  // ---------- the counters ----------

  /** The counters never exceed what happened, and are exact when nothing failed. */
  ghost predicate Counted(before: seq<Event>, o: Out) {
    && |before| + o.created <= |o.db.events|
    && CountResolved(before) + o.resolved <= CountResolved(o.db.events)
    && (!o.failed
        ==> |o.db.events| == |before| + o.created && CountResolved(o.db.events) == CountResolved(before) + o.resolved)
  }

  lemma StepCounted(db: Db, w: World, rule: Rule, op: Op)
    ensures Counted(db.events, Step(db, w, rule, op))
  {
    StepEvents(db, w, rule, op);
    var o := Step(db, w, rule, op);
    if op.Clear? {
      ResolveRowsCounts(db.events, rule.id, op.tenant, op.bucket, db.calls);
    } else if o.db.events != db.events {
      assert o.db.events[..|o.db.events| - 1] == db.events;
    }
    if !o.failed { StepSucceeds(db, w, rule, op); }
  }

  lemma {:induction false} ExecCounted(db: Db, w: World, rule: Rule, ops: seq<Op>)
    ensures Counted(db.events, Exec(db, w, rule, ops))
    decreases |ops|
  {
    if ops != [] {
      StepCounted(db, w, rule, ops[0]);
      var o := Step(db, w, rule, ops[0]);
      if !o.failed { ExecCounted(o.db, w, rule, ops[1..]); }
    }
  }

  lemma EvalCounted(db: Db, w: World, rule: Rule)
    ensures Counted(db.events, EvalRule(db, w, rule))
  {
    var plan := PlanOf(w.readings, rule);
    var start := if plan.listing then Tick(db) else db;
    ExecCounted(start, w, rule, plan.ops);
    var a := Exec(start, w, rule, plan.ops);
    ExecCounted(Tick(a.db), w, rule, SweepOps(OpenByRule(a.db.events, rule.id), plan.sweep));
  }

  lemma {:induction false} RulesCounted(db: Db, w: World, rules: seq<Rule>)
    ensures Counted(db.events, RunRules(db, w, rules))
    decreases |rules|
  {
    if rules != [] {
      EvalCounted(db, w, rules[0]);
      var o := EvalRule(db, w, rules[0]);
      if !o.failed { RulesCounted(o.db, w, rules[1..]); }
    }
  }

  /** In an error-free run `created` is the number of rows inserted, `resolved` the number of rows that
      became resolved, and together they account for the change in open events. A failing run
      reports at most what it did. */
  lemma CountersExact(db: Db, w: World)
    ensures var o := Run(db, w).out;
            && Counted(db.events, o)
            && (!o.failed ==> CountOpen(o.db.events) == CountOpen(db.events) + o.created - o.resolved)
  {
    RulesCounted(Tick(db), w, EnabledRules(db.rules, db.nextRule));
    OpenPlusResolved(db.events);
    OpenPlusResolved(Run(db, w).out.db.events);
  }
}
