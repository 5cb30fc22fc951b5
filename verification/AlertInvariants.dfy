/** The state machine around the alert tables: evaluator runs, acknowledgements, manual resolves,
    rule edits and row deletions in any order. What every reachable state satisfies. */
module AlertInvariants {
  import opened Common
  import opened AlertTable
  import opened AlertEval

  // ---------- the invariant ----------

  /** The type of a rule fixes which key columns its events may fill. */
  predicate ShapeOk(subject: Subject, tenant: Option<int>, bucket: Option<int>) {
    match subject
    case Tenants => bucket.None?
    case Buckets => tenant.None?
    case Platform => tenant.None? && bucket.None?
    case Nothing => false
  }

  predicate SameKey(a: Event, b: Event) {
    a.ruleId.Some? && a.ruleId == b.ruleId && a.tenantId == b.tenantId && a.bucketId == b.bucketId
  }

  /** The all-null key of a tenant or bucket rule: only deletions produce it. */
  predicate Orphan(e: Event) {
    (SubjectOf(e.ruleType) == Tenants || SubjectOf(e.ruleType) == Buckets) && e.tenantId.None? && e.bucketId.None?
  }

  ghost predicate RowOk(e: Event, db: Db) {
    && e.id < db.nextEvent
    && e.firedAt < db.calls
    && (e.status == Resolved <==> e.resolvedAt.Some?)
    && (e.resolvedAt.Some? ==> e.firedAt <= e.resolvedAt.value < db.calls)
    && (e.ruleId.Some? ==> RuleFits(e, db))
  }

  ghost predicate RuleFits(e: Event, db: Db)
    requires e.ruleId.Some?
  {
    && e.ruleId.value in db.rules && db.rules[e.ruleId.value].ruleType == e.ruleType
    && ShapeOk(SubjectOf(e.ruleType), e.tenantId, e.bucketId)
  }

  /** `a` was inserted before `b`. With a common live key, `a` was closed before `b` fired. */
  predicate PairOk(a: Event, b: Event) {
    a.id < b.id && (SameKey(a, b) && !Orphan(a) ==> a.resolvedAt.Some? && a.resolvedAt.value <= b.firedAt)
  }

  ghost predicate RulesOk(db: Db) {
    forall id :: id in db.rules ==> 0 <= id < db.nextRule && db.rules[id].id == id
  }

  ghost predicate Inv(db: Db) {
    && RulesOk(db)
    && (forall i :: 0 <= i < |db.events| ==> RowOk(db.events[i], db))
    && (forall i, j :: 0 <= i < j < |db.events| ==> PairOk(db.events[i], db.events[j]))
  }

  // ---------- what may happen to a row ----------

  /** The life of a row: identity and firing time are fixed, keys are only nulled, resolved is final. */
  predicate RowEvolves(a: Event, b: Event) {
    && a.id == b.id && a.ruleType == b.ruleType && a.firedAt == b.firedAt && a.notifyTenant == b.notifyTenant
    && (b.ruleId == a.ruleId || b.ruleId.None?)
    && (b.tenantId == a.tenantId || b.tenantId.None?)
    && (b.bucketId == a.bucketId || b.bucketId.None?)
    && (a.status == Resolved ==> b.status == Resolved && b.resolvedAt == a.resolvedAt)
    && (b.status == Firing ==> a.status == Firing)
  }

  ghost predicate Evolves(t: seq<Event>, u: seq<Event>) {
    |t| <= |u| && forall i :: 0 <= i < |t| ==> RowEvolves(t[i], u[i])
  }

  lemma EvolvesTransitive(t: seq<Event>, u: seq<Event>, v: seq<Event>)
    requires Evolves(t, u) && Evolves(u, v)
    ensures Evolves(t, v)
  {
    forall i | 0 <= i < |t| ensures RowEvolves(t[i], v[i]) {
      assert RowEvolves(t[i], u[i]) && RowEvolves(u[i], v[i]);
    }
  }

  /** Only rows of `rule` differ, and new rows are rows of `rule`. */
  ghost predicate Touches(rule: int, t: seq<Event>, u: seq<Event>) {
    && |t| <= |u|
    && (forall i :: 0 <= i < |t| ==> u[i].ruleId == t[i].ruleId && (t[i].ruleId != Some(rule) ==> u[i] == t[i]))
    && (forall i :: |t| <= i < |u| ==> u[i].ruleId == Some(rule))
  }

  /** What an execution leaves alone: the rules, and the rows of every other rule. */
  ghost predicate Frame(rule: int, db: Db, after: Db) {
    && after.rules == db.rules && after.nextRule == db.nextRule && after.nextEvent >= db.nextEvent
    && after.calls >= db.calls
    && Evolves(db.events, after.events) && Touches(rule, db.events, after.events)
  }

  // ---------- one operation ----------

  predicate Fits(rule: Rule, op: Op) {
    ShapeOk(SubjectOf(rule.ruleType), op.tenant, op.bucket)
  }

  /** Key the evaluator may clear: not the all-null key of a tenant or bucket rule. */
  predicate Pointed(rule: Rule, op: Op) {
    match SubjectOf(rule.ruleType)
    case Tenants => op.tenant.Some? && op.bucket.None?
    case Buckets => op.tenant.None? && op.bucket.Some?
    case Platform => op.tenant.None? && op.bucket.None?
    case Nothing => false
  }

  ghost predicate AllPointed(rule: Rule, ops: seq<Op>) {
    forall i :: 0 <= i < |ops| ==> Pointed(rule, ops[i])
  }

  ghost predicate Live(db: Db, rule: Rule) {
    rule.id in db.rules && db.rules[rule.id].ruleType == rule.ruleType
  }

  /** In a state satisfying the invariant, nil-means-any and nil-means-NULL select the same rows. */
  lemma MatchesAgree(db: Db, rule: Rule, op: Op)
    requires Inv(db) && Live(db, rule) && Pointed(rule, op)
    ensures forall e :: e in db.events ==>
              (AnyMatch(e, rule.id, op.tenant, op.bucket) <==> KeyMatch(e, rule.id, op.tenant, op.bucket))
  {
    forall e | e in db.events
      ensures AnyMatch(e, rule.id, op.tenant, op.bucket) <==> KeyMatch(e, rule.id, op.tenant, op.bucket)
    {
      assert RowOk(e, db);
    }
  }

  lemma ProjectFrame(db: Db, w: World, rule: Rule, tenant: Option<int>, bucket: Option<int>, firing: bool)
    ensures var p := Project(db, w, rule, tenant, bucket, firing);
            p == db.(calls := p.calls, mirror := p.mirror) && p.calls >= db.calls
  {
  }

  lemma LaterInv(db: Db, later: Db)
    requires Inv(db) && later.rules == db.rules && later.nextRule == db.nextRule && later.events == db.events
    requires later.nextEvent >= db.nextEvent && later.calls >= db.calls
    ensures Inv(later)
  {
    forall i | 0 <= i < |db.events| ensures RowOk(later.events[i], later) { assert RowOk(db.events[i], db); }
  }

  lemma CloseInv(db: Db, rule: Rule, tenant: Option<int>, bucket: Option<int>)
    requires Inv(db)
    ensures Inv(Closed(db, rule, tenant, bucket))
  {
    var after := Closed(db, rule, tenant, bucket);
    var u := after.events;
    forall i | 0 <= i < |u| ensures RowOk(u[i], after) { assert RowOk(db.events[i], db); }
    forall i, j | 0 <= i < j < |u| ensures PairOk(u[i], u[j]) {
      assert PairOk(db.events[i], db.events[j]) && RowOk(db.events[i], db);
    }
  }

  lemma StoreInv(db: Db, rule: Rule, tenant: Option<int>, bucket: Option<int>)
    requires Inv(db) && Live(db, rule) && ShapeOk(SubjectOf(rule.ruleType), tenant, bucket)
    requires !HasOpen(db.events, rule.id, tenant, bucket)
    ensures Inv(Stored(db, rule, tenant, bucket))
  {
    var after := Stored(db, rule, tenant, bucket);
    var u := after.events;
    forall i | 0 <= i < |u| ensures RowOk(u[i], after) {
      if i < |db.events| { assert RowOk(db.events[i], db); }
    }
    forall i, j | 0 <= i < j < |u| ensures PairOk(u[i], u[j]) {
      assert RowOk(db.events[i], db);
      if j < |db.events| {
        assert PairOk(db.events[i], db.events[j]);
      } else {
        assert !KeyMatch(db.events[i], rule.id, tenant, bucket);
      }
    }
  }

  lemma StepInv(db: Db, w: World, rule: Rule, op: Op)
    requires Inv(db) && Live(db, rule) && Fits(rule, op)
    ensures Inv(Step(db, w, rule, op).db)
  {
    var o := Step(db, w, rule, op);
    var (tenant, bucket) := (op.tenant, op.bucket);
    LaterInv(db, Tick(db));
    if op.Clear? {
      if w.faults(db.calls) != Fails {
        CloseInv(db, rule, tenant, bucket);
        ProjectFrame(Closed(db, rule, tenant, bucket), w, rule, tenant, bucket, false);
        LaterInv(Closed(db, rule, tenant, bucket), o.db);
      }
    } else if w.faults(db.calls) == Fine && !HasOpen(db.events, rule.id, tenant, bucket) {
      var ins := Insert(Tick(db), w, rule, tenant, bucket);
      ProjectFrame(ins.db, w, rule, tenant, bucket, true);
      if ins.db.events == db.events {
        LaterInv(db, ins.db);
      } else {
        StoreInv(Tick(db), rule, tenant, bucket);
        LaterInv(Stored(Tick(db), rule, tenant, bucket), ins.db);
        LaterInv(ins.db, o.db);
      }
    }
  }

  lemma FrameLater(rule: int, db: Db, mid: Db, after: Db)
    requires Frame(rule, db, mid)
    requires after.rules == mid.rules && after.nextRule == mid.nextRule && after.events == mid.events
    requires after.nextEvent >= mid.nextEvent && after.calls >= mid.calls
    ensures Frame(rule, db, after)
  {
  }

  lemma FrameRefl(rule: int, db: Db)
    ensures Frame(rule, db, db)
  {
  }

  lemma FrameTrans(rule: int, a: Db, b: Db, c: Db)
    requires Frame(rule, a, b) && Frame(rule, b, c)
    ensures Frame(rule, a, c)
  {
    EvolvesTransitive(a.events, b.events, c.events);
  }

  lemma ClearFrame(db: Db, w: World, rule: Rule, tenant: Option<int>, bucket: Option<int>)
    ensures Frame(rule.id, db, ClearOpen(db, w, rule, tenant, bucket).db)
  {
    var closed := Closed(db, rule, tenant, bucket);
    assert Frame(rule.id, db, closed);
    ProjectFrame(closed, w, rule, tenant, bucket, false);
    FrameRefl(rule.id, db);
    var after := ClearOpen(db, w, rule, tenant, bucket).db;
    FrameLater(rule.id, db, if w.faults(db.calls) == Fails then db else closed, after);
  }

  lemma EnsureFrame(db: Db, w: World, rule: Rule, tenant: Option<int>, bucket: Option<int>)
    ensures Frame(rule.id, db, EnsureOpen(db, w, rule, tenant, bucket).db)
  {
    var stored := Stored(Tick(db), rule, tenant, bucket);
    assert forall i :: 0 <= i < |db.events| ==> stored.events[i] == db.events[i];
    assert Frame(rule.id, db, stored);
    FrameRefl(rule.id, db);
    var ins := Insert(Tick(db), w, rule, tenant, bucket);
    ProjectFrame(ins.db, w, rule, tenant, bucket, true);
    var after := EnsureOpen(db, w, rule, tenant, bucket).db;
    FrameLater(rule.id, db, if after.events == db.events then db else stored, after);
  }

  lemma StepFrame(db: Db, w: World, rule: Rule, op: Op)
    ensures Frame(rule.id, db, Step(db, w, rule, op).db)
  {
    match op
    case Ensure(tenant, bucket) => EnsureFrame(db, w, rule, tenant, bucket);
    case Clear(tenant, bucket) => ClearFrame(db, w, rule, tenant, bucket);
  }

  // ---------- a whole evaluation ----------

  lemma {:induction false} ExecFrame(db: Db, w: World, rule: Rule, ops: seq<Op>)
    ensures Frame(rule.id, db, Exec(db, w, rule, ops).db)
    decreases |ops|
  {
    FrameRefl(rule.id, db);
    if ops != [] {
      StepFrame(db, w, rule, ops[0]);
      var o := Step(db, w, rule, ops[0]);
      ExecFrame(o.db, w, rule, ops[1..]);
      if !o.failed { FrameTrans(rule.id, db, o.db, Exec(o.db, w, rule, ops[1..]).db); }
    }
  }

  lemma {:induction false} ExecInv(db: Db, w: World, rule: Rule, ops: seq<Op>)
    requires Inv(db) && Live(db, rule)
    requires AllPointed(rule, ops)
    ensures Inv(Exec(db, w, rule, ops).db)
    decreases |ops|
  {
    if ops != [] {
      assert Pointed(rule, ops[0]);
      StepInv(db, w, rule, ops[0]);
      StepFrame(db, w, rule, ops[0]);
      var o := Step(db, w, rule, ops[0]);
      if !o.failed { ExecInv(o.db, w, rule, ops[1..]); }
    }
  }

  lemma {:induction false} TenantOpsPointed(w: Readings, rule: Rule, ts: seq<TenantRow>)
    requires SubjectOf(rule.ruleType) == Tenants
    ensures AllPointed(rule, TenantOps(w, rule, ts))
  {
    if ts != [] { TenantOpsPointed(w, rule, ts[1..]); }
  }

  lemma {:induction false} BucketOpsPointed(w: Readings, rule: Rule, bs: seq<BucketRow>)
    requires SubjectOf(rule.ruleType) == Buckets
    ensures AllPointed(rule, BucketOps(w, rule, bs))
  {
    if bs != [] { BucketOpsPointed(w, rule, bs[1..]); }
  }

  lemma PlanPointed(w: Readings, rule: Rule)
    ensures AllPointed(rule, PlanOf(w, rule).ops)
  {
    match SubjectOf(rule.ruleType)
    case Tenants => if w.tenants.Some? { TenantOpsPointed(w, rule, w.tenants.value); }
    case Buckets => if w.buckets.Some? { BucketOpsPointed(w, rule, w.buckets.value); }
    case Platform =>
    case Nothing =>
  }

  predicate SweepFits(rule: Rule, sweep: Sweep) {
    (sweep.ByTenant? ==> SubjectOf(rule.ruleType) == Tenants)
    && (sweep.ByBucket? ==> SubjectOf(rule.ruleType) == Buckets)
  }

  /** The sweep skips null subjects, so that it never clears an all-null key. */
  lemma {:induction false} SweepOpsPointed(rule: Rule, open: seq<Event>, sweep: Sweep)
    requires SweepFits(rule, sweep)
    requires forall e :: e in open ==> ShapeOk(SubjectOf(rule.ruleType), e.tenantId, e.bucketId)
    ensures AllPointed(rule, SweepOps(open, sweep))
  {
    if open != [] {
      assert open[0] in open;
      SweepOpsPointed(rule, open[1..], sweep);
    }
  }

  lemma SweepPointed(db: Db, rule: Rule, sweep: Sweep)
    requires Inv(db) && Live(db, rule) && SweepFits(rule, sweep)
    ensures AllPointed(rule, SweepOps(OpenByRule(db.events, rule.id), sweep))
  {
    forall e | e in OpenByRule(db.events, rule.id)
      ensures ShapeOk(SubjectOf(rule.ruleType), e.tenantId, e.bucketId)
    {
      OpenByRuleExact(db.events, rule.id, e);
      assert RowOk(e, db);
    }
    SweepOpsPointed(rule, OpenByRule(db.events, rule.id), sweep);
  }

  lemma EvalFrame(db: Db, w: World, rule: Rule)
    ensures Frame(rule.id, db, EvalRule(db, w, rule).db)
  {
    var plan := PlanOf(w.readings, rule);
    var start := if plan.listing then Tick(db) else db;
    FrameRefl(rule.id, db);
    FrameLater(rule.id, db, db, start);
    ExecFrame(start, w, rule, plan.ops);
    var a := Exec(start, w, rule, plan.ops);
    FrameTrans(rule.id, db, start, a.db);
    FrameRefl(rule.id, a.db);
    FrameLater(rule.id, a.db, a.db, Tick(a.db));
    var ops := SweepOps(OpenByRule(a.db.events, rule.id), plan.sweep);
    ExecFrame(Tick(a.db), w, rule, ops);
    FrameTrans(rule.id, a.db, Tick(a.db), Exec(Tick(a.db), w, rule, ops).db);
    FrameTrans(rule.id, db, a.db, RunSweep(a.db, w, rule, plan.sweep).db);
    FrameLater(rule.id, db, db, Tick(db));
  }

  lemma EvalInv(db: Db, w: World, rule: Rule)
    requires Inv(db) && Live(db, rule)
    ensures Inv(EvalRule(db, w, rule).db)
  {
    var plan := PlanOf(w.readings, rule);
    LaterInv(db, Tick(db));
    var start := if plan.listing then Tick(db) else db;
    PlanPointed(w.readings, rule);
    ExecInv(start, w, rule, plan.ops);
    ExecFrame(start, w, rule, plan.ops);
    var a := Exec(start, w, rule, plan.ops);
    LaterInv(a.db, Tick(a.db));
    SweepPointed(a.db, rule, plan.sweep);
    ExecInv(Tick(a.db), w, rule, SweepOps(OpenByRule(a.db.events, rule.id), plan.sweep));
  }

  ghost predicate AllLive(db: Db, rules: seq<Rule>) {
    forall i :: 0 <= i < |rules| ==> Live(db, rules[i])
  }

  lemma {:induction false} RulesInv(db: Db, w: World, rules: seq<Rule>)
    requires Inv(db) && AllLive(db, rules)
    ensures var after := RunRules(db, w, rules).db;
            && Inv(after) && Evolves(db.events, after.events)
            && after.rules == db.rules && after.nextRule == db.nextRule && after.calls >= db.calls
    decreases |rules|
  {
    if rules != [] {
      var o := EvalRule(db, w, rules[0]);
      EvalInv(db, w, rules[0]);
      EvalFrame(db, w, rules[0]);
      if !o.failed {
        RulesInv(o.db, w, rules[1..]);
        EvolvesTransitive(db.events, o.db.events, RunRules(o.db, w, rules[1..]).db.events);
      }
    }
  }

  lemma {:induction false} EnabledRulesLive(db: Db, below: nat)
    requires RulesOk(db)
    ensures AllLive(db, EnabledRules(db.rules, below))
  {
    if below > 0 { EnabledRulesLive(db, below - 1); }
  }

  lemma RunInv(db: Db, w: World)
    requires Inv(db)
    ensures var after := Run(db, w).out.db;
            Inv(after) && Evolves(db.events, after.events) && after.rules == db.rules && after.calls >= db.calls
  {
    LaterInv(db, Tick(db));
    EnabledRulesLive(Tick(db), db.nextRule);
    RulesInv(Tick(db), w, EnabledRules(db.rules, db.nextRule));
  }

  ghost predicate Agrees(db: Db, rule: Rule, op: Op) {
    forall e :: e in db.events ==>
      (AnyMatch(e, rule.id, op.tenant, op.bucket) <==> KeyMatch(e, rule.id, op.tenant, op.bucket))
  }

  /** In the state in which each operation of `ops` is about to run, both selections agree. */
  ghost predicate AgreeAlong(db: Db, w: World, rule: Rule, ops: seq<Op>) {
    forall k :: 0 <= k < |ops| ==> Agrees(Exec(db, w, rule, ops[..k]).db, rule, ops[k])
  }

  lemma ExecAgrees(db: Db, w: World, rule: Rule, ops: seq<Op>)
    requires Inv(db) && Live(db, rule) && AllPointed(rule, ops)
    ensures AgreeAlong(db, w, rule, ops)
  {
    forall k | 0 <= k < |ops| ensures Agrees(Exec(db, w, rule, ops[..k]).db, rule, ops[k]) {
      ExecInv(db, w, rule, ops[..k]);
      ExecFrame(db, w, rule, ops[..k]);
      MatchesAgree(Exec(db, w, rule, ops[..k]).db, rule, ops[k]);
    }
  }

  /** Whenever the evaluation of a rule is about to fire or clear a key, in its main loop or in its
      sweep, `ResolveOpen` (nil means any) and `HasOpenEvent` (nil means NULL) select the same rows. */
  lemma QueriesAgree(db: Db, w: World, rule: Rule)
    requires Inv(db) && Live(db, rule)
    ensures var plan := PlanOf(w.readings, rule);
            var start := if plan.listing then Tick(db) else db;
            var looped := Exec(start, w, rule, plan.ops).db;
            && AgreeAlong(start, w, rule, plan.ops)
            && AgreeAlong(Tick(looped), w, rule, SweepOps(OpenByRule(looped.events, rule.id), plan.sweep))
  {
    var plan := PlanOf(w.readings, rule);
    LaterInv(db, Tick(db));
    var start := if plan.listing then Tick(db) else db;
    PlanPointed(w.readings, rule);
    ExecAgrees(start, w, rule, plan.ops);
    ExecInv(start, w, rule, plan.ops);
    ExecFrame(start, w, rule, plan.ops);
    var looped := Exec(start, w, rule, plan.ops).db;
    SweepPointed(looped, rule, plan.sweep);
    LaterInv(looped, Tick(looped));
    ExecAgrees(Tick(looped), w, rule, SweepOps(OpenByRule(looped.events, rule.id), plan.sweep));
  }

  // ---------- orphans ----------

  /** An event whose tenant (or bucket) row was deleted is out of reach of the evaluator. */
  ghost predicate OrphansKept(t: seq<Event>, u: seq<Event>) {
    |t| <= |u| && forall i :: 0 <= i < |t| && Orphan(t[i]) ==> u[i] == t[i]
  }

  lemma {:induction false} ExecKeepsOrphans(db: Db, w: World, rule: Rule, ops: seq<Op>)
    requires Inv(db) && Live(db, rule) && AllPointed(rule, ops)
    ensures OrphansKept(db.events, Exec(db, w, rule, ops).db.events)
    decreases |ops|
  {
    if ops != [] {
      assert Pointed(rule, ops[0]);
      StepInv(db, w, rule, ops[0]);
      StepFrame(db, w, rule, ops[0]);
      var o := Step(db, w, rule, ops[0]);
      StepKeepsOrphans(db, w, rule, ops[0]);
      if !o.failed { ExecKeepsOrphans(o.db, w, rule, ops[1..]); }
    }
  }

  lemma StepKeepsOrphans(db: Db, w: World, rule: Rule, op: Op)
    requires Inv(db) && Live(db, rule) && Pointed(rule, op)
    ensures OrphansKept(db.events, Step(db, w, rule, op).db.events)
  {
    var u := Step(db, w, rule, op).db.events;
    StepFrame(db, w, rule, op);
    forall i | 0 <= i < |db.events| && Orphan(db.events[i]) ensures u[i] == db.events[i] {
      assert RowOk(db.events[i], db);
      if op.Clear? {
        ProjectFrame(Closed(db, rule, op.tenant, op.bucket), w, rule, op.tenant, op.bucket, false);
        assert !AnyMatch(db.events[i], rule.id, op.tenant, op.bucket);
      } else {
        ProjectFrame(Insert(Tick(db), w, rule, op.tenant, op.bucket).db, w, rule, op.tenant, op.bucket, true);
      }
    }
  }

  lemma EvalKeepsOrphans(db: Db, w: World, rule: Rule)
    requires Inv(db) && Live(db, rule)
    ensures OrphansKept(db.events, EvalRule(db, w, rule).db.events)
  {
    var plan := PlanOf(w.readings, rule);
    LaterInv(db, Tick(db));
    var start := if plan.listing then Tick(db) else db;
    PlanPointed(w.readings, rule);
    ExecInv(start, w, rule, plan.ops);
    ExecFrame(start, w, rule, plan.ops);
    ExecKeepsOrphans(start, w, rule, plan.ops);
    var a := Exec(start, w, rule, plan.ops);
    LaterInv(a.db, Tick(a.db));
    SweepPointed(a.db, rule, plan.sweep);
    ExecKeepsOrphans(Tick(a.db), w, rule, SweepOps(OpenByRule(a.db.events, rule.id), plan.sweep));
  }

  lemma {:induction false} RulesKeepOrphans(db: Db, w: World, rules: seq<Rule>)
    requires Inv(db) && AllLive(db, rules)
    ensures OrphansKept(db.events, RunRules(db, w, rules).db.events)
    decreases |rules|
  {
    if rules != [] {
      var o := EvalRule(db, w, rules[0]);
      EvalInv(db, w, rules[0]);
      EvalFrame(db, w, rules[0]);
      EvalKeepsOrphans(db, w, rules[0]);
      if !o.failed { RulesKeepOrphans(o.db, w, rules[1..]); }
    }
  }

  lemma RunKeepsOrphans(db: Db, w: World)
    requires Inv(db)
    ensures OrphansKept(db.events, Run(db, w).out.db.events)
  {
    LaterInv(db, Tick(db));
    EnabledRulesLive(Tick(db), db.nextRule);
    RulesKeepOrphans(Tick(db), w, EnabledRules(db.rules, db.nextRule));
  }
}
