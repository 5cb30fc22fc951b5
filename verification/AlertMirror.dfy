/** The tenant's copy of its own quota alerts, against the events kept by the operators. Every call may fail
    or lose its reply: the exact conditions under which both sides stay in step, for one call up to any history. */
module AlertMirror {
  import opened Common
  import opened AlertTable
  import opened Fingerprints
  import opened AlertEval
  import opened AlertInvariants
  import opened AlertReconcile
  import opened AlertMachine

  /** The last status sent under the fingerprint of a rule and a tenant is `firing`. */
  predicate MirrorFiring(mirror: map<string, Mirrored>, rule: int, tenant: int) {
    var f := Fingerprint(rule, Some(tenant), None);
    f in mirror && mirror[f].firing
  }

  ghost predicate InStep(db: Db, rule: int, tenant: int) {
    MirrorFiring(db.mirror, rule, tenant) <==> HasOpen(db.events, rule, Some(tenant), None)
  }

  ghost predicate SamePair(db: Db, after: Db, r: int, x: int) {
    && MirrorFiring(after.mirror, r, x) == MirrorFiring(db.mirror, r, x)
    && HasOpen(after.events, r, Some(x), None) == HasOpen(db.events, r, Some(x), None)
  }

  ghost predicate QuotaRule(db: Db, rule: int) {
    rule in db.rules && SubjectOf(db.rules[rule].ruleType) == Tenants
  }

  /** For every live tenant-quota rule and every tenant: firing at the tenant iff open here. */
  ghost predicate MirrorOk(db: Db) {
    forall rule, tenant :: QuotaRule(db, rule) ==> InStep(db, rule, tenant)
  }

  // ---------- when a call is silent ----------

  predicate Named(w: World, x: int) {
    x in w.readings.usernames && w.readings.usernames[x] != ""
  }

  /** A notice sent from call number `c` on arrives: there is a tenant API, the rule notifies, the tenant is known by
      name, the look-up of the name succeeds and the PUT takes effect. */
  predicate Heard(w: World, rule: Rule, x: int, c: nat) {
    && w.readings.projectConfigured && rule.notifyTenant && w.readings.tenants.Some?
    && Named(w, x) && w.faults(c) == Fine && w.faults(c + 1) != Fails
  }

  /** Firing a key that is not open, from call number `c` on: the check, the INSERT, its read-back, the notice.
      The tenant is up to date exactly when the event was not stored or every later call did its part. */
  predicate FireTold(w: World, rule: Rule, x: int, c: nat) {
    || w.faults(c) != Fine || w.faults(c + 1) == Fails
    || (w.faults(c + 1) == Fine && w.faults(c + 2) == Fine && Heard(w, rule, x, c + 3))
  }

  /** Clearing an open key: the UPDATE, the notice. */
  predicate ClearTold(w: World, rule: Rule, x: int, c: nat) {
    w.faults(c) == Fails || (w.faults(c) == Fine && Heard(w, rule, x, c + 1))
  }

  predicate OpTold(db: Db, w: World, rule: Rule, op: Op) {
    SubjectOf(rule.ruleType) == Tenants && op.tenant.Some? ==>
      var open := HasOpen(db.events, rule.id, op.tenant, op.bucket);
      if op.Ensure? then open || FireTold(w, rule, op.tenant.value, db.calls)
      else !open || ClearTold(w, rule, op.tenant.value, db.calls)
  }

  predicate ExecTold(db: Db, w: World, rule: Rule, ops: seq<Op>)
    decreases |ops|
  {
    ops == [] ||
    (var o := Step(db, w, rule, ops[0]);
     OpTold(db, w, rule, ops[0]) && (o.failed || ExecTold(o.db, w, rule, ops[1..])))
  }

  predicate SweepTold(db: Db, w: World, rule: Rule, sweep: Sweep) {
    || sweep == NoSweep || w.faults(db.calls) != Fine
    || ExecTold(Tick(db), w, rule, SweepOps(OpenByRule(db.events, rule.id), sweep))
  }

  /** A listing that fails is harmless: nothing is done at all. */
  predicate EvalTold(db: Db, w: World, rule: Rule) {
    var plan := PlanOf(w.readings, rule);
    var start := if plan.listing then Tick(db) else db;
    var a := Exec(start, w, rule, plan.ops);
    || (plan.listing && w.faults(db.calls) != Fine)
    || (ExecTold(start, w, rule, plan.ops) && (a.failed || SweepTold(a.db, w, rule, plan.sweep)))
  }

  predicate RulesTold(db: Db, w: World, rules: seq<Rule>)
    decreases |rules|
  {
    rules == [] ||
    (var o := EvalRule(db, w, rules[0]);
     EvalTold(db, w, rules[0]) && (o.failed || RulesTold(o.db, w, rules[1..])))
  }

  /** No call of the run left the tenant with an outdated alert. */
  predicate RunTold(db: Db, w: World) {
    w.faults(db.calls) != Fine || RulesTold(Tick(db), w, EnabledRules(db.rules, db.nextRule))
  }

  // ---------- one call ----------

  /** Only the entry under the own fingerprint can change. */
  lemma ProjectWrites(db: Db, w: World, rule: Rule, tenant: Option<int>, bucket: Option<int>, firing: bool, g: string)
    requires tenant.None? || g != Fingerprint(rule.id, tenant, bucket)
    ensures var p := Project(db, w, rule, tenant, bucket, firing);
            (g in p.mirror <==> g in db.mirror) && (g in db.mirror ==> p.mirror[g] == db.mirror[g])
  {
  }

  /** What the tenant is told, under which name, and when. */
  lemma ProjectTells(db: Db, w: World, rule: Rule, x: int, firing: bool)
    ensures var (p, f) := (Project(db, w, rule, Some(x), None, firing), Fingerprint(rule.id, Some(x), None));
            && (Heard(w, rule, x, db.calls) ==> p.mirror == db.mirror[f := Mirrored(w.readings.usernames[x], firing)])
            && (!Heard(w, rule, x, db.calls) ==> p.mirror == db.mirror)
            && MirrorFiring(p.mirror, rule.id, x) ==
                 if Heard(w, rule, x, db.calls) then firing else MirrorFiring(db.mirror, rule.id, x)
  {
    hide Fingerprint;
  }

  /** The fingerprint of (rule, Some(tenant), None) is written by that key only. */
  lemma OtherFingerprint(rule: int, tenant: int, bucket: Option<int>, r: int, x: int)
    requires rule != r || tenant != x
    ensures Fingerprint(rule, Some(tenant), bucket) != Fingerprint(r, Some(x), None)
  {
    FingerprintExact(rule, Some(tenant), bucket, r, Some(x), None);
  }

  lemma HasOpenAt(t: seq<Event>, i: int, rule: int, tenant: Option<int>, bucket: Option<int>)
    requires 0 <= i < |t| && KeyMatch(t[i], rule, tenant, bucket)
    ensures HasOpen(t, rule, tenant, bucket)
  {
  }

  /** A step changes neither the mirror nor the open events of any other pair. */
  lemma OtherPair(db: Db, w: World, rule: Rule, op: Op, r: int, x: int)
    requires r != rule.id || (op.tenant.Some? && op.tenant != Some(x))
    ensures SamePair(db, Step(db, w, rule, op).db, r, x)
  {
    OtherPairEvents(db, w, rule, op, r, x);
    OtherPairMirror(db, w, rule, op, r, x);
    hide Step, HasOpen, MirrorFiring;
  }

  lemma OtherPairMirror(db: Db, w: World, rule: Rule, op: Op, r: int, x: int)
    requires r != rule.id || (op.tenant.Some? && op.tenant != Some(x))
    ensures MirrorFiring(Step(db, w, rule, op).db.mirror, r, x) == MirrorFiring(db.mirror, r, x)
  {
    var g := Fingerprint(r, Some(x), None);
    if op.tenant.Some? { OtherFingerprint(rule.id, op.tenant.value, op.bucket, r, x); }
    hide Fingerprint, HasOpen;
    if op.Clear? {
      ProjectWrites(Closed(db, rule, op.tenant, op.bucket), w, rule, op.tenant, op.bucket, false, g);
    } else {
      ProjectWrites(Insert(Tick(db), w, rule, op.tenant, op.bucket).db, w, rule, op.tenant, op.bucket, true, g);
    }
  }

  lemma OtherPairEvents(db: Db, w: World, rule: Rule, op: Op, r: int, x: int)
    requires r != rule.id || (op.tenant.Some? && op.tenant != Some(x))
    ensures HasOpen(Step(db, w, rule, op).db.events, r, Some(x), None) == HasOpen(db.events, r, Some(x), None)
  {
    var (t, u) := (db.events, Step(db, w, rule, op).db.events);
    StepEvents(db, w, rule, op);
    hide Step;
    if HasOpen(t, r, Some(x), None) {
      var i :| 0 <= i < |t| && KeyMatch(t[i], r, Some(x), None);
      assert u[i] == t[i];
    }
    if HasOpen(u, r, Some(x), None) {
      var i :| 0 <= i < |u| && KeyMatch(u[i], r, Some(x), None);
      assert i < |t| && u[i] == t[i];
    }
  }

  /** A pair that was in step is in step after its own step exactly when the step told the tenant what it did. */
  lemma StepExact(db: Db, w: World, rule: Rule, op: Op)
    requires Inv(db) && Live(db, rule) && Pointed(rule, op) && SubjectOf(rule.ruleType) == Tenants
    requires InStep(db, rule.id, op.tenant.value)
    ensures var after := Step(db, w, rule, op).db;
            && (InStep(after, rule.id, op.tenant.value) <==> OpTold(db, w, rule, op))
            && (!OpTold(db, w, rule, op) ==> Silent(after, rule.id, op))
  {
    if op.Ensure? {
      FireExact(db, w, rule, op.tenant.value);
    } else {
      ClearExact(db, w, rule, op.tenant.value);
    }
  }

  /** The step `op` did something on its pair that the tenant does not know. */
  ghost predicate Silent(db: Db, rule: int, op: Op)
    requires op.tenant.Some?
  {
    HasOpen(db.events, rule, op.tenant, None) == op.Ensure?
    && MirrorFiring(db.mirror, rule, op.tenant.value) == op.Clear?
  }

  lemma FireExact(db: Db, w: World, rule: Rule, x: int)
    requires InStep(db, rule.id, x)
    ensures var (open, o) := (HasOpen(db.events, rule.id, Some(x), None), EnsureOpen(db, w, rule, Some(x), None));
            && (InStep(o.db, rule.id, x) <==> open || FireTold(w, rule, x, db.calls))
            && (!InStep(o.db, rule.id, x) ==> Silent(o.db, rule.id, Ensure(Some(x), None)))
  {
    var c := db.calls;
    hide MirrorFiring;
    if w.faults(c) == Fine && !HasOpen(db.events, rule.id, Some(x), None) && w.faults(c + 1) != Fails {
      var stored := Stored(Tick(db), rule, Some(x), None);
      HasOpenAt(stored.events, |db.events|, rule.id, Some(x), None);
      ProjectTells(Tick(stored), w, rule, x, true);
      ProjectFrame(Tick(stored), w, rule, Some(x), None, true);
    }
  }

  lemma ClearExact(db: Db, w: World, rule: Rule, x: int)
    requires Inv(db) && Live(db, rule) && SubjectOf(rule.ruleType) == Tenants
    requires InStep(db, rule.id, x)
    ensures var (open, o) := (HasOpen(db.events, rule.id, Some(x), None), ClearOpen(db, w, rule, Some(x), None));
            && (InStep(o.db, rule.id, x) <==> !open || ClearTold(w, rule, x, db.calls))
            && (!InStep(o.db, rule.id, x) ==> Silent(o.db, rule.id, Clear(Some(x), None)))
  {
    CountOpenKey(db, rule, x);
    ClosedNotOpen(db.events, rule.id, x, db.calls);
    hide MirrorFiring, HasOpen, CountAny, ResolveRows;
    var closed := Closed(db, rule, Some(x), None);
    ProjectTells(closed, w, rule, x, false);
    ProjectFrame(closed, w, rule, Some(x), None, false);
  }

  /** A resolve by a tenant's key closes something exactly when the key is open. */
  lemma CountOpenKey(db: Db, rule: Rule, x: int)
    requires Inv(db) && Live(db, rule) && SubjectOf(rule.ruleType) == Tenants
    ensures CountAny(db.events, rule.id, Some(x), None) > 0 <==> HasOpen(db.events, rule.id, Some(x), None)
  {
    var t := db.events;
    MatchesAgree(db, rule, Clear(Some(x), None));
    CountAnyZero(t, rule.id, Some(x), None);
    assert forall i :: 0 <= i < |t| ==> t[i] in t;
    if i :| 0 <= i < |t| && AnyMatch(t[i], rule.id, Some(x), None) { HasOpenAt(t, i, rule.id, Some(x), None); }
  }

  lemma ClosedNotOpen(t: seq<Event>, rule: int, x: int, now: nat)
    ensures !HasOpen(ResolveRows(t, rule, Some(x), None, now), rule, Some(x), None)
  {
  }

  // ---------- a silent step stays silent ----------

  lemma StepKeepsSilent(db: Db, w: World, rule: Rule, op: Op, other: Op)
    requires Inv(db) && Live(db, rule) && Pointed(rule, op) && Pointed(rule, other)
    requires SubjectOf(rule.ruleType) == Tenants
    requires Silent(db, rule.id, other) && Apart(op, other)
    ensures Silent(Step(db, w, rule, op).db, rule.id, other)
  {
    var x := other.tenant.value;
    if op.tenant != other.tenant {
      OtherPair(db, w, rule, op, rule.id, x);
    } else if op.Clear? {
      CountOpenKey(db, rule, x);
      CountAnyZero(db.events, rule.id, Some(x), None);
      ResolveNothing(db.events, rule.id, Some(x), None, db.calls);
    }
  }

  lemma {:induction false} ExecKeepsSilent(db: Db, w: World, rule: Rule, ops: seq<Op>, other: Op)
    requires Inv(db) && Live(db, rule) && AllPointed(rule, ops) && Pointed(rule, other)
    requires SubjectOf(rule.ruleType) == Tenants && Silent(db, rule.id, other)
    requires forall i :: 0 <= i < |ops| ==> Apart(ops[i], other)
    ensures Silent(Exec(db, w, rule, ops).db, rule.id, other)
    decreases |ops|
  {
    if ops != [] {
      assert Pointed(rule, ops[0]);
      StepKeepsSilent(db, w, rule, ops[0], other);
      StepInv(db, w, rule, ops[0]);
      StepFrame(db, w, rule, ops[0]);
      var o := Step(db, w, rule, ops[0]);
      if !o.failed { ExecKeepsSilent(o.db, w, rule, ops[1..], other); }
    }
  }

  // ---------- lists of operations ----------

  lemma StepMirrors(db: Db, w: World, rule: Rule, op: Op)
    requires Inv(db) && MirrorOk(db) && Live(db, rule) && Pointed(rule, op)
    ensures OpTold(db, w, rule, op) ==> MirrorOk(Step(db, w, rule, op).db)
    ensures !OpTold(db, w, rule, op)
            ==> SubjectOf(rule.ruleType) == Tenants && Silent(Step(db, w, rule, op).db, rule.id, op)
  {
    var o := Step(db, w, rule, op);
    StepFrame(db, w, rule, op);
    if SubjectOf(rule.ruleType) == Tenants {
      assert QuotaRule(db, rule.id) && InStep(db, rule.id, op.tenant.value);
      StepExact(db, w, rule, op);
    }
    if OpTold(db, w, rule, op) {
      hide Step, OpTold, InStep;
      forall r, x | QuotaRule(o.db, r) ensures InStep(o.db, r, x) {
        assert QuotaRule(db, r) && InStep(db, r, x);
        if r != rule.id || op.tenant != Some(x) { OtherPair(db, w, rule, op, r, x); }
      }
    }
  }

  /** Out of step for some tenant. */
  ghost predicate Behind(db: Db, rule: int) {
    exists x :: !InStep(db, rule, x)
  }

  ghost predicate BehindQuota(db: Db, rule: Rule) {
    SubjectOf(rule.ruleType) == Tenants && Behind(db, rule.id)
  }

  lemma BehindBreaks(db: Db, rule: int)
    requires QuotaRule(db, rule) && Behind(db, rule)
    ensures !MirrorOk(db)
  {
  }

  lemma SilentIsBehind(db: Db, rule: int, op: Op)
    requires op.tenant.Some? && Silent(db, rule, op)
    ensures Behind(db, rule)
  {
    assert !InStep(db, rule, op.tenant.value);
  }

  ghost predicate AnySilent(db: Db, rule: Rule, ops: seq<Op>) {
    SubjectOf(rule.ruleType) == Tenants
    && exists i :: 0 <= i < |ops| && ops[i].tenant.Some? && Silent(db, rule.id, ops[i])
  }

  /** Operations that do not undo each other keep the mirror in step exactly when none of them was silent;
      a silent one is not made up for by the others. */
  lemma {:induction false} ExecExact(db: Db, w: World, rule: Rule, ops: seq<Op>)
    requires Inv(db) && MirrorOk(db) && Live(db, rule) && AllPointed(rule, ops) && PairwiseApart(ops)
    ensures var o := Exec(db, w, rule, ops);
            if ExecTold(db, w, rule, ops) then MirrorOk(o.db) else AnySilent(o.db, rule, ops)
    decreases |ops|
  {
    if ops != [] {
      var (op, rest, o) := (ops[0], ops[1..], Step(db, w, rule, ops[0]));
      assert Pointed(rule, op);
      StepMirrors(db, w, rule, op);
      StepInv(db, w, rule, op);
      StepFrame(db, w, rule, op);
      hide Step, OpTold, Silent, MirrorOk, Inv;
      if !OpTold(db, w, rule, op) {
        forall i | 0 <= i < |rest| ensures Apart(rest[i], op) { assert Apart(op, ops[i + 1]); }
        if !o.failed { ExecKeepsSilent(o.db, w, rule, rest, op); }
      } else if !o.failed {
        ExecExact(o.db, w, rule, rest);
        if AnySilent(Exec(o.db, w, rule, rest).db, rule, rest) {
          var i :| 0 <= i < |rest| && rest[i].tenant.Some? && Silent(Exec(o.db, w, rule, rest).db, rule.id, rest[i]);
          assert ops[i + 1] == rest[i];
        }
      }
    }
  }

  lemma {:induction false} ExecKeepsPair(db: Db, w: World, rule: Rule, ops: seq<Op>, r: int, x: int)
    requires r != rule.id
    ensures SamePair(db, Exec(db, w, rule, ops).db, r, x)
    decreases |ops|
  {
    if ops != [] {
      OtherPair(db, w, rule, ops[0], r, x);
      var o := Step(db, w, rule, ops[0]);
      if !o.failed { ExecKeepsPair(o.db, w, rule, ops[1..], r, x); }
    }
  }

  // ---------- one rule ----------

  /** The sweep clears no key that the loop decided on, and never undoes itself. */
  lemma SweepApart(open: seq<Event>, plan: Plan)
    requires PlanSound(plan)
    ensures var ops := SweepOps(open, plan.sweep);
            && PairwiseApart(ops) && (forall k :: 0 <= k < |ops| ==> ops[k].Clear?)
            && forall k, i :: 0 <= k < |ops| && 0 <= i < |plan.ops| ==> Apart(ops[k], plan.ops[i])
  {
    var ops := SweepOps(open, plan.sweep);
    forall k | 0 <= k < |ops| ensures ops[k].Clear? && forall i :: 0 <= i < |plan.ops| ==> Apart(ops[k], plan.ops[i]) {
      assert ops[k] in ops;
      SweepOpsExact(open, plan.sweep, ops[k]);
    }
  }

  lemma SweepExact(db: Db, w: World, rule: Rule)
    requires Inv(db) && Live(db, rule) && PlanSound(PlanOf(w.readings, rule))
    ensures var (plan, o) := (PlanOf(w.readings, rule), RunSweep(db, w, rule, PlanOf(w.readings, rule).sweep));
            && (MirrorOk(db) ==> if SweepTold(db, w, rule, plan.sweep) then MirrorOk(o.db) else BehindQuota(o.db, rule))
            && (AnySilent(db, rule, plan.ops) ==> AnySilent(o.db, rule, plan.ops))
  {
    var plan := PlanOf(w.readings, rule);
    var ops := SweepOps(OpenByRule(db.events, rule.id), plan.sweep);
    var (t, o) := (Tick(db), RunSweep(db, w, rule, plan.sweep));
    TickMirror(db);
    if plan.sweep != NoSweep && w.faults(db.calls) == Fine {
      SweepPointed(db, rule, plan.sweep);
      SweepApart(OpenByRule(db.events, rule.id), plan);
      if MirrorOk(db) { SweepExactOn(t, w, rule, ops); }
      if AnySilent(db, rule, plan.ops) {
        var i :| 0 <= i < |plan.ops| && plan.ops[i].tenant.Some? && Silent(db, rule.id, plan.ops[i]);
        PlanPointed(w.readings, rule);
        assert Pointed(rule, plan.ops[i]) && Silent(t, rule.id, plan.ops[i]);
        ExecKeepsSilent(t, w, rule, ops, plan.ops[i]);
      }
    }
  }

  lemma SweepExactOn(db: Db, w: World, rule: Rule, ops: seq<Op>)
    requires Inv(db) && MirrorOk(db) && Live(db, rule) && AllPointed(rule, ops) && PairwiseApart(ops)
    ensures var o := Exec(db, w, rule, ops);
            if ExecTold(db, w, rule, ops) then MirrorOk(o.db) else BehindQuota(o.db, rule)
  {
    ExecExact(db, w, rule, ops);
    AnySilentIsBehind(Exec(db, w, rule, ops).db, rule, ops);
  }

  lemma AnySilentIsBehind(db: Db, rule: Rule, ops: seq<Op>)
    ensures AnySilent(db, rule, ops) ==> BehindQuota(db, rule)
  {
    if AnySilent(db, rule, ops) {
      var i :| 0 <= i < |ops| && ops[i].tenant.Some? && Silent(db, rule.id, ops[i]);
      SilentIsBehind(db, rule.id, ops[i]);
    }
  }

  lemma TickMirror(db: Db)
    requires Inv(db)
    ensures Inv(Tick(db)) && (MirrorOk(db) <==> MirrorOk(Tick(db)))
  {
    LaterInv(db, Tick(db));
    assert forall r :: QuotaRule(Tick(db), r) <==> QuotaRule(db, r);
    assert forall r, x :: InStep(Tick(db), r, x) <==> InStep(db, r, x);
  }

  /** Evaluating a rule, with failures anywhere. */
  lemma EvalExact(db: Db, w: World, rule: Rule)
    requires Inv(db) && MirrorOk(db) && Live(db, rule) && PrimaryKeys(w.readings)
    ensures var o := EvalRule(db, w, rule);
            if EvalTold(db, w, rule) then MirrorOk(o.db) else BehindQuota(o.db, rule)
  {
    var plan := PlanOf(w.readings, rule);
    var start := if plan.listing then Tick(db) else db;
    TickMirror(db);
    PlanIsSound(w.readings, rule);
    PlanPointed(w.readings, rule);
    ExecInv(start, w, rule, plan.ops);
    ExecFrame(start, w, rule, plan.ops);
    ExecExact(start, w, rule, plan.ops);
    var a := Exec(start, w, rule, plan.ops);
    SweepExact(a.db, w, rule);
    AnySilentIsBehind(a.db, rule, plan.ops);
    AnySilentIsBehind(RunSweep(a.db, w, rule, plan.sweep).db, rule, plan.ops);
    hide Exec, ExecTold, SweepTold, RunSweep, Inv, MirrorOk, PlanOf, AnySilent, BehindQuota;
  }

  lemma EvalKeepsPair(db: Db, w: World, rule: Rule, r: int, x: int)
    requires r != rule.id
    ensures SamePair(db, EvalRule(db, w, rule).db, r, x)
  {
    hide InStep;
    var plan := PlanOf(w.readings, rule);
    var start := if plan.listing then Tick(db) else db;
    TickPair(db, r, x);
    ExecKeepsPair(start, w, rule, plan.ops, r, x);
    var a := Exec(start, w, rule, plan.ops);
    TickPair(a.db, r, x);
    ExecKeepsPair(Tick(a.db), w, rule, SweepOps(OpenByRule(a.db.events, rule.id), plan.sweep), r, x);
  }

  lemma TickPair(db: Db, r: int, x: int)
    ensures SamePair(db, Tick(db), r, x)
  {
  }

  // ---------- runs ----------

  lemma {:induction false} RulesKeepPair(db: Db, w: World, rules: seq<Rule>, r: int, x: int)
    requires forall k :: 0 <= k < |rules| ==> rules[k].id != r
    ensures SamePair(db, RunRules(db, w, rules).db, r, x)
    decreases |rules|
  {
    if rules != [] {
      EvalKeepsPair(db, w, rules[0], r, x);
      var o := EvalRule(db, w, rules[0]);
      if !o.failed { RulesKeepPair(o.db, w, rules[1..], r, x); }
    }
  }

  lemma RulesKeepBehind(db: Db, w: World, rules: seq<Rule>, r: int)
    requires Behind(db, r) && forall k :: 0 <= k < |rules| ==> rules[k].id != r
    ensures Behind(RunRules(db, w, rules).db, r)
  {
    var x :| !InStep(db, r, x);
    RulesKeepPair(db, w, rules, r, x);
    assert !InStep(RunRules(db, w, rules).db, r, x);
  }

  lemma {:induction false} RulesExact(db: Db, w: World, rules: seq<Rule>)
    requires Inv(db) && MirrorOk(db) && AllLive(db, rules) && DistinctRules(rules) && PrimaryKeys(w.readings)
    ensures var o := RunRules(db, w, rules);
            && o.db.rules == db.rules
            && (MirrorOk(o.db) <==> RulesTold(db, w, rules))
    decreases |rules|
  {
    if rules != [] {
      assert Live(db, rules[0]);
      EvalExact(db, w, rules[0]);
      EvalInv(db, w, rules[0]);
      EvalFrame(db, w, rules[0]);
      var (o, rest) := (EvalRule(db, w, rules[0]), rules[1..]);
      forall k | 0 <= k < |rest|
        ensures Live(o.db, rest[k]) && rest[k].id != rules[0].id
      {
        assert Live(db, rules[k + 1]);
      }
      hide EvalRule, EvalTold, MirrorOk, Behind, Inv;
      if !EvalTold(db, w, rules[0]) {
        if !o.failed {
          RulesKeepBehind(o.db, w, rest, rules[0].id);
          RulesRunKeepsRules(o.db, w, rest);
        }
        BehindBreaks(RunRules(db, w, rules).db, rules[0].id);
      } else if !o.failed {
        RulesExact(o.db, w, rest);
      }
    }
  }

  /** A run, failing or not, keeps both sides in step exactly when none of its calls was silent. */
  lemma RunExact(db: Db, w: World)
    requires Inv(db) && MirrorOk(db) && PrimaryKeys(w.readings)
    ensures MirrorOk(Run(db, w).out.db) <==> RunTold(db, w)
  {
    var rules := EnabledRules(db.rules, db.nextRule);
    TickMirror(db);
    EnabledRulesLive(Tick(db), db.nextRule);
    EnabledRulesExact(db.rules, db.nextRule);
    hide Inv, MirrorOk, RunRules, RulesTold, EnabledRules;
    if w.faults(db.calls) == Fine { RulesExact(Tick(db), w, rules); }
  }

  // ---------- an alert the tenant never hears of ----------

  /** What the readings ask for: the alert of a tenant fires when it is selected. */
  ghost function Wanted(w: World, rule: Rule, x: int): Op {
    Decide(TenantSelected(w.readings, rule, x), Some(x), None)
  }

  /** No operation of a plan or its sweep goes against it. */
  lemma PlanApart(w: World, rule: Rule, x: int)
    requires SubjectOf(rule.ruleType) == Tenants && PrimaryKeys(w.readings)
    ensures var (plan, op) := (PlanOf(w.readings, rule), Wanted(w, rule, x));
            && PlanSound(plan) && AllPointed(rule, plan.ops)
            && (forall i :: 0 <= i < |plan.ops| ==> Apart(plan.ops[i], op))
            && forall open, k :: 0 <= k < |SweepOps(open, plan.sweep)| ==> Apart(SweepOps(open, plan.sweep)[k], op)
  {
    var (plan, op) := (PlanOf(w.readings, rule), Wanted(w, rule, x));
    PlanIsSound(w.readings, rule);
    PlanPointed(w.readings, rule);
    if op.Ensure? {
      TenantOpsExact(w.readings, rule, w.readings.tenants.value, op);
      var k :| 0 <= k < |plan.ops| && plan.ops[k] == op;
      forall i | 0 <= i < |plan.ops| ensures Apart(plan.ops[i], op) {
        assert i < k ==> Apart(plan.ops[i], plan.ops[k]);
      }
    } else {
      forall i | 0 <= i < |plan.ops| ensures Apart(plan.ops[i], op) { NotFired(w, rule, x, i); }
    }
    forall open, i | 0 <= i < |SweepOps(open, plan.sweep)| ensures Apart(SweepOps(open, plan.sweep)[i], op) {
      SweepApart(open, plan);
    }
  }

  lemma NotFired(w: World, rule: Rule, x: int, i: nat)
    requires SubjectOf(rule.ruleType) == Tenants && !TenantSelected(w.readings, rule, x)
    requires i < |PlanOf(w.readings, rule).ops|
    ensures PlanOf(w.readings, rule).ops[i] != Ensure(Some(x), None)
  {
    var ops := PlanOf(w.readings, rule).ops;
    assert ops[i] in ops;
    TenantOpsExact(w.readings, rule, w.readings.tenants.value, Ensure(Some(x), None));
  }

  /** A tenant that was not told stays so through an evaluation that wants what the table has. */
  lemma EvalKeepsSilent(db: Db, w: World, rule: Rule, x: int)
    requires Inv(db) && Live(db, rule) && SubjectOf(rule.ruleType) == Tenants && PrimaryKeys(w.readings)
    requires Silent(db, rule.id, Wanted(w, rule, x))
    ensures Silent(EvalRule(db, w, rule).db, rule.id, Wanted(w, rule, x))
  {
    var (plan, op) := (PlanOf(w.readings, rule), Wanted(w, rule, x));
    var start := if plan.listing then Tick(db) else db;
    PlanApart(w, rule, x);
    LaterInv(db, start);
    assert EvalRule(db, w, rule) == ExecPlan(db, w, rule, plan);
    assert SweepFits(rule, plan.sweep);
    hide TenantSelected, PlanOf, Inv, Apart, Wanted;
    ExecKeepsSilent(start, w, rule, plan.ops, op);
    ExecInv(start, w, rule, plan.ops);
    ExecFrame(start, w, rule, plan.ops);
    SweepKeepsSilent(Exec(start, w, rule, plan.ops).db, w, rule, plan.sweep, op);
    hide Exec, RunSweep;
  }

  lemma SweepKeepsSilent(db: Db, w: World, rule: Rule, sweep: Sweep, op: Op)
    requires Inv(db) && Live(db, rule) && Pointed(rule, op) && SubjectOf(rule.ruleType) == Tenants
    requires Silent(db, rule.id, op) && SweepFits(rule, sweep)
    requires forall k :: 0 <= k < |SweepOps(OpenByRule(db.events, rule.id), sweep)| ==>
               Apart(SweepOps(OpenByRule(db.events, rule.id), sweep)[k], op)
    ensures Silent(RunSweep(db, w, rule, sweep).db, rule.id, op)
  {
    LaterInv(db, Tick(db));
    if sweep != NoSweep && w.faults(db.calls) == Fine {
      SweepPointed(db, rule, sweep);
      ExecKeepsSilent(Tick(db), w, rule, SweepOps(OpenByRule(db.events, rule.id), sweep), op);
    }
  }

  lemma {:induction false} RulesKeepSilent(db: Db, w: World, rules: seq<Rule>, rule: Rule, x: int)
    requires Inv(db) && AllLive(db, rules) && DistinctRules(rules) && PrimaryKeys(w.readings)
    requires forall k :: 0 <= k < |rules| && rules[k].id == rule.id ==> rules[k] == rule
    requires SubjectOf(rule.ruleType) == Tenants && Silent(db, rule.id, Wanted(w, rule, x))
    ensures Silent(RunRules(db, w, rules).db, rule.id, Wanted(w, rule, x))
    decreases |rules|
  {
    if rules != [] {
      var (o, rest) := (EvalRule(db, w, rules[0]), rules[1..]);
      assert Live(db, rules[0]);
      EvalInv(db, w, rules[0]);
      EvalFrame(db, w, rules[0]);
      forall k | 0 <= k < |rest|
        ensures Live(o.db, rest[k]) && rest[k].id != rules[0].id
      {
        assert Live(db, rules[k + 1]);
      }
      if rules[0].id == rule.id {
        EvalKeepsSilent(db, w, rule, x);
        if !o.failed { RulesKeepPair(o.db, w, rest, rule.id, x); }
      } else {
        EvalKeepsPair(db, w, rules[0], rule.id, x);
        if !o.failed { RulesKeepSilent(o.db, w, rest, rule, x); }
      }
    }
  }

  /** An alert that was opened or closed without its tenant hearing of it is not announced by any later run, whatever
      fails in it, that would have left it open or closed: an open one while the tenant stays over the threshold,
      a closed one while it stays below. */
  lemma StaysSilent(db: Db, w: World, rule: Rule, x: int)
    requires Inv(db) && rule.id in db.rules && db.rules[rule.id] == rule && SubjectOf(rule.ruleType) == Tenants
    requires PrimaryKeys(w.readings) && Silent(db, rule.id, Wanted(w, rule, x))
    ensures Silent(Run(db, w).out.db, rule.id, Wanted(w, rule, x))
  {
    var rules := EnabledRules(db.rules, db.nextRule);
    LaterInv(db, Tick(db));
    EnabledRulesLive(Tick(db), db.nextRule);
    EnabledRulesExact(db.rules, db.nextRule);
    assert forall k :: 0 <= k < |rules| ==> rules[k] in rules;
    if w.faults(db.calls) == Fine { RulesKeepSilent(Tick(db), w, rules, rule, x); }
  }

  // ---------- no fault, no silence ----------

  ghost predicate OpNamed(op: Op, w: World) {
    op.tenant.Some? ==> Named(w, op.tenant.value)
  }

  ghost predicate OpsNamed(ops: seq<Op>, w: World) {
    forall i :: 0 <= i < |ops| ==> OpNamed(ops[i], w)
  }

  ghost predicate EventsNamed(t: seq<Event>, w: World) {
    forall i :: 0 <= i < |t| && t[i].tenantId.Some? ==> Named(w, t[i].tenantId.value)
  }

  /** Every call succeeds, and the listed tenants are known by name. */
  ghost predicate Faultless(w: World) {
    && (forall k :: w.faults(k) == Fine) && w.readings.projectConfigured && w.readings.tenants.Some?
    && PrimaryKeys(w.readings)
    && forall i :: 0 <= i < |w.readings.tenants.value| ==> Named(w, w.readings.tenants.value[i].id)
  }

  ghost predicate Notifies(rule: Rule) {
    SubjectOf(rule.ruleType) == Tenants ==> rule.notifyTenant
  }

  lemma {:induction false} FineExecTold(db: Db, w: World, rule: Rule, ops: seq<Op>)
    requires Faultless(w) && Notifies(rule) && OpsNamed(ops, w) && EventsNamed(db.events, w)
    ensures ExecTold(db, w, rule, ops) && EventsNamed(Exec(db, w, rule, ops).db.events, w)
    decreases |ops|
  {
    if ops != [] {
      assert OpNamed(ops[0], w);
      StepEvents(db, w, rule, ops[0]);
      FineExecTold(Step(db, w, rule, ops[0]).db, w, rule, ops[1..]);
    }
  }

  lemma PlanNamed(w: World, rule: Rule)
    requires Faultless(w)
    ensures OpsNamed(PlanOf(w.readings, rule).ops, w)
  {
    var (ops, ts) := (PlanOf(w.readings, rule).ops, w.readings.tenants.value);
    PlanPointed(w.readings, rule);
    forall i | 0 <= i < |ops| ensures OpNamed(ops[i], w) {
      assert Pointed(rule, ops[i]) && ops[i] in ops;
      if SubjectOf(rule.ruleType) == Tenants {
        TenantOpsExact(w.readings, rule, ts, ops[i]);
        var k :| 0 <= k < |ts| && ts[k].id == ops[i].tenant.value;
      }
    }
  }

  lemma SweepNamed(t: seq<Event>, w: World, rule: int, sweep: Sweep)
    requires EventsNamed(t, w)
    ensures OpsNamed(SweepOps(OpenByRule(t, rule), sweep), w)
  {
    var ops := SweepOps(OpenByRule(t, rule), sweep);
    forall i | 0 <= i < |ops| ensures OpNamed(ops[i], w) {
      assert ops[i] in ops;
      SweepOpsExact(OpenByRule(t, rule), sweep, ops[i]);
      var e :| e in OpenByRule(t, rule) && ops[i] == Clear(e.tenantId, e.bucketId);
      OpenByRuleExact(t, rule, e);
    }
  }

  lemma FineEvalTold(db: Db, w: World, rule: Rule)
    requires Faultless(w) && Notifies(rule) && EventsNamed(db.events, w)
    ensures EvalTold(db, w, rule) && EventsNamed(EvalRule(db, w, rule).db.events, w)
  {
    var plan := PlanOf(w.readings, rule);
    var start := if plan.listing then Tick(db) else db;
    PlanNamed(w, rule);
    FineExecTold(start, w, rule, plan.ops);
    var a := Exec(start, w, rule, plan.ops);
    SweepNamed(a.db.events, w, rule.id, plan.sweep);
    FineExecTold(Tick(a.db), w, rule, SweepOps(OpenByRule(a.db.events, rule.id), plan.sweep));
  }

  lemma {:induction false} FineRulesTold(db: Db, w: World, rules: seq<Rule>)
    requires Faultless(w) && EventsNamed(db.events, w) && forall k :: 0 <= k < |rules| ==> Notifies(rules[k])
    ensures RulesTold(db, w, rules)
    decreases |rules|
  {
    if rules != [] {
      assert Notifies(rules[0]);
      FineEvalTold(db, w, rules[0]);
      forall k | 0 <= k < |rules[1..]| ensures Notifies(rules[1..][k]) { assert Notifies(rules[k + 1]); }
      FineRulesTold(EvalRule(db, w, rules[0]).db, w, rules[1..]);
    }
  }

  /** A run in which every call succeeds, every rule notifies and every tenant is known by name is never silent. */
  lemma RunMirrors(db: Db, w: World)
    requires Inv(db) && MirrorOk(db) && Faultless(w) && EventsNamed(db.events, w)
    requires forall r :: r in db.rules ==> Notifies(db.rules[r])
    ensures RunTold(db, w) && MirrorOk(Run(db, w).out.db)
  {
    var rules := EnabledRules(db.rules, db.nextRule);
    EnabledRulesExact(db.rules, db.nextRule);
    forall k | 0 <= k < |rules| ensures Notifies(rules[k]) {
      assert rules[k] in rules;
      assert Notifies(db.rules[rules[k].id]);
    }
    FineRulesTold(Tick(db), w, rules);
    RunExact(db, w);
  }

  // ---------- histories ----------

  lemma HasOpenRows(t: seq<Event>, u: seq<Event>, rule: int, tenant: Option<int>, bucket: Option<int>)
    requires |t| == |u|
    requires forall i ::
               0 <= i < |t|
               ==> (KeyMatch(t[i], rule, tenant, bucket) <==> KeyMatch(u[i], rule, tenant, bucket))
    ensures HasOpen(t, rule, tenant, bucket) <==> HasOpen(u, rule, tenant, bucket)
  {
    if HasOpen(t, rule, tenant, bucket) {
      var i :| 0 <= i < |t| && KeyMatch(t[i], rule, tenant, bucket);
      assert KeyMatch(u[i], rule, tenant, bucket);
    }
  }

  /** No notice was ever sent for a rule that is still to come. */
  ghost predicate NoneAhead(db: Db) {
    forall r, x :: r >= db.nextRule ==> !MirrorFiring(db.mirror, r, x)
  }

  lemma ApplyNoneAhead(db: Db, a: Action)
    requires NoneAhead(db) && RulesOk(db)
    ensures NoneAhead(Apply(db, a))
  {
    if a.Evaluate? {
      RunNoneAhead(db, a.w);
    } else {
      hide MirrorFiring;
    }
  }

  lemma RunNoneAhead(db: Db, w: World)
    requires NoneAhead(db) && RulesOk(db)
    ensures NoneAhead(Run(db, w).out.db)
  {
    var rules := EnabledRules(db.rules, db.nextRule);
    var after := RunRules(Tick(db), w, rules).db;
    EnabledRulesExact(db.rules, db.nextRule);
    assert forall k :: 0 <= k < |rules| ==> rules[k] in rules;
    hide RunRules, EnabledRules, MirrorFiring, HasOpen;
    forall r, x | r >= db.nextRule ensures !MirrorFiring(after.mirror, r, x) {
      RulesKeepPair(Tick(db), w, rules, r, x);
    }
    RulesRunKeepsRules(Tick(db), w, rules);
  }

  lemma {:induction false} HistoryNoneAhead(actions: seq<Action>)
    ensures NoneAhead(History(EMPTY, actions)) && Inv(History(EMPTY, actions))
  {
    ReachableInv(actions);
    if actions != [] {
      var front := actions[..|actions| - 1];
      HistoryNoneAhead(front);
      ApplyNoneAhead(History(EMPTY, front), actions[|actions| - 1]);
    }
  }

  lemma AcknowledgeMirrors(db: Db, event: int, user: int)
    requires Inv(db)
    ensures MirrorOk(Apply(db, AcknowledgeEvent(event, user))) <==> MirrorOk(db)
  {
    var after := Apply(db, AcknowledgeEvent(event, user));
    forall r, x ensures InStep(after, r, x) <==> InStep(db, r, x) {
      HasOpenRows(db.events, after.events, r, Some(x), None);
    }
    assert forall r :: QuotaRule(after, r) <==> QuotaRule(db, r);
  }

  // ---------- the manual resolve ----------

  /** The event is one that a tenant was told about. */
  ghost predicate ToldTenant(db: Db, e: Event) {
    IsOpen(e) && e.ruleId.Some? && QuotaRule(db, e.ruleId.value) && e.tenantId.Some?
  }

  ghost predicate ToldOf(db: Db, event: int) {
    exists i :: 0 <= i < |db.events| && db.events[i].id == event && ToldTenant(db, db.events[i])
  }

  /** A manual resolve is not sent to the tenant: the mirror stays in step exactly when the resolved
      event was not an open quota event of a tenant. */
  lemma ManualResolve(db: Db, event: int)
    requires Inv(db) && MirrorOk(db)
    ensures MirrorOk(Apply(db, ResolveEvent(event))) <==> !ToldOf(db, event)
  {
    var after := Apply(db, ResolveEvent(event));
    var (t, u) := (db.events, after.events);
    if i :| 0 <= i < |t| && t[i].id == event && ToldTenant(db, t[i]) {
      var (r, x) := (t[i].ruleId.value, t[i].tenantId.value);
      assert RowOk(t[i], db) && InStep(db, r, x);
      assert KeyMatch(t[i], r, Some(x), None);
      forall j | 0 <= j < |u| ensures !KeyMatch(u[j], r, Some(x), None) {
        assert RowOk(t[j], db);
        if i < j { assert PairOk(t[i], t[j]); }
        if j < i { assert PairOk(t[j], t[i]); }
      }
      assert QuotaRule(after, r) && !InStep(after, r, x);
    } else {
      forall r, x | QuotaRule(after, r) ensures InStep(after, r, x) {
        assert QuotaRule(db, r) && InStep(db, r, x);
        HasOpenRows(t, u, r, Some(x), None);
      }
    }
  }

  // ---------- the other actions ----------

  lemma AddRuleMirrors(db: Db, a: Action)
    requires Inv(db) && MirrorOk(db) && NoneAhead(db) && a.AddRule?
    ensures MirrorOk(Apply(db, a))
  {
    var after := Apply(db, a);
    forall r, x | QuotaRule(after, r) ensures InStep(after, r, x) {
      if r == db.nextRule {
        assert forall i :: 0 <= i < |db.events| ==> RowOk(db.events[i], db);
      } else {
        assert QuotaRule(db, r) && InStep(db, r, x);
      }
    }
  }

  lemma EditRuleMirrors(db: Db, a: Action)
    requires MirrorOk(db) && a.EditRule?
    ensures MirrorOk(Apply(db, a))
  {
    var after := Apply(db, a);
    forall r, x | QuotaRule(after, r) ensures InStep(after, r, x) { assert QuotaRule(db, r) && InStep(db, r, x); }
  }

  lemma DropRuleMirrors(db: Db, rule: int)
    requires MirrorOk(db)
    ensures MirrorOk(Apply(db, DropRule(rule)))
  {
    var after := Apply(db, DropRule(rule));
    forall r, x | QuotaRule(after, r) ensures InStep(after, r, x) {
      assert QuotaRule(db, r) && InStep(db, r, x);
      ForgetRuleOpen(db.events, rule, r, Some(x), None);
    }
  }

  /** Some quota rule has an open event on the tenant. */
  ghost predicate TenantFires(db: Db, x: int) {
    exists r :: QuotaRule(db, r) && HasOpen(db.events, r, Some(x), None)
  }

  lemma ForgetTenantOpen(t: seq<Event>, x: int, r: int, y: int)
    ensures HasOpen(ForgetTenant(t, x), r, Some(y), None) <==> y != x && HasOpen(t, r, Some(y), None)
  {
    var u := ForgetTenant(t, x);
    if HasOpen(u, r, Some(y), None) {
      var i :| 0 <= i < |u| && KeyMatch(u[i], r, Some(y), None);
      assert KeyMatch(t[i], r, Some(y), None);
    }
    if y != x && HasOpen(t, r, Some(y), None) {
      var i :| 0 <= i < |t| && KeyMatch(t[i], r, Some(y), None);
      assert KeyMatch(u[i], r, Some(y), None);
    }
  }

  /** A tenant's row goes without a last notice: both sides stay in step exactly when it had no quota alert open. */
  lemma DropTenantMirrors(db: Db, x: int)
    requires MirrorOk(db)
    ensures MirrorOk(Apply(db, DropTenant(x))) <==> !TenantFires(db, x)
  {
    var after := Apply(db, DropTenant(x));
    if r :| QuotaRule(db, r) && HasOpen(db.events, r, Some(x), None) {
      ForgetTenantOpen(db.events, x, r, x);
      assert QuotaRule(after, r) && InStep(db, r, x) && !InStep(after, r, x);
    } else {
      forall r, y | QuotaRule(after, r) ensures InStep(after, r, y) {
        assert QuotaRule(db, r) && InStep(db, r, y);
        ForgetTenantOpen(db.events, x, r, y);
      }
    }
  }

  lemma DropBucketMirrors(db: Db, x: int)
    requires Inv(db) && MirrorOk(db)
    ensures MirrorOk(Apply(db, DropBucket(x)))
  {
    var after := Apply(db, DropBucket(x));
    forall r, y | QuotaRule(after, r) ensures InStep(after, r, y) {
      assert QuotaRule(db, r) && InStep(db, r, y);
      assert forall i :: 0 <= i < |db.events| ==> RowOk(db.events[i], db);
      HasOpenRows(db.events, after.events, r, Some(y), None);
    }
  }

  // ---------- whole histories ----------

  /** The action left no tenant with an outdated alert, said of the state before it. */
  ghost predicate ActionTold(db: Db, a: Action) {
    match a
    case Evaluate(w) => RunTold(db, w)
    case ResolveEvent(event) => !ToldOf(db, event)
    case DropTenant(tenant) => !TenantFires(db, tenant)
    case _ => true
  }

  ghost predicate Readable(a: Action) {
    a.Evaluate? ==> PrimaryKeys(a.w.readings)
  }

  /** One action of any kind keeps both sides in step exactly when it was not silent. */
  lemma ActionExact(db: Db, a: Action)
    requires Inv(db) && MirrorOk(db) && NoneAhead(db) && Readable(a)
    ensures MirrorOk(Apply(db, a)) <==> ActionTold(db, a)
  {
    match a
    case Evaluate(w) => RunExact(db, w);
    case AcknowledgeEvent(event, user) => AcknowledgeMirrors(db, event, user);
    case ResolveEvent(event) => ManualResolve(db, event);
    case AddRule(_, _, _, _) => AddRuleMirrors(db, a);
    case EditRule(_, _, _, _) => EditRuleMirrors(db, a);
    case DropRule(rule) => DropRuleMirrors(db, rule);
    case DropTenant(tenant) => DropTenantMirrors(db, tenant);
    case DropBucket(bucket) => DropBucketMirrors(db, bucket);
  }

  /** Every tenant saw an alert firing exactly while an event was open for it, all the way. */
  ghost predicate AlwaysMirroring(actions: seq<Action>) {
    forall k :: 0 <= k <= |actions| ==> MirrorOk(History(EMPTY, actions[..k]))
  }

  ghost predicate NoneSilent(actions: seq<Action>) {
    forall k :: 0 <= k < |actions| ==> ActionTold(History(EMPTY, actions[..k]), actions[k])
  }

  lemma MirroringPrefixes(front: seq<Action>, a: Action)
    ensures AlwaysMirroring(front + [a]) <==> AlwaysMirroring(front) && MirrorOk(Apply(History(EMPTY, front), a))
  {
    hide MirrorOk, History, Apply;
    var all := front + [a];
    HistoryNext(EMPTY, front, a);
    forall k | 0 <= k <= |front| ensures all[..k] == front[..k] { SamePrefix(front, a, k); }
    SamePrefix(front, a, 0);
    if AlwaysMirroring(all) {
      forall k | 0 <= k <= |front| ensures MirrorOk(History(EMPTY, front[..k])) { assert all[..k] == front[..k]; }
    }
  }

  lemma SilentPrefixes(front: seq<Action>, a: Action)
    ensures NoneSilent(front + [a]) <==> NoneSilent(front) && ActionTold(History(EMPTY, front), a)
  {
    hide ActionTold, History;
    var all := front + [a];
    forall k | 0 <= k <= |front| ensures all[..k] == front[..k] { SamePrefix(front, a, k); }
    SamePrefix(front, a, 0);
    if NoneSilent(all) {
      forall k | 0 <= k < |front| ensures ActionTold(History(EMPTY, front[..k]), front[k]) {
        assert all[..k] == front[..k] && all[k] == front[k];
      }
    }
  }

  /** Over any history from the empty tables, whatever fails, whichever tenants come and go and however rules are
      edited: both sides are in step after every action exactly when no action was silent. */
  lemma {:induction false} MirrorFollows(actions: seq<Action>)
    requires forall k :: 0 <= k < |actions| ==> Readable(actions[k])
    ensures AlwaysMirroring(actions) <==> NoneSilent(actions)
    decreases |actions|
  {
    if actions == [] {
      assert actions[..0] == [] && History(EMPTY, []) == EMPTY;
    } else {
      var (front, a) := (actions[..|actions| - 1], actions[|actions| - 1]);
      assert actions == front + [a];
      MirrorFollows(front);
      MirroringPrefixes(front, a);
      SilentPrefixes(front, a);
      HistoryNoneAhead(front);
      assert front[..|front|] == front;
      assert AlwaysMirroring(front) ==> MirrorOk(History(EMPTY, front));
      hide MirrorOk, ActionTold, History, Apply, NoneSilent, AlwaysMirroring, Inv, NoneAhead;
      if AlwaysMirroring(front) { ActionExact(History(EMPTY, front), a); }
    }
  }
}
