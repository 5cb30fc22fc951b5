/** When things are recorded to have happened: every time written to an event lies within the action that wrote it. */
module AlertTimes {
  import opened Common
  import opened AlertTable
  import opened AlertEval
  import opened AlertInvariants
  import opened AlertReconcile
  import opened AlertMachine

  predicate Written(was: Option<nat>, stamp: Option<nat>, from: nat, until: nat) {
    stamp == was || (stamp.Some? && from <= stamp.value < until)
  }

  /** A row before and after, or a new one. */
  predicate RowTimed(was: Option<Event>, e: Event, from: nat, until: nat) {
    && (if was.Some? then e.firedAt == was.value.firedAt else from <= e.firedAt < until)
    && Written(if was.Some? then was.value.acknowledgedAt else None, e.acknowledgedAt, from, until)
    && Written(if was.Some? then was.value.resolvedAt else None, e.resolvedAt, from, until)
  }

  function Was(t: seq<Event>, i: nat): Option<Event> {
    if i < |t| then Some(t[i]) else None
  }

  /** Every row fired, acknowledged or resolved between `db` and `after` says a time between them. */
  ghost predicate Timed(db: Db, after: Db) {
    && db.calls <= after.calls && |db.events| <= |after.events|
    && forall i :: 0 <= i < |after.events| ==> RowTimed(Was(db.events, i), after.events[i], db.calls, after.calls)
  }

  lemma TimedThen(db: Db, mid: Db, after: Db)
    requires Timed(db, mid) && Timed(mid, after)
    ensures Timed(db, after)
  {
    forall i | 0 <= i < |after.events| ensures RowTimed(Was(db.events, i), after.events[i], db.calls, after.calls) {
      assert RowTimed(Was(mid.events, i), after.events[i], mid.calls, after.calls);
      if i < |mid.events| { assert RowTimed(Was(db.events, i), mid.events[i], db.calls, mid.calls); }
    }
  }

  /** Rows stay as they are while calls go by. */
  lemma TimedSame(db: Db, after: Db)
    requires after.events == db.events && db.calls <= after.calls
    ensures Timed(db, after)
  {
  }

  lemma ClosedTimed(db: Db, rule: Rule, tenant: Option<int>, bucket: Option<int>)
    ensures Timed(db, Closed(db, rule, tenant, bucket))
  {
  }

  lemma StoredTimed(db: Db, rule: Rule, tenant: Option<int>, bucket: Option<int>)
    ensures Timed(db, Stored(db, rule, tenant, bucket))
  {
  }

  lemma ClearTimed(db: Db, w: World, rule: Rule, tenant: Option<int>, bucket: Option<int>)
    ensures Timed(db, ClearOpen(db, w, rule, tenant, bucket).db)
  {
    var (after, closed) := (ClearOpen(db, w, rule, tenant, bucket).db, Closed(db, rule, tenant, bucket));
    ClosedTimed(db, rule, tenant, bucket);
    hide Timed, Closed;
    if w.faults(db.calls) == Fails {
      TimedSame(db, after);
    } else {
      TimedSame(closed, after);
      TimedThen(db, closed, after);
    }
  }

  lemma FireTimed(db: Db, w: World, rule: Rule, tenant: Option<int>, bucket: Option<int>)
    ensures Timed(db, EnsureOpen(db, w, rule, tenant, bucket).db)
  {
    var (after, stored) := (EnsureOpen(db, w, rule, tenant, bucket).db, Stored(Tick(db), rule, tenant, bucket));
    TimedSame(db, Tick(db));
    StoredTimed(Tick(db), rule, tenant, bucket);
    TimedThen(db, Tick(db), stored);
    hide Timed, Stored, HasOpen;
    if after.events == db.events {
      TimedSame(db, after);
    } else {
      TimedSame(stored, after);
      TimedThen(db, stored, after);
    }
  }

  lemma {:induction false} ExecTimed(db: Db, w: World, rule: Rule, ops: seq<Op>)
    ensures Timed(db, Exec(db, w, rule, ops).db)
    decreases |ops|
  {
    if ops == [] {
      TimedSame(db, db);
    } else {
      var o := Step(db, w, rule, ops[0]);
      if ops[0].Ensure? {
        FireTimed(db, w, rule, ops[0].tenant, ops[0].bucket);
      } else {
        ClearTimed(db, w, rule, ops[0].tenant, ops[0].bucket);
      }
      hide Timed, Step;
      if !o.failed {
        ExecTimed(o.db, w, rule, ops[1..]);
        TimedThen(db, o.db, Exec(o.db, w, rule, ops[1..]).db);
      }
    }
  }

  lemma SweepTimed(db: Db, w: World, rule: Rule, sweep: Sweep)
    ensures Timed(db, RunSweep(db, w, rule, sweep).db)
  {
    var ops := SweepOps(OpenByRule(db.events, rule.id), sweep);
    TimedSame(db, db);
    TimedSame(db, Tick(db));
    ExecTimed(Tick(db), w, rule, ops);
    TimedThen(db, Tick(db), Exec(Tick(db), w, rule, ops).db);
    hide Timed, Exec;
  }

  lemma EvalTimed(db: Db, w: World, rule: Rule)
    ensures Timed(db, EvalRule(db, w, rule).db)
  {
    var plan := PlanOf(w.readings, rule);
    var start := if plan.listing then Tick(db) else db;
    var a := Exec(start, w, rule, plan.ops);
    TimedSame(db, start);
    TimedSame(db, Tick(db));
    ExecTimed(start, w, rule, plan.ops);
    TimedThen(db, start, a.db);
    SweepTimed(a.db, w, rule, plan.sweep);
    TimedThen(db, a.db, RunSweep(a.db, w, rule, plan.sweep).db);
    hide Timed, Exec, RunSweep, PlanOf;
  }

  lemma {:induction false} RulesTimed(db: Db, w: World, rules: seq<Rule>)
    ensures Timed(db, RunRules(db, w, rules).db)
    decreases |rules|
  {
    if rules == [] {
      TimedSame(db, db);
    } else {
      var o := EvalRule(db, w, rules[0]);
      EvalTimed(db, w, rules[0]);
      hide Timed, EvalRule;
      if !o.failed {
        RulesTimed(o.db, w, rules[1..]);
        TimedThen(db, o.db, RunRules(o.db, w, rules[1..]).db);
      }
    }
  }

  /** In every history: an event that fires, is acknowledged or is resolved in some action says a time within it. */
  lemma ApplyTimed(db: Db, a: Action)
    ensures Timed(db, Apply(db, a))
  {
    if a.Evaluate? {
      var rules := EnabledRules(db.rules, db.nextRule);
      TimedSame(db, Tick(db));
      RulesTimed(Tick(db), a.w, rules);
      TimedThen(db, Tick(db), RunRules(Tick(db), a.w, rules).db);
      hide Timed, RunRules, EnabledRules;
    }
  }
}
