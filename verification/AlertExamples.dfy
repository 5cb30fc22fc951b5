/** Histories from the empty tables that show each exception of the alert models on concrete input. */
module AlertExamples {
  import opened Common
  import opened AlertTable
  import opened AlertEval
  import opened AlertInvariants
  import opened AlertReconcile
  import opened AlertThresholds
  import opened AlertMachine
  import opened AlertMirror
  import opened AlertKeys

  /** Two tenants that both hold the bucket x, which fills their quota of 10 bytes. */
  const FULL: Readings := Readings(
    true,
    Some([TenantRow(1, "active", Some(10)), TenantRow(2, "active", Some(10))]),
    map[1 := "a", 2 := "b"],
    map[1 := ["x"], 2 := ["x"]],
    [UsageRow("x", 10)],
    None,
    None,
    (minutes: int, ruleType: RuleType) => None)

  const ADD: Action := AddRule(TenantQuotaExceeded, true, true, map[])
  const RULE: Rule := Rule(1, TenantQuotaExceeded, true, true, map[])

  function Firing(faults: nat -> Fault): seq<Action> {
    [ADD, Evaluate(World(FULL, faults))]
  }

  /** A rule, then one run on two full tenants in which every call succeeds. */
  function FaultFree(): (actions: seq<Action>) {
    Firing(k => Fine)
  }

  lemma RuleAdded()
    ensures History(EMPTY, [ADD]) == Db(map[1 := RULE], 2, [], 1, 1, map[])
  {
    assert [ADD][..0] == [] && History(EMPTY, []) == EMPTY;
  }

  lemma Fired(faults: nat -> Fault)
    ensures History(EMPTY, Firing(faults)) == Run(History(EMPTY, [ADD]), World(FULL, faults)).out.db
  {
    assert Firing(faults)[..1] == [ADD];
  }

  lemma OneRule()
    ensures EnabledRules(map[1 := RULE], 2) == [RULE]
  {
    assert EnabledRules(map[1 := RULE], 0) == [] && EnabledRules(map[1 := RULE], 1) == [];
  }

  /** Both tenants are over their quota. */
  lemma BothSelected(x: int)
    requires x == 1 || x == 2
    ensures PrimaryKeys(FULL) && TenantSelected(FULL, RULE, x)
  {
    var ts := FULL.tenants.value;
    var t := ts[x - 1];
    assert [UsageRow("x", 10)][..0] == [];
    assert UsageByName(FULL.usage) == map["x" := 10];
    assert ["x"][1..] == [];
    assert UsedBytes(["x"], map["x" := 10]) == 10;
    assert TenantUsed(FULL, t) == 10;
    assert 10 as real / 10 as real == 1.0;
    assert TenantOver(FULL, RULE, t);
  }

  lemma StartsInStep()
    ensures var db := History(EMPTY, [ADD]); Inv(db) && MirrorOk(db)
  {
    RuleAdded();
  }

  /** After the fault-free run both tenants have an open event and know of it. */
  lemma BothOpen(x: int)
    requires x == 1 || x == 2
    ensures var db := History(EMPTY, FaultFree());
            && Inv(db) && MirrorOk(db) && db.rules == map[1 := RULE]
            && HasOpen(db.events, 1, Some(x), None)
  {
    var (before, w, db) := (History(EMPTY, [ADD]), World(FULL, k => Fine), History(EMPTY, FaultFree()));
    RuleAdded();
    Fired(k => Fine);
    StartsInStep();
    BothSelected(x);
    RunMirrors(before, w);
    FineRunSucceeds(before, w);
    TenantsReconciled(before, w, RULE, x);
    RunInv(before, w);
    hide Run, MirrorOk, History;
    TenantKeyOpen(db, x);
  }

  lemma TenantKeyOpen(db: Db, x: int)
    requires Inv(db) && db.rules == map[1 := RULE] && TenantHasOpen(db.events, 1, x)
    ensures HasOpen(db.events, 1, Some(x), None)
  {
    var i :| 0 <= i < |db.events| && db.events[i].ruleId == Some(1) && IsOpen(db.events[i])
             && db.events[i].tenantId == Some(x);
    assert RowOk(db.events[i], db);
    HasOpenAt(db.events, i, 1, Some(x), None);
  }

  lemma BothDropped(db: Db, x: int, y: int)
    requires x != y && HasOpen(db.events, 1, Some(x), None) && HasOpen(db.events, 1, Some(y), None)
    ensures !UniqueOpen(Apply(Apply(db, DropTenant(x)), DropTenant(y)).events)
  {
    var after := Apply(Apply(db, DropTenant(x)), DropTenant(y));
    hide UniqueOpen;
    MergedPair(db.events, after.events, 1, Some(x), None, Some(y), None, None, None);
  }

  lemma NotUnique(actions: seq<Action>)
    requires !UniqueOpen(History(EMPTY, actions).events)
    ensures !NeverMerges(actions)
  {
    hide UniqueOpen, NeverMerges, History;
    UniqueExactly(actions);
    assert actions[..|actions|] == actions;
  }

  /** Deleting both tenants leaves two open events on the all-null key of the rule. */
  lemma TwoDeletionsMerge()
    ensures var actions := FaultFree() + [DropTenant(1), DropTenant(2)];
            !UniqueOpen(History(EMPTY, actions).events) && !NeverMerges(actions)
  {
    hide UniqueOpen, NeverMerges, History, FaultFree, HasOpen, Apply, MirrorOk;
    var (fired, one) := (FaultFree(), DropTenant(1));
    var actions := fired + [one, DropTenant(2)];
    BothOpen(1);
    BothOpen(2);
    BothDropped(History(EMPTY, fired), 1, 2);
    HistoryNext(EMPTY, fired, one);
    HistoryNext(EMPTY, fired + [one], DropTenant(2));
    assert actions == fired + [one] + [DropTenant(2)];
    NotUnique(actions);
  }

  /** Resolving one of these events by hand leaves its tenant with a firing alert. */
  lemma ResolvedByHand()
    ensures exists id :: !MirrorOk(History(EMPTY, FaultFree() + [ResolveEvent(id)]))
  {
    var db := History(EMPTY, FaultFree());
    BothOpen(1);
    var i :| 0 <= i < |db.events| && KeyMatch(db.events[i], 1, Some(1), None);
    var id := db.events[i].id;
    ManualResolve(db, id);
    assert ToldTenant(db, db.events[i]);
    assert (FaultFree() + [ResolveEvent(id)])[..2] == FaultFree();
    assert History(EMPTY, FaultFree() + [ResolveEvent(id)]) == Apply(db, ResolveEvent(id));
  }

  /** The read-back of the first new event fails: call 5, after the two listings, the check and the INSERT. */
  function LostReadBack(): seq<Action> {
    Firing(k => if k == 5 then Fails else Fine)
  }

  /** The event is open, its tenant is not told, and a later run without any fault does not tell it either. */
  lemma NeverAnnounced()
    ensures var actions := LostReadBack() + [Evaluate(World(FULL, k => Fine))];
            !MirrorOk(History(EMPTY, LostReadBack())) && !MirrorOk(History(EMPTY, actions))
  {
    var f: nat -> Fault := k => if k == 5 then Fails else Fine;
    var (before, w, op) := (History(EMPTY, [ADD]), World(FULL, f), Ensure(Some(1), None));
    var (db, actions) := (History(EMPTY, LostReadBack()), LostReadBack() + [Evaluate(World(FULL, k => Fine))]);
    RuleAdded();
    Fired(f);
    OneRule();
    StartsInStep();
    BothSelected(1);
    FirstStep(f);
    BehindNow(db, op);
    assert actions[..2] == LostReadBack() && History(EMPTY, actions) == Run(db, World(FULL, k => Fine)).out.db;
    hide History, MirrorOk, Silent, Inv;
    LaterSilent(db, World(FULL, k => Fine));
    BehindNow(History(EMPTY, actions), op);
  }

  lemma LaterSilent(db: Db, w: World)
    requires Inv(db) && db.rules == map[1 := RULE] && w.readings == FULL && Silent(db, 1, Ensure(Some(1), None))
    ensures var after := Run(db, w).out.db;
            after.rules == db.rules && Silent(after, 1, Ensure(Some(1), None))
  {
    BothSelected(1);
    StaysSilent(db, w, RULE, 1);
    RunInv(db, w);
  }

  lemma BehindNow(db: Db, op: Op)
    requires op.tenant.Some? && Silent(db, 1, op) && db.rules == map[1 := RULE]
    ensures !MirrorOk(db)
  {
    SilentIsBehind(db, 1, op);
    BehindBreaks(db, 1);
  }

  lemma StepSilent(start: Db, w: World)
    requires MirrorOk(start) && start.rules == map[1 := RULE]
    requires start.calls == 3 && start.events == [] && forall k :: w.faults(k) == if k == 5 then Fails else Fine
    ensures var o := Step(start, w, RULE, Ensure(Some(1), None));
            o.failed && Silent(o.db, 1, Ensure(Some(1), None))
  {
    assert !HasOpen(start.events, 1, Some(1), None) && !FireTold(w, RULE, 1, 3);
    assert QuotaRule(start, 1) && InStep(start, 1, 1);
    FireExact(start, w, RULE, 1);
  }

  /** The run ends at its first operation. */
  lemma FirstStep(f: nat -> Fault)
    requires forall k :: f(k) == if k == 5 then Fails else Fine
    ensures var db := History(EMPTY, Firing(f));
            Inv(db) && db.rules == map[1 := RULE] && Silent(db, 1, Ensure(Some(1), None))
  {
    var (before, w, op) := (History(EMPTY, [ADD]), World(FULL, f), Ensure(Some(1), None));
    RuleAdded();
    Fired(f);
    OneRule();
    StartsInStep();
    RunInv(before, w);
    FirstOp();
    var start := Tick(Tick(before));
    TickMirror(before);
    TickMirror(Tick(before));
    StepSilent(start, w);
    hide Step, Silent, Inv, MirrorOk, PlanOf, History;
    var o := Step(start, w, RULE, op);
    assert EvalRule(Tick(before), w, RULE) == o;
  }

  lemma FirstOp()
    ensures var ops := PlanOf(FULL, RULE).ops; ops != [] && ops[0] == Ensure(Some(1), None)
  {
    BothSelected(1);
    OverAtFirst();
  }

  lemma OverAtFirst()
    ensures var t := FULL.tenants.value[0]; TenantConsidered(t) && TenantOver(FULL, RULE, t)
  {
    BothSelected(1);
  }

  // ---------- a usage report that is lost ----------

  /** One bucket that fills its quota of 10 bytes. */
  const FILLED: Readings := FULL.(buckets := Some([BucketRow(7, "x", "active", Some(10))]))

  const CAPACITY: Rule := Rule(1, BucketCapacity80, true, true, map[])

  /** A capacity rule, a run that sees the bucket full, and one that gets no usage report; every call succeeds. */
  function ReportLost(): seq<Action> {
    [AddRule(BucketCapacity80, true, true, map[]), Evaluate(World(FILLED, k => Fine)),
     Evaluate(World(FILLED.(usage := []), k => Fine))]
  }

  lemma BucketFull()
    ensures PrimaryKeys(FILLED) && BucketSelected(FILLED, CAPACITY, 7)
  {
    var b := FILLED.buckets.value[0];
    assert [UsageRow("x", 10)][..0] == [];
    assert UsageByName(FILLED.usage) == map["x" := 10];
    assert 10 as real / 10 as real == 1.0;
    assert BucketOver(FILLED, CAPACITY, b);
  }

  lemma CapacityAdded()
    ensures History(EMPTY, ReportLost()[..1]) == Db(map[1 := CAPACITY], 2, [], 1, 1, map[])
  {
    var a := ReportLost()[..1];
    assert a[..0] == [] && a[0].AddRule? && History(EMPTY, []) == EMPTY;
  }

  /** The run without a report closes the alert of a bucket that is still full. */
  lemma FullBucketClosed()
    ensures var (open, closed) := (History(EMPTY, ReportLost()[..2]), History(EMPTY, ReportLost()));
            && BucketSelected(FILLED, CAPACITY, 7)
            && BucketHasOpen(open.events, 1, 7) && !BucketHasOpen(closed.events, 1, 7)
  {
    var a := ReportLost();
    var (added, w, w1) := (History(EMPTY, a[..1]), World(FILLED, k => Fine), World(FILLED.(usage := []), k => Fine));
    CapacityAdded();
    assert a[..2][..1] == a[..1];
    BucketFull();
    FineRunSucceeds(added, w);
    BucketsReconciled(added, w, CAPACITY, 7);
    var open := History(EMPTY, a[..2]);
    assert open == Run(added, w).out.db;
    RulesRunKeepsRules(Tick(added), w, EnabledRules(added.rules, added.nextRule));
    FineRunSucceeds(open, w1);
    NoUsageClosesBuckets(open, w1, CAPACITY, 7);
  }

  // ---------- a quota that two buckets fill together ----------

  /** A tenant with a quota of 10 bytes for the buckets x and y. */
  const SHARED: Readings := Readings(
    true,
    Some([TenantRow(1, "active", Some(10))]),
    map[1 := "a"],
    map[1 := ["x", "y"]],
    [],
    None,
    None,
    (minutes: int, ruleType: RuleType) => None)

  /** A rule, then one run on this report in which every call succeeds. */
  function Reported(rows: seq<UsageRow>): seq<Action> {
    [ADD, Evaluate(World(SHARED.(usage := rows), k => Fine))]
  }

  lemma ReportedRun(rows: seq<UsageRow>, xs: seq<int>)
    requires GrantedBytes(SHARED.(usage := rows), 1, xs)
    ensures OpenFor(History(EMPTY, Reported(rows)).events, 1, Some(1), None) <==> Total(xs) >= 10
  {
    var (before, w) := (History(EMPTY, [ADD]), World(SHARED.(usage := rows), k => Fine));
    RuleAdded();
    assert Reported(rows)[..1] == [ADD];
    FineRunSucceeds(before, w);
    TenantAlertMeans(before, w, RULE, 1, xs, 1.0);
    assert SHARED.tenants.value[0] == TenantRow(1, "active", Some(10));
    hide Run, Total;
    assert Total(xs) as real / 10 as real + 0.000000000001 >= 1.0 <==> Total(xs) >= 10;
  }

  /** Six bytes in each bucket fill it, six bytes in one of them do not. */
  lemma FilledTogether()
    ensures var (x, y) := (UsageRow("x", 6), UsageRow("y", 6));
            && OpenFor(History(EMPTY, Reported([x, y])).events, 1, Some(1), None)
            && !OpenFor(History(EMPTY, Reported([x])).events, 1, Some(1), None)
            && !OpenFor(History(EMPTY, Reported([y])).events, 1, Some(1), None)
  {
    var (x, y) := (UsageRow("x", 6), UsageRow("y", 6));
    assert LastRow([x, y], 0, "x") && LastRow([x, y], 1, "y") && LastRow([x], 0, "x") && LastRow([y], 0, "y");
    Totals();
    ReportedRun([x, y], [6, 6]);
    ReportedRun([x], [6, 0]);
    ReportedRun([y], [0, 6]);
  }

  lemma Totals()
    ensures Total([6, 6]) == 12 && Total([6, 0]) == 6 && Total([0, 6]) == 6
  {
    assert [6, 6][..1] == [6] && [6, 0][..1] == [6] && [0, 6][..1] == [0];
    assert [6][..0] == [] && [0][..0] == [];
  }
}
