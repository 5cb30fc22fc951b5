/** What one evaluator run computes: each rule is turned into a plan (keys to fire, keys to clear,
    subjects to keep) and the plan is executed, call by call, against the tables.
    Comparisons of percentages and rates are on exact reals. */
module AlertEval {
  import opened Common
  import opened AlertTable
  import opened Fingerprints

  // ---------- state and surroundings ----------

  /** The status last sent to a tenant for one fingerprint. */
  datatype Mirrored = Mirrored(username: string, firing: bool)

  /** `calls` numbers every database statement and every tenant call; it also is the clock. */
  datatype Db = Db(
    rules: map<int, Rule>,
    nextRule: nat,
    events: seq<Event>,
    nextEvent: nat,
    calls: nat,
    mirror: map<string, Mirrored>)

  datatype TenantRow = TenantRow(id: int, status: string, quotaBytes: Option<int>)
  datatype BucketRow = BucketRow(id: int, bucketName: string, status: string, quotaBytes: Option<int>)
  datatype UsageRow = UsageRow(bucketName: string, usedBytes: int)
  datatype AuditWindow = AuditWindow(total: int, failures: int)

  /** Everything a run reads besides its own tables. `tenants` and `buckets` are None when that
      store is not configured, `grants` holds the grant lists that could be read, `errorRate` is
      None when no 5xx rate could be obtained, `audit` is None when the window could not be read. */
  datatype Readings = Readings(
    projectConfigured: bool,
    tenants: Option<seq<TenantRow>>,
    usernames: map<int, string>,
    grants: map<int, seq<string>>,
    usage: seq<UsageRow>,
    buckets: Option<seq<BucketRow>>,
    errorRate: Option<real>,
    audit: (int, RuleType) -> Option<AuditWindow>)

  /** The readings of one run, and the fate of every call by its number. */
  datatype World = World(readings: Readings, faults: nat -> Fault)

  const SLACK: real := 0.000000000001

  // ---------- thresholds ----------

  function ConfigNumber(rule: Rule, key: string, default: real): real {
    if key in rule.config then rule.config[key] else default
  }

  function UsageByName(rows: seq<UsageRow>): map<string, int> {
    if rows == [] then map[]
    else UsageByName(rows[..|rows| - 1])[rows[|rows| - 1].bucketName := rows[|rows| - 1].usedBytes]
  }

  function UsedBytes(granted: seq<string>, usage: map<string, int>): int {
    if granted == [] then 0
    else (if granted[0] in usage then usage[granted[0]] else 0) + UsedBytes(granted[1..], usage)
  }

  predicate HasQuota(quota: Option<int>) {
    quota.Some? && quota.value > 0
  }

  predicate OverThreshold(used: int, quota: Option<int>, threshold: real)
    requires HasQuota(quota)
  {
    used as real / quota.value as real + SLACK >= threshold
  }

  predicate TenantConsidered(t: TenantRow) {
    t.status == "active" && HasQuota(t.quotaBytes)
  }

  function TenantUsed(w: Readings, t: TenantRow): int {
    if t.id in w.grants then UsedBytes(w.grants[t.id], UsageByName(w.usage)) else 0
  }

  predicate TenantOver(w: Readings, rule: Rule, t: TenantRow)
    requires TenantConsidered(t)
  {
    OverThreshold(TenantUsed(w, t), t.quotaBytes, ConfigNumber(rule, "threshold_percent", 1.0))
  }

  predicate BucketConsidered(w: Readings, b: BucketRow) {
    b.status == "active" && b.bucketName in UsageByName(w.usage) && HasQuota(b.quotaBytes)
  }

  predicate BucketOver(w: Readings, rule: Rule, b: BucketRow)
    requires BucketConsidered(w, b)
  {
    OverThreshold(UsageByName(w.usage)[b.bucketName], b.quotaBytes,
      ConfigNumber(rule, "threshold_percent", if rule.ruleType == BucketCapacity90 then 0.9 else 0.8))
  }

  function WindowMinutes(rule: Rule): int {
    var n := Truncate(ConfigNumber(rule, "window_minutes", 60.0));
    if n < 1 then 60 else n
  }

  /** Only failures count for these types; the `frequent_*` types count every action. */
  predicate FailuresOnly(ruleType: RuleType) {
    ruleType != FrequentDelete && ruleType != FrequentDownload
  }

  predicate AuditOver(rule: Rule, win: AuditWindow) {
    if FailuresOnly(rule.ruleType)
    then win.total > 0 && win.failures as real / win.total as real + SLACK >= ConfigNumber(rule, "failure_rate", 0.1)
    else win.total >= Truncate(ConfigNumber(rule, "count_threshold", 50.0))
  }

  function AuditReading(w: Readings, rule: Rule): Option<AuditWindow> {
    if w.projectConfigured then w.audit(WindowMinutes(rule), rule.ruleType) else None
  }

  // ---------- plans ----------

  datatype Op =
    | Ensure(tenant: Option<int>, bucket: Option<int>)
    | Clear(tenant: Option<int>, bucket: Option<int>)

  /** The closing sweep: clear the open events whose (non-null) subject was not seen. */
  datatype Sweep = NoSweep | ByTenant(seen: set<int>) | ByBucket(seen: set<int>)

  /** `listing` says that the plan starts with a database read of its subjects. */
  datatype Plan = Plan(listing: bool, ops: seq<Op>, sweep: Sweep)

  function Decide(over: bool, tenant: Option<int>, bucket: Option<int>): Op {
    if over then Ensure(tenant, bucket) else Clear(tenant, bucket)
  }

  function TenantOps(w: Readings, rule: Rule, ts: seq<TenantRow>): seq<Op> {
    if ts == [] then []
    else
      (if TenantConsidered(ts[0]) then [Decide(TenantOver(w, rule, ts[0]), Some(ts[0].id), None)] else [])
      + TenantOps(w, rule, ts[1..])
  }

  function TenantsSeen(ts: seq<TenantRow>): set<int> {
    if ts == [] then {}
    else (if TenantConsidered(ts[0]) then {ts[0].id} else {}) + TenantsSeen(ts[1..])
  }

  function BucketOps(w: Readings, rule: Rule, bs: seq<BucketRow>): seq<Op> {
    if bs == [] then []
    else
      (if BucketConsidered(w, bs[0]) then [Decide(BucketOver(w, rule, bs[0]), None, Some(bs[0].id))] else [])
      + BucketOps(w, rule, bs[1..])
  }

  function BucketsSeen(w: Readings, bs: seq<BucketRow>): set<int> {
    if bs == [] then {}
    else (if BucketConsidered(w, bs[0]) then {bs[0].id} else {}) + BucketsSeen(w, bs[1..])
  }

  function PlatformOps(w: Readings, rule: Rule): seq<Op> {
    if rule.ruleType == Rgw5xxRate then
      [Decide(w.errorRate.Some? && w.errorRate.value + SLACK >= ConfigNumber(rule, "error_rate", 0.05), None, None)]
    else
      var win := AuditReading(w, rule);
      if win.None? then [] else [Decide(AuditOver(rule, win.value), None, None)]
  }

  function PlanOf(w: Readings, rule: Rule): Plan {
    match SubjectOf(rule.ruleType)
    case Tenants =>
      if w.tenants.None? then Plan(false, [], NoSweep)
      else Plan(true, TenantOps(w, rule, w.tenants.value), ByTenant(TenantsSeen(w.tenants.value)))
    case Buckets =>
      if w.buckets.None? then Plan(false, [], NoSweep)
      else Plan(true, BucketOps(w, rule, w.buckets.value), ByBucket(BucketsSeen(w, w.buckets.value)))
    case Platform => Plan(false, PlatformOps(w, rule), NoSweep)
    case Nothing => Plan(false, [], NoSweep)
  }

  predicate Unseen(e: Event, sweep: Sweep) {
    match sweep
    case NoSweep => false
    case ByTenant(seen) => e.tenantId.Some? && e.tenantId.value !in seen
    case ByBucket(seen) => e.bucketId.Some? && e.bucketId.value !in seen
  }

  function SweepOps(open: seq<Event>, sweep: Sweep): seq<Op> {
    if open == [] then []
    else
      (if Unseen(open[0], sweep) then [Clear(open[0].tenantId, open[0].bucketId)] else [])
      + SweepOps(open[1..], sweep)
  }

  // ---------- execution ----------

  datatype Out = Out(db: Db, created: nat, resolved: nat, failed: bool)

  function Plus(created: nat, resolved: nat, o: Out): Out {
    o.(created := created + o.created, resolved := resolved + o.resolved)
  }

  function Tick(db: Db): Db {
    db.(calls := db.calls + 1)
  }

  /** Best effort: a failing look-up or a failing PUT is ignored. */
  function Project(db: Db, w: World, rule: Rule, tenant: Option<int>, bucket: Option<int>, firing: bool): Db {
    if !w.readings.projectConfigured || !rule.notifyTenant || tenant.None? || w.readings.tenants.None? then db
    else
      var looked := Tick(db);
      if w.faults(db.calls) != Fine || tenant.value !in w.readings.usernames
         || w.readings.usernames[tenant.value] == "" then looked
      else if w.faults(looked.calls) == Fails then Tick(looked)
      else
        var sent := Mirrored(w.readings.usernames[tenant.value], firing);
        Tick(looked).(mirror := looked.mirror[Fingerprint(rule.id, tenant, bucket) := sent])
  }

  function NewEvent(id: int, rule: Rule, tenant: Option<int>, bucket: Option<int>, now: nat): Event {
    Event(id, Some(rule.id), rule.ruleType, Firing, tenant, bucket, rule.notifyTenant, now, None, None, None)
  }

  /** The INSERT takes effect. */
  function Stored(db: Db, rule: Rule, tenant: Option<int>, bucket: Option<int>): Db {
    Tick(db).(nextEvent := db.nextEvent + 1,
              events := db.events + [NewEvent(db.nextEvent, rule, tenant, bucket, db.calls)])
  }

  /** The closing UPDATE takes effect. */
  function Closed(db: Db, rule: Rule, tenant: Option<int>, bucket: Option<int>): Db {
    Tick(db).(events := ResolveRows(db.events, rule.id, tenant, bucket, db.calls))
  }

  /** INSERT ... RETURNING id, then a read of the new row. A failed INSERT still uses up an id. */
  function Insert(db: Db, w: World, rule: Rule, tenant: Option<int>, bucket: Option<int>): Out {
    if w.faults(db.calls) == Fails then Out(Tick(db).(nextEvent := db.nextEvent + 1), 0, 0, true)
    else
      var stored := Stored(db, rule, tenant, bucket);
      if w.faults(db.calls) == LostReply then Out(stored, 0, 0, true)
      else Out(Tick(stored), 0, 0, w.faults(stored.calls) != Fine)
  }

  function EnsureOpen(db: Db, w: World, rule: Rule, tenant: Option<int>, bucket: Option<int>): Out {
    if w.faults(db.calls) != Fine then Out(Tick(db), 0, 0, true)
    else if HasOpen(db.events, rule.id, tenant, bucket) then Out(Tick(db), 0, 0, false)
    else
      var ins := Insert(Tick(db), w, rule, tenant, bucket);
      if ins.failed then ins else Out(Project(ins.db, w, rule, tenant, bucket, true), 1, 0, false)
  }

  function ClearOpen(db: Db, w: World, rule: Rule, tenant: Option<int>, bucket: Option<int>): Out {
    if w.faults(db.calls) == Fails then Out(Tick(db), 0, 0, true)
    else
      var closed := Closed(db, rule, tenant, bucket);
      var n := CountAny(db.events, rule.id, tenant, bucket);
      if w.faults(db.calls) == LostReply then Out(closed, 0, 0, true)
      else Out(if n > 0 then Project(closed, w, rule, tenant, bucket, false) else closed, 0, n, false)
  }

  function Step(db: Db, w: World, rule: Rule, op: Op): Out {
    match op
    case Ensure(tenant, bucket) => EnsureOpen(db, w, rule, tenant, bucket)
    case Clear(tenant, bucket) => ClearOpen(db, w, rule, tenant, bucket)
  }

  function Exec(db: Db, w: World, rule: Rule, ops: seq<Op>): Out
    decreases |ops|
  {
    if ops == [] then Out(db, 0, 0, false)
    else
      var o := Step(db, w, rule, ops[0]);
      if o.failed then o else Plus(o.created, o.resolved, Exec(o.db, w, rule, ops[1..]))
  }

  /** Its counts are dropped by the caller when it fails. */
  function RunSweep(db: Db, w: World, rule: Rule, sweep: Sweep): Out {
    if sweep == NoSweep then Out(db, 0, 0, false)
    else if w.faults(db.calls) != Fine then Out(Tick(db), 0, 0, true)
    else Exec(Tick(db), w, rule, SweepOps(OpenByRule(db.events, rule.id), sweep))
  }

  function ExecPlan(db: Db, w: World, rule: Rule, plan: Plan): Out {
    if plan.listing && w.faults(db.calls) != Fine then Out(Tick(db), 0, 0, true)
    else
      var a := Exec(if plan.listing then Tick(db) else db, w, rule, plan.ops);
      if a.failed then a
      else
        var s := RunSweep(a.db, w, rule, plan.sweep);
        if s.failed then Out(s.db, a.created, a.resolved, true) else Plus(a.created, a.resolved, s)
  }

  function EvalRule(db: Db, w: World, rule: Rule): Out {
    ExecPlan(db, w, rule, PlanOf(w.readings, rule))
  }

  function RunRules(db: Db, w: World, rules: seq<Rule>): Out
    decreases |rules|
  {
    if rules == [] then Out(db, 0, 0, false)
    else
      var o := EvalRule(db, w, rules[0]);
      if o.failed then Out(o.db, 0, 0, true) else Plus(o.created, o.resolved, RunRules(o.db, w, rules[1..]))
  }

  /** `SELECT ... FROM alert_rules WHERE enabled ORDER BY id` */
  function EnabledRules(rules: map<int, Rule>, below: nat): seq<Rule> {
    if below == 0 then []
    else
      EnabledRules(rules, below - 1)
      + if below - 1 in rules && rules[below - 1].enabled then [rules[below - 1]] else []
  }

  datatype RunOut = RunOut(out: Out, evaluated: nat)

  function Run(db: Db, w: World): RunOut {
    if w.faults(db.calls) != Fine then RunOut(Out(Tick(db), 0, 0, true), 0)
    else
      var rules := EnabledRules(db.rules, db.nextRule);
      RunOut(RunRules(Tick(db), w, rules), |rules|)
  }
}
