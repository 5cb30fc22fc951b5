/** When alerts are open after a run, said of the rows and numbers that were read and of nothing else. */
module AlertThresholds {
  import opened Common
  import opened AlertTable
  import opened AlertEval
  import opened AlertInvariants
  import opened AlertReconcile

  // ---------- used bytes ----------

  lemma {:induction false} UsedAppend(a: seq<string>, b: seq<string>, usage: map<string, int>)
    ensures UsedBytes(a + b, usage) == UsedBytes(a, usage) + UsedBytes(b, usage)
  {
    if a == [] {
      assert a + b == b;
    } else {
      UsedAppend(a[1..], b, usage);
      assert (a + b)[1..] == a[1..] + b;
    }
  }

  lemma UsedOne(name: string, usage: map<string, int>)
    ensures UsedBytes([name], usage) == if name in usage then usage[name] else 0
  {
    assert [name][1..] == [];
  }

  /** The last row of the report about a bucket. */
  ghost predicate LastRow(rows: seq<UsageRow>, i: int, name: string) {
    0 <= i < |rows| && rows[i].bucketName == name && forall j :: i < j < |rows| ==> rows[j].bucketName != name
  }

  /** A bucket is known when a row names it, and the last such row says how much it uses. */
  lemma {:induction false} LastRowDecides(rows: seq<UsageRow>, name: string)
    ensures name in UsageByName(rows) <==> exists i :: 0 <= i < |rows| && rows[i].bucketName == name
    ensures forall i ::
              LastRow(rows, i, name) ==> name in UsageByName(rows) && UsageByName(rows)[name] == rows[i].usedBytes
  {
    if rows != [] {
      var (front, last) := (rows[..|rows| - 1], rows[|rows| - 1]);
      LastRowDecides(front, name);
      assert rows == front + [last];
      assert last.bucketName == name ==> rows[|rows| - 1].bucketName == name;
      forall i | LastRow(rows, i, name)
        ensures name in UsageByName(rows) && UsageByName(rows)[name] == rows[i].usedBytes
      {
        if i < |front| { assert last.bucketName != name && LastRow(front, i, name); }
      }
    }
  }

  /** What the report says about one bucket; nothing said counts as zero. */
  ghost predicate Reports(rows: seq<UsageRow>, name: string, n: int) {
    || (exists i :: LastRow(rows, i, name) && n == rows[i].usedBytes)
    || (n == 0 && forall i :: 0 <= i < |rows| ==> rows[i].bucketName != name)
  }

  function Total(xs: seq<int>): int {
    if xs == [] then 0 else Total(xs[..|xs| - 1]) + xs[|xs| - 1]
  }

  /** `xs` are the bytes of the buckets granted to the tenant, one by one; none when its grants could not be read. */
  ghost predicate GrantedBytes(w: Readings, x: int, xs: seq<int>) {
    if x !in w.grants then xs == []
    else |xs| == |w.grants[x]| && forall i :: 0 <= i < |xs| ==> Reports(w.usage, w.grants[x][i], xs[i])
  }

  lemma ReportsOne(rows: seq<UsageRow>, name: string, n: int)
    ensures Reports(rows, name, n) <==> n == UsedBytes([name], UsageByName(rows))
  {
    UsedOne(name, UsageByName(rows));
    LastRowDecides(rows, name);
    if i :| 0 <= i < |rows| && rows[i].bucketName == name { ALastRow(rows, i, name); }
  }

  lemma ALastRow(rows: seq<UsageRow>, i: nat, name: string)
    requires i < |rows| && rows[i].bucketName == name
    ensures exists k :: LastRow(rows, k, name)
    decreases |rows| - i
  {
    if j :| i < j < |rows| && rows[j].bucketName == name {
      ALastRow(rows, j, name);
    } else {
      assert LastRow(rows, i, name);
    }
  }

  lemma {:induction false} UsedIsTotal(granted: seq<string>, rows: seq<UsageRow>, xs: seq<int>)
    requires |xs| == |granted| && forall i :: 0 <= i < |xs| ==> Reports(rows, granted[i], xs[i])
    ensures UsedBytes(granted, UsageByName(rows)) == Total(xs)
    decreases |xs|
  {
    if xs != [] {
      var n := |xs| - 1;
      UsedIsTotal(granted[..n], rows, xs[..n]);
      UsedAppend(granted[..n], [granted[n]], UsageByName(rows));
      ReportsOne(rows, granted[n], xs[n]);
      assert granted == granted[..n] + [granted[n]];
    }
  }

  /** The used bytes of a tenant are the sum over its granted buckets. */
  lemma TenantUsedIsTotal(w: Readings, t: TenantRow, xs: seq<int>)
    requires GrantedBytes(w, t.id, xs)
    ensures TenantUsed(w, t) == Total(xs)
  {
    if t.id in w.grants { UsedIsTotal(w.grants[t.id], w.usage, xs); }
  }

  // ---------- open alerts ----------

  /** The threshold set in the configuration of a rule, or its default. */
  ghost predicate Setting(rule: Rule, key: string, default: real, value: real) {
    (key in rule.config && value == rule.config[key]) || (key !in rule.config && value == default)
  }

  ghost predicate OpenFor(t: seq<Event>, rule: int, tenant: Option<int>, bucket: Option<int>) {
    exists i :: 0 <= i < |t| && t[i].ruleId == Some(rule) && t[i].status != Resolved
           && (tenant.Some? ==> t[i].tenantId == tenant) && (bucket.Some? ==> t[i].bucketId == bucket)
  }

  /** After an error-free run a tenant has an open quota alert exactly when it is listed as active with a positive quota
      of which the sum of the bytes of its granted buckets is at least the threshold. */
  lemma TenantAlertMeans(db: Db, w: World, rule: Rule, x: int, xs: seq<int>, threshold: real)
    requires RulesOk(db) && PrimaryKeys(w.readings) && !Run(db, w).out.failed
    requires rule.id in db.rules && db.rules[rule.id] == rule && rule.enabled && rule.ruleType == TenantQuotaExceeded
    requires w.readings.tenants.Some? && GrantedBytes(w.readings, x, xs)
    requires Setting(rule, "threshold_percent", 1.0, threshold)
    ensures var ts := w.readings.tenants.value;
            OpenFor(Run(db, w).out.db.events, rule.id, Some(x), None) <==>
              exists k :: 0 <= k < |ts| && ts[k].id == x && ts[k].status == "active"
                     && ts[k].quotaBytes.Some? && ts[k].quotaBytes.value > 0
                     && Total(xs) as real / ts[k].quotaBytes.value as real + 0.000000000001 >= threshold
  {
    var ts := w.readings.tenants.value;
    TenantsReconciled(db, w, rule, x);
    forall k | 0 <= k < |ts| && ts[k].id == x ensures TenantUsed(w.readings, ts[k]) == Total(xs) {
      TenantUsedIsTotal(w.readings, ts[k], xs);
    }
    hide Run, TenantUsed, Total;
    assert TenantHasOpen(Run(db, w).out.db.events, rule.id, x)
           <==> OpenFor(Run(db, w).out.db.events, rule.id, Some(x), None);
  }

  /** The same for a bucket, whose own row in the report decides, with 0.8 and 0.9 as defaults. */
  lemma BucketAlertMeans(db: Db, w: World, rule: Rule, x: int, threshold: real)
    requires RulesOk(db) && PrimaryKeys(w.readings) && !Run(db, w).out.failed
    requires rule.id in db.rules && db.rules[rule.id] == rule && rule.enabled
    requires rule.ruleType == BucketCapacity80 || rule.ruleType == BucketCapacity90
    requires w.readings.buckets.Some?
    requires Setting(rule, "threshold_percent", if rule.ruleType == BucketCapacity80 then 0.8 else 0.9, threshold)
    ensures var (bs, rows) := (w.readings.buckets.value, w.readings.usage);
            OpenFor(Run(db, w).out.db.events, rule.id, None, Some(x)) <==>
              exists k, i :: 0 <= k < |bs| && bs[k].id == x && bs[k].status == "active"
                        && LastRow(rows, i, bs[k].bucketName) && bs[k].quotaBytes.Some? && bs[k].quotaBytes.value > 0
                        && rows[i].usedBytes as real / bs[k].quotaBytes.value as real + 0.000000000001 >= threshold
  {
    var (bs, rows) := (w.readings.buckets.value, w.readings.usage);
    BucketsReconciled(db, w, rule, x);
    hide Run;
    assert BucketHasOpen(Run(db, w).out.db.events, rule.id, x)
           <==> OpenFor(Run(db, w).out.db.events, rule.id, None, Some(x));
    forall k | 0 <= k < |bs|
      ensures BucketConsidered(w.readings, bs[k]) && BucketOver(w.readings, rule, bs[k]) <==>
                bs[k].status == "active" && bs[k].quotaBytes.Some? && bs[k].quotaBytes.value > 0
                && exists i :: LastRow(rows, i, bs[k].bucketName)
                     && rows[i].usedBytes as real / bs[k].quotaBytes.value as real + 0.000000000001 >= threshold
    {
      LastRowDecides(rows, bs[k].bucketName);
      if i :| 0 <= i < |rows| && rows[i].bucketName == bs[k].bucketName { ALastRow(rows, i, bs[k].bucketName); }
    }
  }

  /** The 5xx rule, by the rate that was read. */
  lemma ErrorRateAlertMeans(db: Db, w: World, rule: Rule, threshold: real)
    requires RulesOk(db) && PrimaryKeys(w.readings) && !Run(db, w).out.failed
    requires rule.id in db.rules && db.rules[rule.id] == rule && rule.enabled && rule.ruleType == Rgw5xxRate
    requires Setting(rule, "error_rate", 0.05, threshold)
    ensures OpenFor(Run(db, w).out.db.events, rule.id, None, None) <==>
              w.readings.errorRate.Some? && w.readings.errorRate.value + 0.000000000001 >= threshold
  {
    PlatformReconciled(db, w, rule);
    hide Run;
    assert RuleHasOpen(Run(db, w).out.db.events, rule.id) <==> OpenFor(Run(db, w).out.db.events, rule.id, None, None);
  }

  /** The length of the window of an audit rule: whole minutes, 60 without a setting or for one below 1. */
  ghost predicate Window(rule: Rule, minutes: int) {
    if "window_minutes" !in rule.config || rule.config["window_minutes"] < 1.0 then minutes == 60
    else minutes as real <= rule.config["window_minutes"] < minutes as real + 1.0
  }

  /** The failure rules need something in the window, and the share of failures at the threshold. */
  lemma FailureAlertMeans(db: Db, w: World, rule: Rule, minutes: int, win: AuditWindow, threshold: real)
    requires RulesOk(db) && PrimaryKeys(w.readings) && !Run(db, w).out.failed
    requires rule.id in db.rules && db.rules[rule.id] == rule && rule.enabled
    requires rule.ruleType in {UploadFailureRate, DownloadFailureRate, EditSaveFailure, AuditWriteFailure}
    requires Window(rule, minutes) && w.readings.projectConfigured
    requires w.readings.audit(minutes, rule.ruleType) == Some(win) && Setting(rule, "failure_rate", 0.1, threshold)
    ensures OpenFor(Run(db, w).out.db.events, rule.id, None, None) <==>
              win.total > 0 && win.failures as real / win.total as real + 0.000000000001 >= threshold
  {
    WindowIs(rule, minutes);
    PlatformReconciled(db, w, rule);
    hide Run;
    assert RuleHasOpen(Run(db, w).out.db.events, rule.id) <==> OpenFor(Run(db, w).out.db.events, rule.id, None, None);
  }

  /** The threshold without its fraction. */
  ghost predicate WholePart(x: real, n: int) {
    if x >= 0.0 then n as real <= x < n as real + 1.0 else n as real - 1.0 < x <= n as real
  }

  /** The frequency rules need as many actions as the threshold without its fraction. */
  lemma CountAlertMeans(db: Db, w: World, rule: Rule, minutes: int, win: AuditWindow, threshold: real, count: int)
    requires RulesOk(db) && PrimaryKeys(w.readings) && !Run(db, w).out.failed
    requires rule.id in db.rules && db.rules[rule.id] == rule && rule.enabled
    requires rule.ruleType == FrequentDelete || rule.ruleType == FrequentDownload
    requires Window(rule, minutes) && w.readings.projectConfigured
    requires w.readings.audit(minutes, rule.ruleType) == Some(win) && Setting(rule, "count_threshold", 50.0, threshold)
    requires WholePart(threshold, count)
    ensures OpenFor(Run(db, w).out.db.events, rule.id, None, None) <==> win.total >= count
  {
    WindowIs(rule, minutes);
    PlatformReconciled(db, w, rule);
    hide Run;
    assert RuleHasOpen(Run(db, w).out.db.events, rule.id) <==> OpenFor(Run(db, w).out.db.events, rule.id, None, None);
  }

  lemma WindowIs(rule: Rule, minutes: int)
    requires Window(rule, minutes)
    ensures minutes == WindowMinutes(rule)
  {
  }
}
