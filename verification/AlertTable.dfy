/** The `alert_rules` and `alert_events` tables and the SQL statements run on them.
    An UPDATE is a row-by-row map over the table, an INSERT appends a row. */
module AlertTable {
  import opened Common

  datatype RuleType =
    | TenantQuotaExceeded
    | BucketCapacity80
    | BucketCapacity90
    | Rgw5xxRate
    | UploadFailureRate
    | DownloadFailureRate
    | FrequentDelete
    | FrequentDownload
    | EditSaveFailure
    | AuditWriteFailure
    | UnknownType(name: string)

  /** What the events of a rule are about. The evaluator skips `Nothing`. */
  datatype Subject = Tenants | Buckets | Platform | Nothing

  function SubjectOf(ruleType: RuleType): Subject {
    match ruleType
    case TenantQuotaExceeded => Tenants
    case BucketCapacity80 | BucketCapacity90 => Buckets
    case UnknownType(_) => Nothing
    case _ => Platform
  }

  /** `config` holds the numeric members of the JSON configuration. */
  datatype Rule = Rule(id: int, ruleType: RuleType, enabled: bool, notifyTenant: bool, config: map<string, real>)

  datatype Status = Firing | Acknowledged | Resolved

  datatype Event = Event(
    id: int,
    ruleId: Option<int>,
    ruleType: RuleType,
    status: Status,
    tenantId: Option<int>,
    bucketId: Option<int>,
    notifyTenant: bool,
    firedAt: nat,
    acknowledgedAt: Option<nat>,
    acknowledgedBy: Option<int>,
    resolvedAt: Option<nat>)

  predicate IsOpen(e: Event) {
    e.status == Firing || e.status == Acknowledged
  }

  /** The row selection of `HasOpenEvent`: a nil argument means IS NULL. */
  predicate KeyMatch(e: Event, rule: int, tenant: Option<int>, bucket: Option<int>) {
    e.ruleId == Some(rule) && IsOpen(e) && e.tenantId == tenant && e.bucketId == bucket
  }

  /** The row selection of `ResolveOpen`: a nil argument leaves the column unconstrained. */
  predicate AnyMatch(e: Event, rule: int, tenant: Option<int>, bucket: Option<int>) {
    e.ruleId == Some(rule) && IsOpen(e) && Covers(tenant, bucket, e.tenantId, e.bucketId)
  }

  predicate Covers(tenant: Option<int>, bucket: Option<int>, rowTenant: Option<int>, rowBucket: Option<int>) {
    (tenant.Some? ==> rowTenant == tenant) && (bucket.Some? ==> rowBucket == bucket)
  }

  predicate HasOpen(t: seq<Event>, rule: int, tenant: Option<int>, bucket: Option<int>) {
    exists i :: 0 <= i < |t| && KeyMatch(t[i], rule, tenant, bucket)
  }

  function Close(e: Event, now: nat): Event {
    e.(status := Resolved, resolvedAt := Some(now))
  }

  function CloseIf(e: Event, rule: int, tenant: Option<int>, bucket: Option<int>, now: nat): Event {
    if AnyMatch(e, rule, tenant, bucket) then Close(e, now) else e
  }

  function ResolveRows(t: seq<Event>, rule: int, tenant: Option<int>, bucket: Option<int>, now: nat): seq<Event> {
    seq(|t|, i requires 0 <= i < |t| => CloseIf(t[i], rule, tenant, bucket, now))
  }

  /** RowsAffected of the statement above. */
  function CountAny(t: seq<Event>, rule: int, tenant: Option<int>, bucket: Option<int>): nat {
    if t == [] then 0
    else
      var n := |t| - 1;
      CountAny(t[..n], rule, tenant, bucket) + if AnyMatch(t[n], rule, tenant, bucket) then 1 else 0
  }

  function CountResolved(t: seq<Event>): nat {
    if t == [] then 0
    else CountResolved(t[..|t| - 1]) + if IsOpen(t[|t| - 1]) then 0 else 1
  }

  function CountOpen(t: seq<Event>): nat {
    if t == [] then 0
    else CountOpen(t[..|t| - 1]) + if IsOpen(t[|t| - 1]) then 1 else 0
  }

  /** `WHERE rule_id=$1 AND status IN ('firing','acknowledged')` */
  function OpenByRule(t: seq<Event>, rule: int): seq<Event> {
    if t == [] then []
    else
      var n := |t| - 1;
      OpenByRule(t[..n], rule) + if t[n].ruleId == Some(rule) && IsOpen(t[n]) then [t[n]] else []
  }

  // ---------- the operator's single-row updates and the foreign keys ----------

  function AcknowledgeRow(e: Event, id: int, user: int, now: nat): Event {
    if e.id == id && e.status != Resolved
    then e.(status := Acknowledged, acknowledgedAt := Some(now), acknowledgedBy := Some(user))
    else e
  }

  function AcknowledgeRows(t: seq<Event>, id: int, user: int, now: nat): seq<Event> {
    seq(|t|, i requires 0 <= i < |t| => AcknowledgeRow(t[i], id, user, now))
  }

  function ResolveById(t: seq<Event>, id: int, now: nat): seq<Event> {
    seq(|t|, i requires 0 <= i < |t| => if t[i].id == id && t[i].status != Resolved then Close(t[i], now) else t[i])
  }

  /** ON DELETE SET NULL for `rule_id`, `tenant_id` and `bucket_id`. */
  function ForgetRule(t: seq<Event>, rule: int): seq<Event> {
    seq(|t|, i requires 0 <= i < |t| => if t[i].ruleId == Some(rule) then t[i].(ruleId := None) else t[i])
  }

  function ForgetTenant(t: seq<Event>, tenant: int): seq<Event> {
    seq(|t|, i requires 0 <= i < |t| => if t[i].tenantId == Some(tenant) then t[i].(tenantId := None) else t[i])
  }

  function ForgetBucket(t: seq<Event>, bucket: int): seq<Event> {
    seq(|t|, i requires 0 <= i < |t| => if t[i].bucketId == Some(bucket) then t[i].(bucketId := None) else t[i])
  }

  // ---------- what the single-row updates mean for the open keys ----------

  /** Status, key and resolution of every row are as before, up to firing against acknowledged. */
  ghost predicate SameOpenings(t: seq<Event>, u: seq<Event>) {
    |u| == |t| && forall i :: 0 <= i < |t| ==>
      && IsOpen(u[i]) == IsOpen(t[i]) && u[i].resolvedAt == t[i].resolvedAt
      && u[i].ruleId == t[i].ruleId && u[i].tenantId == t[i].tenantId && u[i].bucketId == t[i].bucketId
  }

  /** Every row but the open ones with this id is untouched. */
  ghost predicate OnlyOpenWithId(t: seq<Event>, u: seq<Event>, id: int) {
    |u| == |t| && forall i :: 0 <= i < |t| && (t[i].id != id || !IsOpen(t[i])) ==> u[i] == t[i]
  }

  lemma SameKeysOpen(t: seq<Event>, u: seq<Event>, rule: int, tenant: Option<int>, bucket: Option<int>)
    requires SameOpenings(t, u)
    ensures HasOpen(u, rule, tenant, bucket) <==> HasOpen(t, rule, tenant, bucket)
  {
    assert forall i ::
             0 <= i < |t|
             ==> (KeyMatch(u[i], rule, tenant, bucket) <==> KeyMatch(t[i], rule, tenant, bucket));
    if HasOpen(t, rule, tenant, bucket) {
      var i :| 0 <= i < |t| && KeyMatch(t[i], rule, tenant, bucket);
      assert KeyMatch(u[i], rule, tenant, bucket);
    }
  }

  /** A key is open after a manual resolve exactly when another event keeps it open. */
  lemma ResolveLeavesOpen(t: seq<Event>, id: int, now: nat, rule: int, tenant: Option<int>, bucket: Option<int>)
    ensures HasOpen(ResolveById(t, id, now), rule, tenant, bucket) <==>
              exists i :: 0 <= i < |t| && t[i].id != id && KeyMatch(t[i], rule, tenant, bucket)
  {
    var u := ResolveById(t, id, now);
    if HasOpen(u, rule, tenant, bucket) {
      var i :| 0 <= i < |u| && KeyMatch(u[i], rule, tenant, bucket);
      assert t[i].id != id && KeyMatch(t[i], rule, tenant, bucket);
    }
    if i :| 0 <= i < |t| && t[i].id != id && KeyMatch(t[i], rule, tenant, bucket) {
      assert KeyMatch(u[i], rule, tenant, bucket);
    }
  }

  /** After its rule is gone an event is open under no key of any rule; the keys of other rules are as before. */
  lemma ForgetRuleOpen(t: seq<Event>, id: int, rule: int, tenant: Option<int>, bucket: Option<int>)
    ensures HasOpen(ForgetRule(t, id), rule, tenant, bucket) <==> rule != id && HasOpen(t, rule, tenant, bucket)
  {
    var u := ForgetRule(t, id);
    if HasOpen(u, rule, tenant, bucket) {
      var i :| 0 <= i < |u| && KeyMatch(u[i], rule, tenant, bucket);
      assert KeyMatch(t[i], rule, tenant, bucket);
    }
    if rule != id && HasOpen(t, rule, tenant, bucket) {
      var i :| 0 <= i < |t| && KeyMatch(t[i], rule, tenant, bucket);
      assert KeyMatch(u[i], rule, tenant, bucket);
    }
  }

  // ---------- counting ----------

  lemma {:induction false} OpenPlusResolved(t: seq<Event>)
    ensures CountOpen(t) + CountResolved(t) == |t|
  {
    if t != [] { OpenPlusResolved(t[..|t| - 1]); }
  }

  lemma {:induction false} ResolveRowsCounts(t: seq<Event>, rule: int, tenant: Option<int>, bucket: Option<int>,
                                             now: nat)
    ensures CountResolved(ResolveRows(t, rule, tenant, bucket, now))
            == CountResolved(t) + CountAny(t, rule, tenant, bucket)
  {
    if t != [] {
      var n := |t| - 1;
      ResolveRowsCounts(t[..n], rule, tenant, bucket, now);
      assert ResolveRows(t, rule, tenant, bucket, now)[..n] == ResolveRows(t[..n], rule, tenant, bucket, now);
    }
  }

  lemma {:induction false} CountAnyZero(t: seq<Event>, rule: int, tenant: Option<int>, bucket: Option<int>)
    ensures CountAny(t, rule, tenant, bucket) == 0
            <==> forall i :: 0 <= i < |t| ==> !AnyMatch(t[i], rule, tenant, bucket)
  {
    if t != [] { CountAnyZero(t[..|t| - 1], rule, tenant, bucket); }
  }

  lemma ResolveNothing(t: seq<Event>, rule: int, tenant: Option<int>, bucket: Option<int>, now: nat)
    requires forall i :: 0 <= i < |t| ==> !AnyMatch(t[i], rule, tenant, bucket)
    ensures ResolveRows(t, rule, tenant, bucket, now) == t && CountAny(t, rule, tenant, bucket) == 0
  {
    CountAnyZero(t, rule, tenant, bucket);
    assert ResolveRows(t, rule, tenant, bucket, now) == t;
  }

  lemma {:induction false} OpenByRuleExact(t: seq<Event>, rule: int, e: Event)
    ensures e in OpenByRule(t, rule) <==> e in t && e.ruleId == Some(rule) && IsOpen(e)
  {
    if t != [] {
      OpenByRuleExact(t[..|t| - 1], rule, e);
      assert t == t[..|t| - 1] + [t[|t| - 1]];
    }
  }
}
