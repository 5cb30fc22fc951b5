/** The alert store and the evaluator as objects that update their tables in place,
    proved against the run specified in `AlertEval`. */
module AlertService {
  import opened Common
  import opened AlertTable
  import opened Fingerprints
  import opened AlertEval
  import opened AlertInvariants
  import opened AlertReconcile
  import opened AlertMachine

  // ---------- the two WHERE clauses, built step by step ----------

  /** One condition on a row; `n` is the number of its placeholder. */
  datatype Cond =
    | RuleIs(n: nat)
    | StatusOpen
    | TenantIs(n: nat)
    | TenantIsNull
    | BucketIs(n: nat)
    | BucketIsNull

  function Arg(args: seq<int>, n: nat): Option<int> {
    if 1 <= n <= |args| then Some(args[n - 1]) else None
  }

  /** A comparison with a NULL column or a missing argument selects nothing. */
  predicate Holds(c: Cond, args: seq<int>, e: Event) {
    match c
    case RuleIs(n) => e.ruleId.Some? && e.ruleId == Arg(args, n)
    case StatusOpen => IsOpen(e)
    case TenantIs(n) => e.tenantId.Some? && e.tenantId == Arg(args, n)
    case TenantIsNull => e.tenantId.None?
    case BucketIs(n) => e.bucketId.Some? && e.bucketId == Arg(args, n)
    case BucketIsNull => e.bucketId.None?
  }

  predicate Selects(conds: seq<Cond>, args: seq<int>, e: Event) {
    forall i :: 0 <= i < |conds| ==> Holds(conds[i], args, e)
  }

  lemma SelectsAppend(conds: seq<Cond>, args: seq<int>, c: Cond, e: Event)
    ensures Selects(conds + [c], args, e) <==> Selects(conds, args, e) && Holds(c, args, e)
  {
    assert (conds + [c])[|conds|] == c;
    assert forall i :: 0 <= i < |conds| ==> (conds + [c])[i] == conds[i];
  }

  method HasOpenQuery(rule: int, tenant: Option<int>, bucket: Option<int>) returns (conds: seq<Cond>, args: seq<int>)
    ensures forall e :: Selects(conds, args, e) <==> KeyMatch(e, rule, tenant, bucket)
  {
    conds, args := [RuleIs(1), StatusOpen], [rule];
    var n := 2;
    if tenant.Some? {
      conds, args := conds + [TenantIs(n)], args + [tenant.value];
      n := n + 1;
    } else {
      conds := conds + [TenantIsNull];
    }
    if bucket.Some? {
      conds, args := conds + [BucketIs(n)], args + [bucket.value];
    } else {
      conds := conds + [BucketIsNull];
    }
    forall e ensures Selects(conds, args, e) <==> KeyMatch(e, rule, tenant, bucket) {
      assert conds == [conds[0], conds[1], conds[2]] + [conds[3]];
      SelectsAppend([conds[0], conds[1], conds[2]], args, conds[3], e);
      assert [conds[0], conds[1], conds[2]] == [conds[0], conds[1]] + [conds[2]];
      SelectsAppend([conds[0], conds[1]], args, conds[2], e);
      SelectsAppend([conds[0]], args, conds[1], e);
      assert Selects([conds[0]], args, e) <==> Holds(conds[0], args, e);
    }
  }

  method ResolveOpenQuery(rule: int, tenant: Option<int>, bucket: Option<int>)
    returns (conds: seq<Cond>, args: seq<int>)
    ensures forall e :: Selects(conds, args, e) <==> AnyMatch(e, rule, tenant, bucket)
  {
    conds, args := [RuleIs(1), StatusOpen], [rule];
    forall e ensures Selects(conds, args, e) <==> Holds(RuleIs(1), args, e) && Holds(StatusOpen, args, e) {
      assert Selects(conds, args, e) <==> Holds(conds[0], args, e) && Holds(conds[1], args, e);
    }
    ghost var base := conds;
    var n := 2;
    if tenant.Some? {
      conds, args := conds + [TenantIs(n)], args + [tenant.value];
      n := n + 1;
    }
    ghost var mid := conds;
    if bucket.Some? {
      conds, args := conds + [BucketIs(n)], args + [bucket.value];
    }
    forall e ensures Selects(conds, args, e) <==> AnyMatch(e, rule, tenant, bucket) {
      if bucket.Some? { SelectsAppend(mid, args, BucketIs(n), e); }
      if tenant.Some? { SelectsAppend(base, args, TenantIs(2), e); }
      assert Selects(base, args, e) <==> Holds(base[0], args, e) && Holds(base[1], args, e);
    }
  }

  // ---------- the store ----------

  class Store {
    var rules: map<int, Rule>
    var nextRule: nat
    var events: seq<Event>
    var nextEvent: nat
    var calls: nat
    const faults: nat -> Fault

    constructor (faults: nat -> Fault)
      ensures rules == map[] && events == [] && nextRule == 1 && nextEvent == 1 && calls == 0
      ensures this.faults == faults
    {
      rules, nextRule, events, nextEvent, calls := map[], 1, [], 1, 0;
      this.faults := faults;
    }

    ghost function Tables(mirror: map<string, Mirrored>): Db
      reads this
    {
      Db(rules, nextRule, events, nextEvent, calls, mirror)
    }

    method ListEnabledRules() returns (listed: seq<Rule>, failed: bool)
      modifies this`calls
      ensures calls == old(calls) + 1 && failed == (faults(old(calls)) != Fine)
      ensures !failed ==> listed == EnabledRules(rules, nextRule)
    {
      calls := calls + 1;
      listed, failed := [], faults(calls - 1) != Fine;
      if failed { return; }
      var id := 0;
      while id < nextRule
        invariant 0 <= id <= nextRule && listed == EnabledRules(rules, id)
      {
        if id in rules && rules[id].enabled { listed := listed + [rules[id]]; }
        id := id + 1;
      }
    }

    method HasOpenEvent(rule: int, tenant: Option<int>, bucket: Option<int>) returns (open: bool, failed: bool)
      modifies this`calls
      ensures calls == old(calls) + 1 && failed == (faults(old(calls)) != Fine)
      ensures !failed ==> open == HasOpen(events, rule, tenant, bucket)
    {
      var conds, args := HasOpenQuery(rule, tenant, bucket);
      calls := calls + 1;
      failed := faults(calls - 1) != Fine;
      open := exists i :: 0 <= i < |events| && Selects(conds, args, events[i]);
    }

    method InsertEvent(rule: Rule, tenant: Option<int>, bucket: Option<int>) returns (failed: bool)
      modifies this`events, this`nextEvent, this`calls
      ensures forall w: World, m :: w.faults == faults ==>
                Insert(old(Tables(m)), w, rule, tenant, bucket) == Out(Tables(m), 0, 0, failed)
      ensures events == old(events) || (|events| == |old(events)| + 1 && events[..|old(events)|] == old(events))
      ensures !failed ==> |events| == |old(events)| + 1
      ensures |events| > |old(events)| ==>
                var e := events[|old(events)|];
                && e.id == old(nextEvent) && e.ruleId == Some(rule.id) && e.ruleType == rule.ruleType
                && e.status == Firing && e.tenantId == tenant && e.bucketId == bucket
                && e.notifyTenant == rule.notifyTenant && e.firedAt == old(calls)
                && e.acknowledgedAt.None? && e.acknowledgedBy.None? && e.resolvedAt.None?
    {
      var now, id := calls, nextEvent;
      calls, nextEvent := calls + 1, nextEvent + 1;
      if faults(now) == Fails { return true; }
      events := events + [NewEvent(id, rule, tenant, bucket, now)];
      if faults(now) == LostReply { return true; }
      calls := calls + 1;
      failed := faults(calls - 1) != Fine;
    }

    method ListOpenByRule(rule: int) returns (open: seq<Event>, failed: bool)
      modifies this`calls
      ensures calls == old(calls) + 1 && failed == (faults(old(calls)) != Fine)
      ensures !failed ==> open == OpenByRule(events, rule)
    {
      calls := calls + 1;
      open, failed := OpenByRule(events, rule), faults(calls - 1) != Fine;
    }

    method ResolveOpen(rule: int, tenant: Option<int>, bucket: Option<int>) returns (n: nat, failed: bool)
      modifies this`events, this`calls
      ensures calls == old(calls) + 1 && failed == (faults(old(calls)) != Fine)
      ensures faults(old(calls)) == Fails ==> events == old(events)
      ensures faults(old(calls)) != Fails ==> events == ResolveRows(old(events), rule, tenant, bucket, old(calls))
      ensures n == if failed then 0 else CountAny(old(events), rule, tenant, bucket)
    {
      var conds, args := ResolveOpenQuery(rule, tenant, bucket);
      hide Selects, AnyMatch, Close;
      var now := calls;
      calls := calls + 1;
      failed := faults(now) != Fine;
      n := 0;
      if faults(now) != Fails {
        var t, i := events, 0;
        while i < |t|
          invariant 0 <= i <= |t| && |events| == |t| && calls == now + 1
          invariant forall k :: 0 <= k < i ==> events[k] == CloseIf(t[k], rule, tenant, bucket, now)
          invariant forall k :: i <= k < |t| ==> events[k] == t[k]
          invariant n == CountAny(t[..i], rule, tenant, bucket)
        {
          assert t[..i + 1][..i] == t[..i];
          assert Selects(conds, args, t[i]) <==> AnyMatch(t[i], rule, tenant, bucket);
          if Selects(conds, args, t[i]) {
            events := events[i := Close(t[i], now)];
            n := n + 1;
          }
          i := i + 1;
        }
        assert t[..|t|] == t;
      }
      if failed { n := 0; }
    }

    // Operator actions and rule edits: what they do to the rows, and that each is one step of the state machine.

    /** No key becomes open or closes. */
    method Acknowledge(id: int, user: int)
      modifies this`events, this`calls
      ensures SameOpenings(old(events), events) && OnlyOpenWithId(old(events), events, id)
      ensures forall i :: 0 <= i < |events| && events[i].id == id && IsOpen(events[i]) ==>
                events[i].status == Acknowledged && events[i].acknowledgedBy == Some(user)
      ensures forall rule, tenant, bucket ::
                HasOpen(events, rule, tenant, bucket)
                <==> HasOpen(old(events), rule, tenant, bucket)
      ensures forall m :: Tables(m) == Apply(old(Tables(m)), AcknowledgeEvent(id, user))
    {
      var t, now := events, calls;
      calls := calls + 1;
      for i := 0 to |t|
        invariant |events| == |t| && calls == now + 1
        invariant forall k :: 0 <= k < i ==> events[k] == AcknowledgeRow(t[k], id, user, now)
        invariant forall k :: i <= k < |t| ==> events[k] == t[k]
      {
        if events[i].id == id && events[i].status != Resolved {
          var row := events[i].(status := Acknowledged, acknowledgedAt := Some(now), acknowledgedBy := Some(user));
          events := events[i := row];
        }
      }
      assert events == AcknowledgeRows(t, id, user, now);
      forall rule, tenant, bucket ensures HasOpen(events, rule, tenant, bucket) <==> HasOpen(t, rule, tenant, bucket) {
        SameKeysOpen(t, events, rule, tenant, bucket);
      }
    }

    /** A key stays open exactly when another event holds it. */
    method Resolve(id: int)
      modifies this`events, this`calls
      ensures OnlyOpenWithId(old(events), events, id)
      ensures forall i :: 0 <= i < |events| && events[i].id == id ==> events[i].status == Resolved
      ensures forall i :: 0 <= i < |events| && old(events)[i].status == Resolved ==> events[i] == old(events)[i]
      ensures forall rule, tenant, bucket :: HasOpen(events, rule, tenant, bucket) <==>
                exists i :: 0 <= i < |old(events)| && old(events)[i].id != id
                       && KeyMatch(old(events)[i], rule, tenant, bucket)
      ensures forall m :: Tables(m) == Apply(old(Tables(m)), ResolveEvent(id))
    {
      var t, now := events, calls;
      calls := calls + 1;
      for i := 0 to |t|
        invariant |events| == |t| && calls == now + 1
        invariant forall k :: 0 <= k < i ==>
                    events[k] == if t[k].id == id && t[k].status != Resolved then Close(t[k], now) else t[k]
        invariant forall k :: i <= k < |t| ==> events[k] == t[k]
      {
        if events[i].id == id && events[i].status != Resolved {
          events := events[i := events[i].(status := Resolved, resolvedAt := Some(now))];
        }
      }
      assert events == ResolveById(t, id, now);
      forall rule, tenant, bucket
        ensures HasOpen(events, rule, tenant, bucket) <==>
                  exists i :: 0 <= i < |t| && t[i].id != id && KeyMatch(t[i], rule, tenant, bucket)
      {
        ResolveLeavesOpen(t, id, now, rule, tenant, bucket);
      }
    }

    /** The new rule is the last one of the next run, if it is enabled; no other rule changes. */
    method InsertRule(ruleType: RuleType, enabled: bool, notify: bool, config: map<string, real>) returns (id: int)
      modifies this`rules, this`nextRule, this`calls
      ensures id in rules && rules[id].enabled == enabled && rules[id].ruleType == ruleType
      ensures forall k :: k in old(rules) && k != id ==> k in rules && rules[k] == old(rules)[k]
      ensures (forall k :: k in old(rules) ==> k < old(nextRule))
              ==> id !in old(rules) && forall k :: k in rules ==> k < nextRule
      ensures EnabledRules(rules, nextRule) ==
                EnabledRules(old(rules), old(nextRule)) + if enabled then [rules[id]] else []
      ensures forall m :: Tables(m) == Apply(old(Tables(m)), AddRule(ruleType, enabled, notify, config))
    {
      id := nextRule;
      rules, nextRule := rules[id := Rule(id, ruleType, enabled, notify, config)], nextRule + 1;
      calls := calls + 1;
      EnabledSame(old(rules), rules, id);
    }

    /** Every column may change but the type, so that each event still fits its rule. */
    method UpdateRule(id: int, enabled: bool, notify: bool, config: map<string, real>)
      modifies this`rules, this`calls
      ensures rules.Keys == old(rules).Keys && forall k :: k in rules && k != id ==> rules[k] == old(rules)[k]
      ensures id in rules ==> rules[id].ruleType == old(rules)[id].ruleType && rules[id].id == old(rules)[id].id
      ensures id in rules
              ==> rules[id].enabled == enabled && rules[id].notifyTenant == notify && rules[id].config == config
      ensures forall e: Event, m :: e.ruleId.Some? && RuleFits(e, old(Tables(m))) ==> RuleFits(e, Tables(m))
      ensures forall m :: Tables(m) == Apply(old(Tables(m)), EditRule(id, enabled, notify, config))
    {
      if id in rules {
        rules := rules[id := rules[id].(enabled := enabled, notifyTenant := notify, config := config)];
      }
      calls := calls + 1;
    }

    /** No event names the rule any more, none opens or closes, and other rules keep their open keys. */
    method DeleteRule(id: int)
      modifies this`rules, this`events, this`calls
      ensures id !in rules
      ensures forall k :: k != id ==> (k in rules <==> k in old(rules)) && (k in rules ==> rules[k] == old(rules)[k])
      ensures |events| == |old(events)|
      ensures forall i :: 0 <= i < |events| ==> events[i].ruleId != Some(id)
      ensures forall i :: 0 <= i < |events| ==> events[i] == old(events)[i].(ruleId := events[i].ruleId)
      ensures forall rule, tenant, bucket :: HasOpen(events, rule, tenant, bucket) <==>
                rule != id && HasOpen(old(events), rule, tenant, bucket)
      ensures forall m :: Tables(m) == Apply(old(Tables(m)), DropRule(id))
    {
      var t := events;
      rules := rules - {id};
      calls := calls + 1;
      for i := 0 to |t|
        invariant |events| == |t| && calls == old(calls) + 1 && rules == old(rules) - {id}
        invariant forall k :: 0 <= k < i ==>
                    events[k] == if t[k].ruleId == Some(id) then t[k].(ruleId := None) else t[k]
        invariant forall k :: i <= k < |t| ==> events[k] == t[k]
      {
        if events[i].ruleId == Some(id) { events := events[i := events[i].(ruleId := None)]; }
      }
      assert events == ForgetRule(t, id);
      forall rule, tenant, bucket
        ensures HasOpen(events, rule, tenant, bucket) <==> rule != id && HasOpen(t, rule, tenant, bucket)
      {
        ForgetRuleOpen(t, id, rule, tenant, bucket);
      }
    }
  }

  lemma {:induction false} EnabledSame(a: map<int, Rule>, b: map<int, Rule>, below: nat)
    requires forall k :: 0 <= k < below ==> (k in a <==> k in b) && (k in a ==> a[k] == b[k])
    ensures EnabledRules(a, below) == EnabledRules(b, below)
  {
    if below > 0 { EnabledSame(a, b, below - 1); }
  }

  // ---------- the evaluator ----------

  /** The `byBucket` and `byName` maps: the last row of a name wins. */
  method IndexUsage(rows: seq<UsageRow>) returns (byName: map<string, int>)
    ensures byName == UsageByName(rows)
  {
    byName := map[];
    for i := 0 to |rows|
      invariant byName == UsageByName(rows[..i])
    {
      assert rows[..i + 1][..i] == rows[..i];
      byName := byName[rows[i].bucketName := rows[i].usedBytes];
    }
    assert rows[..|rows|] == rows;
  }

  method SumUsage(granted: seq<string>, byName: map<string, int>) returns (used: int)
    ensures used == UsedBytes(granted, byName)
  {
    used := 0;
    var i := 0;
    while i < |granted|
      invariant 0 <= i <= |granted| && used + UsedBytes(granted[i..], byName) == UsedBytes(granted, byName)
    {
      assert granted[i..][1..] == granted[i + 1..];
      if granted[i] in byName { used := used + byName[granted[i]]; }
      i := i + 1;
    }
  }

  /** The first operation of a list, then the rest. */
  lemma ExecFirst(db: Db, w: World, rule: Rule, op: Op, rest: seq<Op>, n: nat, m: nat)
    ensures var (o, all) := (Step(db, w, rule, op), Plus(n, m, Exec(db, w, rule, [op] + rest)));
            all == if o.failed then Plus(n, m, o) else Plus(n + o.created, m + o.resolved, Exec(o.db, w, rule, rest))
  {
    assert ([op] + rest)[1..] == rest;
  }

  lemma NoSubjectLeft(w: Readings, rule: Rule)
    ensures TenantOps(w, rule, []) == [] && TenantsSeen([]) == {} && BucketOps(w, rule, []) == []
    ensures BucketsSeen(w, []) == {}
  {
  }

  /** The ends of the loops. */
  lemma NothingLeft(db: Db, w: World, rule: Rule)
    ensures Exec(db, w, rule, []) == Out(db, 0, 0, false) && RunRules(db, w, []) == Out(db, 0, 0, false)
  {
  }

  lemma ClearStep(db: Db, w: World, rule: Rule, tenant: Option<int>, bucket: Option<int>)
    ensures var o := Step(db, w, rule, Clear(tenant, bucket));
            o == ClearOpen(db, w, rule, tenant, bucket) && (o.failed ==> o.resolved == 0)
  {
  }

  lemma NoneUnseen(sweep: Sweep)
    ensures SweepOps([], sweep) == []
  {
  }

  lemma PlusNothing(db: Db, n: nat, m: nat, failed: bool)
    ensures Plus(n, m, Out(db, 0, 0, failed)) == Out(db, n, m, failed)
  {
  }

  lemma PlusZero(o: Out)
    ensures Plus(0, 0, o) == o
  {
  }

  lemma StepFailing(db: Db, w: World, rule: Rule, op: Op)
    ensures var o := Step(db, w, rule, op); o.failed ==> o.created == 0 && o.resolved == 0
  {
  }

  lemma RulesFirst(db: Db, w: World, rules: seq<Rule>, i: nat, n: nat, m: nat)
    requires i < |rules|
    ensures var (o, all) := (EvalRule(db, w, rules[i]), Plus(n, m, RunRules(db, w, rules[i..])));
            all == if o.failed then Out(o.db, n, m, true)
            else Plus(n + o.created, m + o.resolved, RunRules(o.db, w, rules[i + 1..]))
  {
    hide EvalRule;
    assert rules[i..][1..] == rules[i + 1..];
  }

  /** The loop of a plan, then its sweep. */
  lemma EvalByParts(db: Db, w: World, rule: Rule, ops: seq<Op>, sweep: Sweep)
    requires PlanOf(w.readings, rule) == Plan(true, ops, sweep)
    ensures var a := Exec(Tick(db), w, rule, ops);
            var s := RunSweep(a.db, w, rule, sweep);
            EvalRule(db, w, rule) ==
              if w.faults(db.calls) != Fine then Out(Tick(db), 0, 0, true)
              else if a.failed then a
              else if s.failed then Out(s.db, a.created, a.resolved, true)
              else Plus(a.created, a.resolved, s)
  {
  }

  lemma SweepByParts(db: Db, w: World, rule: Rule, sweep: Sweep)
    requires sweep != NoSweep
    ensures RunSweep(db, w, rule, sweep) ==
              if w.faults(db.calls) != Fine then Out(Tick(db), 0, 0, true)
              else Exec(Tick(db), w, rule, SweepOps(OpenByRule(db.events, rule.id), sweep))
  {
  }

  lemma PlusResolved(db: Db, n: nat, m: nat, k: nat)
    ensures Plus(n, m, Out(db, 0, k, false)) == Out(db, n, m + k, false)
  {
  }

  lemma TenantsFirst(w: Readings, rule: Rule, ts: seq<TenantRow>, i: nat)
    requires i < |ts|
    ensures !TenantConsidered(ts[i]) ==>
              TenantOps(w, rule, ts[i..]) == TenantOps(w, rule, ts[i + 1..])
              && TenantsSeen(ts[i..]) == TenantsSeen(ts[i + 1..])
    ensures TenantConsidered(ts[i]) ==>
              && TenantOps(w, rule, ts[i..])
                 == [Decide(TenantOver(w, rule, ts[i]), Some(ts[i].id), None)] + TenantOps(w, rule, ts[i + 1..])
              && TenantsSeen(ts[i..]) == {ts[i].id} + TenantsSeen(ts[i + 1..])
  {
    assert ts[i..][0] == ts[i] && ts[i..][1..] == ts[i + 1..];
  }

  lemma BucketsFirst(w: Readings, rule: Rule, bs: seq<BucketRow>, i: nat)
    requires i < |bs|
    ensures !BucketConsidered(w, bs[i]) ==>
              BucketOps(w, rule, bs[i..]) == BucketOps(w, rule, bs[i + 1..])
              && BucketsSeen(w, bs[i..]) == BucketsSeen(w, bs[i + 1..])
    ensures BucketConsidered(w, bs[i]) ==>
              && BucketOps(w, rule, bs[i..])
                 == [Decide(BucketOver(w, rule, bs[i]), None, Some(bs[i].id))] + BucketOps(w, rule, bs[i + 1..])
              && BucketsSeen(w, bs[i..]) == {bs[i].id} + BucketsSeen(w, bs[i + 1..])
  {
    assert bs[i..][0] == bs[i] && bs[i..][1..] == bs[i + 1..];
  }

  lemma ConsideredExactly(w: Readings, b: BucketRow, byName: map<string, int>)
    requires byName == UsageByName(w.usage)
    ensures BucketConsidered(w, b) <==> b.status == "active" && b.bucketName in byName && HasQuota(b.quotaBytes)
  {
  }

  lemma UnseenFirst(open: seq<Event>, sweep: Sweep, i: nat)
    requires i < |open|
    ensures !Unseen(open[i], sweep) ==> SweepOps(open[i..], sweep) == SweepOps(open[i + 1..], sweep)
    ensures Unseen(open[i], sweep) ==>
              SweepOps(open[i..], sweep) == [Clear(open[i].tenantId, open[i].bucketId)] + SweepOps(open[i + 1..], sweep)
  {
    assert open[i..][0] == open[i] && open[i..][1..] == open[i + 1..];
  }

  class Evaluator {
    const store: Store
    var mirror: map<string, Mirrored>

    constructor (store: Store)
      ensures this.store == store && mirror == map[]
    {
      this.store := store;
      mirror := map[];
    }

    ghost function State(): Db
      reads this, store
    {
      store.Tables(mirror)
    }

    ghost function Surroundings(r: Readings): World
      reads store
    {
      World(r, store.faults)
    }

    /** A query for the rows of one of the other tables. */
    method Query() returns (failed: bool)
      modifies store`calls
      ensures State() == Tick(old(State())) && failed == (store.faults(old(State().calls)) != Fine)
    {
      failed := store.faults(store.calls) != Fine;
      store.calls := store.calls + 1;
    }

    method ProjectEvent(r: Readings, rule: Rule, tenant: Option<int>, bucket: Option<int>, firing: bool)
      modifies this`mirror, store`calls
      ensures State() == Project(old(State()), Surroundings(r), rule, tenant, bucket, firing)
      ensures mirror == old(mirror)
              || (tenant.Some? && tenant.value in r.usernames
                  && mirror == old(mirror)[Fingerprint(rule.id, tenant, bucket)
                                           := Mirrored(r.usernames[tenant.value], firing)])
    {
      if !r.projectConfigured || !rule.notifyTenant || tenant.None? || r.tenants.None? { return; }
      store.calls := store.calls + 1;
      if store.faults(store.calls - 1) != Fine || tenant.value !in r.usernames
         || r.usernames[tenant.value] == "" { return; }
      store.calls := store.calls + 1;
      if store.faults(store.calls - 1) != Fails {
        mirror := mirror[Fingerprint(rule.id, tenant, bucket) := Mirrored(r.usernames[tenant.value], firing)];
      }
    }

    method Fire(r: Readings, rule: Rule, tenant: Option<int>, bucket: Option<int>) returns (created: bool, failed: bool)
      modifies this`mirror, store
      ensures Out(State(), if created then 1 else 0, 0, failed)
              == EnsureOpen(old(State()), Surroundings(r), rule, tenant, bucket)
    {
      ghost var w := Surroundings(r);
      var open, err := store.HasOpenEvent(rule.id, tenant, bucket);
      if err || open { return false, err; }
      ghost var ticked := State();
      err := store.InsertEvent(rule, tenant, bucket);
      assert Insert(ticked, w, rule, tenant, bucket) == Out(State(), 0, 0, err);
      if err { return false, true; }
      ProjectEvent(r, rule, tenant, bucket, true);
      return true, false;
    }

    method ResolveAndProject(r: Readings, rule: Rule, tenant: Option<int>, bucket: Option<int>)
      returns (n: nat, failed: bool)
      modifies this`mirror, store
      ensures Out(State(), 0, n, failed) == ClearOpen(old(State()), Surroundings(r), rule, tenant, bucket)
    {
      ghost var before := State();
      n, failed := store.ResolveOpen(rule.id, tenant, bucket);
      if failed { return; }
      assert State() == Closed(before, rule, tenant, bucket);
      if n > 0 { ProjectEvent(r, rule, tenant, bucket, false); }
    }

    method ClearOne(r: Readings, rule: Rule, tenant: Option<int>, bucket: Option<int>) returns (n: nat, failed: bool)
      modifies this`mirror, store
      ensures Out(State(), 0, n, failed) == Step(old(State()), Surroundings(r), rule, Clear(tenant, bucket))
      ensures failed ==> n == 0
    {
      hide Step, ClearOpen;
      ClearStep(State(), Surroundings(r), rule, tenant, bucket);
      n, failed := ResolveAndProject(r, rule, tenant, bucket);
    }

    method OpenRows(rule: Rule) returns (open: seq<Event>, failed: bool)
      modifies store`calls
      ensures State() == Tick(old(State())) && failed == (store.faults(old(State().calls)) != Fine)
      ensures !failed ==> open == OpenByRule(old(State().events), rule.id)
    {
      open, failed := store.ListOpenByRule(rule.id);
    }

    method ResolveUnseen(r: Readings, rule: Rule, sweep: Sweep) returns (n: nat, failed: bool)
      requires sweep != NoSweep
      modifies this`mirror, store
      ensures Out(State(), 0, n, failed) == RunSweep(old(State()), Surroundings(r), rule, sweep)
    {
      ghost var before, w := State(), Surroundings(r);
      SweepByParts(before, w, rule, sweep);
      hide Exec, Step, SweepOps, Unseen, ClearOpen, RunSweep, OpenByRule, State, Store.Tables, Plus, Tick;
      var open, err := OpenRows(rule);
      n := 0;
      if err { return n, true; }
      ghost var whole := Exec(Tick(before), w, rule, SweepOps(open, sweep));
      assert open[0..] == open;
      PlusZero(whole);
      var i := 0;
      while i < |open|
        invariant 0 <= i <= |open|
        invariant whole == Plus(0, n, Exec(State(), w, rule, SweepOps(open[i..], sweep)))
      {
        var ev := open[i];
        UnseenFirst(open, sweep, i);
        i := i + 1;
        if !Unseen(ev, sweep) { continue; }
        ExecFirst(State(), w, rule, Clear(ev.tenantId, ev.bucketId), SweepOps(open[i..], sweep), 0, n);
        var k, fail := ClearOne(r, rule, ev.tenantId, ev.bucketId);
        PlusNothing(State(), 0, n, fail);
        if fail { return n, true; }
        n := n + k;
      }
      assert open[i..] == [];
      NothingLeft(State(), w, rule);
      NoneUnseen(sweep);
      PlusNothing(State(), 0, n, false);
      failed := false;
    }

    /** Fire the key when its subject is over the threshold, resolve it when it is not. */
    method Settle(r: Readings, rule: Rule, over: bool, tenant: Option<int>, bucket: Option<int>)
      returns (newN: nat, resN: nat, failed: bool)
      modifies this`mirror, store
      ensures Out(State(), newN, resN, failed)
              == Step(old(State()), Surroundings(r), rule, Decide(over, tenant, bucket))
    {
      newN, resN := 0, 0;
      if over {
        var created, err := Fire(r, rule, tenant, bucket);
        newN, failed := if created then 1 else 0, err;
      } else {
        resN, failed := ResolveAndProject(r, rule, tenant, bucket);
      }
    }

    method TenantIsOver(r: Readings, rule: Rule, t: TenantRow, byBucket: map<string, int>) returns (over: bool)
      requires TenantConsidered(t) && byBucket == UsageByName(r.usage)
      ensures over == TenantOver(r, rule, t)
    {
      var used := 0;
      if t.id in r.grants { used := SumUsage(r.grants[t.id], byBucket); }
      over := OverThreshold(used, t.quotaBytes, ConfigNumber(rule, "threshold_percent", 1.0));
    }

    method BucketIsOver(r: Readings, rule: Rule, used: int, b: BucketRow) returns (over: bool)
      requires SubjectOf(rule.ruleType) == Buckets && BucketConsidered(r, b)
      requires UsageByName(r.usage)[b.bucketName] == used
      ensures over == BucketOver(r, rule, b)
    {
      var default := 0.8;
      if rule.ruleType == BucketCapacity90 { default := 0.9; }
      over := OverThreshold(used, b.quotaBytes, ConfigNumber(rule, "threshold_percent", default));
    }

    /** A call that fails has counted nothing. */
    method SettleOrFail(r: Readings, rule: Rule, over: bool, tenant: Option<int>, bucket: Option<int>)
      returns (n: nat, m: nat, failed: bool)
      modifies this`mirror, store
      ensures Out(State(), n, m, failed) == Step(old(State()), Surroundings(r), rule, Decide(over, tenant, bucket))
      ensures failed ==> n == 0 && m == 0
    {
      hide Step, Decide;
      StepFailing(State(), Surroundings(r), rule, Decide(over, tenant, bucket));
      n, m, failed := Settle(r, rule, over, tenant, bucket);
    }

    method SettleTenant(r: Readings, rule: Rule, t: TenantRow, byBucket: map<string, int>)
      returns (n: nat, m: nat, failed: bool)
      requires TenantConsidered(t) && byBucket == UsageByName(r.usage)
      modifies this`mirror, store
      ensures Out(State(), n, m, failed)
              == Step(old(State()), Surroundings(r), rule, Decide(TenantOver(r, rule, t), Some(t.id), None))
      ensures failed ==> n == 0 && m == 0
    {
      hide Step, Decide, TenantOver;
      var over := TenantIsOver(r, rule, t, byBucket);
      n, m, failed := SettleOrFail(r, rule, over, Some(t.id), None);
    }

    method SettleBucket(r: Readings, rule: Rule, used: int, b: BucketRow) returns (n: nat, m: nat, failed: bool)
      requires SubjectOf(rule.ruleType) == Buckets && BucketConsidered(r, b)
      requires UsageByName(r.usage)[b.bucketName] == used
      modifies this`mirror, store
      ensures Out(State(), n, m, failed)
              == Step(old(State()), Surroundings(r), rule, Decide(BucketOver(r, rule, b), None, Some(b.id)))
      ensures failed ==> n == 0 && m == 0
    {
      hide Step, Decide, BucketOver;
      var over := BucketIsOver(r, rule, used, b);
      n, m, failed := SettleOrFail(r, rule, over, None, Some(b.id));
    }

    /** The loop over the tenants, up to the sweep. */
    method EvalTenants(r: Readings, rule: Rule, ts: seq<TenantRow>)
      returns (newN: nat, resN: nat, seen: set<int>, failed: bool)
      modifies this`mirror, store
      ensures Out(State(), newN, resN, failed) == Exec(old(State()), Surroundings(r), rule, TenantOps(r, rule, ts))
      ensures !failed ==> seen == TenantsSeen(ts)
    {
      newN, resN, seen := 0, 0, {};
      ghost var w := Surroundings(r);
      ghost var whole := Exec(State(), w, rule, TenantOps(r, rule, ts));
      var byBucket := IndexUsage(r.usage);
      PlusZero(whole);
      hide Exec, Step, TenantOps, TenantsSeen, TenantOver, TenantConsidered, UsageByName, Decide, State, Store.Tables,
      Plus;
      var i := 0;
      assert ts[0..] == ts;
      while i < |ts|
        invariant 0 <= i <= |ts| && seen + TenantsSeen(ts[i..]) == TenantsSeen(ts)
        invariant whole == Plus(newN, resN, Exec(State(), w, rule, TenantOps(r, rule, ts[i..])))
      {
        var t := ts[i];
        TenantsFirst(r, rule, ts, i);
        i := i + 1;
        if !TenantConsidered(t) { continue; }
        seen := seen + {t.id};
        ExecFirst(State(), w, rule, Decide(TenantOver(r, rule, t), Some(t.id), None), TenantOps(r, rule, ts[i..]), newN,
                  resN);
        var n, m, err := SettleTenant(r, rule, t, byBucket);
        PlusNothing(State(), newN, resN, err);
        if err { return newN, resN, seen, true; }
        newN, resN := newN + n, resN + m;
      }
      assert ts[i..] == [];
      NothingLeft(State(), w, rule);
      NoSubjectLeft(r, rule);
      PlusNothing(State(), newN, resN, false);
      failed := false;
    }

    method EvalTenantQuota(r: Readings, rule: Rule) returns (newN: nat, resN: nat, failed: bool)
      requires SubjectOf(rule.ruleType) == Tenants
      modifies this`mirror, store
      ensures Out(State(), newN, resN, failed) == EvalRule(old(State()), Surroundings(r), rule)
    {
      newN, resN, failed := 0, 0, false;
      if r.tenants.None? { return; }
      ghost var before, w := State(), Surroundings(r);
      ghost var ops, sweep := TenantOps(r, rule, r.tenants.value), ByTenant(TenantsSeen(r.tenants.value));
      assert PlanOf(r, rule) == Plan(true, ops, sweep);
      EvalByParts(before, w, rule, ops, sweep);
      hide Exec, RunSweep, EvalRule, PlanOf, TenantOps, TenantsSeen, State, Store.Tables, Plus, Tick;
      failed := Query();
      if failed { return; }
      var seen;
      newN, resN, seen, failed := EvalTenants(r, rule, r.tenants.value);
      if failed { return; }
      var n, err := ResolveUnseen(r, rule, ByTenant(seen));
      if err { return newN, resN, true; }
      PlusResolved(State(), newN, resN, n);
      resN := resN + n;
    }

    /** The loop over the buckets, up to the sweep. */
    method EvalBuckets(r: Readings, rule: Rule, bs: seq<BucketRow>)
      returns (newN: nat, resN: nat, seen: set<int>, failed: bool)
      requires SubjectOf(rule.ruleType) == Buckets
      modifies this`mirror, store
      ensures Out(State(), newN, resN, failed) == Exec(old(State()), Surroundings(r), rule, BucketOps(r, rule, bs))
      ensures !failed ==> seen == BucketsSeen(r, bs)
    {
      newN, resN, seen := 0, 0, {};
      ghost var w := Surroundings(r);
      ghost var whole := Exec(State(), w, rule, BucketOps(r, rule, bs));
      var byName := IndexUsage(r.usage);
      PlusZero(whole);
      hide Exec, Step, BucketOps, BucketsSeen, BucketOver, BucketConsidered, HasQuota, UsageByName, Decide, State,
      Store.Tables, Plus;
      var i := 0;
      assert bs[0..] == bs;
      while i < |bs|
        invariant 0 <= i <= |bs| && seen + BucketsSeen(r, bs[i..]) == BucketsSeen(r, bs)
        invariant whole == Plus(newN, resN, Exec(State(), w, rule, BucketOps(r, rule, bs[i..])))
      {
        var b := bs[i];
        BucketsFirst(r, rule, bs, i);
        ConsideredExactly(r, b, byName);
        i := i + 1;
        if b.status != "active" || b.bucketName !in byName || !HasQuota(b.quotaBytes) { continue; }
        seen := seen + {b.id};
        ExecFirst(State(), w, rule, Decide(BucketOver(r, rule, b), None, Some(b.id)), BucketOps(r, rule, bs[i..]), newN,
                  resN);
        var n, m, err := SettleBucket(r, rule, byName[b.bucketName], b);
        PlusNothing(State(), newN, resN, err);
        if err { return newN, resN, seen, true; }
        newN, resN := newN + n, resN + m;
      }
      assert bs[i..] == [];
      NothingLeft(State(), w, rule);
      NoSubjectLeft(r, rule);
      PlusNothing(State(), newN, resN, false);
      failed := false;
    }

    method EvalBucketCapacity(r: Readings, rule: Rule) returns (newN: nat, resN: nat, failed: bool)
      requires SubjectOf(rule.ruleType) == Buckets
      modifies this`mirror, store
      ensures Out(State(), newN, resN, failed) == EvalRule(old(State()), Surroundings(r), rule)
    {
      newN, resN, failed := 0, 0, false;
      if r.buckets.None? { return; }
      ghost var before, w := State(), Surroundings(r);
      ghost var ops, sweep := BucketOps(r, rule, r.buckets.value), ByBucket(BucketsSeen(r, r.buckets.value));
      assert PlanOf(r, rule) == Plan(true, ops, sweep);
      EvalByParts(before, w, rule, ops, sweep);
      hide Exec, RunSweep, EvalRule, PlanOf, BucketOps, BucketsSeen, State, Store.Tables, Plus, Tick;
      failed := Query();
      if failed { return; }
      var seen;
      newN, resN, seen, failed := EvalBuckets(r, rule, r.buckets.value);
      if failed { return; }
      var n, err := ResolveUnseen(r, rule, ByBucket(seen));
      if err { return newN, resN, true; }
      PlusResolved(State(), newN, resN, n);
      resN := resN + n;
    }

    /** The platform rules call `ResolveOpen` directly: their events have no tenant to tell. */
    method ResolvePlatform(r: Readings, rule: Rule) returns (newN: nat, resN: nat, failed: bool)
      modifies store
      ensures Out(State(), newN, resN, failed) == ClearOpen(old(State()), Surroundings(r), rule, None, None)
    {
      newN := 0;
      resN, failed := store.ResolveOpen(rule.id, None, None);
    }

    method FirePlatform(r: Readings, rule: Rule) returns (newN: nat, resN: nat, failed: bool)
      modifies this`mirror, store
      ensures Out(State(), newN, resN, failed) == EnsureOpen(old(State()), Surroundings(r), rule, None, None)
    {
      var created, err := Fire(r, rule, None, None);
      newN, resN, failed := if created then 1 else 0, 0, err;
    }

    method EvalRGW5xx(r: Readings, rule: Rule) returns (newN: nat, resN: nat, failed: bool)
      requires rule.ruleType == Rgw5xxRate
      modifies this`mirror, store
      ensures Out(State(), newN, resN, failed) == EvalRule(old(State()), Surroundings(r), rule)
    {
      ghost var before, w := State(), Surroundings(r);
      SingleOp(before, w, rule);
      if r.errorRate.Some? && r.errorRate.value + SLACK >= ConfigNumber(rule, "error_rate", 0.05) {
        newN, resN, failed := FirePlatform(r, rule);
      } else {
        newN, resN, failed := ResolvePlatform(r, rule);
      }
    }

    method EvalAuditRate(r: Readings, rule: Rule) returns (newN: nat, resN: nat, failed: bool)
      requires SubjectOf(rule.ruleType) == Platform && rule.ruleType != Rgw5xxRate
      modifies this`mirror, store
      ensures Out(State(), newN, resN, failed) == EvalRule(old(State()), Surroundings(r), rule)
    {
      ghost var before, w := State(), Surroundings(r);
      SingleOp(before, w, rule);
      newN, resN, failed := 0, 0, false;
      var window := Truncate(ConfigNumber(rule, "window_minutes", 60.0));
      if window < 1 { window := 60; }
      if !r.projectConfigured { return; }
      var reading := r.audit(window, rule.ruleType);
      if reading.None? { return; }
      var win := reading.value;
      if FailuresOnly(rule.ruleType) {
        var rate := 0.0;
        if win.total > 0 { rate := win.failures as real / win.total as real; }
        if win.total > 0 && rate + SLACK >= ConfigNumber(rule, "failure_rate", 0.1) {
          newN, resN, failed := FirePlatform(r, rule);
          return;
        }
      } else if win.total >= Truncate(ConfigNumber(rule, "count_threshold", 50.0)) {
        newN, resN, failed := FirePlatform(r, rule);
        return;
      }
      newN, resN, failed := ResolvePlatform(r, rule);
    }

    method Run(r: Readings) returns (evaluated: nat, created: nat, resolved: nat, failed: bool)
      modifies this`mirror, store
      ensures RunOut(Out(State(), created, resolved, failed), evaluated) == AlertEval.Run(old(State()), Surroundings(r))
    {
      hide RunRules, EnabledRules;
      var rules, err := store.ListEnabledRules();
      if err { return 0, 0, 0, true; }
      evaluated := |rules|;
      created, resolved, failed := EvalRules(r, rules);
    }

    /** The loop of `Run`; the first error ends it. */
    method EvalRules(r: Readings, rules: seq<Rule>) returns (created: nat, resolved: nat, failed: bool)
      modifies this`mirror, store
      ensures Out(State(), created, resolved, failed) == RunRules(old(State()), Surroundings(r), rules)
    {
      created, resolved := 0, 0;
      hide EvalRule, RunRules, State, Store.Tables, Plus;
      ghost var w := Surroundings(r);
      ghost var whole := RunRules(State(), w, rules);
      PlusZero(whole);
      assert rules[0..] == rules;
      var i := 0;
      while i < |rules|
        invariant 0 <= i <= |rules|
        invariant whole == Plus(created, resolved, RunRules(State(), w, rules[i..]))
      {
        RulesFirst(State(), w, rules, i, created, resolved);
        var n, m, fail := EvalOne(r, rules[i]);
        i := i + 1;
        if fail { return created, resolved, true; }
        created, resolved := created + n, resolved + m;
      }
      assert rules[i..] == [];
      NothingLeft(State(), w, Rule(0, Rgw5xxRate, true, true, map[]));
      PlusNothing(State(), created, resolved, false);
      failed := false;
    }

    /** The switch on the rule type; unknown types are skipped. */
    method EvalOne(r: Readings, rule: Rule) returns (n: nat, m: nat, failed: bool)
      modifies this`mirror, store
      ensures Out(State(), n, m, failed) == EvalRule(old(State()), Surroundings(r), rule)
    {
      n, m, failed := 0, 0, false;
      match SubjectOf(rule.ruleType)
      case Tenants => n, m, failed := EvalTenantQuota(r, rule);
      case Buckets => n, m, failed := EvalBucketCapacity(r, rule);
      case Platform =>
        if rule.ruleType == Rgw5xxRate {
          n, m, failed := EvalRGW5xx(r, rule);
        } else {
          n, m, failed := EvalAuditRate(r, rule);
        }
      case Nothing =>
    }
  }

  /** A platform plan is at most one operation, and has no sweep. */
  lemma SingleOp(db: Db, w: World, rule: Rule)
    requires SubjectOf(rule.ruleType) == Platform
    ensures var ops := PlatformOps(w.readings, rule);
            EvalRule(db, w, rule) == if ops == [] then Out(db, 0, 0, false) else Step(db, w, rule, ops[0])
  {
    var ops := PlatformOps(w.readings, rule);
    if ops != [] {
      assert ops == [ops[0]] + [];
      ExecFirst(db, w, rule, ops[0], [], 0, 0);
      StepFailing(db, w, rule, ops[0]);
    }
  }
}
