/** Whom the notices are for: every alert at the tenant side is kept under the fingerprint of a rule and a tenant and
    carries a name under which that tenant was known. */
module AlertNotices {
  import opened Common
  import opened AlertTable
  import opened Fingerprints
  import opened AlertEval
  import opened AlertInvariants
  import opened AlertReconcile
  import opened AlertMachine
  import opened AlertMirror

  /** A notice changes one entry, and that one says the name of its tenant. */
  lemma NoticeExact(db: Db, w: World, rule: Rule, tenant: Option<int>, bucket: Option<int>, firing: bool)
    ensures var (p, f) := (Project(db, w, rule, tenant, bucket, firing), Fingerprint(rule.id, tenant, bucket));
            || p.mirror == db.mirror
            || (&& tenant.Some? && tenant.value in w.readings.usernames
                && p.mirror == db.mirror[f := Mirrored(w.readings.usernames[tenant.value], firing)])
  {
    hide Fingerprint;
  }

  /** The entry is for the tenant `x`, by a name in `known`. */
  ghost predicate Addressed(mirror: map<string, Mirrored>, f: string, x: int, known: iset<(int, string)>) {
    && f in mirror && (x, mirror[f].username) in known
    && exists rule, bucket :: f == Fingerprint(rule, Some(x), bucket)
  }

  ghost predicate AllAddressed(mirror: map<string, Mirrored>, known: iset<(int, string)>) {
    forall f :: f in mirror ==> exists x :: Addressed(mirror, f, x, known)
  }

  ghost predicate Knows(known: iset<(int, string)>, w: World) {
    forall x :: x in w.readings.usernames ==> (x, w.readings.usernames[x]) in known
  }

  lemma NoticeAddressed(db: Db, w: World, rule: Rule, tenant: Option<int>, bucket: Option<int>, firing: bool,
                        known: iset<(int, string)>)
    requires AllAddressed(db.mirror, known) && Knows(known, w)
    ensures AllAddressed(Project(db, w, rule, tenant, bucket, firing).mirror, known)
  {
    var (after, own) := (Project(db, w, rule, tenant, bucket, firing).mirror, Fingerprint(rule.id, tenant, bucket));
    NoticeExact(db, w, rule, tenant, bucket, firing);
    hide Project, Fingerprint;
    if after != db.mirror {
      forall f | f in after ensures exists x :: Addressed(after, f, x, known) {
        if f == own {
          assert Addressed(after, f, tenant.value, known);
        } else {
          var x :| Addressed(db.mirror, f, x, known);
          assert Addressed(after, f, x, known);
        }
      }
    }
  }

  lemma StepAddressed(db: Db, w: World, rule: Rule, op: Op, known: iset<(int, string)>)
    requires AllAddressed(db.mirror, known) && Knows(known, w)
    ensures AllAddressed(Step(db, w, rule, op).db.mirror, known)
  {
    if op.Clear? {
      NoticeAddressed(Closed(db, rule, op.tenant, op.bucket), w, rule, op.tenant, op.bucket, false, known);
    } else {
      NoticeAddressed(Insert(Tick(db), w, rule, op.tenant, op.bucket).db, w, rule, op.tenant, op.bucket, true, known);
    }
    hide AllAddressed, Project;
  }

  lemma {:induction false} ExecAddressed(db: Db, w: World, rule: Rule, ops: seq<Op>, known: iset<(int, string)>)
    requires AllAddressed(db.mirror, known) && Knows(known, w)
    ensures AllAddressed(Exec(db, w, rule, ops).db.mirror, known)
    decreases |ops|
  {
    if ops != [] {
      StepAddressed(db, w, rule, ops[0], known);
      var o := Step(db, w, rule, ops[0]);
      hide AllAddressed, Step;
      if !o.failed { ExecAddressed(o.db, w, rule, ops[1..], known); }
    }
  }

  lemma EvalAddressed(db: Db, w: World, rule: Rule, known: iset<(int, string)>)
    requires AllAddressed(db.mirror, known) && Knows(known, w)
    ensures AllAddressed(EvalRule(db, w, rule).db.mirror, known)
  {
    var plan := PlanOf(w.readings, rule);
    var start := if plan.listing then Tick(db) else db;
    ExecAddressed(start, w, rule, plan.ops, known);
    var a := Exec(start, w, rule, plan.ops);
    ExecAddressed(Tick(a.db), w, rule, SweepOps(OpenByRule(a.db.events, rule.id), plan.sweep), known);
    hide AllAddressed, Exec, PlanOf;
  }

  lemma {:induction false} RulesAddressed(db: Db, w: World, rules: seq<Rule>, known: iset<(int, string)>)
    requires AllAddressed(db.mirror, known) && Knows(known, w)
    ensures AllAddressed(RunRules(db, w, rules).db.mirror, known)
    decreases |rules|
  {
    if rules != [] {
      EvalAddressed(db, w, rules[0], known);
      var o := EvalRule(db, w, rules[0]);
      hide AllAddressed, EvalRule;
      if !o.failed { RulesAddressed(o.db, w, rules[1..], known); }
    }
  }

  // ---------- histories ----------

  /** The names that runs of a history read. */
  ghost function NamesRead(actions: seq<Action>): iset<(int, string)> {
    iset x, name | exists k :: 0 <= k < |actions| && ReadName(actions[k], x, name) :: (x, name)
  }

  ghost predicate ReadName(a: Action, x: int, name: string) {
    a.Evaluate? && x in a.w.readings.usernames && a.w.readings.usernames[x] == name
  }

  lemma MoreNames(front: seq<Action>, a: Action)
    ensures NamesRead(front) <= NamesRead(front + [a]) && (a.Evaluate? ==> Knows(NamesRead(front + [a]), a.w))
  {
    var all := front + [a];
    forall x, name | (x, name) in NamesRead(front) ensures (x, name) in NamesRead(all) {
      var k :| 0 <= k < |front| && ReadName(front[k], x, name);
      assert ReadName(all[k], x, name);
    }
    if a.Evaluate? {
      forall x | x in a.w.readings.usernames ensures (x, a.w.readings.usernames[x]) in NamesRead(all) {
        assert ReadName(all[|front|], x, a.w.readings.usernames[x]);
      }
    }
  }

  lemma StillAddressed(mirror: map<string, Mirrored>, known: iset<(int, string)>, more: iset<(int, string)>)
    requires AllAddressed(mirror, known) && known <= more
    ensures AllAddressed(mirror, more)
  {
    forall f | f in mirror ensures exists x :: Addressed(mirror, f, x, more) {
      var x :| Addressed(mirror, f, x, known);
      assert Addressed(mirror, f, x, more);
    }
  }

  lemma ApplyAddressed(db: Db, a: Action, known: iset<(int, string)>)
    requires AllAddressed(db.mirror, known) && (a.Evaluate? ==> Knows(known, a.w))
    ensures AllAddressed(Apply(db, a).mirror, known)
  {
    hide AllAddressed;
    if a.Evaluate? { RulesAddressed(Tick(db), a.w, EnabledRules(db.rules, db.nextRule), known); }
  }

  /** In every history each alert at the tenant side is under the fingerprint of a rule and a tenant, and says a name
      that a run of the history read for that very tenant. */
  lemma {:induction false} NoticesAddressed(actions: seq<Action>)
    ensures AllAddressed(History(EMPTY, actions).mirror, NamesRead(actions))
  {
    if actions != [] {
      var (front, a) := (actions[..|actions| - 1], actions[|actions| - 1]);
      assert actions == front + [a];
      var db := History(EMPTY, front);
      HistoryNext(EMPTY, front, a);
      hide *;
      NoticesAddressed(front);
      MoreNames(front, a);
      StillAddressed(db.mirror, NamesRead(front), NamesRead(actions));
      ApplyAddressed(db, a, NamesRead(actions));
    }
  }

  /** When all runs agree on the names of tenants, the entry of a rule and a tenant says that tenant's name. */
  lemma OwnName(actions: seq<Action>, names: map<int, string>, rule: int, x: int)
    requires forall k, y, name :: 0 <= k < |actions| && ReadName(actions[k], y, name) ==> y in names && names[y] == name
    requires Fingerprint(rule, Some(x), None) in History(EMPTY, actions).mirror
    ensures var sent := History(EMPTY, actions).mirror[Fingerprint(rule, Some(x), None)];
            x in names && sent.username == names[x]
  {
    var (mirror, f) := (History(EMPTY, actions).mirror, Fingerprint(rule, Some(x), None));
    NoticesAddressed(actions);
    hide History, Fingerprint;
    var y :| Addressed(mirror, f, y, NamesRead(actions));
    var r, b :| f == Fingerprint(r, Some(y), b);
    FingerprintExact(rule, Some(x), None, r, Some(y), b);
    var k :| 0 <= k < |actions| && ReadName(actions[k], y, mirror[f].username);
  }

  /** So, with the names agreed and both sides in step, an open quota event is exactly one that the tenant side shows as
      firing to the tenant of that name. */
  lemma ShownToItsTenant(actions: seq<Action>, names: map<int, string>, rule: int, x: int)
    requires forall k, y, name :: 0 <= k < |actions| && ReadName(actions[k], y, name) ==> y in names && names[y] == name
    requires MirrorOk(History(EMPTY, actions)) && QuotaRule(History(EMPTY, actions), rule)
    ensures var (db, f) := (History(EMPTY, actions), Fingerprint(rule, Some(x), None));
            HasOpen(db.events, rule, Some(x), None) <==>
              f in db.mirror && db.mirror[f].firing && x in names && db.mirror[f].username == names[x]
  {
    var (db, f) := (History(EMPTY, actions), Fingerprint(rule, Some(x), None));
    assert InStep(db, rule, x);
    if f in db.mirror { OwnName(actions, names, rule, x); }
  }
}
