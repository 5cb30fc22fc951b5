/** Whole histories: any sequence of evaluator runs (failing at any call or not), operator actions,
    rule edits and row deletions, one after another. */
module AlertMachine {
  import opened Common
  import opened AlertTable
  import opened AlertEval
  import opened AlertInvariants

  /** An edit may change every column of a rule except its type. */
  datatype Action =
    | Evaluate(w: World)
    | AcknowledgeEvent(event: int, user: int)
    | ResolveEvent(event: int)
    | AddRule(ruleType: RuleType, enabled: bool, notifyTenant: bool, config: map<string, real>)
    | EditRule(rule: int, enabled: bool, notifyTenant: bool, config: map<string, real>)
    | DropRule(rule: int)
    | DropTenant(tenant: int)
    | DropBucket(bucket: int)

  function Apply(db: Db, a: Action): Db {
    match a
    case Evaluate(w) => Run(db, w).out.db
    case AcknowledgeEvent(event, user) => Tick(db).(events := AcknowledgeRows(db.events, event, user, db.calls))
    case ResolveEvent(event) => Tick(db).(events := ResolveById(db.events, event, db.calls))
    case AddRule(ruleType, enabled, notify, config) =>
      var added := Rule(db.nextRule, ruleType, enabled, notify, config);
      Tick(db).(rules := db.rules[db.nextRule := added], nextRule := db.nextRule + 1)
    case EditRule(rule, enabled, notify, config) =>
      if rule !in db.rules then Tick(db)
      else
        var edited := db.rules[rule].(enabled := enabled, notifyTenant := notify, config := config);
        Tick(db).(rules := db.rules[rule := edited])
    case DropRule(rule) => Tick(db).(rules := db.rules - {rule}, events := ForgetRule(db.events, rule))
    case DropTenant(tenant) => Tick(db).(events := ForgetTenant(db.events, tenant))
    case DropBucket(bucket) => Tick(db).(events := ForgetBucket(db.events, bucket))
  }

  const EMPTY: Db := Db(map[], 1, [], 1, 0, map[])

  function History(db: Db, actions: seq<Action>): Db {
    if actions == [] then db else Apply(History(db, actions[..|actions| - 1]), actions[|actions| - 1])
  }

  lemma HistoryNext(db: Db, front: seq<Action>, a: Action)
    ensures History(db, front + [a]) == Apply(History(db, front), a)
  {
    assert (front + [a])[..|front|] == front;
  }

  /** The earlier states of a longer history. */
  lemma SamePrefix(front: seq<Action>, a: Action, k: nat)
    requires k <= |front|
    ensures (front + [a])[..k] == front[..k] && (k < |front| ==> (front + [a])[k] == front[k])
    ensures front[..|front|] == front && (front + [a])[..|front| + 1] == front + [a]
  {
  }

  // ---------- each action keeps the invariant ----------

  /** Rewriting rows one by one keeps the invariant when no row reopens, moves or gains a key,
      and when a common live key after the rewriting was one before. */
  lemma RewriteInv(db: Db, after: Db)
    requires Inv(db) && RulesOk(after) && after.calls > db.calls && after.nextEvent == db.nextEvent
    requires |after.events| == |db.events| && Evolves(db.events, after.events)
    requires forall i :: 0 <= i < |db.events| ==> RowOk(after.events[i], after)
    requires forall i, j ::
               0 <= i < j < |db.events| && SameKey(after.events[i], after.events[j]) && !Orphan(after.events[i])
               ==> SameKey(db.events[i], db.events[j]) && !Orphan(db.events[i])
    ensures Inv(after)
  {
    forall i, j | 0 <= i < j < |after.events| ensures PairOk(after.events[i], after.events[j]) {
      assert PairOk(db.events[i], db.events[j]) && RowOk(db.events[i], db);
      assert RowEvolves(db.events[i], after.events[i]) && RowEvolves(db.events[j], after.events[j]);
    }
  }

  ghost predicate Kept(db: Db, after: Db) {
    Inv(after) && Evolves(db.events, after.events) && after.calls >= db.calls
  }

  lemma OperatorKeeps(db: Db, a: Action)
    requires Inv(db) && (a.AcknowledgeEvent? || a.ResolveEvent?)
    ensures Kept(db, Apply(db, a))
  {
    var after := Apply(db, a);
    forall i | 0 <= i < |db.events| ensures RowOk(after.events[i], after) { assert RowOk(db.events[i], db); }
    RewriteInv(db, after);
  }

  lemma EditKeeps(db: Db, a: Action)
    requires Inv(db) && (a.AddRule? || a.EditRule?)
    ensures Kept(db, Apply(db, a))
  {
    var after := Apply(db, a);
    forall i | 0 <= i < |db.events| ensures RowOk(after.events[i], after) { assert RowOk(db.events[i], db); }
    RewriteInv(db, after);
  }

  lemma DropRuleKeeps(db: Db, rule: int)
    requires Inv(db)
    ensures Kept(db, Apply(db, DropRule(rule)))
  {
    var after := Apply(db, DropRule(rule));
    forall i | 0 <= i < |db.events| ensures RowOk(after.events[i], after) { assert RowOk(db.events[i], db); }
    RewriteInv(db, after);
  }

  lemma DropSubjectKeeps(db: Db, a: Action)
    requires Inv(db) && (a.DropTenant? || a.DropBucket?)
    ensures Kept(db, Apply(db, a))
  {
    var after := Apply(db, a);
    forall i | 0 <= i < |db.events|
      ensures RowOk(after.events[i], after)
      ensures after.events[i] != db.events[i] && after.events[i].ruleId.Some? ==> Orphan(after.events[i])
    {
      assert RowOk(db.events[i], db);
    }
    RewriteInv(db, after);
  }

  lemma ApplyKeeps(db: Db, a: Action)
    requires Inv(db)
    ensures Kept(db, Apply(db, a))
  {
    match a
    case Evaluate(w) => RunInv(db, w);
    case AcknowledgeEvent(_, _) => OperatorKeeps(db, a);
    case ResolveEvent(_) => OperatorKeeps(db, a);
    case AddRule(_, _, _, _) => EditKeeps(db, a);
    case EditRule(_, _, _, _) => EditKeeps(db, a);
    case DropRule(rule) => DropRuleKeeps(db, rule);
    case DropTenant(_) => DropSubjectKeeps(db, a);
    case DropBucket(_) => DropSubjectKeeps(db, a);
  }

  /** Every reachable state satisfies the invariant. */
  lemma {:induction false} ReachableInv(actions: seq<Action>)
    ensures Inv(History(EMPTY, actions))
  {
    if actions != [] {
      ReachableInv(actions[..|actions| - 1]);
      ApplyKeeps(History(EMPTY, actions[..|actions| - 1]), actions[|actions| - 1]);
    }
  }

  // ---------- what it means for operators ----------

  /** At most one open event per live key: of two events sharing one, the earlier is resolved. */
  lemma AtMostOneOpen(actions: seq<Action>, i: int, j: int)
    requires var t := History(EMPTY, actions).events;
             0 <= i < j < |t| && SameKey(t[i], t[j]) && !Orphan(t[i])
    ensures History(EMPTY, actions).events[i].status == Resolved
  {
    ReachableInv(actions);
    var db := History(EMPTY, actions);
    assert RowOk(db.events[i], db) && PairOk(db.events[i], db.events[j]);
  }

  /** Two events with a common live key are open at disjoint times, by any clock that does not run backwards. */
  lemma DisjointPeriods(actions: seq<Action>, i: int, j: int, wall: nat -> int)
    requires forall x: nat, y: nat :: x <= y ==> wall(x) <= wall(y)
    requires var t := History(EMPTY, actions).events;
             0 <= i < j < |t| && SameKey(t[i], t[j]) && !Orphan(t[i])
    ensures var t := History(EMPTY, actions).events;
            t[i].resolvedAt.Some? && wall(t[i].firedAt) <= wall(t[i].resolvedAt.value) <= wall(t[j].firedAt)
  {
    ReachableInv(actions);
    var db := History(EMPTY, actions);
    assert PairOk(db.events[i], db.events[j]) && RowOk(db.events[i], db);
  }

  /** From any moment of a history to any later one: rows stay in place, a resolved row keeps its
      status and its `resolved_at` for good, keys are only nulled. */
  lemma {:induction false} ResolvedIsFinal(earlier: seq<Action>, later: seq<Action>)
    ensures Evolves(History(EMPTY, earlier).events, History(EMPTY, earlier + later).events)
    decreases |later|
  {
    if later == [] {
      assert earlier + later == earlier;
      var t := History(EMPTY, earlier).events;
      assert forall i :: 0 <= i < |t| ==> RowEvolves(t[i], t[i]);
    } else {
      var n := |later| - 1;
      ResolvedIsFinal(earlier, later[..n]);
      var before := History(EMPTY, earlier + later[..n]);
      assert (earlier + later)[..|earlier + later| - 1] == earlier + later[..n];
      ReachableInv(earlier + later[..n]);
      ApplyKeeps(before, later[n]);
      EvolvesTransitive(History(EMPTY, earlier).events, before.events, History(EMPTY, earlier + later).events);
    }
  }

  /** No history of evaluator runs ever closes an orphan: only an operator can. */
  lemma {:induction false} OrphansOutlive(actions: seq<Action>, runs: seq<Action>)
    requires forall k :: 0 <= k < |runs| ==> runs[k].Evaluate?
    ensures OrphansKept(History(EMPTY, actions).events, History(EMPTY, actions + runs).events)
    decreases |runs|
  {
    if runs == [] {
      assert actions + runs == actions;
    } else {
      var n := |runs| - 1;
      OrphansOutlive(actions, runs[..n]);
      assert (actions + runs)[..|actions + runs| - 1] == actions + runs[..n];
      ReachableInv(actions + runs[..n]);
      RunKeepsOrphans(History(EMPTY, actions + runs[..n]), runs[n].w);
    }
  }
}
