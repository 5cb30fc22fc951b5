/** Accounts and bucket grants in two stores without a shared transaction: the operations side decides, the tenant side
    is told. A history lists the joint state after every single call to either store, so that it also shows what a
    failing request leaves behind. */
module ProjectionModel {
  import opened Common

  datatype Profile = Profile(displayName: Option<string>, email: Option<string>, phone: Option<string>, status: string,
                             quota: Option<int>, objectLimit: Option<int>, dailyUpload: Option<int>,
                             region: Option<int>)

  datatype Row = Row(username: string, hash: string, profile: Profile, bucketLimit: Option<int>, mustChange: bool)

  datatype Bucket = Bucket(name: string, active: bool)

  /** The tenant's copy of an account. */
  datatype Account = Account(hash: string, profile: Profile, mustChange: bool, buckets: set<string>)

  datatype State = State(accounts: map<int, Row>, nextId: int, buckets: map<int, Bucket>, grants: set<(int, int)>,
                         tenant: map<string, Account>)

  const EMPTY := State(map[], 1, map[], {}, map[])

  predicate Taken(s: State, username: string) {
    exists id :: id in s.accounts && s.accounts[id].username == username
  }

  /** The names of the buckets granted to an account. */
  function Held(s: State, id: int): set<string> {
    set b | b in s.buckets && (id, b) in s.grants :: s.buckets[b].name
  }

  /** The tenant's account after an upsert: grants stay, an omitted flag stays, a new account starts without grants. */
  function Upserted(tenant: map<string, Account>, username: string, hash: string, profile: Profile, must: Option<bool>,
                    whenNew: bool): Account {
    var known := username in tenant;
    Account(hash, profile,
            if must.Some? then must.value else if known then tenant[username].mustChange else whenNew,
            if known then tenant[username].buckets else {})
  }

  // ---------- one call to one store ----------

  datatype Op =
    | Nothing
    | SkipId
    | InsertRow(row: Row)
    | UpdateRow(id: int, profile: Profile, bucketLimit: Option<int>)
    | SetHash(id: int, hash: string)
    | DeleteRow(id: int)
    | SetGrants(id: int, ids: set<int>)
    | DropGrant(id: int, bucket: int)
    | PutAccount(username: string, hash: string, profile: Profile, must: Option<bool>, whenNew: bool)
    | DropAccount(username: string)
    | PutBuckets(username: string, names: set<string>)
    | AddBucket(bucket: int, name: string)
    | SetActive(bucket: int, active: bool)
    | DropBucket(bucket: int)

  /** Deleting an account or a bucket deletes its grants too; an insert refused by the unique index uses up an id. */
  function Do(op: Op, s: State): State {
    match op
    case Nothing => s
    case SkipId => s.(nextId := s.nextId + 1)
    case InsertRow(row) => s.(accounts := s.accounts[s.nextId := row], nextId := s.nextId + 1)
    case UpdateRow(id, profile, limit) =>
      if id !in s.accounts then s
      else s.(accounts := s.accounts[id := s.accounts[id].(profile := profile, bucketLimit := limit)])
    case SetHash(id, hash) =>
      if id !in s.accounts then s
      else s.(accounts := s.accounts[id := s.accounts[id].(hash := hash)])
    case DeleteRow(id) => s.(accounts := s.accounts - {id}, grants := set g | g in s.grants && g.0 != id)
    case SetGrants(id, ids) => s.(grants := (set g | g in s.grants && g.0 != id) + set b | b in ids :: (id, b))
    case DropGrant(id, bucket) => s.(grants := s.grants - {(id, bucket)})
    case PutAccount(username, hash, profile, must, whenNew) =>
      s.(tenant := s.tenant[username := Upserted(s.tenant, username, hash, profile, must, whenNew)])
    case DropAccount(username) => s.(tenant := s.tenant - {username})
    case PutBuckets(username, names) =>
      if username !in s.tenant then s else s.(tenant := s.tenant[username := s.tenant[username].(buckets := names)])
    case AddBucket(bucket, name) => s.(buckets := s.buckets[bucket := Bucket(name, true)])
    case SetActive(bucket, active) =>
      if bucket !in s.buckets then s else s.(buckets := s.buckets[bucket := s.buckets[bucket].(active := active)])
    case DropBucket(bucket) => s.(buckets := s.buckets - {bucket}, grants := set g | g in s.grants && g.1 != bucket)
  }

  predicate CopyOf(row: Row, hash: string, profile: Profile) {
    row.hash == hash && row.profile == profile
  }

  /** When a call may be made: the unique index and the foreign keys of the database, a row is deleted only when the
      tenant has no such account, and the tenant is told only what a row with that username says at that moment. */
  ghost predicate Allowed(op: Op, s: State) {
    match op
    case InsertRow(row) => !Taken(s, row.username)
    case DeleteRow(id) => id in s.accounts ==> s.accounts[id].username !in s.tenant
    case SetGrants(id, ids) => (ids != {} ==> id in s.accounts) && ids <= s.buckets.Keys
    case PutAccount(username, hash, profile, _, _) =>
      exists id :: id in s.accounts && s.accounts[id].username == username && CopyOf(s.accounts[id], hash, profile)
    case PutBuckets(username, names) =>
      exists id :: id in s.accounts && s.accounts[id].username == username && names == Held(s, id)
    case AddBucket(bucket, name) => bucket !in s.buckets && forall b :: b in s.buckets ==> s.buckets[b].name != name
    case _ => true
  }

  ghost predicate Step(s: State, t: State) {
    exists op :: Allowed(op, s) && t == Do(op, s)
  }

  ghost predicate History(trace: seq<State>) {
    |trace| > 0 && trace[0] == EMPTY && forall i :: 0 < i < |trace| ==> Step(trace[i - 1], trace[i])
  }

  // ---------- what every step keeps ----------

  ghost predicate UniqueNames(s: State) {
    forall i, j :: i in s.accounts && j in s.accounts && s.accounts[i].username == s.accounts[j].username ==> i == j
  }

  /** No account on the tenant side without its row. */
  ghost predicate NoOrphans(s: State) {
    forall u :: u in s.tenant ==> Taken(s, u)
  }

  ghost predicate KeysHold(s: State) {
    forall g :: g in s.grants ==> g.0 in s.accounts && g.1 in s.buckets
  }

  ghost predicate Numbered(s: State) {
    forall id :: id in s.accounts ==> id < s.nextId
  }

  ghost predicate UniqueBuckets(s: State) {
    forall a, b :: a in s.buckets && b in s.buckets && s.buckets[a].name == s.buckets[b].name ==> a == b
  }

  ghost predicate Inv(s: State) {
    UniqueNames(s) && NoOrphans(s) && KeysHold(s) && Numbered(s) && UniqueBuckets(s)
  }

  lemma OrphansStep(op: Op, s: State)
    requires NoOrphans(s) && Numbered(s) && Allowed(op, s)
    ensures NoOrphans(Do(op, s))
  {
    var t := Do(op, s);
    forall u | u in t.tenant ensures Taken(t, u) {
      assert op.PutAccount? && u == op.username ==> Taken(s, u);
      assert Taken(s, u);
      var id :| id in s.accounts && s.accounts[id].username == u;
      assert id in t.accounts && t.accounts[id].username == u;
    }
  }

  lemma NamesStep(op: Op, s: State)
    requires UniqueNames(s) && Numbered(s) && Allowed(op, s)
    ensures UniqueNames(Do(op, s))
  {
    assert op.InsertRow? ==> forall k :: k in s.accounts ==> s.accounts[k].username != op.row.username;
  }

  lemma KeysStep(op: Op, s: State)
    requires KeysHold(s) && Numbered(s) && UniqueBuckets(s) && Allowed(op, s)
    ensures KeysHold(Do(op, s)) && Numbered(Do(op, s)) && UniqueBuckets(Do(op, s))
  {
    hide Taken, Held;
  }

  lemma StepInv(op: Op, s: State)
    requires Inv(s) && Allowed(op, s)
    ensures Inv(Do(op, s))
  {
    hide Do, Allowed, NoOrphans, UniqueNames, KeysHold, Numbered, UniqueBuckets;
    OrphansStep(op, s);
    NamesStep(op, s);
    KeysStep(op, s);
  }

  /** In every state of every history, whatever failed on the way. */
  lemma {:induction false} ReachableInv(trace: seq<State>, i: nat)
    requires History(trace) && i < |trace|
    ensures Inv(trace[i])
  {
    if i > 0 {
      ReachableInv(trace, i - 1);
      assert Step(trace[i - 1], trace[i]);
      var op :| Allowed(op, trace[i - 1]) && trace[i] == Do(op, trace[i - 1]);
      StepInv(op, trace[i - 1]);
    }
  }

  // ---------- the tenant only ever has what the operations side had ----------

  ghost predicate HeldBy(trace: seq<State>, i: nat, id: int, names: set<string>)
    requires i < |trace|
  {
    exists j :: 0 <= j <= i && id in trace[j].accounts && Held(trace[j], id) == names
  }

  ghost predicate SaidBy(trace: seq<State>, i: nat, id: int, hash: string, profile: Profile)
    requires i < |trace|
  {
    exists j :: 0 <= j <= i && id in trace[j].accounts && CopyOf(trace[j].accounts[id], hash, profile)
  }

  /** The tenant's copy of the account `id` has the grants this row had at that moment or earlier, and the password and
      profile it had at that moment or earlier. */
  ghost predicate FromThePast(trace: seq<State>, i: nat, id: int)
    requires i < |trace| && id in trace[i].accounts
  {
    var u := trace[i].accounts[id].username;
    && HeldBy(trace, i, id, {})
    && (u in trace[i].tenant ==>
          && HeldBy(trace, i, id, trace[i].tenant[u].buckets)
          && SaidBy(trace, i, id, trace[i].tenant[u].hash, trace[i].tenant[u].profile))
  }

  lemma HeldLater(trace: seq<State>, i: nat, j: nat, id: int, names: set<string>)
    requires i <= j < |trace| && HeldBy(trace, i, id, names)
    ensures HeldBy(trace, j, id, names)
  {
  }

  lemma SaidLater(trace: seq<State>, i: nat, j: nat, id: int, hash: string, profile: Profile)
    requires i <= j < |trace| && SaidBy(trace, i, id, hash, profile)
    ensures SaidBy(trace, j, id, hash, profile)
  {
  }

  /** A new account holds nothing. */
  lemma NewHoldsNothing(s: State, row: Row)
    requires Inv(s)
    ensures Held(Do(InsertRow(row), s), s.nextId) == {}
  {
  }

  lemma NewFromThePast(trace: seq<State>, i: nat, row: Row)
    requires 0 < i < |trace| && Inv(trace[i - 1]) && Allowed(InsertRow(row), trace[i - 1])
    requires trace[i] == Do(InsertRow(row), trace[i - 1])
    ensures FromThePast(trace, i, trace[i - 1].nextId)
  {
    NewHoldsNothing(trace[i - 1], row);
    assert row.username !in trace[i].tenant;
  }

  lemma RowsKept(op: Op, s: State, id: int)
    requires id in Do(op, s).accounts && !(op.InsertRow? && id == s.nextId)
    ensures id in s.accounts && Do(op, s).accounts[id].username == s.accounts[id].username
  {
  }

  /** How one step changes the tenant's copy of an account that is there afterwards. */
  lemma CopySteps(op: Op, s: State, id: int)
    requires Inv(s) && Allowed(op, s) && id in Do(op, s).accounts && !(op.InsertRow? && id == s.nextId)
    requires Do(op, s).accounts[id].username in Do(op, s).tenant
    ensures id in s.accounts && s.accounts[id].username == Do(op, s).accounts[id].username
    ensures var (u, t) := (s.accounts[id].username, Do(op, s));
            && (t.tenant[u].buckets == {} || t.tenant[u].buckets == Held(t, id)
                || (u in s.tenant && t.tenant[u].buckets == s.tenant[u].buckets))
            && (CopyOf(t.accounts[id], t.tenant[u].hash, t.tenant[u].profile)
                || (u in s.tenant && t.tenant[u].hash == s.tenant[u].hash
                    && t.tenant[u].profile == s.tenant[u].profile))
  {
    RowsKept(op, s, id);
    var u := s.accounts[id].username;
    match op
    case PutAccount(username, hash, profile, _, _) =>
      if username == u {
        var other :| other in s.accounts && s.accounts[other].username == username
                     && CopyOf(s.accounts[other], hash, profile);
        assert other == id;
      }
    case PutBuckets(username, names) =>
      if username == u {
        var other :| other in s.accounts && s.accounts[other].username == username && names == Held(s, other);
        assert other == id;
        assert Held(Do(op, s), id) == Held(s, id);
      }
    case _ =>
  }

  /** Every reachable state: each account on the tenant side is an earlier or the present version of its own row. */
  lemma {:induction false} TenantFollows(trace: seq<State>, i: nat, id: int)
    requires History(trace) && i < |trace| && id in trace[i].accounts
    ensures FromThePast(trace, i, id)
  {
    if i > 0 {
      var (s, t) := (trace[i - 1], trace[i]);
      assert Step(s, t);
      var op :| Allowed(op, s) && t == Do(op, s);
      ReachableInv(trace, i - 1);
      if op.InsertRow? && id == s.nextId {
        NewFromThePast(trace, i, op.row);
      } else {
        hide Do, Allowed, Inv, Step, FromThePast, HeldBy;
        RowsKept(op, s, id);
        TenantFollows(trace, i - 1, id);
        StepFromThePast(trace, i, id, op);
      }
    }
  }

  lemma NowHeld(trace: seq<State>, i: nat, id: int)
    requires i < |trace| && id in trace[i].accounts
    ensures HeldBy(trace, i, id, Held(trace[i], id))
    ensures forall hash, profile :: CopyOf(trace[i].accounts[id], hash, profile) ==> SaidBy(trace, i, id, hash, profile)
  {
  }

  lemma StepFromThePast(trace: seq<State>, i: nat, id: int, op: Op)
    requires 0 < i < |trace| && Inv(trace[i - 1]) && Allowed(op, trace[i - 1]) && trace[i] == Do(op, trace[i - 1])
    requires id in trace[i - 1].accounts && id in trace[i].accounts && !(op.InsertRow? && id == trace[i - 1].nextId)
    requires FromThePast(trace, i - 1, id)
    ensures FromThePast(trace, i, id)
  {
    hide HeldBy, SaidBy, Do, Allowed;
    HeldLater(trace, i - 1, i, id, {});
    var (s, t) := (trace[i - 1], trace[i]);
    var u := t.accounts[id].username;
    RowsKept(op, s, id);
    if u in t.tenant {
      CopySteps(op, s, id);
      NowHeld(trace, i, id);
      if u in s.tenant {
        HeldLater(trace, i - 1, i, id, s.tenant[u].buckets);
        SaidLater(trace, i - 1, i, id, s.tenant[u].hash, s.tenant[u].profile);
      }
    }
  }

  /** Without any other word: the tenant's copy of a row's account has the password and profile that the row had in one
      state up to now, and exactly the buckets that were granted to it in one. */
  lemma TenantFollowsPlainly(trace: seq<State>, i: nat, id: int)
    requires History(trace) && i < |trace| && id in trace[i].accounts
    requires trace[i].accounts[id].username in trace[i].tenant
    ensures var copy := trace[i].tenant[trace[i].accounts[id].username];
            && (exists j :: 0 <= j <= i && id in trace[j].accounts
                  && trace[j].accounts[id].hash == copy.hash && trace[j].accounts[id].profile == copy.profile)
            && (exists j :: 0 <= j <= i && id in trace[j].accounts
                  && copy.buckets
                     == set b | b in trace[j].buckets && (id, b) in trace[j].grants :: trace[j].buckets[b].name)
  {
    TenantFollows(trace, i, id);
    var copy := trace[i].tenant[trace[i].accounts[id].username];
    var j :| 0 <= j <= i && id in trace[j].accounts && CopyOf(trace[j].accounts[id], copy.hash, copy.profile);
    assert trace[j].accounts[id].hash == copy.hash;
    var k :| 0 <= k <= i && id in trace[k].accounts && Held(trace[k], id) == copy.buckets;
    assert copy.buckets == set b | b in trace[k].buckets && (id, b) in trace[k].grants :: trace[k].buckets[b].name;
  }

  // ---------- the order to change the password ----------

  /** The tenant's copy of an account carries the flag of its row. */
  predicate FlagsAgree(s: State, id: int)
    requires id in s.accounts && s.accounts[id].username in s.tenant
  {
    s.tenant[s.accounts[id].username].mustChange == s.accounts[id].mustChange
  }

  /** Sends an account as its row is, with the given order. */
  function Push(s: State, id: int, must: Option<bool>, whenNew: bool): (t: State)
    requires id in s.accounts
    ensures t.accounts == s.accounts && s.accounts[id].username in t.tenant
  {
    var row := s.accounts[id];
    Do(PutAccount(row.username, row.hash, row.profile, must, whenNew), s)
  }

  /** When both flags agree after a push: an explicit order must be the row's flag, without one they must have agreed
      before, and a new copy depends on the tenant's own choice. */
  lemma PushedFlag(s: State, id: int, must: Option<bool>, whenNew: bool)
    requires id in s.accounts
    ensures var row := s.accounts[id];
            FlagsAgree(Push(s, id, must, whenNew), id) <==>
              if must.Some? then must.value == row.mustChange
              else if row.username in s.tenant then FlagsAgree(s, id)
              else whenNew == row.mustChange
  {
  }

  /** A reset orders a change at the tenant and leaves the row's flag alone, so that both agree afterwards exactly when
      the row asked for a change already. */
  lemma ResetFlag(s: State, id: int, hash: string, whenNew: bool)
    requires id in s.accounts
    ensures var stored := Do(SetHash(id, hash), s);
            FlagsAgree(Push(stored, id, Some(true), whenNew), id) <==> s.accounts[id].mustChange
  {
    PushedFlag(Do(SetHash(id, hash), s), id, Some(true), whenNew);
  }

  const NOBODY: Profile := Profile(None, None, None, "active", None, None, None, None)

  /** An account created with no order to change its password, then reset: the flags differ in a reachable state. */
  lemma ResetFlagExample(hash: string, other: string)
    ensures var row := Row("a", hash, NOBODY, None, false);
            var created := Push(Do(InsertRow(row), EMPTY), 1, Some(false), true);
            var reset := Push(Do(SetHash(1, other), created), 1, Some(true), true);
            History([EMPTY, Do(InsertRow(row), EMPTY), created, Do(SetHash(1, other), created), reset])
            && FlagsAgree(created, 1) && !FlagsAgree(reset, 1)
  {
    var row := Row("a", hash, NOBODY, None, false);
    var s := Do(InsertRow(row), EMPTY);
    var created := Push(s, 1, Some(false), true);
    var stored := Do(SetHash(1, other), created);
    var trace := [EMPTY, s, created, stored, Push(stored, 1, Some(true), true)];
    assert Allowed(InsertRow(row), EMPTY) && Step(trace[0], trace[1]);
    PushAllowed(s, 1, Some(false), true);
    assert Allowed(SetHash(1, other), created) && Step(trace[2], trace[3]);
    PushAllowed(stored, 1, Some(true), true);
  }

  lemma PushAllowed(s: State, id: int, must: Option<bool>, whenNew: bool)
    requires id in s.accounts
    ensures Step(s, Push(s, id, must, whenNew))
  {
    var row := s.accounts[id];
    assert CopyOf(s.accounts[id], row.hash, row.profile);
    assert Allowed(PutAccount(row.username, row.hash, row.profile, must, whenNew), s);
  }
}
