/** The request handlers for accounts and grants, call by call; any call may fail or lose its reply. */
module ProjectionService {
  import opened Common
  import opened GrantIds
  import opened ProjectionModel

  datatype Status = Ok | BadRequest | NotFound | Conflict | Unprocessable | DatabaseError | TenantError

  function Active(s: State, b: int): bool {
    b in s.buckets && s.buckets[b].active
  }

  function SetOf(ids: seq<int>): set<int> {
    set x | x in ids
  }

  // ---------- what requests carry ----------

  /** White space as `strings.TrimSpace` knows it. */
  predicate Space(c: char) {
    || '\U{0009}' <= c <= '\U{000D}' || c == ' ' || c == '\U{0085}' || c == '\U{00A0}' || c == '\U{1680}'
    || '\U{2000}' <= c <= '\U{200A}' || c == '\U{2028}' || c == '\U{2029}' || c == '\U{202F}' || c == '\U{205F}'
    || c == '\U{3000}'
  }

  function Trim(s: string): (t: string)
    ensures t != "" ==> !Space(t[0]) && !Space(t[|t| - 1])
    ensures t == "" <==> forall i :: 0 <= i < |s| ==> Space(s[i])
  {
    if s == "" then ""
    else if Space(s[0]) then Trim(s[1..])
    else if Space(s[|s| - 1]) then Trim(s[..|s| - 1])
    else s
  }

  /** White space goes at both ends, and nothing else does. */
  lemma {:induction false} TrimExactly(s: string)
    ensures Within(Trim(s), s)
    decreases |s|
  {
    if s != "" && Space(s[0]) {
      TrimExactly(s[1..]);
      var i :| 0 <= i <= |s[1..]| - |Trim(s)| && CutAt(Trim(s), s[1..], i);
      CutBehind(Trim(s), s, i);
    } else if s != "" && Space(s[|s| - 1]) {
      var front := s[..|s| - 1];
      TrimExactly(front);
      var i :| 0 <= i <= |front| - |Trim(s)| && CutAt(Trim(s), front, i);
      CutBefore(Trim(s), s, i);
    } else {
      assert CutAt(s, s, 0);
    }
  }

  /** `t` is `s` from `i` on, with nothing but white space around it. */
  ghost predicate CutAt(t: string, s: string, i: int) {
    && 0 <= i <= |s| - |t| && t == s[i..i + |t|]
    && (forall k :: 0 <= k < i ==> Space(s[k])) && (forall k :: i + |t| <= k < |s| ==> Space(s[k]))
  }

  lemma CutBehind(t: string, s: string, i: nat)
    requires s != "" && Space(s[0]) && CutAt(t, s[1..], i)
    ensures CutAt(t, s, i + 1)
  {
    hide Space;
    assert t == s[i + 1..i + 1 + |t|];
    forall k | 0 <= k < i + 1 ensures Space(s[k]) {
      if k > 0 { assert s[1..][k - 1] == s[k]; }
    }
    forall k | i + 1 + |t| <= k < |s| ensures Space(s[k]) { assert s[1..][k - 1] == s[k]; }
  }

  lemma CutBefore(t: string, s: string, i: nat)
    requires s != "" && Space(s[|s| - 1]) && CutAt(t, s[..|s| - 1], i)
    ensures CutAt(t, s, i)
  {
    hide Space;
    var front := s[..|s| - 1];
    assert t == s[i..i + |t|];
    forall k | 0 <= k < i ensures Space(s[k]) { assert front[k] == s[k]; }
    forall k | i + |t| <= k < |s| ensures Space(s[k]) {
      if k < |front| { assert front[k] == s[k]; }
    }
  }

  ghost predicate Within(t: string, s: string) {
    exists i :: 0 <= i <= |s| - |t| && CutAt(t, s, i)
  }

  function EmptyToNil(text: Option<string>): Option<string> {
    if text.None? || Trim(text.value) == "" then None else Some(Trim(text.value))
  }

  /** An optional text is dropped when there is nothing but white space in it, and otherwise stored without the white
      space around it. */
  lemma EmptyToNilExactly(text: Option<string>)
    ensures EmptyToNil(text).None? <==> text.None? || forall i :: 0 <= i < |text.value| ==> Space(text.value[i])
    ensures EmptyToNil(text).Some? ==>
              var stored := EmptyToNil(text).value;
              && stored != "" && !Space(stored[0]) && !Space(stored[|stored| - 1]) && Within(stored, text.value)
  {
    if text.Some? { TrimExactly(text.value); }
  }

  function BoolOr(v: Option<bool>, fallback: bool): bool {
    if v.Some? then v.value else fallback
  }

  predicate PasswordOk(password: string, confirm: string, must: bool) {
    8 <= |password| <= 128 && (must || password == confirm)
  }

  /** No region, or one that is known and active; `regions` says which ones are. */
  predicate RegionOk(regions: Option<map<int, bool>>, region: Option<int>) {
    region.None? || (regions.Some? && region.value in regions.value && regions.value[region.value])
  }

  /** The profile of a new row. */
  function NewProfile(p: Profile): Profile {
    p.(displayName := EmptyToNil(p.displayName), email := EmptyToNil(p.email), phone := EmptyToNil(p.phone),
       status := "active")
  }

  function Placed(p: Profile, region: Option<Option<int>>): Profile {
    if region.Some? then p.(region := region.value) else p
  }

  lemma HeldAfterReplace(s: State, id: int, ids: set<int>)
    requires ids <= s.buckets.Keys
    ensures Held(Do(SetGrants(id, ids), s), id) == set b | b in ids :: s.buckets[b].name
  {
    var t := Do(SetGrants(id, ids), s);
    assert forall b :: (id, b) in t.grants <==> b in ids;
  }

  lemma TellingKeepsGrants(s: State, id: int, username: string, names: set<string>)
    ensures Held(Do(PutBuckets(username, names), s), id) == Held(s, id)
  {
  }

  lemma Extend(trace: seq<State>, s: State, op: Op)
    requires History(trace) && Allowed(op, trace[|trace| - 1]) && s == Do(op, trace[|trace| - 1])
    ensures History(trace + [s])
  {
    var t := trace + [s];
    assert Step(trace[|trace| - 1], s);
    forall i | 0 < i < |t| ensures Step(t[i - 1], t[i]) {
      if i < |trace| { assert Step(trace[i - 1], trace[i]); }
    }
  }

  lemma FitsIsAllowed(s: State, id: int, ids: seq<int>)
    requires InsertAll(Cleared(s.grants, id), id, ids, s.accounts.Keys, s.buckets.Keys).Some?
    ensures Allowed(SetGrants(id, SetOf(ids)), s) && Do(SetGrants(id, SetOf(ids)), s).tenant == s.tenant
    ensures Do(SetGrants(id, SetOf(ids)), s).grants
            == InsertAll(Cleared(s.grants, id), id, ids, s.accounts.Keys, s.buckets.Keys).value
  {
    KeysHitExactly(s.grants, id, ids, s.accounts.Keys, s.buckets.Keys);
    assert (set b | b in SetOf(ids) :: (id, b)) == Granted(id, ids);
    forall x | x in SetOf(ids) ensures x in s.buckets.Keys && id in s.accounts.Keys {
      assert x in ids;
    }
  }

  function NamesOf(s: State, ids: set<int>): set<string> {
    set b | b in ids && b in s.buckets :: s.buckets[b].name
  }

  lemma NamesListed(s: State, request: seq<int>, ids: seq<int>, listed: seq<string>)
    requires ids == FirstPlaces(request) && |listed| == |ids|
    requires forall i :: 0 <= i < |ids| ==> ids[i] in s.buckets && listed[i] == s.buckets[ids[i]].name
    ensures (set name | name in listed) == NamesOf(s, SetOf(request))
  {
    FirstPlacesExactly(request);
    forall name | name in NamesOf(s, SetOf(request)) ensures name in listed {
      var b :| b in request && b in s.buckets && s.buckets[b].name == name;
      assert b in ids;
      var i :| 0 <= i < |ids| && ids[i] == b;
      assert listed[i] == name;
    }
    forall name | name in listed ensures name in NamesOf(s, SetOf(request)) {
      var i :| 0 <= i < |listed| && listed[i] == name;
      assert ids[i] in ids;
    }
  }

  lemma HeldIsNames(s: State, id: int, request: seq<int>)
    requires forall x :: x in request ==> Active(s, x)
    ensures Held(Do(SetGrants(id, SetOf(request)), s), id) == NamesOf(s, SetOf(request))
  {
    var ids := SetOf(request);
    assert forall x :: x in ids ==> x in s.buckets;
    HeldAfterReplace(s, id, ids);
    assert (set b | b in ids :: s.buckets[b].name) == NamesOf(s, ids);
  }

  /** What a checked request stores, and that no key can be hit on the way. */
  lemma StoredGrants(s: State, id: int, row: Row, request: seq<int>)
    requires id in s.accounts && s.accounts[id] == row && CheckStatus(s, row, request) == Ok
    ensures InsertAll(Cleared(s.grants, id), id, FirstPlaces(request), s.accounts.Keys, s.buckets.Keys).Some?
    ensures SetOf(FirstPlaces(request)) == SetOf(request)
    ensures var stored := Do(SetGrants(id, SetOf(request)), s);
            Held(stored, id) == NamesOf(s, SetOf(request))
  {
    hide Held, NamesOf, InsertAll, Do;
    FirstPlacesExactly(request);
    forall x ensures x in SetOf(FirstPlaces(request)) <==> x in SetOf(request) {
      assert x in FirstPlaces(request) <==> x in request;
    }
    assert forall x :: x in request ==> Active(s, x);
    CheckedIdsFit(s.grants, id, request, s.accounts.Keys, s.buckets.Keys);
    HeldIsNames(s, id, request);
  }

  // ---------- what a successful request leaves, field by field ----------

  /** The tenant side but for one account. */
  ghost predicate OthersKept(s0: State, s: State, u: string) {
    forall v :: v != u ==> (v in s.tenant <==> v in s0.tenant) && (v in s.tenant ==> s.tenant[v] == s0.tenant[v])
  }

  ghost predicate SameBuckets(s0: State, s: State) {
    s.buckets == s0.buckets && s.grants == s0.grants
  }

  /** What the tenant's account was, or what a new one starts with. */
  function GrantsBefore(s0: State, u: string): set<string> {
    if u in s0.tenant then s0.tenant[u].buckets else {}
  }

  ghost predicate Created(s0: State, s: State, row: Row, linked: bool) {
    && (forall k :: k in s0.accounts ==> s0.accounts[k].username != row.username)
    && s.accounts == s0.accounts[s0.nextId := row] && s.nextId == s0.nextId + 1 && SameBuckets(s0, s)
    && OthersKept(s0, s, row.username)
    && (linked ==>
          row.username in s.tenant && s.tenant[row.username] == Account(row.hash, row.profile, row.mustChange, {}))
    && (!linked ==> s.tenant == s0.tenant)
  }

  ghost predicate Updated(s0: State, s: State, id: int, profile: Profile, limit: Option<int>, linked: bool)
    requires id in s0.accounts
  {
    var row := s0.accounts[id];
    && s.accounts == s0.accounts[id := row.(profile := profile, bucketLimit := limit)] && s.nextId == s0.nextId
    && SameBuckets(s0, s) && OthersKept(s0, s, row.username)
    && (linked ==>
          row.username in s.tenant && s.tenant[row.username].hash == row.hash
          && s.tenant[row.username].profile == profile
          && s.tenant[row.username].buckets == GrantsBefore(s0, row.username)
          && (row.username in s0.tenant ==>
                s.tenant[row.username].mustChange == s0.tenant[row.username].mustChange))
    && (!linked ==> s.tenant == s0.tenant)
  }

  ghost predicate Removed(s0: State, s: State, id: int)
    requires id in s0.accounts
  {
    && (forall k :: k in s.accounts <==> k in s0.accounts && k != id)
    && (forall k :: k in s.accounts ==> s.accounts[k] == s0.accounts[k])
    && (forall g :: g in s.grants <==> g in s0.grants && g.0 != id)
    && s.nextId == s0.nextId && s.buckets == s0.buckets
    && s0.accounts[id].username !in s.tenant && OthersKept(s0, s, s0.accounts[id].username)
  }

  ghost predicate WasReset(s0: State, s: State, id: int, hash: string, linked: bool)
    requires id in s0.accounts
  {
    var row := s0.accounts[id];
    && s.accounts == s0.accounts[id := row.(hash := hash)] && s.nextId == s0.nextId
    && SameBuckets(s0, s) && OthersKept(s0, s, row.username)
    && (linked ==>
          row.username in s.tenant
          && s.tenant[row.username] == Account(hash, row.profile, true, GrantsBefore(s0, row.username)))
    && (!linked ==> s.tenant == s0.tenant)
  }

  /** Only the grants of one account changed, on either side, and the tenant holds exactly the names of the buckets that
      are granted now. */
  ghost predicate Regranted(s0: State, s: State, id: int, linked: bool)
    requires id in s0.accounts
  {
    var u := s0.accounts[id].username;
    && s.accounts == s0.accounts && s.nextId == s0.nextId && s.buckets == s0.buckets
    && (forall g :: g in s.grants && g.0 != id <==> g in s0.grants && g.0 != id)
    && OthersKept(s0, s, u)
    && (linked ==>
          u in s0.tenant && u in s.tenant && s.tenant[u] == s0.tenant[u].(buckets := s.tenant[u].buckets)
          && forall name :: name in s.tenant[u].buckets <==>
               exists b :: b in s.buckets && s.buckets[b].name == name && (id, b) in s.grants)
    && (!linked ==> s.tenant == s0.tenant)
  }

  ghost predicate Revoked(s0: State, s: State, id: int, bucket: int, linked: bool)
    requires id in s0.accounts
  {
    && Regranted(s0, s, id, linked) && (id, bucket) in s0.grants && (id, bucket) !in s.grants
    && s.grants == s0.grants - {(id, bucket)}
    && (linked && bucket in s.buckets ==>
          s0.accounts[id].username in s.tenant
          && s.buckets[bucket].name !in s.tenant[s0.accounts[id].username].buckets)
  }

  /** A bucket appears, changes its status or goes with its grants; nothing is said to the tenant. */
  ghost predicate Rebucketed(s0: State, s: State, op: Op) {
    && s.accounts == s0.accounts && s.nextId == s0.nextId && s.tenant == s0.tenant
    && match op
       case AddBucket(b, name) => s.grants == s0.grants && s.buckets == s0.buckets[b := Bucket(name, true)]
       case SetActive(b, active) =>
         && s.grants == s0.grants
         && s.buckets == if b in s0.buckets then s0.buckets[b := Bucket(s0.buckets[b].name, active)] else s0.buckets
       case DropBucket(b) =>
         && (forall k :: k in s.buckets <==> k in s0.buckets && k != b)
         && (forall k :: k in s.buckets ==> s.buckets[k] == s0.buckets[k])
         && (forall g :: g in s.grants <==> g in s0.grants && g.1 != b)
       case _ => true
  }

  ghost predicate Replaced(s0: State, s: State, id: int, request: seq<int>, linked: bool)
    requires id in s0.accounts
  {
    Regranted(s0, s, id, linked) && forall b :: (id, b) in s.grants <==> b in request
  }

  /** A request for the account may store these grants: distinct ids of active buckets, up to the account's limit. */
  ghost predicate MayHold(s: State, id: int, request: seq<int>) {
    && id in s.accounts
    && (forall b :: b in request ==> b >= 1 && b in s.buckets && s.buckets[b].active)
    && (s.accounts[id].bucketLimit.Some? ==> |SetOf(request)| <= s.accounts[id].bucketLimit.value)
  }

  lemma CreatedMeans(s0: State, s: State, row: Row, linked: bool, whenNew: bool)
    requires NoOrphans(s0) && !Taken(s0, row.username)
    requires var stored := Do(InsertRow(row), s0);
             s == if linked then Push(stored, s0.nextId, Some(row.mustChange), whenNew) else stored
    ensures Created(s0, s, row, linked)
  {
  }

  lemma UpdatedMeans(s0: State, s: State, id: int, profile: Profile, limit: Option<int>, linked: bool, whenNew: bool)
    requires id in s0.accounts
    requires var stored := Do(UpdateRow(id, profile, limit), s0);
             s == if linked then Push(stored, id, None, whenNew) else stored
    ensures Updated(s0, s, id, profile, limit, linked)
  {
  }

  lemma ResetMeans(s0: State, s: State, id: int, hash: string, linked: bool, whenNew: bool)
    requires id in s0.accounts
    requires var stored := Do(SetHash(id, hash), s0);
             s == if linked then Push(stored, id, Some(true), whenNew) else stored
    ensures WasReset(s0, s, id, hash, linked)
  {
  }

  lemma RemovedMeans(s0: State, s: State, id: int)
    requires id in s0.accounts && s == Do(DeleteRow(id), Do(DropAccount(s0.accounts[id].username), s0))
    ensures Removed(s0, s, id)
  {
  }

  /** The tenant is told what is granted after the grants of one account changed. */
  lemma RegrantedMeans(s0: State, stored: State, s: State, id: int, linked: bool)
    requires id in s0.accounts && stored == s0.(grants := stored.grants)
    requires forall g :: g in stored.grants && g.0 != id <==> g in s0.grants && g.0 != id
    requires linked ==> s0.accounts[id].username in s0.tenant
    requires s == if linked then Do(PutBuckets(s0.accounts[id].username, Held(stored, id)), stored) else stored
    ensures Regranted(s0, s, id, linked)
  {
  }

  lemma RevokedMeans(s0: State, s: State, id: int, bucket: int, linked: bool)
    requires id in s0.accounts && (id, bucket) in s0.grants && UniqueBuckets(s0)
    requires linked ==> s0.accounts[id].username in s0.tenant
    requires var stored := Do(DropGrant(id, bucket), s0);
             s == if linked then Do(PutBuckets(s0.accounts[id].username, Held(stored, id)), stored) else stored
    ensures Revoked(s0, s, id, bucket, linked)
  {
    RegrantedMeans(s0, Do(DropGrant(id, bucket), s0), s, id, linked);
  }

  lemma ReplacedMeans(s0: State, s: State, id: int, request: seq<int>, linked: bool)
    requires id in s0.accounts
    requires linked ==> s0.accounts[id].username in s0.tenant
    requires var stored := Do(SetGrants(id, SetOf(request)), s0);
             s == if linked then Do(PutBuckets(s0.accounts[id].username, Held(stored, id)), stored) else stored
    ensures Replaced(s0, s, id, request, linked)
  {
    RegrantedMeans(s0, Do(SetGrants(id, SetOf(request)), s0), s, id, linked);
  }

  lemma CheckedMayHold(s: State, id: int, request: seq<int>)
    requires id in s.accounts
    ensures CheckStatus(s, s.accounts[id], request) == Ok <==> MayHold(s, id, request)
  {
    FirstPlacesExactly(request);
    SizeOfDistinct(FirstPlaces(request));
    assert SetOf(FirstPlaces(request)) == SetOf(request);
  }

  /** When a replace succeeds if every call does. */
  lemma ReplaceSucceeds(s: State, id: int, request: seq<int>, linked: bool)
    ensures ReplaceStatus(s, id, request, linked) == Ok <==>
              id >= 1 && MayHold(s, id, request) && (linked ==> s.accounts[id].username in s.tenant)
  {
    if id in s.accounts { CheckedMayHold(s, id, request); }
    hide MayHold, CheckStatus;
    assert MayHold(s, id, request) ==> id in s.accounts by { MayHoldNeedsRow(s, id, request); }
  }

  lemma MayHoldNeedsRow(s: State, id: int, request: seq<int>)
    ensures MayHold(s, id, request) ==> id in s.accounts
  {
  }

  /** And a revoke. */
  lemma RevokeSucceeds(s: State, id: int, bucket: int, linked: bool)
    ensures RevokeStatus(s, id, bucket, linked) == Ok <==>
              id >= 1 && bucket >= 1 && id in s.accounts && (id, bucket) in s.grants
              && (linked ==> s.accounts[id].username in s.tenant)
  {
  }

  lemma {:induction false} SizeOfDistinct(ids: seq<int>)
    requires NoRepeats(ids)
    ensures |SetOf(ids)| == |ids|
  {
    if ids != [] {
      var (front, last) := (ids[..|ids| - 1], ids[|ids| - 1]);
      SizeOfDistinct(front);
      assert ids == front + [last] && SetOf(ids) == SetOf(front) + {last};
    }
  }

  class Panel {
    var s: State
    var calls: nat
    const faults: nat -> Fault
    const linked: bool
    const tenantDefault: bool
    const digest: string -> string
    ghost var trace: seq<State>

    constructor (faults: nat -> Fault, linked: bool, tenantDefault: bool, digest: string -> string)
      ensures Valid() && s == EMPTY && calls == 0 && trace == [EMPTY]
      ensures this.faults == faults && this.linked == linked && this.tenantDefault == tenantDefault
      ensures this.digest == digest
    {
      s, calls, trace := EMPTY, 0, [EMPTY];
      this.faults, this.linked, this.tenantDefault, this.digest := faults, linked, tenantDefault, digest;
    }

    /** The trace is a history that ends here; without a tenant there are no copies. */
    ghost predicate Valid()
      reads this
    {
      History(trace) && trace[|trace| - 1] == s && Inv(s) && (linked || s.tenant == map[])
    }

    // ---------- the two stores ----------

    method Call(op: Op) returns (failed: bool)
      requires Valid() && Allowed(op, s) && (linked || Do(op, s).tenant == s.tenant)
      modifies this
      ensures Valid() && calls == old(calls) + 1 && trace == old(trace) + [s]
      ensures failed == (faults(old(calls)) != Fine)
      ensures s == if faults(old(calls)) == Fails then old(s) else Do(op, old(s))
    {
      hide Do, Allowed, Inv, History;
      failed := faults(calls) != Fine;
      ghost var done := if faults(calls) == Fails then Nothing else op;
      NothingHappens(s);
      Extend(trace, Do(done, s), done);
      StepInv(done, s);
      if faults(calls) != Fails { s := Do(op, s); }
      calls := calls + 1;
      trace := trace + [s];
    }

    /** A query, or a statement inside a transaction. */
    method Ask() returns (failed: bool)
      requires Valid()
      modifies this
      ensures Valid() && calls == old(calls) + 1 && trace == old(trace) + [s] && s == old(s)
      ensures failed == (faults(old(calls)) != Fine)
    {
      failed := Call(Nothing);
    }

    /** A unique index refuses a second row with the same username. */
    method InsertAccount(row: Row) returns (id: int, conflict: bool, failed: bool)
      requires Valid()
      modifies this
      ensures Valid() && old(trace) <= trace && old(calls) < calls
      ensures conflict ==> Taken(old(s), row.username) && s == Do(SkipId, old(s))
      ensures failed ==>
                s == old(s)
                || s == Do(SkipId, old(s))
                || (!Taken(old(s), row.username) && s == Do(InsertRow(row), old(s)))
      ensures !conflict && !failed
              ==> !Taken(old(s), row.username) && s == Do(InsertRow(row), old(s)) && id == old(s.nextId)
      ensures AllFine(faults, old(calls), calls) ==> !failed
    {
      id, conflict := s.nextId, false;
      if Taken(s, row.username) {
        failed := Call(SkipId);
        return id, !failed, failed;
      }
      failed := Call(InsertRow(row));
      if failed { return; }
      failed := Ask();
    }

    method GetByID(id: int) returns (u: Option<Row>, failed: bool)
      requires Valid()
      modifies this
      ensures Valid() && old(trace) <= trace && old(calls) < calls && s == old(s)
      ensures failed == (faults(old(calls)) != Fine) && calls == old(calls) + 1
      ensures !failed ==> u == if id in s.accounts then Some(s.accounts[id]) else None
    {
      failed := Ask();
      u := if id in s.accounts then Some(s.accounts[id]) else None;
    }

    /** Sends what the row says now, with the password read in a query of its own. */
    method PushAccount(id: int, u: Row, must: Option<bool>) returns (failed: bool)
      requires Valid() && id in s.accounts && u.username == s.accounts[id].username
      requires u.profile == s.accounts[id].profile
      modifies this
      ensures Valid() && old(trace) <= trace && old(calls) < calls
      ensures var sent := Sent(old(s), id, must);
              if failed then s == old(s) || s == sent else s == sent
      ensures AllFine(faults, old(calls), calls) ==> !failed
    {
      failed := Ask();
      if failed || !linked { return; }
      failed := Call(PutAccount(u.username, s.accounts[id].hash, u.profile, must, tenantDefault));
    }

    /** The tenant side after a successful push. */
    function Sent(s: State, id: int, must: Option<bool>): State
      requires id in s.accounts
    {
      if linked then Push(s, id, must, tenantDefault) else s
    }

    /** The path id, then the row. */
    method Load(id: int) returns (u: Option<Row>, status: Status)
      requires Valid()
      modifies this
      ensures Valid() && old(trace) <= trace && old(calls) <= calls && s == old(s)
      ensures (status == Ok <==> u.Some?) && (u.Some? ==> id in s.accounts && u.value == s.accounts[id])
      ensures status in {Ok, BadRequest, NotFound, DatabaseError}
      ensures status == BadRequest <==> id < 1
      ensures status == NotFound ==> id !in s.accounts
      ensures AllFine(faults, old(calls), calls) ==> status != DatabaseError
    {
      if id < 1 { return None, BadRequest; }
      var failed;
      u, failed := GetByID(id);
      if failed { return None, DatabaseError; }
      if u.None? { return None, NotFound; }
      return u, Ok;
    }

    /** Buckets come, change their status and go by other requests; the grants of a bucket go with it, untold. */
    method ChangeBuckets(op: Op) returns (failed: bool)
      requires Valid() && (op.AddBucket? || op.SetActive? || op.DropBucket?) && Allowed(op, s)
      modifies this
      ensures Valid() && trace == old(trace) + [s] && failed == (faults(old(calls)) != Fine)
      ensures s == if faults(old(calls)) == Fails then old(s) else Do(op, old(s))
      ensures !failed ==> Rebucketed(old(s), s, op)
    {
      failed := Call(op);
    }

    // ---------- accounts ----------

    /** The lookup counts as a refusal when it fails. */
    method CheckRegion(regions: Option<map<int, bool>>, region: Option<int>) returns (ok: bool)
      requires Valid()
      modifies this
      ensures Valid() && old(trace) <= trace && old(calls) <= calls && s == old(s)
      ensures ok ==> RegionOk(regions, region)
      ensures AllFine(faults, old(calls), calls) ==> ok == RegionOk(regions, region)
    {
      if region.None? { return true; }
      if regions.None? { return false; }
      var failed := Ask();
      ok := !failed && region.value in regions.value && regions.value[region.value];
    }

    /** `regions` is what the regions store holds, if there is one. */
    method Create(username: string, password: string, confirm: string, profile: Profile, bucketLimit: Option<int>,
                  mustChange: Option<bool>, regions: Option<map<int, bool>>)
      returns (status: Status)
      requires Valid()
      modifies this
      ensures Valid() && old(trace) <= trace && old(calls) <= calls
      ensures var expected := CreateStatus(old(s), username, password, confirm, profile.region, mustChange, regions);
              && (status == expected || status in {Unprocessable, DatabaseError, TenantError})
              && (AllFine(faults, old(calls), calls) ==> status == expected)
      ensures var must := BoolOr(mustChange, true);
              var row := Row(Trim(username), digest(password), NewProfile(profile), bucketLimit, must);
              var (stored, id) := (Do(InsertRow(row), old(s)), old(s.nextId));
              match status
              case Ok => s == Sent(stored, id, Some(must)) && !Taken(old(s), Trim(username))
              case TenantError => s == stored || s == Sent(stored, id, Some(must))
              case Conflict => s == Do(SkipId, old(s))
              case DatabaseError => s == old(s) || s == Do(SkipId, old(s)) || s == stored
              case _ => s == old(s)
      ensures status == Conflict ==> s == old(s).(nextId := old(s).nextId + 1)
      ensures status == BadRequest <==>
                (forall i :: 0 <= i < |username| ==> Space(username[i])) || |password| < 8 || |password| > 128
                || (mustChange == Some(false) && password != confirm)
      ensures status == Ok && profile.region.Some? ==>
                regions.Some? && profile.region.value in regions.value && regions.value[profile.region.value]
      ensures status == Ok ==>
                var stored := Profile(EmptyToNil(profile.displayName), EmptyToNil(profile.email),
                                      EmptyToNil(profile.phone), "active", profile.quota, profile.objectLimit,
                                      profile.dailyUpload, profile.region);
                var row := Row(Trim(username), digest(password), stored, bucketLimit, mustChange != Some(false));
                Created(old(s), s, row, linked)
    {
      var name := Trim(username);
      if name == "" { return BadRequest; }
      var must := BoolOr(mustChange, true);
      if !PasswordOk(password, confirm, must) { return BadRequest; }
      var known := CheckRegion(regions, profile.region);
      if !known { return Unprocessable; }
      hide Do, History, Inv, Taken;
      status := StoreNew(Row(name, digest(password), NewProfile(profile), bucketLimit, must));
    }

    /** The row first, then its copy. */
    method StoreNew(row: Row) returns (status: Status)
      requires Valid()
      modifies this
      ensures Valid() && old(trace) <= trace && old(calls) <= calls
      ensures status in {Ok, Conflict, DatabaseError, TenantError}
      ensures status == Conflict ==> Taken(old(s), row.username)
      ensures AllFine(faults, old(calls), calls) ==> status == if Taken(old(s), row.username) then Conflict else Ok
      ensures var (stored, id) := (Do(InsertRow(row), old(s)), old(s.nextId));
              match status
              case Ok => s == Sent(stored, id, Some(row.mustChange)) && !Taken(old(s), row.username)
              case TenantError => s == stored || s == Sent(stored, id, Some(row.mustChange))
              case Conflict => s == Do(SkipId, old(s))
              case _ => s == old(s) || s == Do(SkipId, old(s)) || s == stored
      ensures status == Ok ==> Created(old(s), s, row, linked)
    {
      var id, conflict, failed := InsertAccount(row);
      if conflict { return Conflict; }
      if failed { return DatabaseError; }
      failed := PushAccount(id, row, Some(row.mustChange));
      if failed { return TenantError; }
      CreatedMeans(old(s), s, row, linked, tenantDefault);
      return Ok;
    }

    /** `edit` is what the request asks of the profile but its region; it refuses an unknown status.
        `region` is None when the request leaves the region alone. */
    method Update(id: int, edit: Profile -> Option<Profile>, limit: Option<int> -> Option<int>,
                  region: Option<Option<int>>, regions: Option<map<int, bool>>)
      returns (status: Status)
      requires Valid()
      modifies this
      ensures Valid() && old(trace) <= trace && old(calls) <= calls
      ensures var expected := UpdateStatus(old(s), id, edit, region, regions);
              && (status == expected || status in {Unprocessable, DatabaseError, TenantError})
              && (AllFine(faults, old(calls), calls) ==> status == expected)
      ensures status in {BadRequest, NotFound, Unprocessable} ==> s == old(s)
      ensures status in {Ok, TenantError, DatabaseError} ==>
                if UpdateStatus(old(s), id, edit, region, regions) != Ok then s == old(s) else
                var (row, was, now) := (old(s.accounts[id]), old(s), s);
                var profile := Placed(edit(row.profile).value, region);
                var stored := Do(UpdateRow(id, profile, limit(row.bucketLimit)), was);
                match status
                case Ok => now == Sent(stored, id, None)
                case TenantError => now == stored || now == Sent(stored, id, None)
                case _ => now == was || now == stored
      ensures status == Ok ==>
                && id in old(s.accounts) && edit(old(s.accounts[id].profile)).Some?
                && var (row, profile) := (old(s.accounts[id]), edit(old(s.accounts[id].profile)).value);
                   var placed := if region.Some? then profile.(region := region.value) else profile;
                   Updated(old(s), s, id, placed, limit(row.bucketLimit), linked)
    {
      var u;
      u, status := Load(id);
      if u.None? { return; }
      var profile := edit(u.value.profile);
      if profile.None? { return BadRequest; }
      if region.Some? {
        var known := CheckRegion(regions, region.value);
        if !known { return Unprocessable; }
      }
      status := StoreChanged(id, Placed(profile.value, region), limit(u.value.bucketLimit));
    }

    /** The row first, then the copy as the row reads now. */
    method StoreChanged(id: int, profile: Profile, bucketLimit: Option<int>) returns (status: Status)
      requires Valid() && id in s.accounts
      modifies this
      ensures Valid() && old(trace) <= trace && old(calls) <= calls
      ensures status in {Ok, DatabaseError, TenantError} && (AllFine(faults, old(calls), calls) ==> status == Ok)
      ensures var stored := Do(UpdateRow(id, profile, bucketLimit), old(s));
              match status
              case Ok => s == Sent(stored, id, None)
              case TenantError => s == stored || s == Sent(stored, id, None)
              case _ => s == old(s) || s == stored
      ensures status == Ok ==> Updated(old(s), s, id, profile, bucketLimit, linked)
    {
      var u;
      var failed := Call(UpdateRow(id, profile, bucketLimit));
      if failed { return DatabaseError; }
      u, failed := GetByID(id);
      if failed { return DatabaseError; }
      failed := PushAccount(id, u.value, None);
      if failed { return TenantError; }
      UpdatedMeans(old(s), s, id, profile, bucketLimit, linked, tenantDefault);
      return Ok;
    }

    /** The tenant first: a row goes only when its copy is gone. */
    method Remove(id: int) returns (status: Status)
      requires Valid()
      modifies this
      ensures Valid() && old(trace) <= trace && old(calls) <= calls
      ensures status == FoundStatus(old(s), id) || status in {DatabaseError, TenantError}
      ensures AllFine(faults, old(calls), calls) ==> status == FoundStatus(old(s), id)
      ensures status in {BadRequest, NotFound} ==> s == old(s)
      ensures status in {Ok, TenantError, DatabaseError} ==>
                if FoundStatus(old(s), id) != Ok then s == old(s) else
                var dropped := Do(DropAccount(old(s.accounts[id].username)), old(s));
                match status
                case Ok => s == Do(DeleteRow(id), dropped)
                case TenantError => s == old(s) || s == dropped
                case _ => s == old(s) || s == dropped || s == Do(DeleteRow(id), dropped)
      ensures status == Ok ==> id in old(s.accounts) && Removed(old(s), s, id)
    {
      var u;
      u, status := Load(id);
      if u.None? { return; }
      var failed := false;
      if linked { failed := Call(DropAccount(u.value.username)); }
      if failed { return TenantError; }
      assert s == Do(DropAccount(u.value.username), old(s));
      failed := Call(DeleteRow(id));
      if failed { return DatabaseError; }
      RemovedMeans(old(s), s, id);
      return Ok;
    }

    /** The old record goes to the tenant with the new password and the order to change it; the row keeps its flag. */
    method ResetPassword(id: int, password: string) returns (status: Status)
      requires Valid()
      modifies this
      ensures Valid() && old(trace) <= trace && old(calls) <= calls
      ensures status == ResetStatus(old(s), id, password) || status in {DatabaseError, TenantError}
      ensures AllFine(faults, old(calls), calls) ==> status == ResetStatus(old(s), id, password)
      ensures status in {BadRequest, NotFound} ==> s == old(s)
      ensures status in {Ok, TenantError, DatabaseError} ==>
                if ResetStatus(old(s), id, password) != Ok then s == old(s) else
                var (was, now) := (old(s), s);
                var stored := Do(SetHash(id, digest(password)), was);
                match status
                case Ok => now == Sent(stored, id, Some(true))
                case TenantError => now == stored || now == Sent(stored, id, Some(true))
                case _ => now == was || now == stored
      ensures status == Ok && linked ==>
                && id in s.accounts && s.accounts[id].username in s.tenant
                && (FlagsAgree(s, id) <==> old(s.accounts[id].mustChange))
      ensures status == Ok ==> id in old(s.accounts) && WasReset(old(s), s, id, digest(password), linked)
    {
      if id < 1 || |password| < 8 || |password| > 128 { return BadRequest; }
      var u, failed := GetByID(id);
      if failed { return DatabaseError; }
      if u.None? { return NotFound; }
      failed := Call(SetHash(id, digest(password)));
      if failed { return DatabaseError; }
      failed := PushAccount(id, u.value, Some(true));
      if failed { return TenantError; }
      if linked { ResetFlag(old(s), id, digest(password), tenantDefault); }
      ResetMeans(old(s), s, id, digest(password), linked, tenantDefault);
      return Ok;
    }

    // ---------- grants ----------

    /** The transaction: clear, insert each, commit; whatever fails before the commit rolls everything back. */
    method StoreReplace(id: int, ids: seq<int>) returns (failed: bool)
      requires Valid()
      modifies this
      ensures Valid() && old(trace) <= trace && old(calls) < calls
      ensures var kept := Cleared(old(s.grants), id);
              var fits := InsertAll(kept, id, ids, old(s.accounts).Keys, old(s.buckets).Keys).Some?;
              && (s == old(s) || (fits && s == Do(SetGrants(id, SetOf(ids)), old(s))))
              && (!failed ==> fits && s == Do(SetGrants(id, SetOf(ids)), old(s)))
              && (AllFine(faults, old(calls), calls) ==> (failed <==> !fits))
    {
      hide Do, Inv, History, Cleared, Allowed, SetOf;
      ghost var s0 := s;
      failed := Ask();
      if failed { return; }
      failed := Ask();
      if failed { return; }
      var tx := Cleared(s.grants, id);
      for n := 0 to |ids|
        invariant Valid() && s == s0 && old(trace) <= trace && old(calls) < calls
        invariant InsertAll(Cleared(s.grants, id), id, ids[..n], s.accounts.Keys, s.buckets.Keys) == Some(tx)
      {
        assert ids[..n + 1][..n] == ids[..n];
        failed := Ask();
        var hit := (id, ids[n]) in tx || id !in s.accounts || ids[n] !in s.buckets;
        if hit { KeyHit(Cleared(s.grants, id), id, ids, n + 1, s.accounts.Keys, s.buckets.Keys); }
        if failed || hit { return true; }
        tx := tx + {(id, ids[n])};
      }
      assert ids[..|ids|] == ids;
      FitsIsAllowed(s, id, ids);
      failed := Call(SetGrants(id, SetOf(ids)));
    }

    method PutTenantBuckets(username: string, names: set<string>) returns (failed: bool)
      requires Valid() && exists id :: id in s.accounts && s.accounts[id].username == username && names == Held(s, id)
      modifies this
      ensures Valid() && old(trace) <= trace && old(calls) <= calls
      ensures var told := if linked then Do(PutBuckets(username, names), old(s)) else old(s);
              if failed then s == old(s) || s == told else s == told && (linked ==> username in s.tenant)
      ensures AllFine(faults, old(calls), calls) ==> (failed <==> linked && username !in s.tenant)
    {
      if !linked { return false; }
      failed := Call(PutBuckets(username, names));
      if username !in s.tenant { failed := true; }
    }

    /** Sorts the ids of a request, as the query found them, into names and missing ids. */
    method Resolve(ids: seq<int>) returns (names: seq<string>, missing: seq<int>)
      ensures missing == [] <==> forall i :: 0 <= i < |ids| ==> Active(s, ids[i])
      ensures missing == [] ==> |names| == |ids| && forall i :: 0 <= i < |ids| ==> names[i] == s.buckets[ids[i]].name
    {
      names, missing := [], [];
      for n := 0 to |ids|
        invariant missing == [] <==> forall i :: 0 <= i < n ==> Active(s, ids[i])
        invariant missing == [] ==> |names| == n && forall i :: 0 <= i < n ==> names[i] == s.buckets[ids[i]].name
      {
        if Active(s, ids[n]) {
          names := names + [s.buckets[ids[n]].name];
        } else {
          missing := missing + [ids[n]];
        }
      }
    }

    /** What a replace request must pass before anything is stored. */
    method Check(row: Row, request: seq<int>) returns (ids: seq<int>, names: set<string>, status: Status)
      requires Valid()
      modifies this
      ensures Valid() && old(trace) <= trace && old(calls) <= calls && s == old(s)
      ensures status == CheckStatus(s, row, request) || status == DatabaseError
      ensures status in {Ok, BadRequest, Conflict, DatabaseError}
      ensures AllFine(faults, old(calls), calls) ==> status == CheckStatus(s, row, request)
      ensures status == DatabaseError ==> CheckStatus(s, row, request) != Conflict
      ensures status == Ok ==> ids == FirstPlaces(request) && names == NamesOf(s, SetOf(request))
    {
      hide Inv, History;
      var ok, listed, missing;
      FirstPlacesExactly(request);
      names := {};
      ids, ok := UniqueIDs(request);
      if !ok {
        ghost var i :| 0 <= i < |request| && request[i] < 1;
        assert request[i] in request;
        return ids, names, BadRequest;
      }
      if ExceedsLimit(|ids|, row.bucketLimit) { return ids, names, Conflict; }
      if ids != [] {
        var failed := Ask();
        if failed { return ids, names, DatabaseError; }
      }
      listed, missing := Resolve(ids);
      assert (forall i :: 0 <= i < |ids| ==> Active(s, ids[i])) <==> forall x :: x in request ==> Active(s, x);
      if missing != [] { return ids, names, BadRequest; }
      names := set name | name in listed;
      NamesListed(s, request, ids, listed);
      return ids, names, Ok;
    }

    /** The tenant side after a successful push of the grants. */
    function Told(s: State, id: int): State
      requires id in s.accounts
    {
      if linked then Do(PutBuckets(s.accounts[id].username, Held(s, id)), s) else s
    }

    /** Both sides hold the same grants for the account. */
    predicate Alike(s: State, id: int)
      requires id in s.accounts
    {
      var u := s.accounts[id].username;
      linked ==> u in s.tenant && s.tenant[u].buckets == Held(s, id)
    }

    method Replace(id: int, request: seq<int>) returns (status: Status)
      requires Valid()
      modifies this
      ensures Valid() && old(trace) <= trace && old(calls) <= calls
      ensures status == ReplaceStatus(old(s), id, request, linked) || status in {DatabaseError, TenantError}
      ensures AllFine(faults, old(calls), calls) ==> status == ReplaceStatus(old(s), id, request, linked)
      ensures status in {BadRequest, NotFound, Conflict} ==> s == old(s)
      ensures status in {Ok, TenantError, DatabaseError} ==>
                if ReplaceStatus(old(s), id, request, linked) !in {Ok, TenantError} then s == old(s) else
                var stored := Do(SetGrants(id, SetOf(request)), old(s));
                && id in stored.accounts
                && match status
                   case Ok => s == Told(stored, id) && Alike(s, id)
                   case TenantError => s == stored || s == Told(stored, id)
                   case _ => s == old(s) || s == stored || s == Told(stored, id)
      ensures status == Ok ==> id in old(s.accounts) && Replaced(old(s), s, id, request, linked)
    {
      hide Inv, History, Allowed, CheckStatus, Replaced;
      var u;
      u, status := Load(id);
      if u.None? { return; }
      var ids, names;
      ids, names, status := Check(u.value, request);
      if status != Ok { return; }
      StoredGrants(s, id, u.value, request);
      var failed := StoreReplace(id, ids);
      if failed { return DatabaseError; }
      failed := PutTenantBuckets(u.value.username, names);
      if failed { return TenantError; }
      failed := Ask();
      if failed { return DatabaseError; }
      ReplacedMeans(old(s), s, id, request, linked);
      return Ok;
    }

    /** The names that are granted now are read and sent to the tenant. */
    method TellGrants(id: int) returns (status: Status)
      requires Valid() && id in s.accounts
      modifies this
      ensures Valid() && old(trace) <= trace && old(calls) <= calls && status in {Ok, DatabaseError, TenantError}
      ensures status == Ok ==> s == Told(old(s), id) && (linked ==> old(s.accounts[id].username) in old(s.tenant))
      ensures status == TenantError ==> s == old(s) || s == Told(old(s), id)
      ensures status == DatabaseError ==> s == old(s)
      ensures AllFine(faults, old(calls), calls) ==>
                status == if linked && old(s.accounts[id].username) !in old(s.tenant) then TenantError else Ok
    {
      hide Inv, History, Held;
      var u := s.accounts[id].username;
      var failed := Ask();
      if failed { return DatabaseError; }
      failed := PutTenantBuckets(u, Held(s, id));
      if failed { return TenantError; }
      return Ok;
    }

    method Revoke(id: int, bucket: int) returns (status: Status)
      requires Valid()
      modifies this
      ensures Valid() && old(trace) <= trace && old(calls) <= calls
      ensures status == RevokeStatus(old(s), id, bucket, linked) || status in {DatabaseError, TenantError}
      ensures AllFine(faults, old(calls), calls) ==> status == RevokeStatus(old(s), id, bucket, linked)
      ensures status in {BadRequest, NotFound, Conflict} ==> s == old(s)
      ensures status in {Ok, TenantError, DatabaseError} ==>
                if RevokeStatus(old(s), id, bucket, linked) !in {Ok, TenantError} then s == old(s) else
                var stored := Do(DropGrant(id, bucket), old(s));
                && id in stored.accounts
                && match status
                   case Ok => s == Told(stored, id) && Alike(s, id)
                   case TenantError => s == stored || s == Told(stored, id)
                   case _ => s == old(s) || s == stored
      ensures status == Ok ==> id in old(s.accounts) && Revoked(old(s), s, id, bucket, linked)
    {
      assert UniqueBuckets(s);
      hide Inv, History, Held, Revoked, UniqueBuckets;
      var u;
      u, status := Load(id);
      if u.None? { return; }
      if bucket < 1 { return BadRequest; }
      var granted := (id, bucket) in s.grants;
      var failed := Call(DropGrant(id, bucket));
      if failed { return DatabaseError; }
      if !granted { return NotFound; }
      TellingKeepsGrants(s, id, u.value.username, Held(s, id));
      status := TellGrants(id);
      if status == Ok { RevokedMeans(old(s), s, id, bucket, linked); }
    }
  }

  /** The answer to a request that only needs the account to be there. */
  function FoundStatus(s: State, id: int): Status {
    if id < 1 then BadRequest else if id !in s.accounts then NotFound else Ok
  }

  function CheckStatus(s: State, row: Row, request: seq<int>): Status {
    if exists x :: x in request && x < 1 then BadRequest
    else if ExceedsLimit(|FirstPlaces(request)|, row.bucketLimit) then Conflict
    else if exists x :: x in request && !Active(s, x) then BadRequest
    else Ok
  }

  function ReplaceStatus(s: State, id: int, request: seq<int>, linked: bool): Status {
    if FoundStatus(s, id) != Ok then FoundStatus(s, id)
    else if CheckStatus(s, s.accounts[id], request) != Ok then CheckStatus(s, s.accounts[id], request)
    else if linked && s.accounts[id].username !in s.tenant then TenantError
    else Ok
  }

  function RevokeStatus(s: State, id: int, bucket: int, linked: bool): Status {
    if FoundStatus(s, id) != Ok then FoundStatus(s, id)
    else if bucket < 1 then BadRequest
    else if (id, bucket) !in s.grants then NotFound
    else if linked && s.accounts[id].username !in s.tenant then TenantError
    else Ok
  }

  function UpdateStatus(s: State, id: int, edit: Profile -> Option<Profile>, region: Option<Option<int>>,
                        regions: Option<map<int, bool>>): Status {
    if FoundStatus(s, id) != Ok then FoundStatus(s, id)
    else if edit(s.accounts[id].profile).None? then BadRequest
    else if region.Some? && !RegionOk(regions, region.value) then Unprocessable
    else Ok
  }

  function ResetStatus(s: State, id: int, password: string): Status {
    if |password| < 8 || |password| > 128 then BadRequest else FoundStatus(s, id)
  }

  /** The answer to a create request when every call goes well. */
  function CreateStatus(s: State, username: string, password: string, confirm: string, region: Option<int>,
                        mustChange: Option<bool>, regions: Option<map<int, bool>>): Status {
    if Trim(username) == "" || !PasswordOk(password, confirm, BoolOr(mustChange, true)) then BadRequest
    else if !RegionOk(regions, region) then Unprocessable
    else if Taken(s, Trim(username)) then Conflict
    else Ok
  }

  lemma NothingHappens(s: State)
    ensures Allowed(Nothing, s) && Do(Nothing, s) == s
  {
  }
}
