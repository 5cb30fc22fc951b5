/** The ids of a grant request, and the transaction that stores them. */
module GrantIds {
  import opened Common

  predicate NoRepeats<T(==)>(s: seq<T>) {
    forall i, j :: 0 <= i < j < |s| ==> s[i] != s[j]
  }

  /** Each id at its first place. */
  function FirstPlaces(ids: seq<int>): seq<int> {
    if ids == [] then [] else
    var (front, last) := (FirstPlaces(ids[..|ids| - 1]), ids[|ids| - 1]);
    if last in front then front else front + [last]
  }

  lemma {:induction false} FirstPlacesExactly(ids: seq<int>)
    ensures NoRepeats(FirstPlaces(ids)) && |FirstPlaces(ids)| <= |ids|
    ensures forall x :: x in FirstPlaces(ids) <==> x in ids
  {
    if ids != [] {
      var (front, last) := (ids[..|ids| - 1], ids[|ids| - 1]);
      FirstPlacesExactly(front);
      assert ids == front + [last];
    }
  }

  predicate FirstAt(ids: seq<int>, x: int, l: nat) {
    l < |ids| && ids[l] == x && x !in ids[..l]
  }

  /** The order of the first places is the order of the request. */
  lemma {:induction false} FirstPlacesInOrder(ids: seq<int>, i: nat, j: nat)
    requires i < j < |FirstPlaces(ids)|
    ensures exists k, l :: 0 <= k < l < |ids| && ids[k] == FirstPlaces(ids)[i] && FirstAt(ids, FirstPlaces(ids)[j], l)
  {
    var (front, last) := (ids[..|ids| - 1], ids[|ids| - 1]);
    assert ids == front + [last];
    FirstPlacesExactly(front);
    if j < |FirstPlaces(front)| {
      FirstPlacesInOrder(front, i, j);
      var k, l :| 0 <= k < l < |front| && front[k] == FirstPlaces(front)[i] && FirstAt(front, FirstPlaces(front)[j], l);
      assert ids[..l] == front[..l] && ids[k] == front[k] && FirstAt(ids, FirstPlaces(ids)[j], l);
    } else {
      assert FirstPlaces(ids) == FirstPlaces(front) + [last];
      assert FirstPlaces(front)[i] in FirstPlaces(front);
      var k :| 0 <= k < |front| && front[k] == FirstPlaces(ids)[i];
      var l := |front|;
      assert ids[..l] == front && last !in front;
      assert ids[k] == FirstPlaces(ids)[i] && FirstAt(ids, FirstPlaces(ids)[j], l);
    }
  }

  method UniqueIDs(ids: seq<int>) returns (out: seq<int>, ok: bool)
    ensures ok <==> forall i :: 0 <= i < |ids| ==> ids[i] >= 1
    ensures out == if ok then FirstPlaces(ids) else []
  {
    out := [];
    var seen: set<int> := {};
    for n := 0 to |ids|
      invariant forall i :: 0 <= i < n ==> ids[i] >= 1
      invariant out == FirstPlaces(ids[..n]) && seen == set x | x in out
    {
      var id := ids[n];
      if id < 1 { return [], false; }
      assert ids[..n + 1][..n] == ids[..n];
      if id in seen { continue; }
      seen := seen + {id};
      out := out + [id];
    }
    assert ids[..|ids|] == ids;
    return out, true;
  }

  predicate ExceedsLimit(n: nat, limit: Option<int>) {
    limit.Some? && n > limit.value
  }

  // ---------- the transaction ----------

  /** The inserts of the transaction, one by one; none when the primary key or a foreign key is hit. */
  function InsertAll(grants: set<(int, int)>, account: int, ids: seq<int>, accounts: set<int>, buckets: set<int>)
    : Option<set<(int, int)>>
  {
    if ids == [] then Some(grants) else
    var front := InsertAll(grants, account, ids[..|ids| - 1], accounts, buckets);
    var id := ids[|ids| - 1];
    if front.None? || (account, id) in front.value || account !in accounts || id !in buckets then None
    else Some(front.value + {(account, id)})
  }

  function Cleared(grants: set<(int, int)>, account: int): set<(int, int)> {
    set g | g in grants && g.0 != account
  }

  function Granted(account: int, ids: seq<int>): set<(int, int)> {
    set id | id in ids :: (account, id)
  }

  /** The transaction hits no key exactly when the ids do not repeat and account and buckets are there. */
  lemma {:induction false} KeysHitExactly(grants: set<(int, int)>, account: int, ids: seq<int>, accounts: set<int>,
                                          buckets: set<int>)
    ensures InsertAll(Cleared(grants, account), account, ids, accounts, buckets).Some? <==>
              NoRepeats(ids) && (ids != [] ==> account in accounts) && forall x :: x in ids ==> x in buckets
    ensures InsertAll(Cleared(grants, account), account, ids, accounts, buckets).Some? ==>
              InsertAll(Cleared(grants, account), account, ids, accounts, buckets).value
                == Cleared(grants, account) + Granted(account, ids)
  {
    if ids != [] {
      var (front, last) := (ids[..|ids| - 1], ids[|ids| - 1]);
      KeysHitExactly(grants, account, front, accounts, buckets);
      assert ids == front + [last];
      assert Granted(account, ids) == Granted(account, front) + {(account, last)};
      assert last in front ==> (account, last) in Granted(account, front);
      assert NoRepeats(ids) <==> NoRepeats(front) && last !in front by { RepeatsAtEnd(front, last); }
    }
  }

  /** A key hit half-way is a key hit of the whole transaction. */
  lemma {:induction false} KeyHit(grants: set<(int, int)>, account: int, ids: seq<int>, n: nat, accounts: set<int>,
                                  buckets: set<int>)
    requires n <= |ids| && InsertAll(grants, account, ids[..n], accounts, buckets).None?
    ensures InsertAll(grants, account, ids, accounts, buckets).None?
  {
    if n == |ids| {
      assert ids[..n] == ids;
    } else {
      var front := ids[..|ids| - 1];
      assert front[..n] == ids[..n];
      KeyHit(grants, account, front, n, accounts, buckets);
    }
  }

  lemma RepeatsAtEnd<T>(front: seq<T>, last: T)
    ensures NoRepeats(front + [last]) <==> NoRepeats(front) && last !in front
  {
    var s := front + [last];
    if NoRepeats(s) {
      assert forall i :: 0 <= i < |front| ==> s[i] == front[i] && s[i] != s[|front|];
    }
    if last !in front {
      assert forall i :: 0 <= i < |front| ==> front[i] != last;
    }
  }

  /** What the handler checks before it stores the ids is enough. */
  lemma CheckedIdsFit(grants: set<(int, int)>, account: int, request: seq<int>, accounts: set<int>, buckets: set<int>)
    requires account in accounts && forall x :: x in FirstPlaces(request) ==> x in buckets
    ensures InsertAll(Cleared(grants, account), account, FirstPlaces(request), accounts, buckets) ==
              Some(Cleared(grants, account) + Granted(account, request))
  {
    FirstPlacesExactly(request);
    KeysHitExactly(grants, account, FirstPlaces(request), accounts, buckets);
    assert Granted(account, request) == Granted(account, FirstPlaces(request));
  }
}
