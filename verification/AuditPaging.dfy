/** One audit log out of two sources: a page is cut from the merge of the first `page * pageSize`
    rows of each source. */
module AuditPaging {
  import opened Common

  const TENANT_ID_SHIFT: int := 1_000_000_000_000
  const EXPORT_ROWS: nat := 10000
  const TWO_63: int := 0x8000_0000_0000_0000

  /** `body` stands for the columns that paging carries along unread. */
  datatype Entry = Entry(id: int, createdAt: int, body: string)

  /** A row as the tenant API sends it; `createdAt` is None when its text is not a timestamp. */
  datatype TenantRow = TenantRow(id: int, createdAt: Option<int>, body: string)

  // ---------- the simple form ----------

  predicate After(a: Entry, b: Entry) {
    if a.createdAt == b.createdAt then a.id > b.id else a.createdAt > b.createdAt
  }

  function Merge(a: seq<Entry>, b: seq<Entry>): seq<Entry>
    decreases |a| + |b|
  {
    if a == [] then b
    else if b == [] then a
    else if After(a[0], b[0]) then [a[0]] + Merge(a[1..], b)
    else [b[0]] + Merge(a, b[1..])
  }

  function Take<T>(s: seq<T>, n: nat): seq<T> {
    if n <= |s| then s[..n] else s
  }

  /** At most `size` rows from position `start`. */
  function Slice<T>(s: seq<T>, start: nat, size: nat): seq<T> {
    if start >= |s| then [] else Take(s[start..], size)
  }

  function Page<T>(s: seq<T>, page: nat, size: nat): seq<T>
    requires page >= 1
  {
    Slice(s, (page - 1) * size, size)
  }

  /** Rows whose timestamp does not parse are dropped, the others get shifted ids. */
  function Entries(rows: seq<TenantRow>): seq<Entry> {
    if rows == [] then []
    else
      var n := |rows| - 1;
      Entries(rows[..n]) +
      if rows[n].createdAt.None? then []
      else [Entry(rows[n].id + TENANT_ID_SHIFT, rows[n].createdAt.value, rows[n].body)]
  }

  /** Row by row, unreadable ones left out and the others in their places. */
  lemma {:induction false} EntriesInOrder(a: seq<TenantRow>, row: TenantRow, b: seq<TenantRow>)
    ensures Entries(a + b) == Entries(a) + Entries(b)
    ensures Entries([row]) ==
              if row.createdAt.None? then []
              else [Entry(row.id + 1_000_000_000_000, row.createdAt.value, row.body)]
    decreases |b|
  {
    assert [row][..0] == [];
    if b == [] {
      assert a + b == a;
    } else {
      var (front, last) := (b[..|b| - 1], b[|b| - 1]);
      EntriesInOrder(a, row, front);
      assert (a + b)[..|a + b| - 1] == a + front && (a + b)[|a + b| - 1] == last;
    }
  }

  method TenantEntries(rows: seq<TenantRow>) returns (out: seq<Entry>)
    ensures out == Entries(rows)
  {
    out := [];
    for i := 0 to |rows|
      invariant out == Entries(rows[..i])
    {
      assert rows[..i + 1][..i] == rows[..i];
      if rows[i].createdAt.None? { continue; }
      out := out + [Entry(rows[i].id + TENANT_ID_SHIFT, rows[i].createdAt.value, rows[i].body)];
    }
    assert rows[..|rows|] == rows;
  }

  // ---------- what the handlers compute, in 64-bit integers ----------

  /** Two's complement wrap-around of an int64. */
  function Wrap(n: int): int {
    (n + TWO_63) % (2 * TWO_63) - TWO_63
  }

  lemma WrapExactly(n: int)
    ensures -0x8000_0000_0000_0000 <= Wrap(n) < 0x8000_0000_0000_0000
    ensures exists k :: n == Wrap(n) + k * 0x1_0000_0000_0000_0000
  {
    var m := n + TWO_63;
    assert n == Wrap(n) + (m / (2 * TWO_63)) * (2 * TWO_63);
  }

  /** `Crash` is the runtime panic of slicing at a negative index, `DatabaseError` the answer to a negative LIMIT. */
  datatype Response = Items(items: seq<Entry>, total: int) | DatabaseError | Crash

  /** The loop of `mergePage`. */
  method MergeRows(ops: seq<Entry>, tenant: seq<Entry>) returns (merged: seq<Entry>)
    ensures merged == Merge(ops, tenant)
  {
    var i, j := 0, 0;
    merged := [];
    assert ops[0..] == ops && tenant[0..] == tenant && [] + Merge(ops, tenant) == Merge(ops, tenant);
    hide Merge, After;
    while i < |ops| || j < |tenant|
      invariant 0 <= i <= |ops| && 0 <= j <= |tenant|
      invariant merged + Merge(ops[i..], tenant[j..]) == Merge(ops, tenant)
      decreases |ops| - i + |tenant| - j
    {
      MergeAdvances(ops, tenant, i, j, merged);
      if i >= |ops| {
        merged := merged + [tenant[j]];
        j := j + 1;
      } else if j >= |tenant| {
        merged := merged + [ops[i]];
        i := i + 1;
      } else if After(ops[i], tenant[j]) {
        merged := merged + [ops[i]];
        i := i + 1;
      } else {
        merged := merged + [tenant[j]];
        j := j + 1;
      }
    }
  }

  method MergePage(ops: seq<Entry>, tenant: seq<Entry>, opsTotal: int, tenantTotal: int, page: nat, pageSize: nat)
    returns (response: Response)
    requires page >= 1 && pageSize >= 1
    ensures response ==
              var start := Wrap((page - 1) * pageSize);
              if start < 0 then Crash else Items(Slice(Merge(ops, tenant), start, pageSize), opsTotal + tenantTotal)
  {
    var merged := MergeRows(ops, tenant);
    var total := opsTotal + tenantTotal;
    var start := Wrap((page - 1) * pageSize);
    if start >= |merged| { return Items([], total); }
    if start < 0 { return Crash; }
    var end := start + pageSize;
    if end > |merged| { end := |merged|; }
    assert merged[start..end] == Slice(merged, start, pageSize);
    return Items(merged[start..end], total);
  }

  lemma MergeAdvances(a: seq<Entry>, b: seq<Entry>, i: nat, j: nat, merged: seq<Entry>)
    requires i <= |a| && j <= |b| && (i < |a| || j < |b|)
    ensures merged + Merge(a[i..], b[j..]) ==
              if j == |b| || (i < |a| && After(a[i], b[j]))
              then merged + [a[i]] + Merge(a[i + 1..], b[j..])
              else merged + [b[j]] + Merge(a[i..], b[j + 1..])
  {
    hide Merge, After;
    MergeNext(a, b, i, j);
  }

  /** What is still to merge at positions `i` and `j`. */
  lemma MergeNext(a: seq<Entry>, b: seq<Entry>, i: nat, j: nat)
    requires i <= |a| && j <= |b| && (i < |a| || j < |b|)
    ensures Merge(a[i..], b[j..]) ==
              if j == |b| || (i < |a| && After(a[i], b[j]))
              then [a[i]] + Merge(a[i + 1..], b[j..])
              else [b[j]] + Merge(a[i..], b[j + 1..])
  {
    MergeFirst(a[i..], b[j..]);
    if i < |a| { assert a[i..][1..] == a[i + 1..]; }
    if j < |b| { assert b[j..][1..] == b[j + 1..]; }
  }

  lemma MergeFirst(a: seq<Entry>, b: seq<Entry>)
    requires a != [] || b != []
    ensures Merge(a, b)
            == if b == [] || (a != [] && After(a[0], b[0])) then [a[0]] + Merge(a[1..], b)
               else [b[0]] + Merge(a, b[1..])
  {
    if a == [] { assert b == [b[0]] + b[1..]; }
    if b == [] { assert a == [a[0]] + a[1..]; assert Merge(a[1..], b) == a[1..]; }
  }

  /** `ops` and `tenant` are what the two sources hold for the filters they are given, newest first. Both are asked for
      page 1 with `page * pageSize` rows and are taken to return the rows asked for. */
  function ListSpec(ops: seq<Entry>, tenant: seq<TenantRow>, page: nat, pageSize: nat): Response
    requires page >= 1 && pageSize >= 1
  {
    var need := Wrap(page * pageSize);
    var start := Wrap((page - 1) * pageSize);
    if need < 0 then DatabaseError
    else if start < 0 then Crash
    else Items(Slice(Merge(Take(ops, need), Entries(Take(tenant, need))), start, pageSize), |ops| + |tenant|)
  }

  method List(ops: seq<Entry>, tenant: seq<TenantRow>, page: nat, pageSize: nat) returns (response: Response)
    requires page >= 1 && 1 <= pageSize <= 100
    ensures response == ListSpec(ops, tenant, page, pageSize)
    ensures SourcesOk(ops, tenant) && page * pageSize < TWO_63 ==> LatestPage(ops, tenant, page, pageSize, response)
  {
    if SourcesOk(ops, tenant) && page * pageSize < TWO_63 { ListMeans(ops, tenant, page, pageSize); }
    hide SourcesOk, LatestPage;
    var need := Wrap(page * pageSize);
    if need < 0 { return DatabaseError; }
    var items := Take(ops, need);
    var converted := TenantEntries(Take(tenant, need));
    response := MergePage(items, converted, |ops|, |tenant|, page, pageSize);
  }

  method Export(ops: seq<Entry>, tenant: seq<TenantRow>) returns (items: seq<Entry>)
    ensures items == Slice(Merge(Take(ops, EXPORT_ROWS), Entries(Take(tenant, EXPORT_ROWS))), 0, EXPORT_ROWS)
    ensures SourcesOk(ops, tenant) ==> LatestRows(ops, tenant, 10000, items)
  {
    if SourcesOk(ops, tenant) { ExportMeans(ops, tenant); }
    hide SourcesOk, LatestRows;
    assert Wrap((1 - 1) * EXPORT_ROWS) == 0;
    hide Wrap, Merge, Take, Slice, Entries;
    var own := Take(ops, EXPORT_ROWS);
    var converted := TenantEntries(Take(tenant, EXPORT_ROWS));
    var response := MergePage(own, converted, |own|, |tenant|, 1, EXPORT_ROWS);
    items := response.items;
  }

  // ---------- the fast form refines the simple one ----------

  /** The first `n` rows of a merge depend on the first `n` rows of each side only. */
  lemma {:induction false} MergePrefix(a: seq<Entry>, b: seq<Entry>, n: nat)
    ensures Take(Merge(Take(a, n), Take(b, n)), n) == Take(Merge(a, b), n)
    decreases n, 0
  {
    var (x, y) := (Take(a, n), Take(b, n));
    if n > 0 && (a != [] || b != []) {
      MergeFirst(a, b);
      MergeFirst(x, y);
      if b == [] || (a != [] && After(a[0], b[0])) {
        MergeStep(a[1..], b, x[1..], y, n - 1);
        TakeFirst(a[0], Merge(a[1..], b), n);
        TakeFirst(a[0], Merge(x[1..], y), n);
      } else {
        MergeStep(a, b[1..], x, y[1..], n - 1);
        TakeFirst(b[0], Merge(a, b[1..]), n);
        TakeFirst(b[0], Merge(x, y[1..]), n);
      }
    }
  }

  /** Longer prefixes than needed do not hurt. */
  lemma MergeStep(a: seq<Entry>, b: seq<Entry>, x: seq<Entry>, y: seq<Entry>, n: nat)
    requires Take(x, n) == Take(a, n) && Take(y, n) == Take(b, n)
    ensures Take(Merge(x, y), n) == Take(Merge(a, b), n)
    decreases n, 1
  {
    MergePrefix(a, b, n);
    MergePrefix(x, y, n);
  }

  lemma TakeFirst<T>(x: T, s: seq<T>, n: nat)
    requires n > 0
    ensures Take([x] + s, n) == [x] + Take(s, n - 1)
  {
  }

  lemma SliceOfTake<T>(s: seq<T>, t: seq<T>, start: nat, size: nat, n: nat)
    requires Take(s, n) == Take(t, n) && start + size <= n
    ensures Slice(s, start, size) == Slice(t, start, size)
  {
    var (p, q) := (Slice(s, start, size), Slice(t, start, size));
    assert forall i :: 0 <= i < |p| ==> p[i] == Take(s, n)[start + i];
    assert forall i :: 0 <= i < |q| ==> q[i] == Take(t, n)[start + i];
    assert |p| == |q|;
  }

  lemma PageEnd(page: nat, size: nat)
    requires page >= 1
    ensures (page - 1) * size + size == page * size
  {
  }

  lemma SliceRefines(a: seq<Entry>, b: seq<Entry>, start: nat, size: nat, n: nat)
    requires start + size == n
    ensures Slice(Merge(Take(a, n), Take(b, n)), start, size) == Slice(Merge(a, b), start, size)
  {
    hide Merge, Slice;
    MergePrefix(a, b, n);
    SliceOfTake(Merge(Take(a, n), Take(b, n)), Merge(a, b), start, size, n);
  }

  /** For every page, size and pair of logs, ordered or not. */
  lemma FastFormRefines(a: seq<Entry>, b: seq<Entry>, page: nat, size: nat)
    requires page >= 1
    ensures Page(Merge(Take(a, page * size), Take(b, page * size)), page, size) == Page(Merge(a, b), page, size)
  {
    hide Merge, Slice, Take;
    PageEnd(page, size);
    SliceRefines(a, b, (page - 1) * size, size, page * size);
  }

  // ---------- timestamps that do not parse ----------

  ghost predicate AllParse(rows: seq<TenantRow>) {
    forall i :: 0 <= i < |rows| ==> rows[i].createdAt.Some?
  }

  /** No unreadable row stands before a readable one. */
  ghost predicate UnreadableLast(rows: seq<TenantRow>) {
    forall i, j :: 0 <= i < j < |rows| && rows[i].createdAt.None? ==> rows[j].createdAt.None?
  }

  lemma {:induction false} EntriesLength(rows: seq<TenantRow>)
    ensures |Entries(rows)| <= |rows| && (|Entries(rows)| == |rows| <==> AllParse(rows))
  {
    if rows != [] {
      EntriesLength(rows[..|rows| - 1]);
    }
  }

  lemma {:induction false} EntriesNone(rows: seq<TenantRow>)
    requires forall i :: 0 <= i < |rows| ==> rows[i].createdAt.None?
    ensures Entries(rows) == []
  {
    if rows != [] { EntriesNone(rows[..|rows| - 1]); }
  }

  lemma {:induction false} EntriesOfTake(rows: seq<TenantRow>, n: nat)
    requires UnreadableLast(rows)
    ensures Entries(Take(rows, n)) == Take(Entries(rows), n)
    decreases |rows|
  {
    EntriesLength(rows);
    if n < |rows| {
      var m := |rows| - 1;
      EntriesOfTake(rows[..m], n);
      assert Take(rows[..m], n) == rows[..n];
      EntriesLength(rows[..m]);
      if rows[m].createdAt.Some? {
        assert AllParse(rows[..m]);
      }
    } else {
      var e := Entries(rows);
      assert rows[..|rows|] == rows && e[..|e|] == e;
    }
  }

  lemma {:induction false} EntriesGrow(rows: seq<TenantRow>, n: nat)
    requires n <= |rows|
    ensures |Entries(rows[..n])| <= |Entries(rows)|
    ensures (exists j :: n <= j < |rows| && rows[j].createdAt.Some?) ==> |Entries(rows[..n])| < |Entries(rows)|
    decreases |rows|
  {
    if n < |rows| {
      var m := |rows| - 1;
      EntriesGrow(rows[..m], n);
      assert rows[..m][..n] == rows[..n];
    } else {
      assert rows[..n] == rows;
    }
  }

  /** The page handed out with unreadable rows around, against the page of the full merge. */
  ghost predicate PageRight(ops: seq<Entry>, rows: seq<TenantRow>, page: nat, size: nat)
    requires page >= 1
  {
    Page(Merge(Take(ops, page * size), Entries(Take(rows, page * size))), page, size)
    == Page(Merge(ops, Entries(rows)), page, size)
  }

  /** The tenant's rows give every page right, whatever the local log, exactly when no unreadable row
      stands before a readable one. */
  lemma PagesRightExactly(rows: seq<TenantRow>)
    ensures (forall ops, page: nat, size: nat :: page >= 1 ==> PageRight(ops, rows, page, size))
            <==> UnreadableLast(rows)
  {
    if UnreadableLast(rows) {
      forall ops, page: nat, size: nat | page >= 1 ensures PageRight(ops, rows, page, size) {
        EntriesOfTake(rows, page * size);
        FastFormRefines(ops, Entries(rows), page, size);
      }
    } else {
      var i, j :| 0 <= i < j < |rows| && rows[i].createdAt.None? && rows[j].createdAt.Some?;
      FirstUnreadable(rows, i, j);
    }
  }

  /** With an unreadable row at `i` and a readable one later, some page of one row comes out empty. */
  lemma FirstUnreadable(rows: seq<TenantRow>, i: nat, j: nat)
    requires i < j < |rows| && rows[i].createdAt.None? && rows[j].createdAt.Some?
    ensures exists page: nat :: page >= 1 && !PageRight([], rows, page, 1)
  {
    var e := Entries(rows[..i]);
    EntriesGrow(rows, i + 1);
    assert rows[..i + 1][..i] == rows[..i];
    assert Entries(rows[..i + 1]) == e;
    var k, page := |e|, |e| + 1;
    EntriesLength(rows[..i]);
    var n := page * 1;
    // the first `page` rows hold at most `k` readable ones
    EntriesOfShorter(rows, n, i + 1);
    var got, full := Merge([], Entries(Take(rows, n))), Merge([], Entries(rows));
    assert Page(got, page, 1) == [] && |Page(full, page, 1)| == 1;
    assert Take<Entry>([], n) == [];
    assert !PageRight([], rows, page, 1);
  }

  lemma EntriesOfShorter(rows: seq<TenantRow>, n: nat, m: nat)
    requires n <= m <= |rows|
    ensures |Entries(Take(rows, n))| <= |Entries(rows[..m])|
  {
    EntriesGrow(rows[..m], n);
    assert rows[..m][..n] == Take(rows, n);
  }

  // ---------- the handlers ----------

  /** The page and the total a client is entitled to. */
  function Wanted(ops: seq<Entry>, tenant: seq<TenantRow>, page: nat, pageSize: nat): Response
    requires page >= 1
  {
    Items(Page(Merge(ops, Entries(tenant)), page, pageSize), |ops| + |tenant|)
  }

  lemma WrapSmall(n: int)
    requires 0 <= n < TWO_63
    ensures Wrap(n) == n
  {
  }

  lemma {:induction false} MergeLength(a: seq<Entry>, b: seq<Entry>)
    ensures |Merge(a, b)| == |a| + |b|
    decreases |a| + |b|
  {
    if a != [] && b != [] {
      if After(a[0], b[0]) { MergeLength(a[1..], b); } else { MergeLength(a, b[1..]); }
    }
  }

  /** Rows that reach the merge of a request for `need` rows from each source. */
  function Fetched(ops: seq<Entry>, tenant: seq<TenantRow>, need: int): nat {
    if need < 0 then 0 else |Take(ops, need)| + |Take(tenant, need)|
  }

  /** Without overflow the answer is right. */
  lemma ListInRange(ops: seq<Entry>, tenant: seq<TenantRow>, page: nat, pageSize: nat)
    requires 1 <= page && AllParse(tenant) && 1 <= pageSize && page * pageSize < TWO_63
    ensures ListSpec(ops, tenant, page, pageSize) == Wanted(ops, tenant, page, pageSize)
  {
    PageEnd(page, pageSize);
    WrapSmall(page * pageSize);
    assert (page - 1) * pageSize >= 0;
    WrapSmall((page - 1) * pageSize);
    EntriesOfTake(tenant, page * pageSize);
    FastFormRefines(ops, Entries(tenant), page, pageSize);
  }

  /** Beyond every row the right answer is the empty page. */
  lemma WantedBeyond(ops: seq<Entry>, tenant: seq<TenantRow>, page: nat, pageSize: nat)
    requires 1 <= page && AllParse(tenant) && (page - 1) * pageSize >= |ops| + |tenant|
    ensures Wanted(ops, tenant, page, pageSize) == Items([], |ops| + |tenant|)
  {
    MergeLength(ops, Entries(tenant));
    EntriesLength(tenant);
  }

  lemma FetchedLength(ops: seq<Entry>, tenant: seq<TenantRow>, need: nat)
    requires AllParse(tenant)
    ensures |Merge(Take(ops, need), Entries(Take(tenant, need)))| == Fetched(ops, tenant, need)
  {
    EntriesLength(Take(tenant, need));
    MergeLength(Take(ops, need), Entries(Take(tenant, need)));
  }

  predicate OverflowHarmless(ops: seq<Entry>, tenant: seq<TenantRow>, need: int, start: int) {
    need >= 0 && start >= Fetched(ops, tenant, need)
  }

  /** The answer is right exactly when `page * pageSize` does not overflow, or overflows to a number of
      rows that is not negative and does not reach the (overflowed) start of the page. */
  lemma ListRight(ops: seq<Entry>, tenant: seq<TenantRow>, page: nat, pageSize: nat)
    requires 1 <= page < TWO_63 && 1 <= pageSize <= 100
    requires AllParse(tenant) && |ops| + |tenant| < TWO_63 - 100
    ensures ListSpec(ops, tenant, page, pageSize) == Wanted(ops, tenant, page, pageSize) <==>
              (page * pageSize < TWO_63
               || OverflowHarmless(ops, tenant, Wrap(page * pageSize), Wrap((page - 1) * pageSize)))
  {
    PageEnd(page, pageSize);
    if page * pageSize < TWO_63 {
      ListInRange(ops, tenant, page, pageSize);
    } else {
      WantedBeyond(ops, tenant, page, pageSize);
      OverflowAnswer(ops, tenant, Wrap(page * pageSize), Wrap((page - 1) * pageSize), pageSize);
    }
  }

  lemma OverflowAnswer(ops: seq<Entry>, tenant: seq<TenantRow>, need: int, start: int, pageSize: nat)
    requires pageSize >= 1 && AllParse(tenant)
    ensures need >= 0 && start >= 0 ==>
              (Slice(Merge(Take(ops, need), Entries(Take(tenant, need))), start, pageSize) == []
               <==> OverflowHarmless(ops, tenant, need, start))
  {
    if need >= 0 { FetchedLength(ops, tenant, need); }
  }

  /** One whose start overflows to a negative number. */
  lemma CrashExample(e: Entry)
    ensures ListSpec([e], [], 0x5555_5555_5555_5556, 3).Crash?
    ensures Wanted([e], [], 0x5555_5555_5555_5556, 3) == Items([], 1)
  {
    assert Wrap(0x5555_5555_5555_5556 * 3) >= 0 && Wrap(0x5555_5555_5555_5555 * 3) < 0;
    assert Entries([]) == [] && Merge([e], []) == [e];
  }

  /** One request the overflow breaks: page 2^61 + 1 of 8 rows shows page 1 again. */
  lemma OverflowExample(e: Entry)
    ensures ListSpec([e], [], 0x2000_0000_0000_0001, 8) == Items([e], 1)
    ensures Wanted([e], [], 0x2000_0000_0000_0001, 8) == Items([], 1)
  {
    assert Wrap(0x2000_0000_0000_0001 * 8) == 8 && Wrap(0x2000_0000_0000_0000 * 8) == 0;
    assert Entries(Take<TenantRow>([], 8)) == [] && Merge([e], []) == [e];
  }

  /** The export is the newest 10000 rows of the full merge. */
  lemma ExportRight(ops: seq<Entry>, tenant: seq<TenantRow>)
    requires AllParse(tenant)
    ensures var (rows, m) := (10000, Merge(ops, Entries(tenant)));
            Slice(Merge(Take(ops, EXPORT_ROWS), Entries(Take(tenant, EXPORT_ROWS))), 0, EXPORT_ROWS)
            == if |m| <= rows then m else m[..rows]
  {
    EntriesOfTake(tenant, EXPORT_ROWS);
    FastFormRefines(ops, Entries(tenant), 1, EXPORT_ROWS);
    var m := Merge(ops, Entries(tenant));
    assert m[0..] == m;
  }

  // ---------- the merged log ----------

  ghost predicate Newest(s: seq<Entry>) {
    forall i, j :: 0 <= i < j < |s| ==> After(s[i], s[j])
  }

  ghost predicate DistinctIds(s: seq<Entry>) {
    forall i, j :: 0 <= i < j < |s| ==> s[i].id != s[j].id
  }

  ghost predicate Foreign(a: seq<Entry>, b: seq<Entry>) {
    forall i, j :: 0 <= i < |a| && 0 <= j < |b| ==> a[i].id != b[j].id
  }

  lemma BagCons(e: Entry, s: seq<Entry>)
    ensures multiset([e] + s) == multiset{e} + multiset(s)
  {
  }

  lemma BagFirst(s: seq<Entry>)
    requires s != []
    ensures multiset(s) == multiset{s[0]} + multiset(s[1..])
  {
    assert s == [s[0]] + s[1..];
  }

  lemma {:induction false} MergeBag(a: seq<Entry>, b: seq<Entry>)
    ensures multiset(Merge(a, b)) == multiset(a) + multiset(b)
    decreases |a| + |b|
  {
    if a != [] && b != [] {
      MergeFirst(a, b);
      if After(a[0], b[0]) {
        MergeBag(a[1..], b);
        hide Merge;
        BagFirst(a);
        BagCons(a[0], Merge(a[1..], b));
      } else {
        MergeBag(a, b[1..]);
        hide Merge;
        BagFirst(b);
        BagCons(b[0], Merge(a, b[1..]));
      }
    }
  }

  lemma MergeIn(a: seq<Entry>, b: seq<Entry>, e: Entry)
    ensures e in Merge(a, b) <==> e in a || e in b
  {
    MergeBag(a, b);
    assert e in Merge(a, b) <==> e in multiset(Merge(a, b));
  }

  /** Putting a newest entry in front of an ordered log. */
  lemma NewestCons(e: Entry, s: seq<Entry>)
    requires Newest(s) && forall x :: x in s ==> After(e, x)
    ensures Newest([e] + s)
  {
    var t := [e] + s;
    forall i, j | 0 <= i < j < |t| ensures After(t[i], t[j]) {
      assert t[j] == s[j - 1];
      if i > 0 { assert t[i] == s[i - 1]; }
    }
  }

  lemma {:induction false} MergeNewest(a: seq<Entry>, b: seq<Entry>)
    requires Newest(a) && Newest(b) && Foreign(a, b)
    ensures Newest(Merge(a, b))
    decreases |a| + |b|
  {
    if a != [] && b != [] {
      if After(a[0], b[0]) {
        MergeNewest(a[1..], b);
        forall x | x in Merge(a[1..], b) ensures After(a[0], x) { MergeIn(a[1..], b, x); HeadNewest(a); HeadNewest(b); }
        NewestCons(a[0], Merge(a[1..], b));
      } else {
        MergeNewest(a, b[1..]);
        forall x | x in Merge(a, b[1..]) ensures After(b[0], x) { MergeIn(a, b[1..], x); HeadNewest(a); HeadNewest(b); }
        NewestCons(b[0], Merge(a, b[1..]));
      }
    }
  }

  lemma HeadNewest(s: seq<Entry>)
    requires Newest(s) && s != []
    ensures forall x :: x in s[1..] ==> After(s[0], x)
  {
    forall x | x in s[1..] ensures After(s[0], x) {
      var k :| 0 <= k < |s[1..]| && s[1..][k] == x;
      assert x == s[k + 1];
    }
  }

  lemma {:induction false} DistinctOfMerge(a: seq<Entry>, b: seq<Entry>)
    requires DistinctIds(a) && DistinctIds(b) && Foreign(a, b)
    ensures DistinctIds(Merge(a, b))
    decreases |a| + |b|
  {
    if a != [] && b != [] {
      var (e, rest) := if After(a[0], b[0]) then (a[0], Merge(a[1..], b)) else (b[0], Merge(a, b[1..]));
      if After(a[0], b[0]) { DistinctOfMerge(a[1..], b); } else { DistinctOfMerge(a, b[1..]); }
      forall k | 0 <= k < |rest| ensures rest[k].id != e.id {
        assert rest[k] in rest;
        if After(a[0], b[0]) { MergeIn(a[1..], b, rest[k]); } else { MergeIn(a, b[1..], rest[k]); }
      }
    }
  }

  predicate TenantAfter(a: TenantRow, b: TenantRow) {
    a.id != b.id && a.createdAt.Some? && b.createdAt.Some?
    && (a.createdAt.value > b.createdAt.value || (a.createdAt == b.createdAt && a.id > b.id))
  }

  /** Later first, and of two at one time the one with the greater id. */
  ghost predicate LatestFirst(s: seq<Entry>) {
    forall i, j :: 0 <= i < j < |s| ==>
      s[i].createdAt > s[j].createdAt || (s[i].createdAt == s[j].createdAt && s[i].id > s[j].id)
  }

  /** What the two databases promise: latest first, primary keys, local ids up to the shift, tenant ids positive. */
  ghost predicate SourcesOk(ops: seq<Entry>, tenant: seq<TenantRow>) {
    && LatestFirst(ops) && DistinctIds(ops)
    && (forall i :: 0 <= i < |ops| ==> ops[i].id <= 1_000_000_000_000)
    && (forall i :: 0 <= i < |tenant| ==> tenant[i].createdAt.Some? && tenant[i].id > 0)
    && (forall i, j :: 0 <= i < j < |tenant| ==> TenantAfter(tenant[i], tenant[j]))
  }

  lemma {:induction false} EntriesAt(rows: seq<TenantRow>, i: nat)
    requires AllParse(rows) && i < |rows|
    ensures |Entries(rows)| == |rows|
    ensures Entries(rows)[i] == Entry(rows[i].id + TENANT_ID_SHIFT, rows[i].createdAt.value, rows[i].body)
  {
    EntriesLength(rows);
    var n := |rows| - 1;
    EntriesLength(rows[..n]);
    if i < n { EntriesAt(rows[..n], i); }
  }

  /** The merged log is latest first, by time and then by id, holds each row of both sources once, those of the tenant
      with their ids shifted by 10^12, and its ids are unique. */
  lemma MergedLog(ops: seq<Entry>, tenant: seq<TenantRow>)
    requires SourcesOk(ops, tenant)
    ensures var (m, e) := (Merge(ops, Entries(tenant)), Entries(tenant));
            && LatestFirst(m) && DistinctIds(m) && multiset(m) == multiset(ops) + multiset(e)
            && |e| == |tenant|
            && forall i :: 0 <= i < |e| ==>
                 e[i] == Entry(tenant[i].id + 1_000_000_000_000, tenant[i].createdAt.value, tenant[i].body)
  {
    var e := Entries(tenant);
    EntriesLength(tenant);
    forall i | 0 <= i < |e|
      ensures e[i] == Entry(tenant[i].id + TENANT_ID_SHIFT, tenant[i].createdAt.value, tenant[i].body)
    {
      EntriesAt(tenant, i);
    }
    MergeNewest(ops, e);
    DistinctOfMerge(ops, e);
    MergeBag(ops, e);
  }

  /** `m` is the log of all rows of both sources, latest first. */
  ghost predicate IsLog(m: seq<Entry>, ops: seq<Entry>, tenant: seq<TenantRow>) {
    && LatestFirst(m)
    && exists e :: multiset(m) == multiset(ops) + multiset(e) && ShiftedRows(e, tenant)
  }

  ghost predicate ShiftedRows(e: seq<Entry>, tenant: seq<TenantRow>) {
    |e| == |tenant| && forall i :: 0 <= i < |e| ==>
      && e[i].id == tenant[i].id + 1_000_000_000_000 && Some(e[i].createdAt) == tenant[i].createdAt
      && e[i].body == tenant[i].body
  }

  /** The rows `from` up to `until` of the log, as far as it goes. */
  ghost predicate Cut(items: seq<Entry>, m: seq<Entry>, from: nat, until: nat) {
    && from <= until
    && if |m| <= from then items == [] else items == m[from..if |m| <= until then |m| else until]
  }

  /** The answer is the page of the log of all rows, latest first, with the number of all rows. */
  ghost predicate LatestPage(ops: seq<Entry>, tenant: seq<TenantRow>, page: nat, size: nat, r: Response) {
    && page >= 1 && r.Items? && r.total == |ops| + |tenant|
    && exists m :: IsLog(m, ops, tenant) && Cut(r.items, m, (page - 1) * size, page * size)
  }

  lemma ListMeans(ops: seq<Entry>, tenant: seq<TenantRow>, page: nat, size: nat)
    requires SourcesOk(ops, tenant) && page >= 1 && size >= 1 && page * size < 0x8000_0000_0000_0000
    ensures LatestPage(ops, tenant, page, size, ListSpec(ops, tenant, page, size))
  {
    SourcesParse(ops, tenant);
    ListInRange(ops, tenant, page, size);
    MergeIsLog(ops, tenant);
    hide *;
    PageIsLatest(ops, tenant, page, size);
  }

  /** The export is the first 10000 rows of the log of all rows, latest first. */
  lemma ExportMeans(ops: seq<Entry>, tenant: seq<TenantRow>)
    requires SourcesOk(ops, tenant)
    ensures LatestRows(ops, tenant, 10000,
                       Slice(Merge(Take(ops, EXPORT_ROWS), Entries(Take(tenant, EXPORT_ROWS))), 0, EXPORT_ROWS))
  {
    SourcesParse(ops, tenant);
    ExportRight(ops, tenant);
    MergeIsLog(ops, tenant);
    hide *;
    FirstRows(Merge(ops, Entries(tenant)), ops, tenant, 10000);
  }

  lemma FirstRows(m: seq<Entry>, ops: seq<Entry>, tenant: seq<TenantRow>, n: nat)
    requires IsLog(m, ops, tenant)
    ensures LatestRows(ops, tenant, n, if |m| <= n then m else m[..n])
  {
    hide IsLog;
    assert m[0..] == m;
    assert Cut(if |m| <= n then m else m[..n], m, 0, n);
  }

  ghost predicate LatestRows(ops: seq<Entry>, tenant: seq<TenantRow>, n: nat, items: seq<Entry>) {
    exists m :: IsLog(m, ops, tenant) && Cut(items, m, 0, n)
  }

  lemma SourcesParse(ops: seq<Entry>, tenant: seq<TenantRow>)
    requires SourcesOk(ops, tenant)
    ensures AllParse(tenant)
  {
  }

  lemma MergeIsLog(ops: seq<Entry>, tenant: seq<TenantRow>)
    requires SourcesOk(ops, tenant)
    ensures IsLog(Merge(ops, Entries(tenant)), ops, tenant)
  {
    MergedLog(ops, tenant);
    hide Merge, Entries, DistinctIds;
    assert ShiftedRows(Entries(tenant), tenant);
  }

  lemma PageIsLatest(ops: seq<Entry>, tenant: seq<TenantRow>, page: nat, size: nat)
    requires page >= 1 && IsLog(Merge(ops, Entries(tenant)), ops, tenant)
    ensures LatestPage(ops, tenant, page, size, Wanted(ops, tenant, page, size))
  {
    var m := Merge(ops, Entries(tenant));
    hide IsLog, Merge, Entries;
    PageStart(page, size);
    PageIsCut(m, page, size);
  }

  lemma PageIsCut(m: seq<Entry>, page: nat, size: nat)
    requires page >= 1
    ensures Cut(Page(m, page, size), m, (page - 1) * size, page * size)
  {
    PageStart(page, size);
    SliceIsCut(m, (page - 1) * size, size);
    hide Cut, Slice;
  }

  lemma SliceIsCut(m: seq<Entry>, start: nat, size: nat)
    ensures Cut(Slice(m, start, size), m, start, start + size)
  {
  }

  /** The reported total is the length of the merged log exactly when every timestamp parses. */
  lemma TotalExact(ops: seq<Entry>, tenant: seq<TenantRow>)
    ensures |Merge(ops, Entries(tenant))| == |ops| + |tenant| <==> AllParse(tenant)
  {
    MergeLength(ops, Entries(tenant));
    EntriesLength(tenant);
  }

  // ---------- pages cut the log into pieces ----------

  function PagesUpTo<T>(s: seq<T>, size: nat, pages: nat): seq<T> {
    if pages == 0 then [] else PagesUpTo(s, size, pages - 1) + Page(s, pages, size)
  }

  /** The pages in order are the log itself, so their lengths add up to its length. */
  lemma {:induction false} PagesCover<T>(s: seq<T>, size: nat, pages: nat)
    ensures PagesUpTo(s, size, pages) == Take(s, pages * size)
  {
    if pages > 0 {
      PagesCover(s, size, pages - 1);
      PageEnd(pages, size);
      TakeSlice(s, (pages - 1) * size, size);
    }
  }

  lemma TakeSlice<T>(s: seq<T>, start: nat, size: nat)
    ensures Take(s, start) + Slice(s, start, size) == Take(s, start + size)
  {
  }

  // ---------- the answers together ----------

  function Shown(r: Response): nat {
    if r.Items? then |r.items| else 0
  }

  /** How many rows the first `pages` answers hold together. */
  function RowsShown(ops: seq<Entry>, tenant: seq<TenantRow>, size: nat, pages: nat): nat
    requires size >= 1
  {
    if pages == 0 then 0 else RowsShown(ops, tenant, size, pages - 1) + Shown(ListSpec(ops, tenant, pages, size))
  }

  lemma PageLength<T>(s: seq<T>, page: nat, size: nat)
    requires page >= 1
    ensures |Page(s, page, size)| ==
              if |s| <= (page - 1) * size then 0
              else if |s| - (page - 1) * size <= size then |s| - (page - 1) * size
              else size
  {
  }

  /** Where a page in range starts and ends. */
  lemma PageStart(page: nat, size: nat)
    requires page >= 1
    ensures 0 <= (page - 1) * size <= page * size && page * size == (page - 1) * size + size
  {
    PageEnd(page, size);
    assert (page - 1) * size >= 0;
  }

  lemma FewerEntries(tenant: seq<TenantRow>, n: nat)
    ensures |Entries(Take(tenant, n))| <= |Entries(tenant)|
  {
    if n <= |tenant| { EntriesGrow(tenant, n); }
  }

  /** No answer holds more than its page of the full log, and with readable rows it holds exactly that. */
  lemma AnswerLength(ops: seq<Entry>, tenant: seq<TenantRow>, page: nat, size: nat)
    requires page >= 1 && size >= 1 && page * size < TWO_63
    ensures var (r, m) := (ListSpec(ops, tenant, page, size), Merge(ops, Entries(tenant)));
            && r.Items? && r.total == |ops| + |tenant| && Shown(r) <= |Page(m, page, size)|
            && (AllParse(tenant) ==> Shown(r) == |Page(m, page, size)|)
  {
    PageStart(page, size);
    var (n, start) := (page * size, (page - 1) * size);
    WrapSmall(n);
    WrapSmall(start);
    hide Merge, Wrap, Entries, AllParse, Take;
    var (m, short) := (Merge(ops, Entries(tenant)), Merge(Take(ops, n), Entries(Take(tenant, n))));
    FewerEntries(tenant, n);
    MergeLength(ops, Entries(tenant));
    MergeLength(Take(ops, n), Entries(Take(tenant, n)));
    PageLength(m, page, size);
    PageLength(short, page, size);
    if AllParse(tenant) { ListInRange(ops, tenant, page, size); }
  }

  lemma {:induction false} RowsShownBound(ops: seq<Entry>, tenant: seq<TenantRow>, size: nat, pages: nat)
    requires size >= 1 && pages * size < TWO_63
    ensures var all := |PagesUpTo(Merge(ops, Entries(tenant)), size, pages)|;
            RowsShown(ops, tenant, size, pages) <= all
            && (AllParse(tenant) ==> RowsShown(ops, tenant, size, pages) == all)
  {
    if pages > 0 {
      PageEnd(pages, size);
      RowsShownBound(ops, tenant, size, pages - 1);
      AnswerLength(ops, tenant, pages, size);
    }
  }

  /** The lengths of all answers sum to the total that each of them reports exactly when every timestamp parses. */
  lemma AnswersAddUp(ops: seq<Entry>, tenant: seq<TenantRow>, size: nat, pages: nat)
    requires size >= 1 && |ops| + |tenant| <= pages * size < TWO_63
    ensures RowsShown(ops, tenant, size, pages) == |ops| + |tenant| <==> AllParse(tenant)
  {
    var m := Merge(ops, Entries(tenant));
    RowsShownBound(ops, tenant, size, pages);
    PagesCover(m, size, pages);
    TotalExact(ops, tenant);
    EntriesLength(tenant);
    MergeLength(ops, Entries(tenant));
  }

  lemma PageEmptyExactly<T>(s: seq<T>, page: nat, size: nat)
    requires page >= 1 && size >= 1
    ensures Page(s, page, size) == [] <==> (page - 1) * size >= |s|
  {
  }

  lemma RowInSlice(s: seq<Entry>, i: nat, start: nat, size: nat)
    requires DistinctIds(s) && i < |s|
    ensures s[i] in Slice(s, start, size) <==> start <= i < start + size
  {
    var p := Slice(s, start, size);
    assert forall k :: 0 <= k < |p| ==> p[k] == s[start + k];
    if start <= i < start + size { assert p[i - start] == s[i]; }
  }

  /** Row `i` of a log of distinct rows is on page `i / size + 1` and on no other. */
  lemma OnePageEach(s: seq<Entry>, i: nat, page: nat, size: nat)
    requires DistinctIds(s) && i < |s| && page >= 1 && size >= 1
    ensures s[i] in Page(s, page, size) <==> page == i / size + 1
  {
    var start := (page - 1) * size;
    RowInSlice(s, i, start, size);
    DivideBounds(i, size);
    if start <= i < start + size { DivideExact(i, page - 1, i - start, size); }
  }

  lemma DivideExact(i: nat, q: nat, r: nat, size: nat)
    requires size >= 1 && i == q * size + r && r < size
    ensures i / size == q
  {
    DivideBounds(i, size);
    var d := i / size;
    if d < q {
      Multiples(d + 1, q, size);
    } else if d > q {
      Multiples(q + 1, d, size);
    }
  }

  lemma Multiples(a: nat, b: nat, size: nat)
    requires a <= b
    ensures a * size <= b * size
  {
  }

  lemma DivideBounds(i: nat, size: nat)
    requires size >= 1
    ensures (i / size) * size <= i < (i / size) * size + size
  {
  }
}
