/** Request counters and latency percentiles out of the daemons' perf dumps.
    Samples are exact reals. */
module CephStats {
  import opened Common

  // ---------- sorting ----------

  /** Where one more sample goes: behind every sample that is not greater. */
  function InsertInto(s: seq<real>, x: real): seq<real> {
    if s != [] && x < s[|s| - 1] then InsertInto(s[..|s| - 1], x) + [s[|s| - 1]] else s + [x]
  }

  function Sort(s: seq<real>): seq<real> {
    if s == [] then [] else InsertInto(Sort(s[..|s| - 1]), s[|s| - 1])
  }

  ghost predicate Ascending(s: seq<real>) {
    forall i, j :: 0 <= i < j < |s| ==> s[i] <= s[j]
  }

  lemma InsertEnds(s: seq<real>, i: nat, x: real)
    requires i == |s|
    ensures InsertInto(s, x) == InsertInto(s[..i], x) + s[i..]
  {
    assert s[..i] == s && s[i..] == [];
  }

  lemma InsertStep(s: seq<real>, j: nat, x: real)
    requires 0 < j <= |s| && x < s[j - 1]
    ensures InsertInto(s[..j], x) + s[j..] == InsertInto(s[..j - 1], x) + s[j - 1..]
  {
    assert s[..j][..j - 1] == s[..j - 1] && s[j - 1..] == [s[j - 1]] + s[j..];
  }

  lemma InsertStops(s: seq<real>, j: nat, x: real)
    requires j <= |s| && (j > 0 ==> !(x < s[j - 1]))
    ensures InsertInto(s[..j], x) == s[..j] + [x]
  {
  }

  /** The inner loop: `a[i]` sinks to its place among `a[..i]`. */
  method Sink(a: array<real>, i: nat)
    requires i < a.Length
    modifies a
    ensures a[..i + 1] == InsertInto(old(a[..i]), old(a[i])) && a[i + 1..] == old(a[i + 1..])
  {
    ghost var (s, x, rest) := (a[..i], a[i], a[i + 1..]);
    InsertEnds(s, i, x);
    hide InsertInto;
    var j := i;
    assert a[..] == Sunk(s, x, rest, i);
    while j > 0 && a[j] < a[j - 1]
      invariant 0 <= j <= i && a[..] == Sunk(s, x, rest, j)
      invariant InsertInto(s, x) == InsertInto(s[..j], x) + s[j..]
    {
      SunkAt(s, x, rest, j);
      InsertStep(s, j, x);
      a[j], a[j - 1] := a[j - 1], a[j];
      j := j - 1;
    }
    SunkAt(s, x, rest, j);
    InsertStops(s, j, x);
    assert a[..i + 1] == a[..][..i + 1] && a[i + 1..] == a[..][i + 1..];
  }

  /** The array while `x` is at `j` and the samples of `s` behind it have moved up. */
  function Sunk(s: seq<real>, x: real, rest: seq<real>, j: nat): seq<real>
    requires j <= |s|
  {
    s[..j] + [x] + s[j..] + rest
  }

  lemma SunkAt(s: seq<real>, x: real, rest: seq<real>, j: nat)
    requires j <= |s|
    ensures var t := Sunk(s, x, rest, j);
            && t[j] == x && t[..|s| + 1] == s[..j] + [x] + s[j..] && t[|s| + 1..] == rest
            && (j > 0 ==> t[j - 1] == s[j - 1] && t[j := s[j - 1]][j - 1 := x] == Sunk(s, x, rest, j - 1))
  {
  }

  method SortInPlace(a: array<real>)
    modifies a
    ensures a[..] == Sort(old(a[..]))
  {
    ghost var s := a[..];
    var i := 0;
    while i < a.Length
      invariant 0 <= i <= a.Length && a[..i] == Sort(s[..i]) && a[i..] == s[i..]
    {
      assert a[i] == a[i..][0] == s[i] && s[..i + 1][..i] == s[..i];
      assert a[i + 1..] == a[i..][1..];
      Sink(a, i);
      i := i + 1;
    }
    assert a[..] == a[..i] && s[..i] == s;
  }

  lemma {:induction false} InsertPermutes(s: seq<real>, x: real)
    ensures multiset(InsertInto(s, x)) == multiset(s) + multiset{x}
  {
    if s != [] && x < s[|s| - 1] {
      InsertPermutes(s[..|s| - 1], x);
      assert s == s[..|s| - 1] + [s[|s| - 1]];
    }
  }

  lemma AscendingEnd(t: seq<real>, last: real)
    requires Ascending(t) && forall y :: y in t ==> y <= last
    ensures Ascending(t + [last])
  {
    assert forall k :: 0 <= k < |t| ==> t[k] in t;
  }

  lemma {:induction false} InsertKeeps(s: seq<real>, x: real)
    requires Ascending(s)
    ensures Ascending(InsertInto(s, x)) && multiset(InsertInto(s, x)) == multiset(s) + multiset{x}
  {
    InsertPermutes(s, x);
    if s != [] {
      var (t, last) := (s[..|s| - 1], s[|s| - 1]);
      if x < last {
        InsertKeeps(t, x);
        forall y | y in InsertInto(t, x) ensures y <= last { assert y in multiset(InsertInto(t, x)); }
        AscendingEnd(InsertInto(t, x), last);
      } else {
        forall y | y in s ensures y <= x { assert y <= last; }
        AscendingEnd(s, x);
      }
    }
  }

  lemma {:induction false} SortKeeps(s: seq<real>)
    ensures Ascending(Sort(s)) && multiset(Sort(s)) == multiset(s) && |Sort(s)| == |s|
  {
    if s != [] {
      var (t, last) := (s[..|s| - 1], s[|s| - 1]);
      SortKeeps(t);
      InsertKeeps(Sort(t), last);
      assert s == t + [last];
      assert |multiset(Sort(s))| == |multiset(s)|;
    }
  }

  lemma BagRemove<T>(s: seq<T>, j: nat)
    requires j < |s|
    ensures multiset(s[..j] + s[j + 1..]) == multiset(s) - multiset{s[j]}
  {
    assert s == s[..j] + [s[j]] + s[j + 1..];
  }

  lemma LastIsGreatest(s: seq<real>, y: real)
    requires Ascending(s) && y in multiset(s)
    ensures s != [] && y <= s[|s| - 1]
  {
    var i :| 0 <= i < |s| && s[i] == y;
  }

  lemma BagLast<T>(s: seq<T>)
    requires s != []
    ensures multiset(s[..|s| - 1]) == multiset(s) - multiset{s[|s| - 1]}
  {
    BagRemove(s, |s| - 1);
    assert s[..|s| - 1] + s[|s| - 1 + 1..] == s[..|s| - 1];
  }

  lemma SameGreatest(s: seq<real>, t: seq<real>)
    requires Ascending(s) && Ascending(t) && multiset(s) == multiset(t) && s != []
    ensures t != [] && s[|s| - 1] == t[|t| - 1]
  {
    assert s[|s| - 1] in multiset(s);
    LastIsGreatest(t, s[|s| - 1]);
    assert t[|t| - 1] in multiset(t);
    LastIsGreatest(s, t[|t| - 1]);
  }

  lemma AscendingPrefix(s: seq<real>)
    requires Ascending(s) && s != []
    ensures Ascending(s[..|s| - 1])
  {
  }

  /** An ascending list is determined by its elements. */
  lemma {:induction false} AscendingUnique(s: seq<real>, t: seq<real>)
    requires Ascending(s) && Ascending(t) && multiset(s) == multiset(t)
    ensures s == t
    decreases |s|
  {
    hide Ascending;
    if s != [] {
      SameGreatest(s, t);
      BagLast(s);
      BagLast(t);
      AscendingPrefix(s);
      AscendingPrefix(t);
      AscendingUnique(s[..|s| - 1], t[..|t| - 1]);
      assert s == s[..|s| - 1] + [s[|s| - 1]] && t == t[..|t| - 1] + [t[|t| - 1]];
    } else if t != [] {
      SameGreatest(t, s);
    }
  }

  // ---------- percentiles ----------

  function Round3(x: real): real {
    Truncate(x * 1000.0 + 0.5) as real / 1000.0
  }

  function Round6(x: real): real {
    Truncate(x * 1000000.0 + 0.5) as real / 1000000.0
  }

  function RankIndex(n: nat, p: real): int {
    var idx := Truncate(n as real * p) - 1;
    if idx < 0 then 0 else idx
  }

  lemma RankIndexInRange(n: nat, p: real)
    requires n > 0 && 0.0 <= p <= 1.0
    ensures 0 <= RankIndex(n, p) < n
  {
    assert 0.0 <= n as real * p <= n as real;
  }

  function PercentileOf(samples: seq<real>, p: real): Option<real>
    requires 0.0 <= p <= 1.0
  {
    if samples == [] then None
    else
      RankIndexInRange(|samples|, p);
      SortKeeps(samples);
      Some(Round3(Sort(samples)[RankIndex(|samples|, p)]))
  }

  method Rank(n: nat, p: real) returns (idx: int)
    requires p >= 0.0
    ensures idx == RankIndex(n, p)
  {
    idx := Truncate(n as real * p) - 1;
    if idx < 0 { idx := 0; }
  }

  method Percentile(samples: seq<real>, p: real) returns (r: Option<real>)
    requires 0.0 <= p <= 1.0
    ensures r == PercentileOf(samples, p)
  {
    if |samples| == 0 { return None; }
    var ordered := new real[|samples|](i requires 0 <= i < |samples| => samples[i]);
    assert ordered[..] == samples;
    SortInPlace(ordered);
    var idx := Rank(ordered.Length, p);
    RankIndexInRange(|samples|, p);
    hide Sort, Round3, RankIndex;
    assert ordered[idx] == ordered[..][idx];
    return Some(Round3(ordered[idx]));
  }

  function AtMost(s: seq<real>, c: real): nat {
    if s == [] then 0 else AtMost(s[..|s| - 1], c) + if s[|s| - 1] <= c then 1 else 0
  }

  function AtLeast(s: seq<real>, c: real): nat {
    if s == [] then 0 else AtLeast(s[..|s| - 1], c) + if s[|s| - 1] >= c then 1 else 0
  }

  lemma {:induction false} CountsInsert(s: seq<real>, x: real, c: real)
    ensures AtMost(InsertInto(s, x), c) == AtMost(s, c) + if x <= c then 1 else 0
    ensures AtLeast(InsertInto(s, x), c) == AtLeast(s, c) + if x >= c then 1 else 0
  {
    if s != [] && x < s[|s| - 1] {
      var t := InsertInto(s[..|s| - 1], x);
      CountsInsert(s[..|s| - 1], x, c);
      assert InsertInto(s, x)[..|t|] == t;
    } else {
      assert (s + [x])[..|s|] == s;
    }
  }

  lemma {:induction false} CountsSort(s: seq<real>, c: real)
    ensures AtMost(Sort(s), c) == AtMost(s, c) && AtLeast(Sort(s), c) == AtLeast(s, c)
  {
    if s != [] {
      CountsSort(s[..|s| - 1], c);
      CountsInsert(Sort(s[..|s| - 1]), s[|s| - 1], c);
    }
  }

  lemma {:induction false} CountsAscending(s: seq<real>, k: nat, c: real)
    requires Ascending(s)
    ensures k < |s| && s[k] <= c ==> AtMost(s, c) >= k + 1
    ensures k < |s| && s[k] >= c ==> AtLeast(s, c) >= |s| - k
  {
    if s != [] {
      var n := |s| - 1;
      CountsAscending(s[..n], if k < n then k else if n > 0 then n - 1 else 0, c);
    }
  }

  /** At least max(1, floor(n*p)) samples are at or below the chosen sample, and at least
      n - max(0, floor(n*p) - 1) at or above it. */
  lemma PercentileRank(samples: seq<real>, p: real)
    requires samples != [] && 0.0 <= p <= 1.0
    ensures var n, f := |samples|, (|samples| as real * p).Floor;
            exists c :: c in samples && PercentileOf(samples, p) == Some(Round3(c))
              && AtMost(samples, c) >= (if f < 1 then 1 else f)
              && AtLeast(samples, c) >= n - (if f < 1 then 0 else f - 1)
  {
    var k := RankIndex(|samples|, p);
    RankIndexInRange(|samples|, p);
    SortKeeps(samples);
    var c := Sort(samples)[k];
    assert c in multiset(Sort(samples));
    CountsAscending(Sort(samples), k, c);
    CountsSort(samples, c);
  }

  lemma Round3Monotone(x: real, y: real)
    requires x <= y
    ensures Round3(x) <= Round3(y)
  {
    var (a, b) := (x * 1000.0 + 0.5, y * 1000.0 + 0.5);
    assert a <= b;
    assert Truncate(a) <= Truncate(b);
  }

  lemma ProductNotNegative(x: real, y: real)
    requires x >= 0.0 && y >= 0.0
    ensures x * y >= 0.0
  {
  }

  lemma RankMonotone(n: nat, p: real, q: real)
    requires 0.0 <= p <= q
    ensures RankIndex(n, p) <= RankIndex(n, q)
  {
    var (a, b) := (n as real * p, n as real * q);
    ProductNotNegative(n as real, q - p);
    assert b - a == n as real * (q - p);
    assert Truncate(a) <= Truncate(b);
  }

  /** A higher percentile is never below a lower one, also after rounding. */
  lemma PercentileMonotone(samples: seq<real>, p: real, q: real)
    requires samples != [] && 0.0 <= p <= q <= 1.0
    ensures PercentileOf(samples, p).value <= PercentileOf(samples, q).value
  {
    var n := |samples|;
    RankIndexInRange(n, p);
    RankIndexInRange(n, q);
    RankMonotone(n, p, q);
    SortKeeps(samples);
    hide RankIndex, Round3, Sort;
    var (i, j) := (RankIndex(n, p), RankIndex(n, q));
    var sorted := Sort(samples);
    assert sorted[i] <= sorted[j];
    Round3Monotone(sorted[i], sorted[j]);
  }

  /** The order in which samples were collected does not matter. */
  lemma PercentileUnordered(s: seq<real>, t: seq<real>, p: real)
    requires multiset(s) == multiset(t) && 0.0 <= p <= 1.0
    ensures PercentileOf(s, p) == PercentileOf(t, p)
  {
    SortKeeps(s);
    SortKeeps(t);
    AscendingUnique(Sort(s), Sort(t));
    assert |s| == |multiset(s)| == |multiset(t)| == |t|;
  }

  // ---------- aggregation ----------

  /** A value of the `rgw` object: the readings are None when they are missing or not numeric. */
  datatype Section = NotObject | Counters(avgcount: Option<int>, count: Option<int>, avgtime: Option<real>)

  /** The `rgw` object of one dump, empty when missing. */
  type Dump = map<string, Section>

  const REQUEST_KEYS: set<string> :=
    {"req", "reqs", "requests", "get", "put", "post", "delete", "head", "list", "copy", "multipart"}
  const FAILED_KEYS: set<string> :=
    {"failed_req", "failed_reqs", "err", "error", "errors", "5xx", "failed"}

  predicate CountsRequests(name: string) {
    name in REQUEST_KEYS
  }

  predicate CountsFailures(name: string) {
    name in FAILED_KEYS
  }

  predicate Contains(name: string, part: string) {
    exists i :: 0 <= i <= |name| - |part| && name[i..][..|part|] == part
  }

  function Counter(s: Section): int
    requires s.Counters?
  {
    if s.avgcount.Some? then s.avgcount.value else if s.count.Some? then s.count.value else 0
  }

  datatype Tally = Tally(requests: int, failed: int, samples: multiset<real>)

  const NOTHING: Tally := Tally(0, 0, multiset{})

  function Sum(a: Tally, b: Tally): Tally {
    Tally(a.requests + b.requests, a.failed + b.failed, a.samples + b.samples)
  }

  predicate IsLatency(name: string) {
    Contains(name, "latency") || Contains(name, "time")
  }

  /** What one named section adds. */
  function SectionTally(name: string, s: Section): Tally {
    if s.NotObject? then NOTHING
    else Tally(
      if CountsRequests(name) then Counter(s) else 0,
      if CountsFailures(name) then Counter(s) else 0,
      if IsLatency(name) && s.avgtime.Some? then multiset{s.avgtime.value * 1000.0} else multiset{})
  }

  ghost function NamesTally(d: Dump, names: set<string>): Tally
    requires names <= d.Keys
  {
    if names == {} then NOTHING
    else
      var name :| name in names;
      Sum(SectionTally(name, d[name]), NamesTally(d, names - {name}))
  }

  ghost function DumpsTally(dumps: seq<Dump>): Tally {
    if dumps == [] then NOTHING
    else Sum(DumpsTally(dumps[..|dumps| - 1]), DumpTally(dumps[|dumps| - 1]))
  }

  lemma SumSwap(a: Tally, b: Tally, c: Tally)
    ensures Sum(a, Sum(b, c)) == Sum(b, Sum(a, c)) && Sum(Sum(a, b), c) == Sum(a, Sum(b, c)) && Sum(a, b) == Sum(b, a)
  {
    assert a.samples + (b.samples + c.samples) == b.samples + (a.samples + c.samples);
    assert (a.samples + b.samples) + c.samples == a.samples + (b.samples + c.samples);
    assert a.samples + b.samples == b.samples + a.samples;
  }

  /** The sections of a dump may be visited in any order. */
  lemma {:induction false} AnyName(d: Dump, names: set<string>, x: string)
    requires names <= d.Keys && x in names
    ensures NamesTally(d, names) == Sum(SectionTally(x, d[x]), NamesTally(d, names - {x}))
    decreases |names|
  {
    hide SectionTally, Sum;
    var y :| y in names && NamesTally(d, names) == Sum(SectionTally(y, d[y]), NamesTally(d, names - {y}));
    if x != y {
      var rest := names - {x} - {y};
      assert names - {y} - {x} == rest;
      AnyName(d, names - {y}, x);
      AnyName(d, names - {x}, y);
      SumSwap(SectionTally(y, d[y]), SectionTally(x, d[x]), NamesTally(d, rest));
    }
  }

  ghost function DumpTally(d: Dump): Tally {
    NamesTally(d, d.Keys)
  }

  lemma {:induction false} AnyDump(dumps: seq<Dump>, j: nat)
    requires j < |dumps|
    ensures DumpsTally(dumps) == Sum(DumpsTally(dumps[..j] + dumps[j + 1..]), DumpTally(dumps[j]))
  {
    hide DumpTally, Sum;
    var n := |dumps| - 1;
    var rest := dumps[..j] + dumps[j + 1..];
    if j < n {
      AnyDump(dumps[..n], j);
      var less := dumps[..n][..j] + dumps[..n][j + 1..];
      assert rest[..|rest| - 1] == less && rest[|rest| - 1] == dumps[n];
      SumSwap(DumpsTally(less), DumpTally(dumps[j]), DumpTally(dumps[n]));
      SumSwap(DumpTally(dumps[j]), DumpsTally(less), DumpTally(dumps[n]));
      SumSwap(DumpTally(dumps[j]), DumpsTally(rest), NOTHING);
      SumSwap(DumpsTally(rest), DumpTally(dumps[j]), NOTHING);
    } else {
      assert rest == dumps[..n];
    }
  }

  lemma {:induction false} DumpsUnordered(a: seq<Dump>, b: seq<Dump>)
    requires multiset(a) == multiset(b)
    ensures DumpsTally(a) == DumpsTally(b)
    decreases |a|
  {
    hide DumpTally, Sum;
    assert |a| == |multiset(a)| == |multiset(b)| == |b|;
    if a != [] {
      var n := |a| - 1;
      assert a[n] in multiset(a);
      var j :| 0 <= j < |b| && b[j] == a[n];
      AnyDump(b, j);
      BagRemove(a, n);
      BagRemove(b, j);
      assert a[..n] + a[n + 1..] == a[..n];
      DumpsUnordered(a[..n], b[..j] + b[j + 1..]);
    }
  }

  datatype Stats = Stats(requestCount: Option<int>, errorRate: Option<real>, p95: Option<real>, p99: Option<real>)

  /** The answer for a tally, its samples listed in some order. */
  ghost predicate Reports(out: Stats, t: Tally) {
    && out.requestCount == (if t.requests > 0 then Some(t.requests) else None)
    && out.errorRate == (if t.requests > 0 then Some(Round6(t.failed as real / t.requests as real)) else None)
    && (exists s :: multiset(s) == t.samples && out.p95 == PercentileOf(s, 0.95) && out.p99 == PercentileOf(s, 0.99))
  }

  /** One section into the running counters. */
  method AddSection(name: string, val: Section, reqs0: int, failed0: int, samples0: seq<real>)
    returns (reqs: int, failed: int, samples: seq<real>)
    ensures Tally(reqs, failed, multiset(samples))
            == Sum(Tally(reqs0, failed0, multiset(samples0)), SectionTally(name, val))
  {
    reqs, failed, samples := reqs0, failed0, samples0;
    hide CountsRequests, CountsFailures, IsLatency, Counter;
    if val.NotObject? { return; }
    if CountsRequests(name) { reqs := reqs + Counter(val); }
    if CountsFailures(name) { failed := failed + Counter(val); }
    if IsLatency(name) && val.avgtime.Some? { samples := samples + [val.avgtime.value * 1000.0]; }
  }

  /** The loop over one dump, which visits its sections in an order of its own. */
  method AggregateDump(d: Dump, reqs0: int, failed0: int, samples0: seq<real>)
    returns (reqs: int, failed: int, samples: seq<real>)
    ensures Tally(reqs, failed, multiset(samples)) == Sum(Tally(reqs0, failed0, multiset(samples0)), DumpTally(d))
  {
    reqs, failed, samples := reqs0, failed0, samples0;
    hide SectionTally, Sum;
    ghost var whole := Sum(Tally(reqs, failed, multiset(samples)), DumpTally(d));
    var todo := d.Keys;
    while todo != {}
      invariant todo <= d.Keys
      invariant Sum(Tally(reqs, failed, multiset(samples)), NamesTally(d, todo)) == whole
      decreases todo
    {
      var name :| name in todo;
      AnyName(d, todo, name);
      SumSwap(Tally(reqs, failed, multiset(samples)), SectionTally(name, d[name]), NamesTally(d, todo - {name}));
      reqs, failed, samples := AddSection(name, d[name], reqs, failed, samples);
      todo := todo - {name};
    }
    SumNothing(Tally(reqs, failed, multiset(samples)));
  }

  lemma SumNothing(t: Tally)
    ensures Sum(t, NOTHING) == t && Sum(NOTHING, t) == t
  {
  }

  method AggregateStats(dumps: seq<Dump>) returns (out: Stats)
    ensures Reports(out, DumpsTally(dumps))
    ensures out.p95.Some? <==> out.p99.Some?
    ensures out.p95.Some? ==> out.p95.value <= out.p99.value
  {
    var reqs, failed, samples := 0, 0, [];
    for i := 0 to |dumps|
      invariant Tally(reqs, failed, multiset(samples)) == DumpsTally(dumps[..i])
    {
      assert dumps[..i + 1][..i] == dumps[..i];
      reqs, failed, samples := AggregateDump(dumps[i], reqs, failed, samples);
    }
    assert dumps[..|dumps|] == dumps;
    out := Stats(None, None, None, None);
    if reqs > 0 {
      out := out.(requestCount := Some(reqs), errorRate := Some(Round6(failed as real / reqs as real)));
    }
    var p95 := Percentile(samples, 0.95);
    var p99 := Percentile(samples, 0.99);
    out := out.(p95 := p95, p99 := p99);
    if samples != [] { PercentileMonotone(samples, 0.95, 0.99); }
  }

  /** Two aggregations of the same dumps in any order, visiting sections in any order, report the same. */
  lemma StatsUnordered(a: seq<Dump>, b: seq<Dump>, x: Stats, y: Stats)
    requires multiset(a) == multiset(b) && Reports(x, DumpsTally(a)) && Reports(y, DumpsTally(b))
    ensures x == y
  {
    DumpsUnordered(a, b);
    var t := DumpsTally(a);
    var s1 :| multiset(s1) == t.samples && x.p95 == PercentileOf(s1, 0.95) && x.p99 == PercentileOf(s1, 0.99);
    var s2 :| multiset(s2) == t.samples && y.p95 == PercentileOf(s2, 0.95) && y.p99 == PercentileOf(s2, 0.99);
    PercentileUnordered(s1, s2, 0.95);
    PercentileUnordered(s1, s2, 0.99);
  }

  // ---------- the report, number by number ----------

  /** The reading of a section that counters use: `avgcount`, else `count`, else nothing. */
  ghost predicate Reads(s: Section, n: int) {
    s.Counters? &&
    if s.avgcount.Some? then n == s.avgcount.value
    else if s.count.Some? then n == s.count.value
    else n == 0
  }

  ghost predicate Mentions(name: string, part: string) {
    exists a, b :: name == a + part + b
  }

  lemma ContainsExactly(name: string, part: string)
    ensures Contains(name, part) <==> Mentions(name, part)
  {
    if i :| 0 <= i <= |name| - |part| && name[i..][..|part|] == part {
      assert name == name[..i] + part + name[i + |part|..];
    }
    if a, b :| name == a + part + b {
      assert name[|a|..][..|part|] == part;
    }
  }

  /** What one section adds. */
  ghost predicate Adds(name: string, val: Section, n: int, t: Tally) {
    && t.requests ==
         (if val.Counters? && name in {"req", "reqs", "requests", "get", "put", "post", "delete", "head", "list",
                                       "copy", "multipart"} then n else 0)
    && t.failed ==
         (if val.Counters? && name in {"failed_req", "failed_reqs", "err", "error", "errors", "5xx", "failed"}
          then n else 0)
    && t.samples ==
         if val.Counters? && val.avgtime.Some? && (Mentions(name, "latency") || Mentions(name, "time"))
         then multiset{val.avgtime.value * 1000.0} else multiset{}
  }

  lemma SectionAdds(name: string, val: Section, n: int)
    requires val.NotObject? || Reads(val, n)
    ensures Adds(name, val, n, SectionTally(name, val))
  {
    ContainsExactly(name, "latency");
    ContainsExactly(name, "time");
    hide Contains, Mentions;
  }

  /** One more section adds its reading to the requests and to the failures when its name is listed there, and one
      sample in milliseconds when its name mentions latency or time and it has an average. */
  lemma MoreSections(d: Dump, name: string, val: Section, n: int)
    requires name !in d && (val.NotObject? || Reads(val, n))
    ensures exists own :: Adds(name, val, n, own) && Together(own, DumpTally(d), DumpTally(d[name := val]))
  {
    SectionAdds(name, val, n);
    MoreNames(d, name, val);
    SumExactly(SectionTally(name, val), DumpTally(d));
    hide *;
  }

  /** Each number of `t` is the sum of those of `a` and `b`. */
  ghost predicate Together(a: Tally, b: Tally, t: Tally) {
    t.requests == a.requests + b.requests && t.failed == a.failed + b.failed && t.samples == a.samples + b.samples
  }

  lemma SumExactly(a: Tally, b: Tally)
    ensures Together(a, b, Sum(a, b))
  {
  }

  lemma MoreNames(d: Dump, name: string, val: Section)
    requires name !in d
    ensures DumpTally(d[name := val]) == Sum(SectionTally(name, val), DumpTally(d))
  {
    var more := d[name := val];
    hide Sum, SectionTally, NamesTally;
    assert more.Keys - {name} == d.Keys;
    AnyName(more, more.Keys, name);
    SameNames(more, d, d.Keys);
  }

  lemma {:induction false} SameNames(d: Dump, e: Dump, names: set<string>)
    requires names <= d.Keys && names <= e.Keys && forall x :: x in names ==> d[x] == e[x]
    ensures NamesTally(d, names) == NamesTally(e, names)
  {
    if names != {} {
      var x :| x in names;
      AnyName(d, names, x);
      AnyName(e, names, x);
      SameNames(d, e, names - {x});
    }
  }

  /** Nothing is counted in no section and in no dump, and dumps add up. */
  lemma DumpsAddUp(dumps: seq<Dump>, d: Dump)
    ensures DumpTally(map[]) == Tally(0, 0, multiset{}) && DumpsTally([]) == Tally(0, 0, multiset{})
    ensures Together(DumpsTally(dumps), DumpTally(d), DumpsTally(dumps + [d]))
  {
    assert (dumps + [d])[..|dumps|] == dumps;
    var none: Dump := map[];
    assert none.Keys == {};
  }

  /** A value that is not negative is rounded to the nearest thousandth, a half upwards. */
  lemma RoundsToThousandths(x: real)
    requires x >= 0.0
    ensures var n := Round3(x) * 1000.0; n.Floor as real == n && n - 0.5 <= x * 1000.0 < n + 0.5
  {
    assert Round3(x) * 1000.0 == Truncate(x * 1000.0 + 0.5) as real;
  }

  /** The same for the error rate, to the nearest millionth. */
  lemma RoundsToMillionths(x: real)
    requires x >= 0.0
    ensures var n := Round6(x) * 1000000.0; n.Floor as real == n && n - 0.5 <= x * 1000000.0 < n + 0.5
  {
    assert Round6(x) * 1000000.0 == Truncate(x * 1000000.0 + 0.5) as real;
  }
}
