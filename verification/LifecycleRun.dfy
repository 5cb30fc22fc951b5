/** A whole run of the lifecycle runner over the enabled rules: three actions on objects, one on unfinished uploads. */
module LifecycleRun {
  import opened Common
  import opened Shelves
  import opened Lifecycle

  datatype Rule = Rule(bucket: string, prefix: string, enabled: bool,
                       live: Option<int>, trash: Option<int>, versions: Option<int>, multipart: Option<int>)

  /** The class of an item says which action may ever remove it. */
  datatype Class = Live | Trash | Versions | Uploads

  function ClassOf(x: Item): Class {
    if x.upload != "" then Uploads
    else if ".trash/" <= x.key then Trash
    else if ".versions/" <= x.key then Versions
    else Live
  }

  function Days(c: Class, r: Rule): Option<int> {
    match c
    case Live => r.live
    case Trash => r.trash
    case Versions => r.versions
    case Uploads => r.multipart
  }

  predicate Acts(days: Option<int>) {
    days.Some? && days.value > 0
  }

  function ActionTarget(c: Class, r: Rule, now: int): Target
    requires Days(c, r).Some?
  {
    var cutoff := now - Days(c, r).value * DAY;
    match c
    case Live => Target(r.bucket, r.prefix, cutoff, true)
    case Trash => Target(r.bucket, JoinPrefix(".trash/", r.prefix), cutoff, false)
    case Versions => Target(r.bucket, JoinPrefix(".versions/", r.prefix), cutoff, false)
    case Uploads => Target(r.bucket, r.prefix, cutoff, false)
  }

  /** The actions of all rules work on pairwise disjoint sets of keys. */
  lemma ClassesApart(c: Class, r: Rule, now: int, x: Item, stamp: Option<int>)
    requires Days(c, r).Some? && Eligible(ActionTarget(c, r, now), x, stamp) && (c == Uploads <==> x.upload != "")
    ensures ClassOf(x) == c
  {
    match c
    case Live =>
    case Trash =>
      assert ".trash/" <= JoinPrefix(".trash/", r.prefix) <= x.key;
    case Versions =>
      var p := JoinPrefix(".versions/", r.prefix);
      assert ".versions/" <= p <= x.key;
      assert x.key[1] == 'v' && ".trash/"[1] == 't';
    case Uploads =>
  }

  // ---------- counters ----------

  /** One number for each action. */
  datatype Sums = Sums(live: nat, trash: nat, versions: nat, uploads: nat) {
    function Get(c: Class): nat {
      match c
      case Live => live
      case Trash => trash
      case Versions => versions
      case Uploads => uploads
    }

    function Add(c: Class, n: nat): (s: Sums)
      ensures forall d :: s.Get(d) == Get(d) + if d == c then n else 0
    {
      match c
      case Live => this.(live := live + n)
      case Trash => this.(trash := trash + n)
      case Versions => this.(versions := versions + n)
      case Uploads => this.(uploads := uploads + n)
    }

    /** All of one store. */
    function Total(ofUploads: bool): nat {
      if ofUploads then uploads else live + trash + versions
    }
  }

  const NOTHING: Sums := Sums(0, 0, 0, 0)

  function Part(c: Class, gone: set<Item>): set<Item> {
    set x | x in gone && ClassOf(x) == c
  }

  /** Objects only, or unfinished uploads only. */
  ghost predicate Kind(uploads: bool, items: Contents) {
    Keyed(items) && forall x :: x in items ==> (x.upload != "" <==> uploads)
  }

  lemma {:induction false} PartsAddUp(uploads: bool, items: Contents, gone: set<Item>, sums: Sums)
    requires Kind(uploads, items) && gone <= items.Keys
    requires forall c :: (c == Uploads <==> uploads) ==> |Part(c, gone)| == sums.Get(c)
    ensures |gone| == sums.Total(uploads)
  {
    if uploads {
      assert gone == Part(Uploads, gone);
      assert |Part(Uploads, gone)| == sums.Get(Uploads);
    } else {
      var (l, t, v) := (Part(Live, gone), Part(Trash, gone), Part(Versions, gone));
      assert gone == l + t + v;
      assert |l + t + v| == |l + t| + |v| && |l + t| == |l| + |t|;
      assert |l| == sums.Get(Live) && |t| == sums.Get(Trash) && |v| == sums.Get(Versions);
    }
  }

  // ---------- the account of a run over one store ----------

  /** Where a run began. `clock` gives the time at each look at it. */
  datatype Start = Start(rules: seq<Rule>, clock: nat -> int, from: nat, uploads: bool,
                         before: Contents, faults: Oracle, tally: Tally)

  /** Where it is. */
  datatype Here = Here(ticks: nat, items: Contents, tally: Tally)

  predicate Covers(s: Start, c: Class) {
    c == Uploads <==> s.uploads
  }

  ghost predicate ByRule(c: Class, r: Rule, now: int, x: Item, stamp: Option<int>) {
    r.enabled && Acts(Days(c, r)) && Eligible(ActionTarget(c, r, now), x, stamp)
  }

  /** Some enabled rule asked for an item of this class, bucket, prefix and age
      at one of the instants at which the run looked at the clock. */
  ghost predicate Justified(s: Start, until: nat, x: Item, stamp: Option<int>) {
    exists r, k :: r in s.rules && s.from <= k < until && ByRule(ClassOf(x), r, s.clock(k), x, stamp)
  }

  /** Nothing came back or changed; everything gone is justified and was counted or lost its reply, class by class. */
  ghost predicate Accounted(s: Start, h: Here, counts: Sums, lost: Sums) {
    var gone := Gone(s.before, h.items);
    && Without(s.before, h.items, gone)
    && (forall x :: x in gone ==> Justified(s, h.ticks, x, s.before[x]))
    && (forall c :: Covers(s, c) ==> |Part(c, gone)| == counts.Get(c) + lost.Get(c))
    && lost.Total(s.uploads) == h.tally.lost - s.tally.lost
    && s.from <= h.ticks && Grows(s.faults, s.tally, h.tally)
  }

  // ---------- what a run means ----------

  /** The key lies in the folder, under the prefix without its leading slashes. */
  ghost predicate InFolder(folder: string, prefix: string, key: string) {
    exists n :: 0 <= n <= |prefix| && StartsAt(prefix, n) && folder + prefix[n..] <= key
  }

  /** Where the text starts but for its leading slashes. */
  ghost predicate StartsAt(prefix: string, n: int) {
    0 <= n <= |prefix| && (forall i :: 0 <= i < n ==> prefix[i] == '/') && (n < |prefix| ==> prefix[n] != '/')
  }

  lemma {:induction false} TrimExactly(prefix: string, n: nat)
    requires n <= |prefix| && StartsAt(prefix, n)
    ensures TrimSlashes(prefix) == prefix[n..]
  {
    if n > 0 {
      assert StartsAt(prefix[1..], n - 1);
      TrimExactly(prefix[1..], n - 1);
      assert prefix[1..][n - 1..] == prefix[n..];
    }
  }

  lemma {:induction false} SomeStart(prefix: string)
    ensures exists n :: 0 <= n <= |prefix| && StartsAt(prefix, n)
  {
    if prefix != "" && prefix[0] == '/' {
      SomeStart(prefix[1..]);
      var n :| 0 <= n <= |prefix[1..]| && StartsAt(prefix[1..], n);
      assert forall i :: 1 <= i < n + 1 ==> prefix[i] == prefix[1..][i - 1];
      assert StartsAt(prefix, n + 1);
    } else {
      assert StartsAt(prefix, 0);
    }
  }

  lemma InFolderExactly(folder: string, prefix: string, key: string)
    ensures InFolder(folder, prefix, key) <==> JoinPrefix(folder, prefix) <= key
  {
    SomeStart(prefix);
    var n :| 0 <= n <= |prefix| && StartsAt(prefix, n);
    TrimExactly(prefix, n);
    if InFolder(folder, prefix, key) {
      var m :| 0 <= m <= |prefix| && StartsAt(prefix, m) && folder + prefix[m..] <= key;
      TrimExactly(prefix, m);
    }
  }

  /** More than a positive number of days old. */
  predicate Past(days: Option<int>, now: int, stamp: int) {
    days.Some? && days.value > 0 && now - stamp > days.value * 86400
  }

  /** Said without targets: the rule is enabled, names the bucket, selects the key by its prefix, and the item is older
      than the days the rule sets for its class. */
  ghost predicate DueAt(r: Rule, now: int, x: Item, stamp: int) {
    && r.enabled && r.bucket == x.bucket
    && match ClassOf(x)
       case Live => Past(r.live, now, stamp) && r.prefix <= x.key
       case Trash => Past(r.trash, now, stamp) && InFolder(".trash/", r.prefix, x.key)
       case Versions => Past(r.versions, now, stamp) && InFolder(".versions/", r.prefix, x.key)
       case Uploads => Past(r.multipart, now, stamp) && r.prefix <= x.key
  }

  /** What an action of an enabled rule may remove is exactly what is due under the rule and of the action's class. */
  lemma EligibleExactly(c: Class, r: Rule, now: int, x: Item, stamp: Option<int>)
    requires r.enabled && Acts(Days(c, r)) && (c == Uploads <==> x.upload != "")
    ensures Eligible(ActionTarget(c, r, now), x, stamp) <==>
              stamp.Some? && ClassOf(x) == c && DueAt(r, now, x, stamp.value)
  {
    InFolderExactly(".trash/", r.prefix, x.key);
    InFolderExactly(".versions/", r.prefix, x.key);
    if Eligible(ActionTarget(c, r, now), x, stamp) { ClassesApart(c, r, now, x, stamp); }
  }

  /** Whatever is gone was due to its own class of action, and only to that one. */
  lemma RemovalIsDue(s: Start, h: Here, counts: Sums, lost: Sums, x: Item)
    requires Accounted(s, h, counts, lost) && x in s.before && x !in h.items
    ensures s.before[x].Some?
    ensures exists r, k :: r in s.rules && s.from <= k < h.ticks && DueAt(r, s.clock(k), x, s.before[x].value)
  {
    assert x in Gone(s.before, h.items);
    var r, k :| r in s.rules && s.from <= k < h.ticks && ByRule(ClassOf(x), r, s.clock(k), x, s.before[x]);
    EligibleExactly(ClassOf(x), r, s.clock(k), x, s.before[x]);
  }

  lemma SizeOfRest(before: Contents, after: Contents)
    requires Without(before, after, Gone(before, after))
    ensures |before| - |after| == |Gone(before, after)|
  {
    assert before.Keys == after.Keys + Gone(before, after);
    assert |before.Keys| == |before| && |after.Keys| == |after|;
  }

  /** The counters add up to the items removed, give or take lost replies. */
  lemma CountersAddUp(s: Start, h: Here, counts: Sums, lost: Sums)
    requires Accounted(s, h, counts, lost) && Kind(s.uploads, s.before)
    ensures |s.before| - |h.items| == counts.Total(s.uploads) + h.tally.lost - s.tally.lost
  {
    hide Part, Justified, Gone, Kind;
    var gone := Gone(s.before, h.items);
    SizeOfRest(s.before, h.items);
    var sums := Sums(counts.live + lost.live, counts.trash + lost.trash,
                     counts.versions + lost.versions, counts.uploads + lost.uploads);
    forall c | c == Uploads <==> s.uploads ensures |Part(c, gone)| == sums.Get(c) {
      assert Covers(s, c);
    }
    PartsAddUp(s.uploads, s.before, gone, sums);
  }

  // ---------- one more action ----------

  lemma KeysSum(a: set<Item>, b: set<Item>, c: set<Item>)
    requires c <= b <= a
    ensures a - c == (a - b) + (b - c) && (a - b) !! (b - c) && |(a - b) + (b - c)| == |a - b| + |b - c|
  {
  }

  lemma MapsSum(before: Contents, mid: Contents, after: Contents)
    requires Without(before, mid, Gone(before, mid)) && Without(mid, after, Gone(mid, after))
    ensures after.Keys <= mid.Keys <= before.Keys && Without(before, after, Gone(before, after))
    ensures forall x :: x in mid ==> mid[x] == before[x]
  {
    assert forall x :: x in mid ==> mid[x] == before[x];
    var rest := before - Gone(before, after);
    assert rest.Keys == after.Keys;
    assert forall x :: x in after ==> after[x] == mid[x] == rest[x];
  }

  lemma GoneSum(before: Contents, mid: Contents, after: Contents)
    requires Without(before, mid, Gone(before, mid)) && Without(mid, after, Gone(mid, after))
    ensures var (gone, gone1) := (Gone(before, mid), Gone(mid, after));
            && Gone(before, after) == gone + gone1 && gone !! gone1
            && gone + gone1 <= before.Keys && gone1 <= mid.Keys
    ensures Without(before, after, Gone(before, after)) && forall x :: x in mid ==> mid[x] == before[x]
  {
    hide Without;
    MapsSum(before, mid, after);
    KeysSum(before.Keys, mid.Keys, after.Keys);
  }

  /** The parts of what is gone when an action removed `gone1` of its own class. */
  lemma PartsGrow(c: Class, gone: set<Item>, gone1: set<Item>, d: Class)
    requires gone !! gone1 && forall x :: x in gone1 ==> ClassOf(x) == c
    ensures |Part(d, gone + gone1)| == |Part(d, gone)| + if d == c then |gone1| else 0
  {
    if d == c {
      assert Part(d, gone + gone1) == Part(d, gone) + gone1;
    } else {
      assert Part(d, gone + gone1) == Part(d, gone);
    }
  }

  lemma JustifyOn(s: Start, now: nat, c: Class, r: Rule, x: Item, stamp: Option<int>)
    requires s.from <= now && r in s.rules && r.enabled && Acts(Days(c, r))
    requires Justified(s, now, x, stamp)
             || (Eligible(ActionTarget(c, r, s.clock(now)), x, stamp) && (c == Uploads <==> x.upload != ""))
    ensures Justified(s, now + 1, x, stamp)
  {
    if Justified(s, now, x, stamp) {
      var q, k :| q in s.rules && s.from <= k < now && ByRule(ClassOf(x), q, s.clock(k), x, stamp);
    } else {
      ClassesApart(c, r, s.clock(now), x, stamp);
      assert ByRule(c, r, s.clock(now), x, stamp);
    }
  }

  /** What a call removed was eligible for it. */
  lemma CleanedGone(t: Target, before: Contents, after: Contents, count: nat, failed: bool, lost: int, refused: int)
    requires Cleaned(t, before, after, count, failed, lost, refused)
    ensures Without(before, after, Gone(before, after)) && |Gone(before, after)| == count + lost
    ensures forall x :: x in Gone(before, after) ==> x in before && Eligible(t, x, before[x])
  {
  }

  /** One call of an action for a rule: where its store was before and after it, what it counted, how many of its
      deletes lost their reply, how many had no effect, and whether a listing failed. */
  datatype Visit = Visit(c: Class, r: Rule, from: Here, to: Here, n: nat, lost: nat, refused: nat, failed: bool)

  function TargetOf(s: Start, v: Visit): Target
    requires Days(v.c, v.r).Some?
  {
    ActionTarget(v.c, v.r, s.clock(v.from.ticks))
  }

  ghost predicate Visited(s: Start, v: Visit) {
    && Covers(s, v.c) && v.r in s.rules && v.r.enabled && Acts(Days(v.c, v.r)) && Kind(s.uploads, v.from.items)
    && v.to.ticks == v.from.ticks + 1 && Since(s.faults, v.from.tally, v.to.tally, v.failed)
    && v.to.tally.lost == v.from.tally.lost + v.lost && v.to.tally.refused == v.from.tally.refused + v.refused
    && Cleaned(TargetOf(s, v), v.from.items, v.to.items, v.n, v.failed, v.lost, v.refused)
  }

  lemma AccountOn(s: Start, v: Visit, counts: Sums, lost: Sums)
    requires Accounted(s, v.from, counts, lost) && Visited(s, v)
    ensures Accounted(s, v.to, counts.Add(v.c, v.n), lost.Add(v.c, v.lost))
  {
    hide Cleaned, Without, Gone, Part, Justified, Eligible, EligibleSet, ClassOf, ActionTarget, Sums.Get, Since, Grows,
    Keyed;
    var (c, r, h, g) := (v.c, v.r, v.from, v.to);
    var (gone, gone1) := (Gone(s.before, h.items), Gone(h.items, g.items));
    CleanedGone(TargetOf(s, v), h.items, g.items, v.n, v.failed, v.lost, v.refused);
    GoneSum(s.before, h.items, g.items);
    forall x | x in gone + gone1 ensures Justified(s, g.ticks, x, s.before[x]) {
      JustifyOn(s, h.ticks, c, r, x, s.before[x]);
    }
    forall x | x in gone1 ensures ClassOf(x) == c { ClassesApart(c, r, s.clock(h.ticks), x, h.items[x]); }
    forall d | Covers(s, d)
      ensures |Part(d, gone + gone1)| == counts.Add(c, v.n).Get(d) + lost.Add(c, v.lost).Get(d)
    {
      PartsGrow(c, gone, gone1, d);
    }
    SinceGrows(s.faults, h.tally, g.tally, v.failed);
    GrowsThen(s.faults, s.tally, h.tally, g.tally);
  }

  // ---------- the log of a run ----------

  /** The calls on one of the two stores. */
  function OfStore(uploads: bool, log: seq<Visit>): seq<Visit> {
    if log == [] then []
    else
      var last := log[|log| - 1];
      OfStore(uploads, log[..|log| - 1]) + if last.c == Uploads <==> uploads then [last] else []
  }

  /** Calls on one store from the start of the run to `h`, each beginning with what the one before it left. */
  ghost predicate Chained(s: Start, visits: seq<Visit>, h: Here) {
    if visits == [] then h.items == s.before && h.tally == s.tally && s.from <= h.ticks
    else
      var last := visits[|visits| - 1];
      && Chained(s, visits[..|visits| - 1], last.from) && Visited(s, last)
      && last.to.items == h.items && last.to.tally == h.tally && last.to.ticks <= h.ticks
  }

  function Counted(log: seq<Visit>): Sums {
    if log == [] then NOTHING else Counted(log[..|log| - 1]).Add(log[|log| - 1].c, log[|log| - 1].n)
  }

  function Lost(log: seq<Visit>): Sums {
    if log == [] then NOTHING else Lost(log[..|log| - 1]).Add(log[|log| - 1].c, log[|log| - 1].lost)
  }

  /** The number of calls that a failing listing ended. */
  function Failures(log: seq<Visit>): nat {
    if log == [] then 0 else Failures(log[..|log| - 1]) + if log[|log| - 1].failed then 1 else 0
  }

  function Pairs(log: seq<Visit>): seq<(Class, Rule)> {
    seq(|log|, i requires 0 <= i < |log| => (log[i].c, log[i].r))
  }

  /** The actions that are set for their rule. */
  function Acting(actions: seq<(Class, Rule)>): seq<(Class, Rule)> {
    if actions == [] then []
    else
      var last := actions[|actions| - 1];
      Acting(actions[..|actions| - 1]) + if Acts(Days(last.0, last.1)) then [last] else []
  }

  /** The calls made are those of the acting pairs among `actions`, one each, in order and at one look at the clock
      each; on both stores each call begins where the one before it ended, and the counters add up what the
      calls counted. */
  ghost predicate Ran(s: Start, u: Start, actions: seq<(Class, Rule)>, log: seq<Visit>, h: Here, g: Here, counts: Sums)
  {
    && Pairs(log) == Acting(actions) && counts == Counted(log)
    && Chained(s, OfStore(false, log), h) && Chained(u, OfStore(true, log), g)
    && Timed(s.from, log) && h.ticks == g.ticks == s.from + |log|
  }

  /** One look at the clock for each call. */
  predicate Timed(from: nat, log: seq<Visit>) {
    forall i :: 0 <= i < |log| ==> log[i].from.ticks == from + i
  }

  lemma OfStoreNext(uploads: bool, log: seq<Visit>, v: Visit)
    ensures OfStore(uploads, log + [v]) ==
              if v.c == Uploads <==> uploads then OfStore(uploads, log) + [v] else OfStore(uploads, log)
  {
    assert (log + [v])[..|log|] == log;
  }

  lemma LogNext(uploads: bool, log: seq<Visit>, v: Visit)
    requires v.c == Uploads <==> uploads
    ensures OfStore(uploads, log + [v]) == OfStore(uploads, log) + [v]
            && OfStore(!uploads, log + [v]) == OfStore(!uploads, log)
    ensures Pairs(log + [v]) == Pairs(log) + [(v.c, v.r)] && Counted(log + [v]) == Counted(log).Add(v.c, v.n)
  {
    assert (log + [v])[..|log|] == log;
  }

  lemma ActingNext(actions: seq<(Class, Rule)>, c: Class, r: Rule)
    ensures Acting(actions + [(c, r)]) == Acting(actions) + if Acts(Days(c, r)) then [(c, r)] else []
  {
    assert (actions + [(c, r)])[..|actions|] == actions;
  }

  lemma ChainNext(s: Start, visits: seq<Visit>, v: Visit)
    requires Chained(s, visits, v.from) && Visited(s, v)
    ensures Chained(s, visits + [v], v.to)
  {
    assert (visits + [v])[..|visits|] == visits;
  }

  lemma ChainLater(s: Start, visits: seq<Visit>, h: Here, ticks: nat)
    requires Chained(s, visits, h) && h.ticks <= ticks
    ensures Chained(s, visits, h.(ticks := ticks))
  {
  }

  lemma TimedNext(from: nat, log: seq<Visit>, v: Visit)
    requires Timed(from, log) && v.from.ticks == from + |log|
    ensures Timed(from, log + [v])
  {
  }

  lemma VisitMeans(s: Start, v: Visit)
    requires Visited(s, v)
    ensures Acts(Days(v.c, v.r)) && v.to.ticks == v.from.ticks + 1 && (v.c == Uploads <==> s.uploads)
  {
  }

  /** One more call on the objects. */
  lemma RanObjects(s: Start, u: Start, actions: seq<(Class, Rule)>, log: seq<Visit>, h: Here, g: Here, counts: Sums,
                   v: Visit)
    requires Ran(s, u, actions, log, h, g, counts) && Visited(s, v) && v.from == h && v.c != Uploads
    ensures Ran(s, u, actions + [(v.c, v.r)], log + [v], v.to, g.(ticks := v.to.ticks), counts.Add(v.c, v.n))
  {
    VisitMeans(s, v);
    TimedNext(s.from, log, v);
    hide Visited, Chained, OfStore, Counted, Acting, Pairs, Timed, Acts, Sums.Add;
    LogNext(false, log, v);
    ActingNext(actions, v.c, v.r);
    ChainNext(s, OfStore(false, log), v);
    ChainLater(u, OfStore(true, log), g, v.to.ticks);
  }

  /** One more call on the uploads. */
  lemma RanUploads(s: Start, u: Start, actions: seq<(Class, Rule)>, log: seq<Visit>, h: Here, g: Here, counts: Sums,
                   v: Visit)
    requires Ran(s, u, actions, log, h, g, counts) && Visited(u, v) && v.from == g && v.c == Uploads
    ensures Ran(s, u, actions + [(v.c, v.r)], log + [v], h.(ticks := v.to.ticks), v.to, counts.Add(v.c, v.n))
  {
    VisitMeans(u, v);
    TimedNext(s.from, log, v);
    hide Visited, Chained, OfStore, Counted, Acting, Pairs, Timed, Acts, Sums.Add;
    LogNext(true, log, v);
    ActingNext(actions, v.c, v.r);
    ChainNext(u, OfStore(true, log), v);
    ChainLater(s, OfStore(false, log), h, v.to.ticks);
  }

  /** An action that is not set makes no call. */
  lemma RanSkip(s: Start, u: Start, actions: seq<(Class, Rule)>, log: seq<Visit>, h: Here, g: Here, counts: Sums,
                c: Class, r: Rule)
    requires Ran(s, u, actions, log, h, g, counts) && !Acts(Days(c, r))
    ensures Ran(s, u, actions + [(c, r)], log, h, g, counts)
  {
    ActingNext(actions, c, r);
  }

  lemma NothingYet(s: Start, u: Start)
    requires s.from == u.from
    ensures Ran(s, u, [], [], Here(s.from, s.before, s.tally), Here(u.from, u.before, u.tally), NOTHING)
  {
  }

  // ---------- what the log accounts for ----------

  lemma NothingGone(s: Start, ticks: nat)
    requires s.from <= ticks
    ensures Accounted(s, Here(ticks, s.before, s.tally), NOTHING, NOTHING)
  {
    assert s.before - {} == s.before && Gone(s.before, s.before) == {};
    assert forall c :: Part(c, {}) == {};
  }

  lemma AccountLater(s: Start, h: Here, counts: Sums, lost: Sums, ticks: nat)
    requires Accounted(s, h, counts, lost) && h.ticks <= ticks
    ensures Accounted(s, h.(ticks := ticks), counts, lost)
  {
    forall x | x in Gone(s.before, h.items) ensures Justified(s, ticks, x, s.before[x]) {
      var r, k :| r in s.rules && s.from <= k < h.ticks && ByRule(ClassOf(x), r, s.clock(k), x, s.before[x]);
    }
  }

  /** Everything gone from a store is justified, and class by class it is what the calls counted or lost. */
  lemma {:induction false} LogAccounts(s: Start, visits: seq<Visit>, h: Here)
    requires Chained(s, visits, h)
    ensures Accounted(s, h, Counted(visits), Lost(visits))
  {
    if visits == [] {
      NothingGone(s, h.ticks);
    } else {
      var (front, last) := (visits[..|visits| - 1], visits[|visits| - 1]);
      LogAccounts(s, front, last.from);
      hide Accounted, Visited;
      AccountOn(s, last, Counted(front), Lost(front));
      AccountLater(s, last.to, Counted(visits), Lost(visits), h.ticks);
    }
  }

  lemma SumsNext(log: seq<Visit>, v: Visit)
    ensures Counted(log + [v]) == Counted(log).Add(v.c, v.n) && Lost(log + [v]) == Lost(log).Add(v.c, v.lost)
  {
    assert (log + [v])[..|log|] == log;
  }

  lemma StoreSumsNext(uploads: bool, log: seq<Visit>, v: Visit, c: Class)
    requires c == Uploads <==> uploads
    requires Counted(OfStore(uploads, log)).Get(c) == Counted(log).Get(c)
    requires Lost(OfStore(uploads, log)).Get(c) == Lost(log).Get(c)
    ensures Counted(OfStore(uploads, log + [v])).Get(c) == Counted(log + [v]).Get(c)
    ensures Lost(OfStore(uploads, log + [v])).Get(c) == Lost(log + [v]).Get(c)
  {
    OfStoreNext(uploads, log, v);
    SumsNext(log, v);
    hide OfStore, Counted, Lost, Sums.Add, Sums.Get;
    if v.c == Uploads <==> uploads { SumsNext(OfStore(uploads, log), v); }
  }

  /** The counters of a store are those of its own calls. */
  lemma {:induction false} StoreCounts(uploads: bool, log: seq<Visit>, c: Class)
    requires c == Uploads <==> uploads
    ensures Counted(OfStore(uploads, log)).Get(c) == Counted(log).Get(c)
    ensures Lost(OfStore(uploads, log)).Get(c) == Lost(log).Get(c)
  {
    if log != [] {
      var (front, last) := (log[..|log| - 1], log[|log| - 1]);
      StoreCounts(uploads, front, c);
      assert front + [last] == log;
      hide *;
      StoreSumsNext(uploads, front, last, c);
    }
  }

  /** The account of a whole run over one of its stores. */
  lemma RunAccounts(s: Start, log: seq<Visit>, h: Here)
    requires Chained(s, OfStore(s.uploads, log), h)
    ensures Accounted(s, h, Counted(log), Lost(log))
  {
    var visits := OfStore(s.uploads, log);
    hide *;
    LogAccounts(s, visits, h);
    forall c | Covers(s, c)
      ensures Counted(visits).Get(c) == Counted(log).Get(c) && Lost(visits).Get(c) == Lost(log).Get(c)
    {
      CoversMeans(s, c);
      StoreCounts(s.uploads, log, c);
    }
    AccountSame(s, h, Counted(visits), Lost(visits), Counted(log), Lost(log));
  }

  lemma CoversMeans(s: Start, c: Class)
    requires Covers(s, c)
    ensures c == Uploads <==> s.uploads
  {
  }

  lemma AccountSame(s: Start, h: Here, counts: Sums, lost: Sums, counts1: Sums, lost1: Sums)
    requires Accounted(s, h, counts, lost)
    requires forall c :: Covers(s, c) ==> counts.Get(c) == counts1.Get(c) && lost.Get(c) == lost1.Get(c)
    ensures Accounted(s, h, counts1, lost1)
  {
    hide Part, Justified, Gone, Without, Grows;
    TotalSame(s, lost, lost1);
    hide Sums.Get, Sums.Total;
  }

  lemma TotalSame(s: Start, a: Sums, b: Sums)
    requires forall c :: Covers(s, c) ==> a.Get(c) == b.Get(c)
    ensures a.Total(s.uploads) == b.Total(s.uploads)
  {
    if s.uploads {
      assert Covers(s, Uploads);
    } else {
      assert Covers(s, Live) && Covers(s, Trash) && Covers(s, Versions);
    }
  }

  // ---------- every action did its part ----------

  ghost predicate Shrunk(before: Contents, after: Contents) {
    forall x :: x in after ==> x in before && after[x] == before[x]
  }

  /** Unless a listing of this very call failed or it reached its cap, nothing it was due is left but what the store
      refused to give up. */
  ghost predicate DidItsPart(s: Start, v: Visit, items: Contents)
    requires Days(v.c, v.r).Some?
  {
    !v.failed && v.n < MAX_DELETES ==> |EligibleSet(TargetOf(s, v), items)| <= v.refused
  }

  lemma CleanedShrinks(t: Target, before: Contents, after: Contents, count: nat, failed: bool, lost: int, refused: int)
    requires Cleaned(t, before, after, count, failed, lost, refused)
    ensures Shrunk(before, after)
  {
  }

  /** What is eligible afterwards was eligible before and is not gone. */
  lemma LeftEligible(t: Target, before: Contents, after: Contents, count: nat, lost: int, refused: int)
    requires Cleaned(t, before, after, count, false, lost, refused) && count < MAX_DELETES
    ensures |EligibleSet(t, after)| <= refused
  {
    var (e, gone) := (EligibleSet(t, before), Gone(before, after));
    Subset(gone, e);
    Subset(EligibleSet(t, after), e - gone);
  }

  lemma StillDidItsPart(s: Start, v: Visit, items: Contents, after: Contents)
    requires Days(v.c, v.r).Some? && DidItsPart(s, v, items) && Shrunk(items, after)
    ensures DidItsPart(s, v, after)
  {
    var t := TargetOf(s, v);
    hide TargetOf;
    Subset(EligibleSet(t, after), EligibleSet(t, items));
  }

  lemma NowDidItsPart(s: Start, v: Visit)
    requires Visited(s, v)
    ensures DidItsPart(s, v, v.to.items) && Shrunk(v.from.items, v.to.items)
  {
    hide EligibleSet, Shrunk, Eligible, Gone, ActionTarget;
    CleanedShrinks(TargetOf(s, v), v.from.items, v.to.items, v.n, v.failed, v.lost, v.refused);
    if !v.failed && v.n < MAX_DELETES {
      LeftEligible(TargetOf(s, v), v.from.items, v.to.items, v.n, v.lost, v.refused);
    }
  }

  lemma ChainFront(s: Start, visits: seq<Visit>, h: Here)
    requires Chained(s, visits, h) && visits != []
    ensures var last := visits[|visits| - 1];
            Chained(s, visits[..|visits| - 1], last.from) && Visited(s, last) && last.to.items == h.items
  {
  }

  /** Each call of the log did its part, whatever happened to the others, and later calls undo nothing. */
  lemma {:induction false} AllDidTheirPart(s: Start, visits: seq<Visit>, h: Here, v: Visit)
    requires Chained(s, visits, h) && v in visits
    ensures Visited(s, v) && DidItsPart(s, v, h.items)
  {
    var (front, last) := (visits[..|visits| - 1], visits[|visits| - 1]);
    ChainFront(s, visits, h);
    hide *;
    NowDidItsPart(s, last);
    if v != last {
      AllDidTheirPart(s, front, last.from, v);
      VisitMeans(s, v);
      StillDidItsPart(s, v, last.from.items, h.items);
    }
  }

  /** The calls that failed are as many as the listings that did. */
  lemma {:induction false} FailuresCounted(s: Start, visits: seq<Visit>, h: Here)
    requires Chained(s, visits, h)
    ensures h.tally.unlisted == s.tally.unlisted + Failures(visits)
  {
    if visits != [] { FailuresCounted(s, visits[..|visits| - 1], visits[|visits| - 1].from); }
  }

  // ---------- the runner ----------

  function EnabledOnly(rules: seq<Rule>): seq<Rule> {
    if rules == [] then []
    else EnabledOnly(rules[..|rules| - 1]) + if rules[|rules| - 1].enabled then [rules[|rules| - 1]] else []
  }

  function RuleActions(r: Rule): seq<(Class, Rule)> {
    [(Live, r), (Trash, r), (Versions, r), (Uploads, r)]
  }

  /** All actions of a run, in order. */
  function Actions(rules: seq<Rule>): seq<(Class, Rule)> {
    if rules == [] then [] else Actions(rules[..|rules| - 1]) + RuleActions(rules[|rules| - 1])
  }

  lemma {:induction false} EnabledExactly(rules: seq<Rule>, r: Rule)
    ensures r in EnabledOnly(rules) <==> r in rules && r.enabled
  {
    if rules != [] {
      var (front, last) := (rules[..|rules| - 1], rules[|rules| - 1]);
      EnabledExactly(front, r);
      assert rules == front + [last];
    }
  }

  /** The disabled rules are left out and the others keep their places. */
  lemma {:induction false} EnabledInOrder(a: seq<Rule>, r: Rule, b: seq<Rule>)
    ensures EnabledOnly(a + b) == EnabledOnly(a) + EnabledOnly(b)
    ensures EnabledOnly([r]) == if r.enabled then [r] else []
    decreases |b|
  {
    assert [r][..0] == [];
    if b == [] {
      assert a + b == a;
    } else {
      var (front, last) := (b[..|b| - 1], b[|b| - 1]);
      EnabledInOrder(a, r, front);
      assert (a + b)[..|a + b| - 1] == a + front && (a + b)[|a + b| - 1] == last;
    }
  }

  lemma {:induction false} ActionsExactly(rules: seq<Rule>, c: Class, r: Rule)
    ensures (c, r) in Actions(rules) <==> r in rules
  {
    if rules != [] {
      var (front, last) := (rules[..|rules| - 1], rules[|rules| - 1]);
      ActionsExactly(front, c, r);
      assert rules == front + [last];
      var own := RuleActions(last);
      assert own[0] == (Live, last) && own[1] == (Trash, last) && own[2] == (Versions, last)
             && own[3] == (Uploads, last);
    }
  }

  lemma {:induction false} ActingExactly(actions: seq<(Class, Rule)>, c: Class, r: Rule)
    ensures (c, r) in Acting(actions) <==> (c, r) in actions && Acts(Days(c, r))
  {
    if actions != [] {
      var (front, last) := (actions[..|actions| - 1], actions[|actions| - 1]);
      ActingExactly(front, c, r);
      assert actions == front + [last];
    }
  }

  lemma {:induction false} InStore(uploads: bool, log: seq<Visit>, v: Visit)
    ensures v in OfStore(uploads, log) <==> v in log && (v.c == Uploads <==> uploads)
  {
    if log != [] {
      InStore(uploads, log[..|log| - 1], v);
      assert log == log[..|log| - 1] + [log[|log| - 1]];
    }
  }

  /** The items of a class that are due under a rule at an instant. */
  ghost function DueItems(c: Class, r: Rule, now: int, items: Contents): set<Item> {
    set x | x in items && items[x].Some? && ClassOf(x) == c && DueAt(r, now, x, items[x].value)
  }

  lemma DueIsEligible(c: Class, r: Rule, now: int, items: Contents)
    requires r.enabled && Acts(Days(c, r)) && Kind(c == Uploads, items)
    ensures DueItems(c, r, now, items) == EligibleSet(ActionTarget(c, r, now), items)
  {
    forall x | x in items
      ensures x in DueItems(c, r, now, items) <==> x in EligibleSet(ActionTarget(c, r, now), items)
    {
      EligibleExactly(c, r, now, x, items[x]);
    }
  }

  /** Every action that is set for an enabled rule was called once on its turn, whether or not earlier calls failed.
      Unless a listing of that very call failed or it counted 2000 deletes itself, no more items that were due under the
      rule when the call looked at the clock are left at the end than those the store refused to give up to it. */
  lemma EveryRuleAttended(s: Start, u: Start, log: seq<Visit>, h: Here, g: Here, counts: Sums, c: Class, r: Rule)
    requires Ran(s, u, Actions(EnabledOnly(s.rules)), log, h, g, counts) && !s.uploads && u.uploads
    requires r in s.rules && r.enabled && Days(c, r).Some? && Days(c, r).value > 0
    requires Kind(false, h.items) && Kind(true, g.items)
    ensures var (start, items) := if c == Uploads then (u, g.items) else (s, h.items);
            exists v :: v in log && v.c == c && v.r == r && Visited(start, v)
              && (!v.failed && v.n < 2000 ==> |DueItems(c, r, start.clock(v.from.ticks), items)| <= v.refused)
  {
    EnabledExactly(s.rules, r);
    ActionsExactly(EnabledOnly(s.rules), c, r);
    ActingExactly(Actions(EnabledOnly(s.rules)), c, r);
    var (start, end) := if c == Uploads then (u, g) else (s, h);
    hide Actions, EnabledOnly, Acting, Visited, Chained, Counted, OfStore, EligibleSet, DueItems, Kind, ActionTarget;
    var i :| 0 <= i < |log| && Pairs(log)[i] == (c, r);
    var visits := OfStore(start.uploads, log);
    InStore(start.uploads, log, log[i]);
    AllDidTheirPart(start, visits, end, log[i]);
    DueIsEligible(c, r, start.clock(log[i].from.ticks), end.items);
  }

  /** In particular nothing it was due is left when its own requests all succeeded and it stayed below its cap. */
  lemma SmoothCallEmpties(s: Start, v: Visit, items: Contents)
    requires Visited(s, v) && DidItsPart(s, v, items) && v.n < MAX_DELETES
    requires Smooth(s.faults, v.from.tally.calls, v.to.tally.calls)
    ensures EligibleSet(TargetOf(s, v), items) == {}
  {
  }

  /** The objects and the unfinished uploads of a store, and the time at each look at the clock. */
  class Runner {
    const rules: seq<Rule>
    const readable: bool
    const objects: Shelf
    const uploads: Shelf
    const clock: nat -> int
    var ticks: nat

    constructor (rules: seq<Rule>, readable: bool, objects: Shelf, uploads: Shelf, clock: nat -> int)
      ensures this.rules == rules && this.readable == readable && this.objects == objects && this.uploads == uploads
      ensures this.clock == clock && ticks == 0
    {
      this.rules, this.readable, this.objects, this.uploads := rules, readable, objects, uploads;
      this.clock, ticks := clock, 0;
    }

    ghost predicate Valid()
      reads objects, uploads
    {
      objects != uploads && Kind(false, objects.items) && Kind(true, uploads.items)
    }

    ghost function At(shelf: Shelf): (h: Here)
      reads this, shelf
      ensures h.ticks == ticks && h.items == shelf.items && h.tally == shelf.Now()
    {
      Here(ticks, shelf.items, shelf.Now())
    }

    /** A run over one of the stores that begins now. */
    ghost function From(shelf: Shelf, ofUploads: bool): (s: Start)
      reads this, shelf
      ensures s == Start(rules, clock, ticks, ofUploads, shelf.items, shelf.faults, shelf.Now())
    {
      Start(rules, clock, ticks, ofUploads, shelf.items, shelf.faults, shelf.Now())
    }

    method ListEnabled() returns (out: seq<Rule>)
      ensures out == EnabledOnly(rules)
    {
      out := [];
      for i := 0 to |rules|
        invariant out == EnabledOnly(rules[..i])
      {
        assert rules[..i + 1][..i] == rules[..i];
        if rules[i].enabled { out := out + [rules[i]]; }
      }
      assert rules[..|rules|] == rules;
    }

    method Clean(shelf: Shelf, c: Class, t: Target) returns (n: nat, failed: bool)
      requires Keyed(shelf.items) && (c == Uploads ==> !t.liveOnly) && (c != Uploads ==> Objects(shelf.items))
      modifies shelf
      ensures Since(shelf.faults, old(shelf.Now()), shelf.Now(), failed)
      ensures Cleaned(t, old(shelf.items), shelf.items, n, failed,
                      shelf.Now().lost - old(shelf.Now()).lost, shelf.Now().refused - old(shelf.Now()).refused)
    {
      if c == Uploads {
        n, failed := AbortMultipart(shelf, t);
      } else {
        n, failed := DeletePrefix(shelf, t);
      }
    }

    /** One look at the clock and one call. */
    method Attempt(shelf: Shelf, c: Class, r: Rule, ghost s: Start) returns (n: nat, ghost v: Visit)
      requires Covers(s, c) && Kind(s.uploads, shelf.items) && r in s.rules && r.enabled && Acts(Days(c, r))
      requires s.clock == clock && s.faults == shelf.faults
      modifies this, shelf
      ensures Visited(s, v) && v.c == c && v.r == r && v.n == n
      ensures v.from == old(At(shelf)) && v.to == At(shelf) && ticks == old(ticks) + 1
    {
      KindMeans(s.uploads, shelf.items);
      NotLiveOnly(c, r, clock(ticks));
      hide Cleaned, Kind, Keyed, Objects, ActionTarget;
      ghost var h := At(shelf);
      var t, failed := ActionTarget(c, r, clock(ticks)), false;
      ticks := ticks + 1;
      n, failed := Clean(shelf, c, t);
      v := Visit(c, r, h, At(shelf), n, shelf.lost - h.tally.lost, shelf.refused - h.tally.refused, failed);
    }

    /** One action of a rule: nothing at all without a positive number of days, else one call, which moves only its own
        counter; its error is only logged, and what went before the error still counts. */
    method Act(shelf: Shelf, c: Class, r: Rule, counts0: Sums, ghost s: Start)
      returns (counts: Sums, ghost visits: seq<Visit>)
      requires Covers(s, c) && Kind(s.uploads, shelf.items) && r in s.rules && r.enabled
      requires s.clock == clock && s.faults == shelf.faults
      modifies this, shelf
      ensures Kind(s.uploads, shelf.items)
      ensures !Acts(Days(c, r)) ==> visits == [] && At(shelf) == old(At(shelf)) && counts == counts0
      ensures Acts(Days(c, r)) ==>
                |visits| == 1 && var v := visits[0];
                && Visited(s, v) && v.c == c && v.r == r && v.from == old(At(shelf)) && v.to == At(shelf)
                && counts == counts0.Add(c, v.n)
    {
      hide Visited, Kind;
      counts, visits := counts0, [];
      if Acts(Days(c, r)) {
        ghost var v;
        var n;
        n, v := Attempt(shelf, c, r, s);
        KindKept(s, v);
        counts, visits := counts0.Add(c, n), [v];
      }
    }

    /** An action on the objects, as the next one of a run. */
    method ActOnObjects(c: Class, r: Rule, counts0: Sums, ghost j: Journal)
      returns (counts: Sums, ghost log: seq<Visit>)
      requires Valid() && Fits(j) && r in rules && r.enabled && c != Uploads
      requires Ran(j.s, j.u, j.actions, j.log, At(objects), At(uploads), counts0)
      modifies this, objects
      ensures Valid() && Ran(j.s, j.u, j.actions + [(c, r)], log, At(objects), At(uploads), counts)
    {
      hide Ran, Visited, Kind;
      ghost var h, g, visits := At(objects), At(uploads), [];
      counts, visits := Act(objects, c, r, counts0, j.s);
      log := j.log + visits;
      if visits == [] {
        RanSkip(j.s, j.u, j.actions, j.log, h, g, counts0, c, r);
        assert log == j.log;
      } else {
        RanObjects(j.s, j.u, j.actions, j.log, h, g, counts0, visits[0]);
        assert visits == [visits[0]];
      }
    }

    method ActOnUploads(r: Rule, counts0: Sums, ghost j: Journal) returns (counts: Sums, ghost log: seq<Visit>)
      requires Valid() && Fits(j) && r in rules && r.enabled
      requires Ran(j.s, j.u, j.actions, j.log, At(objects), At(uploads), counts0)
      modifies this, uploads
      ensures Valid() && Ran(j.s, j.u, j.actions + [(Uploads, r)], log, At(objects), At(uploads), counts)
    {
      hide Ran, Visited, Kind;
      ghost var h, g, visits := At(objects), At(uploads), [];
      counts, visits := Act(uploads, Uploads, r, counts0, j.u);
      log := j.log + visits;
      if visits == [] {
        RanSkip(j.s, j.u, j.actions, j.log, h, g, counts0, Uploads, r);
        assert log == j.log;
      } else {
        RanUploads(j.s, j.u, j.actions, j.log, h, g, counts0, visits[0]);
        assert visits == [visits[0]];
      }
    }

    /** The four actions of one rule, in order, whichever of them fail. */
    method ActAll(r: Rule, counts0: Sums, ghost j: Journal) returns (counts: Sums, ghost log: seq<Visit>)
      requires Valid() && Fits(j) && r in rules && r.enabled
      requires Ran(j.s, j.u, j.actions, j.log, At(objects), At(uploads), counts0)
      modifies this, objects, uploads
      ensures Valid() && Ran(j.s, j.u, j.actions + RuleActions(r), log, At(objects), At(uploads), counts)
    {
      hide Ran, Kind;
      var a := j.actions;
      counts, log := ActOnObjects(Live, r, counts0, j);
      counts, log := ActOnObjects(Trash, r, counts, Journal(j.s, j.u, a + [(Live, r)], log));
      counts, log := ActOnObjects(Versions, r, counts, Journal(j.s, j.u, a + [(Live, r)] + [(Trash, r)], log));
      counts, log := ActOnUploads(r, counts, Journal(j.s, j.u, a + [(Live, r)] + [(Trash, r)] + [(Versions, r)], log));
      assert a + RuleActions(r) == a + [(Live, r)] + [(Trash, r)] + [(Versions, r)] + [(Uploads, r)];
    }

    method Run() returns (ok: bool, counts: Sums, ghost log: seq<Visit>)
      requires Valid()
      modifies this, objects, uploads
      ensures Valid() && ok == readable
      ensures !ok ==> At(objects) == old(At(objects)) && At(uploads) == old(At(uploads))
      ensures !ok ==> counts == NOTHING && log == []
      ensures ok ==> Ran(old(From(objects, false)), old(From(uploads, true)), Actions(EnabledOnly(rules)), log,
                         At(objects), At(uploads), counts)
    {
      hide Ran, Kind, Actions, EnabledOnly;
      ok, counts, log := readable, NOTHING, [];
      ghost var s, u := From(objects, false), From(uploads, true);
      if !readable { return; }
      NothingYet(s, u);
      NoActions();
      var enabled := ListEnabled();
      for i := 0 to |enabled|
        invariant Valid() && Ran(s, u, Actions(enabled[..i]), log, At(objects), At(uploads), counts)
      {
        EnabledExactly(rules, enabled[i]);
        ActionsNext(enabled[..i], enabled[i]);
        assert enabled[..i + 1] == enabled[..i] + [enabled[i]];
        counts, log := ActAll(enabled[i], counts, Journal(s, u, Actions(enabled[..i]), log));
      }
      assert enabled[..|enabled|] == enabled;
    }

    /** The journal of a run of this runner. */
    ghost predicate Fits(j: Journal) {
      && j.s.rules == rules && j.s.clock == clock && j.s.faults == objects.faults && !j.s.uploads
      && j.u.rules == rules && j.u.clock == clock && j.u.faults == uploads.faults && j.u.uploads
    }
  }

  /** How far a run has come: its starts on both stores, the actions taken up and the calls made. */
  datatype Journal = Journal(s: Start, u: Start, actions: seq<(Class, Rule)>, log: seq<Visit>)

  lemma KindKept(s: Start, v: Visit)
    requires Visited(s, v)
    ensures Kind(s.uploads, v.to.items)
  {
  }

  lemma KindMeans(uploads: bool, items: Contents)
    requires Kind(uploads, items)
    ensures Keyed(items) && (!uploads ==> Objects(items))
  {
  }

  lemma NotLiveOnly(c: Class, r: Rule, now: int)
    requires Days(c, r).Some?
    ensures c == Uploads ==> !ActionTarget(c, r, now).liveOnly
  {
  }

  lemma NoActions()
    ensures Actions([]) == []
  {
  }

  /** Rule by rule, each with its four actions in this order. */
  lemma ActionsNext(done: seq<Rule>, r: Rule)
    ensures Actions(done + [r]) == Actions(done) + RuleActions(r)
    ensures RuleActions(r) == [(Live, r), (Trash, r), (Versions, r), (Uploads, r)]
  {
    assert (done + [r])[..|done|] == done;
  }
}
