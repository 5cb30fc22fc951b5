/** The lifecycle runner: capped, paginated deletion loops over the store they are listing. */
module Lifecycle {
  import opened Common
  import opened Shelves

  const MAX_DELETES: nat := 2000
  const DAY: int := 86400

  // ---------- key classes ----------

  predicate LiveKey(key: string) {
    !(".trash/" <= key) && !(".versions/" <= key)
  }

  function TrimSlashes(prefix: string): string {
    if prefix != "" && prefix[0] == '/' then TrimSlashes(prefix[1..]) else prefix
  }

  function JoinPrefix(base: string, prefix: string): string {
    base + TrimSlashes(prefix)
  }

  // ---------- what one action may delete ----------

  /** `liveOnly` is the filter of the live action; the other actions keep any key. */
  datatype Target = Target(bucket: string, prefix: string, cutoff: int, liveOnly: bool)

  predicate Old(stamp: Option<int>, cutoff: int) {
    stamp.Some? && stamp.value < cutoff
  }

  predicate Eligible(t: Target, x: Item, stamp: Option<int>) {
    x.bucket == t.bucket && t.prefix <= x.key && (t.liveOnly ==> LiveKey(x.key)) && Old(stamp, t.cutoff)
  }

  function EligibleSet(t: Target, items: Contents): set<Item> {
    set x | x in items && Eligible(t, x, items[x])
  }

  ghost predicate Keyed(items: Contents) {
    forall x :: x in items ==> x.key != ""
  }

  /** `gone` was removed and nothing else changed. */
  predicate Without(before: Contents, after: Contents, gone: set<Item>) {
    after == before - gone && gone <= before.Keys
  }

  function Gone(before: Contents, after: Contents): set<Item> {
    before.Keys - after.Keys
  }

  ghost function EligibleLines(t: Target, lines: seq<Line>): set<Item> {
    set i | 0 <= i < |lines| && Eligible(t, lines[i].item, lines[i].stamp) :: lines[i].item
  }

  /** The books of a loop: what is gone, and what could not be removed. */
  ghost predicate Ledger(before: Contents, after: Contents, gone: set<Item>, refused: set<Item>) {
    Without(before, after, gone) && gone !! refused
  }

  /** One delete and its entry in the books. */
  method RemoveItem(shelf: Shelf, x: Item, ghost before: Contents, ghost gone0: set<Item>, ghost refused0: set<Item>)
    returns (failed: bool, ghost gone: set<Item>, ghost refused: set<Item>)
    requires Ledger(before, shelf.items, gone0, refused0) && x in before && x !in gone0 + refused0
    modifies shelf
    ensures shelf.unlisted == old(shelf.unlisted) && shelf.answered == old(shelf.answered) + if failed then 0 else 1
    ensures shelf.calls == old(shelf.calls) + 1 && failed == (shelf.faults.deletes(old(shelf.calls)) != Fine)
    ensures Ledger(before, shelf.items, gone, refused) && gone + refused == gone0 + refused0 + {x}
    ensures |gone| == |gone0| + (if failed then 0 else 1) + shelf.lost - old(shelf.lost)
    ensures |refused| == |refused0| + shelf.refused - old(shelf.refused)
    ensures shelf.lost >= old(shelf.lost) && shelf.refused >= old(shelf.refused)
    ensures !failed ==> shelf.lost == old(shelf.lost) && shelf.refused == old(shelf.refused)
    ensures shelf.faults.deletes(old(shelf.calls)) == LostReply ==> shelf.refused == old(shelf.refused)
  {
    failed := shelf.Remove(x);
    if shelf.faults.deletes(shelf.calls - 1) == Fails {
      gone, refused := gone0, refused0 + {x};
    } else {
      gone, refused := gone0 + {x}, refused0;
    }
    assert shelf.items == before - gone;
  }

  /** The counters only grow, and only the first one moves when every request succeeds. */
  ghost predicate Grows(faults: Oracle, a: Tally, b: Tally) {
    && a.calls <= b.calls && a.answered <= b.answered
    && a.lost <= b.lost && a.refused <= b.refused && a.unlisted <= b.unlisted
    && (Smooth(faults, a.calls, b.calls) ==> a.lost == b.lost && a.refused == b.refused && a.unlisted == b.unlisted)
    && (Unanswered(faults, a.calls, b.calls) ==>
          a.answered == b.answered && a.refused == b.refused && a.unlisted == b.unlisted)
  }

  /** One call: it fails exactly when a listing fails, and that is its last request. */
  ghost predicate Since(faults: Oracle, a: Tally, b: Tally, failed: bool) {
    Grows(faults, a, b) && b.unlisted == a.unlisted + if failed then 1 else 0
  }

  lemma GrowsThen(faults: Oracle, a: Tally, b: Tally, c: Tally)
    requires Grows(faults, a, b) && Grows(faults, b, c)
    ensures Grows(faults, a, c)
    ensures Smooth(faults, a.calls, c.calls) ==> Smooth(faults, a.calls, b.calls) && Smooth(faults, b.calls, c.calls)
  {
  }

  lemma SinceStart(faults: Oracle, a: Tally)
    ensures Since(faults, a, a, false)
  {
  }

  lemma SinceGrows(faults: Oracle, a: Tally, b: Tally, failed: bool)
    requires Since(faults, a, b, failed)
    ensures a.lost <= b.lost && Grows(faults, a, b)
  {
  }

  lemma SinceThen(faults: Oracle, a: Tally, b: Tally, c: Tally, failed: bool)
    requires Since(faults, a, b, false) && Since(faults, b, c, failed)
    ensures Since(faults, a, c, failed)
    ensures Smooth(faults, a.calls, c.calls) ==> Smooth(faults, a.calls, b.calls) && Smooth(faults, b.calls, c.calls)
  {
  }

  /** One round of the loop over a page. */
  method RemoveLine(shelf: Shelf, t: Target, line: Line, count0: nat,
                    ghost before: Contents, ghost gone0: set<Item>, ghost refused0: set<Item>)
    returns (count: nat, ghost gone: set<Item>, ghost refused: set<Item>)
    requires Ledger(before, shelf.items, gone0, refused0) && line.item in before && line.item !in gone0 + refused0
    requires line.item.bucket == t.bucket && t.prefix <= line.item.key
    modifies shelf
    ensures Since(shelf.faults, old(shelf.Now()), shelf.Now(), false) && count0 <= count <= count0 + 1
    ensures Ledger(before, shelf.items, gone, refused)
    ensures gone + refused == gone0 + refused0 + (if Eligible(t, line.item, line.stamp) then {line.item} else {})
    ensures |gone| - |gone0| == count - count0 + shelf.lost - old(shelf.lost)
    ensures count - count0 == shelf.answered - old(shelf.answered)
    ensures |refused| - |refused0| == shelf.refused - old(shelf.refused)
  {
    count, gone, refused := count0, gone0, refused0;
    if (t.liveOnly && !LiveKey(line.item.key)) || line.stamp.None? || !(line.stamp.value < t.cutoff) { return; }
    hide Ledger, Since;
    ghost var start := shelf.Now();
    var failed;
    failed, gone, refused := RemoveItem(shelf, line.item, before, gone0, refused0);
    SinceDelete(shelf.faults, start, shelf.Now());
    if failed { return; }
    count := count + 1;
  }

  /** A delete with one of its three fates. */
  lemma SinceDelete(faults: Oracle, a: Tally, b: Tally)
    requires b.calls == a.calls + 1 && b.unlisted == a.unlisted
    requires b.answered == a.answered + if faults.deletes(a.calls) != Fine then 0 else 1
    requires b.lost >= a.lost && b.refused >= a.refused
    requires faults.deletes(a.calls) == Fine ==> b.lost == a.lost && b.refused == a.refused
    requires faults.deletes(a.calls) == LostReply ==> b.refused == a.refused
    ensures Since(faults, a, b, false)
  {
  }

  /** The lines of one page. */
  method RemoveLines(shelf: Shelf, t: Target, lines: seq<Line>, count0: nat)
    returns (count: nat, ghost gone: set<Item>, ghost refused: set<Item>)
    requires count0 <= MAX_DELETES
    requires forall i :: 0 <= i < |lines| ==>
               lines[i].item in shelf.items && lines[i].item.bucket == t.bucket && t.prefix <= lines[i].item.key
    requires forall i, j :: 0 <= i < j < |lines| ==> lines[i].item != lines[j].item
    modifies shelf
    ensures count0 <= count <= MAX_DELETES && Since(shelf.faults, old(shelf.Now()), shelf.Now(), false)
    ensures Ledger(old(shelf.items), shelf.items, gone, refused)
    ensures count - count0 == shelf.answered - old(shelf.answered)
    ensures |gone| == count - count0 + shelf.lost - old(shelf.lost) && |refused| == shelf.refused - old(shelf.refused)
    ensures gone + refused <= EligibleLines(t, lines)
    ensures count < MAX_DELETES ==> gone + refused == EligibleLines(t, lines)
  {
    count, gone, refused := count0, {}, {};
    ghost var before, start := shelf.items, shelf.Now();
    hide *;
    StartLines(t, before, lines);
    SinceStart(shelf.faults, start);
    var i := 0;
    while i < |lines|
      invariant 0 <= i <= |lines| && count0 <= count <= MAX_DELETES && Since(shelf.faults, start, shelf.Now(), false)
      invariant Ledger(before, shelf.items, gone, refused)
      invariant count - count0 == shelf.answered - old(shelf.answered)
      invariant |gone| == count - count0 + shelf.lost - old(shelf.lost)
      invariant |refused| == shelf.refused - old(shelf.refused)
      invariant gone + refused == EligibleLines(t, lines[..i])
    {
      if count >= MAX_DELETES { break; }
      NextLine(t, lines, i);
      ghost var mid := shelf.Now();
      count, gone, refused := RemoveLine(shelf, t, lines[i], count, before, gone, refused);
      SinceThen(shelf.faults, start, mid, shelf.Now(), false);
      i := i + 1;
    }
    FewerLines(t, lines, i);
  }

  lemma StartLines(t: Target, before: Contents, lines: seq<Line>)
    ensures Ledger(before, before, {}, {}) && {} + {} == EligibleLines(t, lines[..0])
  {
    assert before - {} == before;
  }

  lemma NextLine(t: Target, lines: seq<Line>, i: nat)
    requires i < |lines|
    requires forall i, j :: 0 <= i < j < |lines| ==> lines[i].item != lines[j].item
    ensures EligibleLines(t, lines[..i + 1]) ==
              EligibleLines(t, lines[..i]) + if Eligible(t, lines[i].item, lines[i].stamp) then {lines[i].item} else {}
    ensures lines[i].item !in EligibleLines(t, lines[..i])
  {
    var (p, q) := (lines[..i], lines[..i + 1]);
    assert forall k :: 0 <= k < i ==> q[k] == p[k] == lines[k];
    assert q[i] == lines[i];
  }

  lemma FewerLines(t: Target, lines: seq<Line>, i: nat)
    requires i <= |lines|
    ensures EligibleLines(t, lines[..i]) <= EligibleLines(t, lines) && (i == |lines| ==> lines[..i] == lines)
  {
    assert forall k :: 0 <= k < i ==> lines[..i][k] == lines[k];
  }

  // ---------- one page of the listing ----------

  /** Before the page behind the marker: every eligible item is dealt with or still ahead. */
  ghost predicate Swept(t: Target, before: Contents, gone: set<Item>, refused: set<Item>, key: string, upload: string) {
    var dealt := gone + refused;
    && dealt <= EligibleSet(t, before)
    && (forall x :: x in EligibleSet(t, before) - dealt ==> Remaining(key, upload, x))
    && (forall x :: x in dealt ==> !Remaining(key, upload, x))
  }

  /** Behind the last page. */
  ghost predicate AllDealt(t: Target, before: Contents, gone: set<Item>, refused: set<Item>) {
    gone + refused == EligibleSet(t, before)
  }

  lemma PageEligible(t: Target, items: Contents, found: set<Item>, p: Page)
    requires IsPage(p, items, found)
    ensures forall x ::
              x in EligibleLines(t, p.lines)
              <==> x in found && x in items && Listed(p.lines, x) && Eligible(t, x, items[x])
  {
    forall x | x in found && x in items && Listed(p.lines, x) && Eligible(t, x, items[x])
      ensures x in EligibleLines(t, p.lines)
    {
      var i :| 0 <= i < |p.lines| && p.lines[i].item == x;
    }
    forall x | x in EligibleLines(t, p.lines)
      ensures x in found && x in items && Listed(p.lines, x) && Eligible(t, x, items[x])
    {
      var i :| 0 <= i < |p.lines| && Eligible(t, p.lines[i].item, p.lines[i].stamp) && p.lines[i].item == x;
    }
  }

  /** The marker of a truncated page is behind the old one. */
  lemma MarkerAdvances(items: Contents, bucket: string, prefix: string, key: string, upload: string, p: Page, x: Item)
    requires IsPage(p, items, Found(items, bucket, prefix, key, upload)) && p.truncated && Keyed(items)
    ensures p.key != "" && (Remaining(p.key, p.upload, x) ==> Remaining(key, upload, x))
    ensures var last := p.lines[|p.lines| - 1].item;
            last in Found(items, bucket, prefix, key, upload) && !Remaining(p.key, p.upload, last)
  {
    var last := p.lines[|p.lines| - 1].item;
    PrecedesTotal(last, last);
    if Remaining(p.key, p.upload, x) && !(key == "" && upload == "") { BehindTransitive(key, upload, last, x); }
  }

  /** Keeps the books when the lines of a page were dealt with. */
  lemma PageSwept(t: Target, before: Contents, items: Contents, key: string, upload: string,
                  gone: set<Item>, refused: set<Item>, p: Page, gone1: set<Item>, refused1: set<Item>)
    requires Keyed(before) && Ledger(before, items, gone, refused) && Swept(t, before, gone, refused, key, upload)
    requires IsPage(p, items, Found(items, t.bucket, t.prefix, key, upload))
    requires gone1 + refused1 <= EligibleLines(t, p.lines)
    ensures gone1 + refused1 !! gone + refused && gone + refused + (gone1 + refused1) <= EligibleSet(t, before)
    ensures gone1 + refused1 == EligibleLines(t, p.lines) ==>
              if p.truncated then Swept(t, before, gone + gone1, refused + refused1, p.key, p.upload)
              else AllDealt(t, before, gone + gone1, refused + refused1)
  {
    var (found, now) := (Found(items, t.bucket, t.prefix, key, upload), gone1 + refused1);
    assert gone + gone1 + (refused + refused1) == gone + refused + now;
    PageEligible(t, items, found, p);
    assert forall x :: x in items ==> x in before && items[x] == before[x];
    if now == EligibleLines(t, p.lines) {
      if p.truncated {
        forall x | x in EligibleSet(t, before) - (gone + refused + now) ensures Remaining(p.key, p.upload, x) {
          assert x in found && x in items;
        }
        forall x | x in gone + refused + now ensures !Remaining(p.key, p.upload, x) {
          MarkerAdvances(items, t.bucket, t.prefix, key, upload, p, x);
        }
      } else {
        forall x | x in EligibleSet(t, before) ensures x in gone + refused + now {
          if x !in gone + refused { assert x in found && x in items; }
        }
      }
    }
  }

  lemma FoundShrinks(items: Contents, after: Contents, bucket: string, prefix: string, key: string, upload: string,
                     p: Page)
    requires IsPage(p, items, Found(items, bucket, prefix, key, upload)) && p.truncated && Keyed(items)
    requires after.Keys <= items.Keys
    ensures |Found(after, bucket, prefix, p.key, p.upload)| < |Found(items, bucket, prefix, key, upload)|
  {
    forall x | x in Found(after, bucket, prefix, p.key, p.upload)
      ensures x in Found(items, bucket, prefix, key, upload)
    {
      MarkerAdvances(items, bucket, prefix, key, upload, p, x);
    }
    var last := p.lines[|p.lines| - 1].item;
    MarkerAdvances(items, bucket, prefix, key, upload, p, last);
    Subset(Found(after, bucket, prefix, p.key, p.upload), Found(items, bucket, prefix, key, upload));
  }

  lemma LedgerSum(before: Contents, mid: Contents, after: Contents,
                  gone: set<Item>, refused: set<Item>, gone1: set<Item>, refused1: set<Item>)
    requires Ledger(before, mid, gone, refused) && Ledger(mid, after, gone1, refused1)
    requires gone1 + refused1 !! gone + refused
    ensures Ledger(before, after, gone + gone1, refused + refused1)
    ensures |gone + gone1| == |gone| + |gone1| && |refused + refused1| == |refused| + |refused1|
  {
    assert after == before - (gone + gone1);
  }

  ghost predicate HasUpload(items: Contents, upload: string) {
    exists x :: x in items && x.upload == upload
  }

  /** Keeps all the books when a page was dealt with. */
  lemma PageLedger(t: Target, before: Contents, items: Contents, after: Contents, key: string, upload: string,
                   gone: set<Item>, refused: set<Item>, p: Page, gone1: set<Item>, refused1: set<Item>)
    requires Keyed(before) && Ledger(before, items, gone, refused) && Swept(t, before, gone, refused, key, upload)
    requires IsPage(p, items, Found(items, t.bucket, t.prefix, key, upload)) && Ledger(items, after, gone1, refused1)
    requires gone1 + refused1 <= EligibleLines(t, p.lines)
    ensures var (g, r) := (gone + gone1, refused + refused1);
            && Ledger(before, after, g, r) && g + r <= EligibleSet(t, before)
            && |g| == |gone| + |gone1| && |r| == |refused| + |refused1|
            && (gone1 + refused1 == EligibleLines(t, p.lines) ==>
                  if p.truncated then Swept(t, before, g, r, p.key, p.upload) else AllDealt(t, before, g, r))
    ensures p.truncated ==>
              && p.key != "" && HasUpload(before, p.upload)
              && |Found(after, t.bucket, t.prefix, p.key, p.upload)| < |Found(items, t.bucket, t.prefix, key, upload)|
  {
    hide Swept, IsPage, EligibleLines, EligibleSet, Found, Ledger;
    PageSwept(t, before, items, key, upload, gone, refused, p, gone1, refused1);
    LedgerSum(before, items, after, gone, refused, gone1, refused1);
    assert gone + gone1 + (refused + refused1) == gone + refused + (gone1 + refused1);
    if p.truncated {
      LedgerKeyed(before, items, gone, refused);
      LedgerKeyed(items, after, gone1, refused1);
      FoundShrinks(items, after, t.bucket, t.prefix, key, upload, p);
      MarkerAdvances(items, t.bucket, t.prefix, key, upload, p, Item("", "", ""));
      PageLines(t, items, key, upload, p);
      assert p.lines[|p.lines| - 1].item in before;
    }
  }

  /** The books of a whole call: what was counted and what lost its reply is gone, what had no effect was refused. */
  ghost predicate Books(t: Target, before: Contents, items: Contents, gone: set<Item>, refused: set<Item>,
                        count: nat, a: Tally, b: Tally) {
    && Ledger(before, items, gone, refused) && gone + refused <= EligibleSet(t, before)
    && count <= MAX_DELETES && count == b.answered - a.answered
    && |gone| == count + b.lost - a.lost && |refused| == b.refused - a.refused
  }

  lemma OpenBooks(t: Target, before: Contents, items: Contents, gone: set<Item>, refused: set<Item>,
                  count: nat, a: Tally, b: Tally)
    requires Books(t, before, items, gone, refused, count, a, b)
    ensures Ledger(before, items, gone, refused) && gone + refused <= EligibleSet(t, before) && count <= MAX_DELETES
  {
  }

  lemma KeepBooks(t: Target, before: Contents, items: Contents, after: Contents,
                  gone: set<Item>, refused: set<Item>, count: nat, a: Tally, b: Tally,
                  gone1: set<Item>, refused1: set<Item>, count1: nat, c: Tally)
    requires Books(t, before, items, gone, refused, count, a, b)
    requires Ledger(before, after, gone1, refused1) && gone1 + refused1 <= EligibleSet(t, before)
    requires count1 <= MAX_DELETES
    requires |gone1| - |gone| == count1 - count + c.lost - b.lost && |refused1| - |refused| == c.refused - b.refused
    requires count1 - count == c.answered - b.answered
    ensures Books(t, before, after, gone1, refused1, count1, a, c)
  {
  }

  /** Lists the page behind the marker and removes its eligible lines; `start` is where the whole call began. */
  method CleanPage(shelf: Shelf, t: Target, key: string, upload: string, count0: nat,
                   ghost before: Contents, ghost gone0: set<Item>, ghost refused0: set<Item>, ghost start: Tally)
    returns (p: Page, count: nat, failed: bool, ghost gone: set<Item>, ghost refused: set<Item>)
    requires count0 < MAX_DELETES && Keyed(before) && Swept(t, before, gone0, refused0, key, upload)
    requires Books(t, before, shelf.items, gone0, refused0, count0, start, shelf.Now())
    requires Since(shelf.faults, start, shelf.Now(), false)
    modifies shelf
    ensures Books(t, before, shelf.items, gone, refused, count, start, shelf.Now())
    ensures Since(shelf.faults, start, shelf.Now(), failed)
    ensures !failed && count < MAX_DELETES ==>
              if p.truncated then Swept(t, before, gone, refused, p.key, p.upload)
              else AllDealt(t, before, gone, refused)
    ensures !failed && p.truncated ==>
              && p.key != "" && HasUpload(before, p.upload)
              && |Found(shelf.items, t.bucket, t.prefix, p.key, p.upload)|
                 < old(|Found(shelf.items, t.bucket, t.prefix, key, upload)|)
  {
    hide *;
    ghost var items, here := shelf.items, shelf.Now();
    OpenBooks(t, before, items, gone0, refused0, count0, start, here);
    p, failed := shelf.List(t.bucket, t.prefix, key, upload);
    count, gone, refused := count0, gone0, refused0;
    OneMore(shelf.faults, start, here, failed);
    KeepBooks(t, before, items, items, gone0, refused0, count0, start, here, gone, refused, count, shelf.Now());
    if failed { return; }
    PageLines(t, items, key, upload, p);
    ghost var listed := shelf.Now();
    count, gone, refused := RemoveLines(shelf, t, p.lines, count0);
    SinceThen(shelf.faults, start, listed, shelf.Now(), false);
    PageLedger(t, before, items, shelf.items, key, upload, gone0, refused0, p, gone, refused);
    gone, refused := gone0 + gone, refused0 + refused;
    KeepBooks(t, before, items, shelf.items, gone0, refused0, count0, start, here, gone, refused, count, shelf.Now());
  }

  /** One more request that is not a delete. */
  lemma OneMore(faults: Oracle, a: Tally, b: Tally, failed: bool)
    requires Since(faults, a, b, false) && failed == !faults.lists(b.calls)
    ensures Since(faults, a, b.(calls := b.calls + 1, unlisted := b.unlisted + if failed then 1 else 0), failed)
  {
  }

  lemma PageLines(t: Target, items: Contents, key: string, upload: string, p: Page)
    requires IsPage(p, items, Found(items, t.bucket, t.prefix, key, upload))
    ensures forall i :: 0 <= i < |p.lines| ==>
              p.lines[i].item in items && p.lines[i].item.bucket == t.bucket && t.prefix <= p.lines[i].item.key
    ensures forall i, j :: 0 <= i < j < |p.lines| ==> p.lines[i].item != p.lines[j].item
    ensures p.truncated ==> p.lines != [] && p.lines[|p.lines| - 1].item.upload == p.upload
  {
  }

  lemma LedgerKeyed(before: Contents, after: Contents, gone: set<Item>, refused: set<Item>)
    requires Ledger(before, after, gone, refused) && Keyed(before)
    ensures Keyed(after) && after.Keys <= before.Keys
  {
  }

  // ---------- one action ----------

  /** What a call that ended in `after` did, given how many calls lost their reply or had no effect. */
  ghost predicate Cleaned(t: Target, before: Contents, after: Contents, count: nat, failed: bool, lost: int,
                          refused: int) {
    var gone := Gone(before, after);
    && Without(before, after, gone) && gone <= EligibleSet(t, before)
    && count <= MAX_DELETES && |gone| == count + lost && |gone| + refused <= |EligibleSet(t, before)|
    && (!failed && count < MAX_DELETES ==> |EligibleSet(t, before)| == |gone| + refused)
  }

  lemma StartSweep(t: Target, before: Contents, a: Tally)
    ensures Books(t, before, before, {}, {}, 0, a, a) && Swept(t, before, {}, {}, "", "")
  {
    assert before - {} == before;
  }

  lemma FinishCall(t: Target, before: Contents, after: Contents, gone: set<Item>, refused: set<Item>,
                   count: nat, failed: bool, a: Tally, b: Tally)
    requires Books(t, before, after, gone, refused, count, a, b)
    requires !failed && count < MAX_DELETES ==> AllDealt(t, before, gone, refused)
    ensures count == b.answered - a.answered
    ensures Cleaned(t, before, after, count, failed, b.lost - a.lost, b.refused - a.refused)
  {
    assert gone == Gone(before, after);
    assert |gone + refused| == |gone| + |refused|;
    Subset(gone + refused, EligibleSet(t, before));
  }

  ghost predicate Objects(items: Contents) {
    forall x :: x in items ==> x.upload == ""
  }

  lemma NoUpload(items: Contents, upload: string)
    requires Objects(items) && HasUpload(items, upload)
    ensures upload == ""
  {
  }

  /** The loop of `DeletePrefix`: page by page until the listing ends, a listing fails or the cap is reached. */
  method DeletePages(shelf: Shelf, t: Target)
    returns (deleted: nat, failed: bool, ghost gone: set<Item>, ghost refused: set<Item>)
    requires Keyed(shelf.items) && Objects(shelf.items)
    modifies shelf
    ensures Since(shelf.faults, old(shelf.Now()), shelf.Now(), failed)
    ensures Books(t, old(shelf.items), shelf.items, gone, refused, deleted, old(shelf.Now()), shelf.Now())
    ensures !failed && deleted < MAX_DELETES ==> AllDealt(t, old(shelf.items), gone, refused)
  {
    ghost var before, start := shelf.items, shelf.Now();
    gone, refused := {}, {};
    var token := "";
    deleted, failed := 0, false;
    hide *;
    StartSweep(t, before, start);
    SinceStart(shelf.faults, start);
    while deleted < MAX_DELETES
      invariant Since(shelf.faults, start, shelf.Now(), failed) && !failed
      invariant Books(t, before, shelf.items, gone, refused, deleted, start, shelf.Now())
      invariant deleted < MAX_DELETES ==> Swept(t, before, gone, refused, token, "")
      decreases |Found(shelf.items, t.bucket, t.prefix, token, "")|
    {
      var p;
      p, deleted, failed, gone, refused := CleanPage(shelf, t, token, "", deleted, before, gone, refused, start);
      if failed { break; }
      if !p.truncated || p.key == "" || deleted >= MAX_DELETES { break; }
      NoUpload(before, p.upload);
      token := p.key;
    }
  }

  /** One action over the objects of a bucket. */
  method DeletePrefix(shelf: Shelf, t: Target) returns (deleted: nat, failed: bool)
    requires Keyed(shelf.items) && Objects(shelf.items)
    modifies shelf
    ensures Since(shelf.faults, old(shelf.Now()), shelf.Now(), failed)
    ensures deleted == shelf.answered - old(shelf.answered)
    ensures Cleaned(t, old(shelf.items), shelf.items, deleted, failed,
                    shelf.lost - old(shelf.lost), shelf.refused - old(shelf.refused))
  {
    hide *;
    ghost var gone, refused;
    deleted, failed, gone, refused := DeletePages(shelf, t);
    FinishCall(t, old(shelf.items), shelf.items, gone, refused, deleted, failed, old(shelf.Now()), shelf.Now());
  }

  /** The loop of `AbortMultipart`: page by page, with a marker of two parts. */
  method AbortPages(shelf: Shelf, t: Target)
    returns (aborted: nat, failed: bool, ghost gone: set<Item>, ghost refused: set<Item>)
    requires Keyed(shelf.items) && !t.liveOnly
    modifies shelf
    ensures Since(shelf.faults, old(shelf.Now()), shelf.Now(), failed)
    ensures Books(t, old(shelf.items), shelf.items, gone, refused, aborted, old(shelf.Now()), shelf.Now())
    ensures !failed && aborted < MAX_DELETES ==> AllDealt(t, old(shelf.items), gone, refused)
  {
    ghost var before, start := shelf.items, shelf.Now();
    gone, refused := {}, {};
    var keyMarker, uploadMarker := "", "";
    aborted, failed := 0, false;
    hide *;
    StartSweep(t, before, start);
    SinceStart(shelf.faults, start);
    while aborted < MAX_DELETES
      invariant Since(shelf.faults, start, shelf.Now(), failed) && !failed
      invariant Books(t, before, shelf.items, gone, refused, aborted, start, shelf.Now())
      invariant aborted < MAX_DELETES ==> Swept(t, before, gone, refused, keyMarker, uploadMarker)
      decreases |Found(shelf.items, t.bucket, t.prefix, keyMarker, uploadMarker)|
    {
      var p;
      p, aborted, failed, gone, refused := CleanPage(shelf, t, keyMarker, uploadMarker, aborted, before, gone, refused,
                                                     start);
      if failed { break; }
      if !p.truncated || aborted >= MAX_DELETES { break; }
      keyMarker, uploadMarker := p.key, p.upload;
    }
  }

  /** The same over the uploads, with a marker of two parts; the key filter keeps everything. */
  method AbortMultipart(shelf: Shelf, t: Target) returns (aborted: nat, failed: bool)
    requires Keyed(shelf.items) && !t.liveOnly
    modifies shelf
    ensures Since(shelf.faults, old(shelf.Now()), shelf.Now(), failed)
    ensures aborted == shelf.answered - old(shelf.answered)
    ensures Cleaned(t, old(shelf.items), shelf.items, aborted, failed,
                    shelf.lost - old(shelf.lost), shelf.refused - old(shelf.refused))
  {
    hide *;
    ghost var gone, refused;
    aborted, failed, gone, refused := AbortPages(shelf, t);
    FinishCall(t, old(shelf.items), shelf.items, gone, refused, aborted, failed, old(shelf.Now()), shelf.Now());
  }

  // ---------- completeness ----------

  function Min(a: nat, b: nat): nat {
    if a <= b then a else b
  }

  /** A call in which every request succeeded removes exactly min(2000, E) of the E eligible items. */
  lemma CompleteCall(t: Target, before: Contents, after: Contents, count: nat)
    requires Cleaned(t, before, after, count, false, 0, 0)
    ensures count == |Gone(before, after)| == Min(MAX_DELETES, |EligibleSet(t, before)|)
    ensures EligibleSet(t, after) == EligibleSet(t, before) - Gone(before, after)
    ensures |EligibleSet(t, after)| == |EligibleSet(t, before)| - count
  {
    var (gone, e) := (Gone(before, after), EligibleSet(t, before));
    Subset(gone, e);
    assert forall x :: x in after ==> x in before && after[x] == before[x];
    assert EligibleSet(t, after) == e - gone;
  }

  lemma {:induction false} Subset<T>(a: set<T>, b: set<T>)
    requires a <= b
    ensures |a| <= |b| && |b - a| == |b| - |a| && (|a| == |b| ==> a == b)
  {
    assert b == a + (b - a);
    if |a| == |b| { assert b - a == {}; }
  }

  ghost predicate CompleteStep(t: Target, before: Contents, after: Contents) {
    Cleaned(t, before, after, |Gone(before, after)|, false, 0, 0)
  }

  /** `states` are the contents between successive complete calls at a fixed cutoff. */
  ghost predicate CompleteCalls(t: Target, states: seq<Contents>) {
    forall i :: 0 < i < |states| ==> CompleteStep(t, states[i - 1], states[i])
  }

  /** After k complete calls max(0, E - 2000 k) eligible items are left. */
  lemma {:induction false} CallsAddUp(t: Target, states: seq<Contents>, k: nat)
    requires CompleteCalls(t, states) && k < |states|
    ensures |EligibleSet(t, states[k])| ==
              var e := |EligibleSet(t, states[0])|; if e <= MAX_DELETES * k then 0 else e - MAX_DELETES * k
  {
    if k > 0 {
      CallsAddUp(t, states, k - 1);
      assert CompleteStep(t, states[k - 1], states[k]);
      CompleteCall(t, states[k - 1], states[k], |Gone(states[k - 1], states[k])|);
    }
  }

  /** Lost replies are the one way past the cap: a call whose listings succeed removes more than 2000 items exactly when
      some reply was lost and more than 2000 eligible items were not refused. */
  lemma CapExactly(t: Target, before: Contents, after: Contents, count: nat, failed: bool, lost: nat, refused: nat)
    requires Cleaned(t, before, after, count, failed, lost, refused)
    ensures !failed ==>
              (|Gone(before, after)| > MAX_DELETES
               <==> lost > 0 && |EligibleSet(t, before)| > MAX_DELETES + refused)
    ensures |Gone(before, after)| > MAX_DELETES ==> lost > 0 && |EligibleSet(t, before)| > MAX_DELETES + refused
    ensures |Gone(before, after)| == count <==> lost == 0
  {
  }

  /** When no delete is answered one call removes every eligible object, however many there are, and returns zero. */
  method CleanUnanswered(items: Contents, t: Target, chunk: nat -> nat) returns (deleted: nat, after: Contents)
    requires Keyed(items) && Objects(items)
    ensures deleted == 0 && after == items - EligibleSet(t, items)
  {
    var shelf := new Shelf(items, Oracle(k => LostReply, k => true), chunk);
    ghost var start := shelf.Now();
    var failed;
    deleted, failed := DeletePrefix(shelf, t);
    after := shelf.items;
    NothingAnswered(shelf.faults, start, shelf.Now(), failed);
    Subset(Gone(items, after), EligibleSet(t, items));
  }

  lemma NothingAnswered(faults: Oracle, a: Tally, b: Tally, failed: bool)
    requires Since(faults, a, b, failed) && forall k :: faults.deletes(k) == LostReply && faults.lists(k)
    ensures !failed && a.answered == b.answered && a.refused == b.refused
  {
    assert Unanswered(faults, a.calls, b.calls);
  }

  // ---------- a call past the cap ----------

  function Name(n: nat): string {
    if n == 0 then "a" else Name(n - 1) + "a"
  }

  /** `n` old objects of one bucket. */
  function Many(n: nat): Contents {
    if n == 0 then map[] else Many(n - 1)[Item("b", Name(n), "") := Some(0)]
  }

  lemma {:induction false} NameLength(n: nat)
    ensures |Name(n)| == n + 1 && Name(n)[0] == 'a'
  {
    if n > 0 { NameLength(n - 1); }
  }

  const ALL_OLD: Target := Target("b", "", 1, true)

  lemma {:induction false} ManyEligible(n: nat)
    ensures forall x :: x in Many(n) ==> x.upload == "" && x.bucket == "b" && 1 < |x.key| <= n + 1 && x.key[0] == 'a'
    ensures forall x :: x in Many(n) ==> Many(n)[x] == Some(0)
    ensures |Many(n)| == n
  {
    if n > 0 {
      ManyEligible(n - 1);
      NameLength(n);
    }
  }

  /** Of `n` such objects all are gone after a call that returns zero: with 2001 of them, one more than the cap. */
  method PastTheCap(n: nat) returns (deleted: nat, removed: nat)
    ensures deleted == 0 && removed == n
  {
    var items := Many(n);
    AllEligible(n);
    hide *;
    var after;
    deleted, after := CleanUnanswered(items, ALL_OLD, k => 1000);
    assert after == map[];
    removed := |items| - |after|;
  }

  lemma AllEligible(n: nat)
    ensures EligibleSet(ALL_OLD, Many(n)) == Many(n).Keys && |Many(n)| == n && Keyed(Many(n)) && Objects(Many(n))
  {
    ManyEligible(n);
  }
}
