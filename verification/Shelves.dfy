/** A storage listing as the S3 API offers it: pages in key order behind a marker, deletes one by one.
    It serves for the objects of a store and for its unfinished multipart uploads. */
module Shelves {
  import opened Common

  /** `upload` is empty for an object. */
  datatype Item = Item(bucket: string, key: string, upload: string)

  /** What is stored, with its time as far as the service knows it. */
  type Contents = map<Item, Option<int>>

  /** One line of a listing page; the time is missing when the service left it out. */
  datatype Line = Line(item: Item, stamp: Option<int>)

  const PAGE_SIZE: nat := 1000

  // ---------- the order of a listing ----------

  predicate Less(a: string, b: string) {
    if b == [] then false
    else if a == [] then true
    else a[0] < b[0] || (a[0] == b[0] && Less(a[1..], b[1..]))
  }

  /** Strictly behind the marker (`key`, `upload`). */
  predicate Behind(key: string, upload: string, item: Item) {
    Less(key, item.key) || (key == item.key && Less(upload, item.upload))
  }

  lemma {:induction false} LessTotal(a: string, b: string)
    ensures Less(a, b) || a == b || Less(b, a)
    ensures !(Less(a, b) && Less(b, a)) && !Less(a, a)
  {
    if a != [] && b != [] {
      LessTotal(a[1..], b[1..]);
      assert a == [a[0]] + a[1..] && b == [b[0]] + b[1..];
    }
    if a != [] { LessIrreflexive(a[1..]); }
  }

  lemma {:induction false} LessIrreflexive(a: string)
    ensures !Less(a, a)
  {
    if a != [] { LessIrreflexive(a[1..]); }
  }

  lemma {:induction false} LessTransitive(a: string, b: string, c: string)
    requires Less(a, b) && Less(b, c)
    ensures Less(a, c)
  {
    if a != [] && a[0] == b[0] == c[0] { LessTransitive(a[1..], b[1..], c[1..]); }
  }

  /** By the first character in which they differ, a beginning before what it begins. */
  lemma {:induction false} LessExactly(a: string, b: string)
    ensures Less(a, b) <==> a != b && (a <= b || DiffersLower(a, b))
  {
    if a != [] && b != [] {
      LessExactly(a[1..], b[1..]);
      assert a == [a[0]] + a[1..] && b == [b[0]] + b[1..];
      if a[0] == b[0] {
        DiffersOn(a, b);
      } else if a[0] < b[0] {
        assert DiffersLower(a, b) by { assert 0 < |a| && a[..0] == b[..0]; }
      } else {
        forall k | 0 < k < |a| && k < |b| ensures a[..k] != b[..k] { assert a[..k][0] != b[..k][0]; }
      }
    }
  }

  predicate DiffersLower(a: string, b: string) {
    exists k :: 0 <= k < |a| && k < |b| && a[..k] == b[..k] && a[k] < b[k]
  }

  lemma DiffersOn(a: string, b: string)
    requires a != [] && b != [] && a[0] == b[0]
    ensures DiffersLower(a, b) <==> DiffersLower(a[1..], b[1..])
  {
    var (c, d) := (a[1..], b[1..]);
    assert a == [a[0]] + c && b == [b[0]] + d;
    if k :| 0 <= k < |a| && k < |b| && a[..k] == b[..k] && a[k] < b[k] {
      assert c[..k - 1] == a[..k][1..] && d[..k - 1] == b[..k][1..];
    }
    if k :| 0 <= k < |c| && k < |d| && c[..k] == d[..k] && c[k] < d[k] {
      assert a[..k + 1] == [a[0]] + c[..k] && b[..k + 1] == [b[0]] + d[..k];
    }
  }

  predicate Precedes(a: Item, b: Item) {
    Behind(a.key, a.upload, b)
  }

  lemma PrecedesTotal(a: Item, b: Item)
    requires a.bucket == b.bucket
    ensures Precedes(a, b) || a == b || Precedes(b, a)
    ensures !(Precedes(a, b) && Precedes(b, a)) && !Precedes(a, a)
  {
    LessTotal(a.key, b.key);
    LessTotal(a.upload, b.upload);
    LessIrreflexive(a.key);
    LessIrreflexive(a.upload);
  }

  lemma BehindTransitive(key: string, upload: string, a: Item, b: Item)
    requires Behind(key, upload, a) && Precedes(a, b)
    ensures Behind(key, upload, b)
  {
    if Less(key, a.key) && Less(a.key, b.key) { LessTransitive(key, a.key, b.key); }
    if Less(upload, a.upload) && Less(a.upload, b.upload) { LessTransitive(upload, a.upload, b.upload); }
  }

  // ---------- the contract of a page ----------

  /** An empty marker starts at the beginning. */
  predicate Remaining(key: string, upload: string, item: Item) {
    (key == "" && upload == "") || Behind(key, upload, item)
  }

  function Found(items: Contents, bucket: string, prefix: string, key: string, upload: string): set<Item> {
    set x | x in items && x.bucket == bucket && prefix <= x.key && Remaining(key, upload, x)
  }

  datatype Page = Page(lines: seq<Line>, key: string, upload: string, truncated: bool)

  ghost predicate Listed(lines: seq<Line>, x: Item) {
    exists i :: 0 <= i < |lines| && lines[i].item == x
  }

  /** At most a thousand lines in ascending order out of `found`; what is not listed lies behind the marker,
      the marker is the last line, and the page is truncated exactly when something is not listed. */
  ghost predicate IsPage(p: Page, items: Contents, found: set<Item>) {
    && |p.lines| <= PAGE_SIZE
    && (forall i :: 0 <= i < |p.lines| ==>
          p.lines[i].item in found && p.lines[i].item in items && p.lines[i].stamp == items[p.lines[i].item])
    && (forall i, j ::
          0 <= i < j < |p.lines|
          ==> Precedes(p.lines[i].item, p.lines[j].item) && p.lines[i].item != p.lines[j].item)
    && (forall x :: x in found ==> (Listed(p.lines, x) <==> !(p.truncated && Behind(p.key, p.upload, x))))
    && (p.truncated
        ==> p.lines != [] && p.lines[|p.lines| - 1].item.key == p.key && p.lines[|p.lines| - 1].item.upload == p.upload)
    && (p.truncated <==> exists x :: x in found && !Listed(p.lines, x))
  }

  /** The fate of each request by its number: as a delete, and whether it succeeds as a listing. */
  datatype Oracle = Oracle(deletes: nat -> Fault, lists: nat -> bool)

  /** Every request from number `from` up to `until` goes well. */
  ghost predicate Smooth(o: Oracle, from: nat, until: nat) {
    forall k :: from <= k < until ==> o.deletes(k) == Fine && o.lists(k)
  }

  /** Listings go well and every delete takes effect without an answer. */
  ghost predicate Unanswered(o: Oracle, from: nat, until: nat) {
    forall k :: from <= k < until ==> o.deletes(k) == LostReply && o.lists(k)
  }

  /** How far the requests went: their number, the deletes that were answered, those that took effect without an answer,
      those without effect, and the listings that failed. */
  datatype Tally = Tally(calls: nat, answered: nat, lost: nat, refused: nat, unlisted: nat)

  class Shelf {
    var items: Contents
    var calls: nat
    const faults: Oracle
    const chunk: nat -> nat
    ghost var answered: nat
    ghost var lost: nat
    ghost var refused: nat
    ghost var unlisted: nat

    ghost function Now(): (t: Tally)
      reads `calls, `answered, `lost, `refused, `unlisted
      ensures t.calls == calls && t.answered == answered && t.lost == lost && t.refused == refused
      ensures t.unlisted == unlisted
    {
      Tally(calls, answered, lost, refused, unlisted)
    }

    constructor (items: Contents, faults: Oracle, chunk: nat -> nat)
      ensures this.items == items && calls == 0 && answered == 0 && lost == 0 && refused == 0 && unlisted == 0
      ensures this.faults == faults && this.chunk == chunk
    {
      this.items, calls, answered, lost, refused, unlisted := items, 0, 0, 0, 0, 0;
      this.faults, this.chunk := faults, chunk;
    }

    method Least(s: set<Item>) returns (m: Item)
      requires s != {} && forall x, y :: x in s && y in s ==> x.bucket == y.bucket
      ensures m in s && forall x :: x in s && x != m ==> Precedes(m, x)
    {
      m :| m in s;
      var rest := s - {m};
      while rest != {}
        invariant rest <= s && m in s - rest
        invariant forall x :: x in s - rest && x != m ==> Precedes(m, x)
        decreases rest
      {
        var x :| x in rest;
        rest := rest - {x};
        PrecedesTotal(m, x);
        if Precedes(x, m) {
          forall y | y in s - rest && y != x ensures Precedes(x, y) {
            if y != m { BehindTransitive(x.key, x.upload, m, y); }
          }
          m := x;
        }
      }
    }

    /** The first `n` lines of `found`, in order. */
    method Fill(found: set<Item>, n: nat) returns (lines: seq<Line>, rest: set<Item>)
      requires found <= items.Keys && forall x, y :: x in found && y in found ==> x.bucket == y.bucket
      ensures rest <= found && |lines| <= n && (rest != {} ==> |lines| == n)
      ensures forall i :: 0 <= i < |lines| ==> lines[i].item in found - rest && lines[i].stamp == items[lines[i].item]
      ensures forall x :: x in found ==> (Listed(lines, x) <==> x !in rest)
      ensures forall i, x :: 0 <= i < |lines| && x in rest ==> Precedes(lines[i].item, x)
      ensures forall i, j ::
                0 <= i < j < |lines|
                ==> Precedes(lines[i].item, lines[j].item) && lines[i].item != lines[j].item
    {
      rest := found;
      lines := [];
      while rest != {} && |lines| < n
        invariant rest <= found && |lines| <= n
        invariant forall i ::
                    0 <= i < |lines|
                    ==> lines[i].item in found - rest && lines[i].stamp == items[lines[i].item]
        invariant forall x :: x in found ==> (Listed(lines, x) <==> x !in rest)
        invariant forall i, x :: 0 <= i < |lines| && x in rest ==> Precedes(lines[i].item, x)
        invariant forall i, j ::
                    0 <= i < j < |lines|
                    ==> Precedes(lines[i].item, lines[j].item) && lines[i].item != lines[j].item
        decreases rest
      {
        var m := Least(rest);
        ghost var before := lines;
        lines := lines + [Line(m, items[m])];
        rest := rest - {m};
        assert forall i :: 0 <= i < |before| ==> lines[i] == before[i];
        forall x | x in found ensures Listed(lines, x) <==> x !in rest {
          if Listed(before, x) {
            var i :| 0 <= i < |before| && before[i].item == x;
            assert lines[i].item == x;
          }
          if x == m { assert lines[|before|].item == x; }
        }
      }
    }

    /** The service decides how many lines, from one to a thousand, it puts on a page. */
    method List(bucket: string, prefix: string, key: string, upload: string) returns (p: Page, failed: bool)
      modifies this`calls, this`unlisted
      ensures calls == old(calls) + 1 && unlisted == old(unlisted) + if failed then 1 else 0
      ensures failed == !faults.lists(old(calls))
      ensures !failed ==> IsPage(p, items, Found(items, bucket, prefix, key, upload))
    {
      calls := calls + 1;
      p := Page([], "", "", false);
      if !faults.lists(calls - 1) {
        unlisted := unlisted + 1;
        return p, true;
      }
      var n := chunk(calls - 1);
      if n < 1 { n := 1; }
      if n > PAGE_SIZE { n := PAGE_SIZE; }
      var found := Found(items, bucket, prefix, key, upload);
      var lines, rest := Fill(found, n);
      if rest == {} { return Page(lines, "", "", false), false; }
      var last := lines[|lines| - 1].item;
      p := Page(lines, last.key, last.upload, true);
      forall x | x in found ensures Listed(lines, x) <==> !Behind(last.key, last.upload, x) {
        if Listed(lines, x) {
          var i :| 0 <= i < |lines| && lines[i].item == x;
          PrecedesTotal(x, last);
        }
      }
      var x :| x in rest;
      assert x in found && !Listed(lines, x);
      return p, false;
    }

    /** Removing an item that is not there succeeds. */
    method Remove(x: Item) returns (failed: bool)
      modifies this`items, this`calls, this`answered, this`lost, this`refused
      ensures calls == old(calls) + 1 && failed == (faults.deletes(old(calls)) != Fine)
      ensures items == if faults.deletes(old(calls)) == Fails then old(items) else old(items) - {x}
      ensures answered == old(answered) + if failed then 0 else 1
      ensures lost == old(lost) + if faults.deletes(old(calls)) == LostReply then 1 else 0
      ensures refused == old(refused) + if faults.deletes(old(calls)) == Fails then 1 else 0
    {
      calls := calls + 1;
      failed := faults.deletes(calls - 1) != Fine;
      if faults.deletes(calls - 1) == Fails {
        refused := refused + 1;
      } else {
        items := items - {x};
      }
      if faults.deletes(calls - 1) == LostReply { lost := lost + 1; }
      if !failed { answered := answered + 1; }
    }
  }
}
