/** The bucket name check, and the DNS-style reading of the names it accepts. */
module BucketName {

  datatype Verdict = Accepted | BadShape | BadSequence

  predicate Alnum(c: char) {
    'a' <= c <= 'z' || '0' <= c <= '9'
  }

  /** The character class `[a-z0-9.-]`. */
  predicate NameChar(c: char) {
    Alnum(c) || c == '.' || c == '-'
  }

  /** `^[a-z0-9][a-z0-9.-]{1,61}[a-z0-9]$` */
  predicate NameShape(name: string) {
    && 1 + 1 + 1 <= |name| <= 1 + 61 + 1
    && Alnum(name[0]) && Alnum(name[|name| - 1])
    && forall i :: 1 <= i < |name| - 1 ==> NameChar(name[i])
  }

  predicate HasPair(name: string, a: char, b: char) {
    exists i :: 0 <= i < |name| - 1 && name[i] == a && name[i + 1] == b
  }

  function ValidateName(name: string): Verdict {
    if !NameShape(name) then BadShape
    else if HasPair(name, '.', '.') || HasPair(name, '.', '-') || HasPair(name, '-', '.') then BadSequence
    else Accepted
  }

  // ---------- labels ----------

  /** The pieces between dots; there is always at least one. */
  function Split(name: string): (labels: seq<string>)
    ensures labels != []
  {
    if name == "" then [""]
    else
      var rest := Split(name[1..]);
      if name[0] == '.' then [""] + rest else [[name[0]] + rest[0]] + rest[1..]
  }

  function Join(labels: seq<string>): string
    requires labels != []
  {
    if |labels| == 1 then labels[0] else labels[0] + "." + Join(labels[1..])
  }

  /** Splitting loses nothing, and leaves no dot inside a label. */
  lemma {:induction false} SplitJoin(name: string)
    ensures Join(Split(name)) == name
    ensures forall k :: 0 <= k < |Split(name)| ==> '.' !in Split(name)[k]
  {
    if name != "" {
      SplitJoin(name[1..]);
      var labels, rest := Split(name), Split(name[1..]);
      assert name == [name[0]] + name[1..];
      if name[0] == '.' {
        assert labels[1..] == rest;
        assert Join(labels) == "" + "." + Join(rest);
      } else {
        assert labels[1..] == rest[1..];
        assert Join(labels) == [name[0]] + Join(rest);
      }
    }
  }

  predicate LabelChar(c: char) {
    Alnum(c) || c == '-'
  }

  /** A label of section 2.1 of RFC 1123, in lower case. */
  predicate Label(piece: string) {
    piece != "" && Alnum(piece[0]) && LabelTail(piece)
  }

  /** A label but for its first character, possibly empty. */
  predicate LabelTail(piece: string) {
    (forall i :: 0 <= i < |piece| ==> LabelChar(piece[i])) && (piece != "" ==> Alnum(piece[|piece| - 1]))
  }

  predicate AllLabels(labels: seq<string>) {
    forall k :: 0 <= k < |labels| ==> Label(labels[k])
  }

  predicate TailThenLabels(labels: seq<string>)
    requires labels != []
  {
    LabelTail(labels[0]) && AllLabels(labels[1..])
  }

  // ---------- the check reads labels ----------

  predicate PairOk(a: char, b: char) {
    !(a == '.' && b == '.') && !(a == '.' && b == '-') && !(a == '-' && b == '.')
  }

  /** What the check says about a name or a rest of it. */
  predicate Clean(s: string) {
    && (forall i :: 0 <= i < |s| ==> NameChar(s[i]))
    && (forall i :: 0 <= i < |s| - 1 ==> PairOk(s[i], s[i + 1]))
    && (s != "" ==> Alnum(s[|s| - 1]))
  }

  lemma CleanFirst(s: string)
    requires s != ""
    ensures Clean(s) <==>
              && NameChar(s[0]) && Clean(s[1..])
              && if |s| == 1 then Alnum(s[0]) else PairOk(s[0], s[1])
  {
    var t := s[1..];
    assert forall i :: 0 <= i < |t| ==> t[i] == s[i + 1];
    assert forall i :: 1 <= i < |s| ==> s[i] == t[i - 1];
  }

  lemma SplitHead(s: string)
    ensures Split(s)[0] == "" <==> s == "" || s[0] == '.'
    ensures s != "" && s[0] != '.' ==> Split(s)[0][0] == s[0]
  {
  }

  lemma TailAndHead(s: string)
    ensures AllLabels(Split(s)) <==> TailThenLabels(Split(s)) && s != "" && Alnum(s[0])
  {
    SplitHead(s);
    var labels := Split(s);
    assert labels == [labels[0]] + labels[1..];
  }

  lemma TailFirst(c: char, rest: string)
    ensures LabelTail([c] + rest) <==> LabelChar(c) && LabelTail(rest) && (rest == "" ==> Alnum(c))
  {
    var s := [c] + rest;
    assert s[0] == c && forall i :: 0 <= i < |rest| ==> s[i + 1] == rest[i];
    assert forall i :: 1 <= i < |s| ==> s[i] == rest[i - 1];
  }

  /** One more character in front, read as labels. */
  lemma SplitFirst(s: string)
    requires s != ""
    ensures TailThenLabels(Split(s)) <==>
              if s[0] == '.' then AllLabels(Split(s[1..]))
              else LabelChar(s[0]) && TailThenLabels(Split(s[1..])) && (Split(s[1..])[0] == "" ==> Alnum(s[0]))
  {
    hide LabelTail, AllLabels;
    var rest := Split(s[1..]);
    if s[0] == '.' {
      assert Split(s)[1..] == rest;
      NothingIsTail();
    } else {
      assert Split(s)[0] == [s[0]] + rest[0] && Split(s)[1..] == rest[1..];
      TailFirst(s[0], rest[0]);
    }
  }

  lemma NothingIsTail()
    ensures LabelTail("") && Clean("") && TailThenLabels(Split(""))
  {
  }

  lemma {:induction false} SplitClean(s: string)
    ensures TailThenLabels(Split(s)) <==> Clean(s)
  {
    NothingIsTail();
    hide Split, Clean, TailThenLabels, AllLabels;
    if s != "" {
      SplitClean(s[1..]);
      SplitFirst(s);
      CleanFirst(s);
      TailAndHead(s[1..]);
      SplitHead(s[1..]);
      if s[1..] != "" { CleanFirst(s[1..]); }
    }
  }

  lemma NoBadPairs(name: string)
    ensures (forall i :: 0 <= i < |name| - 1 ==> PairOk(name[i], name[i + 1])) <==>
              !HasPair(name, '.', '.') && !HasPair(name, '.', '-') && !HasPair(name, '-', '.')
  {
  }

  /** A lower-case letter, a digit or, inside, a hyphen. */
  predicate LabelLetter(c: char, inside: bool) {
    'a' <= c <= 'z' || '0' <= c <= '9' || (inside && c == '-')
  }

  /** A non-empty piece of letters, digits and hyphens that starts and ends with a letter or digit. */
  predicate DnsLabel(piece: string) {
    piece != "" && forall i :: 0 <= i < |piece| ==> LabelLetter(piece[i], 0 < i < |piece| - 1)
  }

  lemma LabelExactly(piece: string)
    ensures Label(piece) <==> DnsLabel(piece)
  {
    if DnsLabel(piece) {
      assert LabelLetter(piece[0], false) && LabelLetter(piece[|piece| - 1], false);
    }
  }

  /** A name is accepted exactly when it has 3 to 63 characters and each of its dot-separated pieces is a
      non-empty label of lower-case letters, digits and hyphens that starts and ends with a letter or digit. */
  lemma AcceptsLabels(name: string)
    ensures ValidateName(name) == Accepted <==>
              3 <= |name| <= 63 && forall k :: 0 <= k < |Split(name)| ==> DnsLabel(Split(name)[k])
  {
    assert AllLabels(Split(name)) <==> forall k :: 0 <= k < |Split(name)| ==> DnsLabel(Split(name)[k]) by {
      forall k | 0 <= k < |Split(name)| ensures Label(Split(name)[k]) <==> DnsLabel(Split(name)[k]) {
        LabelExactly(Split(name)[k]);
      }
    }
    hide Split, TailThenLabels, AllLabels;
    SplitClean(name);
    TailAndHead(name);
    NoBadPairs(name);
  }
}
