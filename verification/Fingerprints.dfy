/** The fingerprint under which an alert is mirrored to the tenant: `r<rule>-t<tenant>-b<bucket>`. */
module Fingerprints {
  import opened Common

  function Digit(d: nat): char
    requires d < 10
  {
    '0' + d as char
  }

  function Digits(n: nat): string {
    if n < 10 then [Digit(n)] else Digits(n / 10) + [Digit(n % 10)]
  }

  /** strconv.FormatInt(n, 10) */
  function Decimal(n: int): string {
    if n < 0 then "-" + Digits(-n) else Digits(n)
  }

  function OrZero(id: Option<int>): int {
    if id.Some? then id.value else 0
  }

  function Fingerprint(rule: int, tenant: Option<int>, bucket: Option<int>): string {
    "r" + Decimal(rule) + "-t" + Subjects(OrZero(tenant), OrZero(bucket))
  }

  function Subjects(tenant: int, bucket: int): string {
    Decimal(tenant) + "-b" + Decimal(bucket)
  }

  // ---------- reading a number back ----------

  function ValueOf(s: string): nat {
    if s == [] then 0
    else 10 * ValueOf(s[..|s| - 1]) + DigitValue(s[|s| - 1])
  }

  function DigitValue(c: char): nat {
    if '0' <= c <= '9' then (c - '0') as nat else 0
  }

  lemma {:induction false} DigitsRoundTrip(n: nat)
    ensures ValueOf(Digits(n)) == n
    ensures Digits(n) != [] && forall i :: 0 <= i < |Digits(n)| ==> '0' <= Digits(n)[i] <= '9'
  {
    if n < 10 {
      assert [Digit(n)][..0] == [];
    } else {
      DigitsRoundTrip(n / 10);
      assert Digits(n)[..|Digits(n)| - 1] == Digits(n / 10);
    }
  }

  lemma DecimalInjective(a: int, b: int)
    requires Decimal(a) == Decimal(b)
    ensures a == b
  {
    var m, n := if a < 0 then -a else a, if b < 0 then -b else b;
    DigitsRoundTrip(m);
    DigitsRoundTrip(n);
    assert a < 0 <==> Decimal(a)[0] == '-';
    assert b < 0 <==> Decimal(b)[0] == '-';
    if a < 0 {
      assert Decimal(a)[1..] == Digits(m) && Decimal(b)[1..] == Digits(n);
    }
  }

  lemma DecimalHasNo(n: int, c: char)
    requires c != '-' && !('0' <= c <= '9')
    ensures c !in Decimal(n)
  {
    DigitsRoundTrip(if n < 0 then -n else n);
  }

  /** A text is cut in one way only at the first occurrence of a character. */
  lemma CutOnce(a: string, b: string, x: string, y: string, c: char)
    requires c !in a && c !in b
    requires a + [c] + x == b + [c] + y
    ensures a == b && x == y
  {
    var s, t := a + [c] + x, b + [c] + y;
    assert s[|a|] == c && t[|b|] == c;
    assert (forall i :: 0 <= i < |a| ==> s[i] != c) && (forall i :: 0 <= i < |b| ==> t[i] != c);
    assert a == s[..|a|] && b == t[..|b|];
    assert x == s[|a| + 1..] && y == t[|b| + 1..];
  }

  /** `m-<c>x` determines the number `m` and the rest `x` when no number can hold the letter `c`. */
  lemma CutNumber(m: int, n: int, x: string, y: string, c: char)
    requires c != '-' && !('0' <= c <= '9')
    requires Decimal(m) + ['-', c] + x == Decimal(n) + ['-', c] + y
    ensures m == n && x == y
  {
    DecimalHasNo(m, c);
    DecimalHasNo(n, c);
    var a, b := Decimal(m) + "-", Decimal(n) + "-";
    assert Decimal(m) + ['-', c] + x == a + [c] + x && Decimal(n) + ['-', c] + y == b + [c] + y;
    CutOnce(a, b, x, y, c);
    assert Decimal(m) == a[..|a| - 1] && Decimal(n) == b[..|b| - 1];
    DecimalInjective(m, n);
  }

  lemma SubjectsInjective(t1: int, b1: int, t2: int, b2: int)
    requires Subjects(t1, b1) == Subjects(t2, b2)
    ensures t1 == t2 && b1 == b2
  {
    assert "-b" == ['-', 'b'];
    CutNumber(t1, t2, Decimal(b1), Decimal(b2), 'b');
    DecimalInjective(b1, b2);
  }

  /** Two keys share a fingerprint exactly when they agree with nil read as 0. */
  lemma FingerprintExact(r1: int, t1: Option<int>, b1: Option<int>, r2: int, t2: Option<int>, b2: Option<int>)
    ensures Fingerprint(r1, t1, b1) == Fingerprint(r2, t2, b2)
       <==> r1 == r2 && OrZero(t1) == OrZero(t2) && OrZero(b1) == OrZero(b2)
  {
    var f1, f2 := Fingerprint(r1, t1, b1), Fingerprint(r2, t2, b2);
    hide Decimal, Subjects;
    if f1 == f2 {
      var x, y := Subjects(OrZero(t1), OrZero(b1)), Subjects(OrZero(t2), OrZero(b2));
      assert f1[1..] == Decimal(r1) + ['-', 't'] + x;
      assert f2[1..] == Decimal(r2) + ['-', 't'] + y;
      CutNumber(r1, r2, x, y, 't');
      SubjectsInjective(OrZero(t1), OrZero(b1), OrZero(t2), OrZero(b2));
    }
  }

  /** Written out: rule 12, tenant 7 and no bucket. */
  lemma FingerprintExample()
    ensures Fingerprint(12, Some(7), None) == "r12-t7-b0"
  {
    assert Digits(12) == Digits(1) + [Digit(2)] && Digit(1) == '1' && Digit(2) == '2';
    assert Digits(7) == "7" && Digits(0) == "0";
  }

  /** On positive ids the fingerprint is injective, and nil is told apart from every id. */
  lemma FingerprintInjective(r1: int, t1: Option<int>, b1: Option<int>, r2: int, t2: Option<int>, b2: Option<int>)
    requires t1.Some? ==> t1.value > 0
    requires t2.Some? ==> t2.value > 0
    requires b1.Some? ==> b1.value > 0
    requires b2.Some? ==> b2.value > 0
    requires Fingerprint(r1, t1, b1) == Fingerprint(r2, t2, b2)
    ensures r1 == r2 && t1 == t2 && b1 == b2
  {
    FingerprintExact(r1, t1, b1, r2, t2, b2);
  }
}
