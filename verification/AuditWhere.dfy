/** The numbered-placeholder WHERE clause of the audit log, and what it selects. */
module AuditWhere {
  import opened Common

  datatype Filter = Filter(
    tenantId: Option<int>, tenantName: string, userId: Option<int>, username: string, bucketName: string,
    objectKey: string, action: string, status: string, sourceIp: string, keyword: string,
    adminOnly: bool, from: Option<int>, to: Option<int>)

  /** A row of `audit_logs`; nullable columns are options. */
  datatype Row = Row(
    tenantId: Option<int>, tenantName: Option<string>, userId: Option<int>, username: Option<string>,
    bucketName: Option<string>, objectKey: Option<string>, action: string, status: string,
    sourceIp: Option<string>, errorMessage: Option<string>, createdAt: int)

  datatype Value = Number(n: int) | Text(s: string) | Time(t: int)

  datatype NumberColumn = TenantId | UserId
  datatype TextColumn = TenantName | Username | BucketName | ObjectKey | Action | Status | SourceIp

  /** One conjunct; `n` is the number of its placeholder. `AnyLike` uses its number six times. */
  datatype Cond =
    | EqNumber(column: NumberColumn, n: nat)
    | EqText(textColumn: TextColumn, n: nat)
    | Like(textColumn: TextColumn, n: nat)
    | AnyLike(n: nat)
    | Since(n: nat)
    | Until(n: nat)
    | AdminActions

  /** The action names listed by `adminSQL`. */
  const ADMIN_ACTIONS: set<string> := {
    "user_create", "user_delete", "user_update", "modify_user_role", "create_tenant", "delete_tenant", "disable_tenant",
    "enable_tenant", "update_tenant", "modify_quota", "bucket_create", "bucket_import", "bucket_delete",
    "modify_bucket",
    "modify_bucket_quota", "modify_access_logging", "modify_bucket_policy", "modify_bucket_cors", "modify_permission",
    "modify_lifecycle", "force_unlock_file", "restart_rgw", "rolling_restart_rgw", "update_system_settings",
    "request_tenant_api_access", "approve_tenant_api_access", "reject_tenant_api_access", "disable_tenant_api_access",
    "create_application", "update_application", "delete_application", "create_access_key", "disable_access_key",
    "issue_sts_credentials", "create_lifecycle_rule", "update_lifecycle_rule", "delete_lifecycle_rule"}

  predicate AdminAction(action: string) {
    action in ADMIN_ACTIONS
  }

  // ---------- ILIKE ----------

  function Fold(c: char): char {
    if 'A' <= c <= 'Z' then c - 'A' + 'a' else c
  }

  /** `%` matches any text, `_` any character, a backslash takes the next character literally. */
  predicate ILike(text: string, pattern: string)
    decreases |text| + |pattern|
  {
    if pattern == [] then text == []
    else if pattern[0] == '%' then ILike(text, pattern[1..]) || (text != [] && ILike(text[1..], pattern))
    else if text == [] then false
    else if pattern[0] == '_' then ILike(text[1..], pattern[1..])
    else if pattern[0] == '\\'
            then |pattern| >= 2 && Fold(text[0]) == Fold(pattern[1]) && ILike(text[1..], pattern[2..])
    else Fold(text[0]) == Fold(pattern[0]) && ILike(text[1..], pattern[1..])
  }

  function Around(x: string): string {
    "%" + x + "%"
  }

  // ---------- evaluating the clause ----------

  function Arg(args: seq<Value>, n: nat): Option<Value> {
    if 1 <= n <= |args| then Some(args[n - 1]) else None
  }

  function NumberCell(row: Row, c: NumberColumn): Option<int> {
    match c
    case TenantId => row.tenantId
    case UserId => row.userId
  }

  function TextCell(row: Row, c: TextColumn): Option<string> {
    match c
    case TenantName => row.tenantName
    case Username => row.username
    case BucketName => row.bucketName
    case ObjectKey => row.objectKey
    case Action => Some(row.action)
    case Status => Some(row.status)
    case SourceIp => row.sourceIp
  }

  function Coalesce(cell: Option<string>): string {
    if cell.Some? then cell.value else ""
  }

  predicate KeywordHit(row: Row, pattern: string) {
    || ILike(Coalesce(row.username), pattern) || ILike(Coalesce(row.tenantName), pattern)
    || ILike(Coalesce(row.bucketName), pattern) || ILike(Coalesce(row.objectKey), pattern)
    || ILike(row.action, pattern) || ILike(Coalesce(row.errorMessage), pattern)
  }

  /** A conjunct with a NULL column does not hold. */
  predicate Holds(c: Cond, args: seq<Value>, row: Row) {
    match c
    case EqNumber(col, n) => NumberCell(row, col).Some? && Arg(args, n) == Some(Number(NumberCell(row, col).value))
    case EqText(col, n) => TextCell(row, col).Some? && Arg(args, n) == Some(Text(TextCell(row, col).value))
    case Like(col, n) =>
      TextCell(row, col).Some? && Arg(args, n).Some? && Arg(args, n).value.Text?
      && ILike(TextCell(row, col).value, Arg(args, n).value.s)
    case AnyLike(n) => Arg(args, n).Some? && Arg(args, n).value.Text? && KeywordHit(row, Arg(args, n).value.s)
    case Since(n) => Arg(args, n).Some? && Arg(args, n).value.Time? && row.createdAt >= Arg(args, n).value.t
    case Until(n) => Arg(args, n).Some? && Arg(args, n).value.Time? && row.createdAt <= Arg(args, n).value.t
    case AdminActions => AdminAction(row.action)
  }

  predicate Selects(parts: seq<Cond>, args: seq<Value>, row: Row) {
    if parts == [] then true else Selects(parts[..|parts| - 1], args, row) && Holds(parts[|parts| - 1], args, row)
  }

  // ---------- what the filter asks for ----------

  predicate TextWanted(cell: Option<string>, x: string) {
    x != "" ==> cell.Some? && ILike(cell.value, Around(x))
  }

  /** Who and where. */
  predicate SubjectWanted(f: Filter, row: Row) {
    && (f.tenantId.Some? ==> row.tenantId == f.tenantId)
    && TextWanted(row.tenantName, f.tenantName)
    && (f.userId.Some? ==> row.userId == f.userId)
    && TextWanted(row.username, f.username)
    && TextWanted(row.bucketName, f.bucketName)
    && TextWanted(row.objectKey, f.objectKey)
  }

  predicate Wanted(f: Filter, row: Row) {
    && SubjectWanted(f, row)
    && (f.action != "" ==> row.action == f.action)
    && (f.status != "" ==> row.status == f.status)
    && TextWanted(row.sourceIp, f.sourceIp)
    && (f.keyword != "" ==> KeywordHit(row, Around(f.keyword)))
    && (f.from.Some? ==> f.from.value <= row.createdAt)
    && (f.to.Some? ==> row.createdAt <= f.to.value)
    && (f.adminOnly ==> AdminAction(row.action))
  }

  // ---------- placeholder numbers ----------

  function NumbersOf(c: Cond): seq<nat> {
    if c == AdminActions then [] else [c.n]
  }

  function Numbers(parts: seq<Cond>): seq<nat> {
    if parts == [] then [] else Numbers(parts[..|parts| - 1]) + NumbersOf(parts[|parts| - 1])
  }

  function UpTo(n: nat): seq<nat> {
    if n == 0 then [] else UpTo(n - 1) + [n]
  }

  lemma {:induction false} UpToAt(n: nat, i: nat)
    requires i < n
    ensures |UpTo(n)| == n && UpTo(n)[i] == i + 1
  {
    if n > 1 { UpToAt(n - 1, if i < n - 1 then i else 0); }
  }

  /** A conjunct whose placeholder is bound keeps its meaning when more arguments follow. */
  lemma {:induction false} MoreArgs(parts: seq<Cond>, args: seq<Value>, more: seq<Value>, row: Row)
    requires forall i :: 0 <= i < |Numbers(parts)| ==> 1 <= Numbers(parts)[i] <= |args|
    ensures Selects(parts, args + more, row) <==> Selects(parts, args, row)
  {
    if parts != [] {
      var k := |parts| - 1;
      var before := Numbers(parts[..k]);
      assert forall i :: 0 <= i < |before| ==> Numbers(parts)[i] == before[i];
      MoreArgs(parts[..k], args, more, row);
      if parts[k] != AdminActions {
        assert Numbers(parts)[|before|] == parts[k].n;
        assert Arg(args + more, parts[k].n) == Arg(args, parts[k].n);
      }
    }
  }

  ghost predicate WellNumbered(parts: seq<Cond>, args: seq<Value>) {
    Numbers(parts) == UpTo(|args|)
  }

  lemma WellNumberedBounds(parts: seq<Cond>, args: seq<Value>)
    requires WellNumbered(parts, args)
    ensures forall i :: 0 <= i < |Numbers(parts)| ==> 1 <= Numbers(parts)[i] <= |args|
  {
    UpToLength(|args|);
    forall i | 0 <= i < |args| ensures UpTo(|args|)[i] == i + 1 { UpToAt(|args|, i); }
  }

  lemma {:induction false} UpToLength(n: nat)
    ensures |UpTo(n)| == n
  {
    if n > 0 { UpToLength(n - 1); }
  }

  // ---------- building the clause ----------

  /** The `add` closure: the next argument, and a conjunct numbered after it. */
  method Add(parts: seq<Cond>, args: seq<Value>, c: Cond, v: Value) returns (parts': seq<Cond>, args': seq<Value>)
    requires WellNumbered(parts, args) && c != AdminActions && c.n == |args| + 1
    ensures WellNumbered(parts', args')
    ensures forall row :: Selects(parts', args', row) <==> Selects(parts, args, row) && Holds(c, args + [v], row)
  {
    args' := args + [v];
    parts' := parts + [c];
    assert parts'[..|parts|] == parts;
    WellNumberedBounds(parts, args);
    forall row ensures Selects(parts', args', row) <==> Selects(parts, args, row) && Holds(c, args', row) {
      MoreArgs(parts, args, [v], row);
    }
  }

  method AddLike(parts: seq<Cond>, args: seq<Value>, column: TextColumn, x: string)
    returns (parts': seq<Cond>, args': seq<Value>)
    requires WellNumbered(parts, args)
    ensures WellNumbered(parts', args')
    ensures forall row ::
              Selects(parts', args', row)
              <==> Selects(parts, args, row) && TextWanted(TextCell(row, column), x)
  {
    if x == "" { return parts, args; }
    var n := |args| + 1;
    parts', args' := Add(parts, args, Like(column, n), Text(Around(x)));
  }

  method AddNumber(parts: seq<Cond>, args: seq<Value>, column: NumberColumn, x: Option<int>)
    returns (parts': seq<Cond>, args': seq<Value>)
    requires WellNumbered(parts, args)
    ensures WellNumbered(parts', args')
    ensures forall row ::
              Selects(parts', args', row)
              <==> Selects(parts, args, row) && (x.Some? ==> NumberCell(row, column) == x)
  {
    if x.None? { return parts, args; }
    var n := |args| + 1;
    parts', args' := Add(parts, args, EqNumber(column, n), Number(x.value));
  }

  method AddText(parts: seq<Cond>, args: seq<Value>, column: TextColumn, x: string)
    returns (parts': seq<Cond>, args': seq<Value>)
    requires WellNumbered(parts, args)
    ensures WellNumbered(parts', args')
    ensures forall row ::
              Selects(parts', args', row)
              <==> Selects(parts, args, row) && (x != "" ==> TextCell(row, column) == Some(x))
  {
    if x == "" { return parts, args; }
    var n := |args| + 1;
    parts', args' := Add(parts, args, EqText(column, n), Text(x));
  }

  method AddTime(parts: seq<Cond>, args: seq<Value>, since: bool, x: Option<int>)
    returns (parts': seq<Cond>, args': seq<Value>)
    requires WellNumbered(parts, args)
    ensures WellNumbered(parts', args')
    ensures forall row :: Selects(parts', args', row) <==>
              Selects(parts, args, row)
              && (x.Some? ==> if since then x.value <= row.createdAt else row.createdAt <= x.value)
  {
    if x.None? { return parts, args; }
    var n := |args| + 1;
    parts', args' := Add(parts, args, if since then Since(n) else Until(n), Time(x.value));
  }

  method AddKeyword(parts: seq<Cond>, args: seq<Value>, x: string) returns (parts': seq<Cond>, args': seq<Value>)
    requires WellNumbered(parts, args)
    ensures WellNumbered(parts', args')
    ensures forall row ::
              Selects(parts', args', row)
              <==> Selects(parts, args, row) && (x != "" ==> KeywordHit(row, Around(x)))
  {
    if x == "" { return parts, args; }
    var n := |args| + 1;
    parts', args' := Add(parts, args, AnyLike(n), Text(Around(x)));
  }

  method AddAdmin(parts: seq<Cond>, args: seq<Value>, wanted: bool) returns (parts': seq<Cond>)
    requires WellNumbered(parts, args)
    ensures WellNumbered(parts', args)
    ensures forall row ::
              Selects(parts', args, row)
              <==> Selects(parts, args, row) && (wanted ==> AdminAction(row.action))
  {
    if !wanted { return parts; }
    parts' := parts + [AdminActions];
    assert parts'[..|parts|] == parts;
  }

  /** The first six fields. */
  method WhereSubject(f: Filter) returns (parts: seq<Cond>, args: seq<Value>)
    ensures WellNumbered(parts, args)
    ensures forall row :: Selects(parts, args, row) <==> SubjectWanted(f, row)
  {
    parts, args := [], [];
    assert WellNumbered(parts, args) && forall row :: Selects(parts, args, row);
    hide WellNumbered, Selects, ILike;
    parts, args := AddNumber(parts, args, TenantId, f.tenantId);
    parts, args := AddLike(parts, args, TenantName, f.tenantName);
    parts, args := AddNumber(parts, args, UserId, f.userId);
    parts, args := AddLike(parts, args, Username, f.username);
    parts, args := AddLike(parts, args, BucketName, f.bucketName);
    parts, args := AddLike(parts, args, ObjectKey, f.objectKey);
  }

  /** For every combination of fields: the placeholders are numbered 1, 2, ..., len(args) in order, each by
      one conjunct, and the clause selects exactly the rows the filter asks for. */
  method Where(f: Filter) returns (parts: seq<Cond>, args: seq<Value>)
    ensures WellNumbered(parts, args)
    ensures forall row :: Selects(parts, args, row) <==> Wanted(f, row)
  {
    hide WellNumbered, Selects, ILike, KeywordHit, AdminAction, SubjectWanted;
    parts, args := WhereSubject(f);
    parts, args := AddText(parts, args, Action, f.action);
    parts, args := AddText(parts, args, Status, f.status);
    parts, args := AddLike(parts, args, SourceIp, f.sourceIp);
    parts, args := AddKeyword(parts, args, f.keyword);
    parts, args := AddTime(parts, args, true, f.from);
    parts, args := AddTime(parts, args, false, f.to);
    parts := AddAdmin(parts, args, f.adminOnly);
  }

  /** `List`: the same arguments, then LIMIT and OFFSET under the next two numbers. */
  method ListStatement(f: Filter, page: int, pageSize: int)
    returns (parts: seq<Cond>, args: seq<Value>, limit: nat, offset: nat)
    ensures Numbers(parts) + [limit, offset] == UpTo(|args|)
    ensures forall row :: Selects(parts, args, row) <==> Wanted(f, row)
    ensures Arg(args, limit) == Some(Number(pageSize)) && Arg(args, offset) == Some(Number((page - 1) * pageSize))
  {
    var base;
    parts, base := Where(f);
    args := base + [Number(pageSize), Number((page - 1) * pageSize)];
    limit, offset := |args| - 1, |args|;
    WellNumberedBounds(parts, base);
    forall row ensures Selects(parts, args, row) <==> Wanted(f, row) {
      MoreArgs(parts, base, [Number(pageSize), Number((page - 1) * pageSize)], row);
    }
    assert UpTo(|args|) == UpTo(|base|) + [|base| + 1] + [|base| + 2];
  }

  // ---------- substring search ----------

  /** A filter text without pattern characters. */
  predicate Plain(x: string) {
    forall i :: 0 <= i < |x| ==> x[i] != '%' && x[i] != '_' && x[i] != '\\'
  }

  predicate FoldedEqual(a: string, b: string) {
    |a| == |b| && forall i :: 0 <= i < |a| ==> Fold(a[i]) == Fold(b[i])
  }

  predicate OccursAt(text: string, x: string, i: int) {
    0 <= i <= |text| - |x| && FoldedEqual(text[i..i + |x|], x)
  }

  ghost predicate ContainsFolded(text: string, x: string) {
    exists i :: OccursAt(text, x, i)
  }

  lemma {:induction false} AnyTail(text: string)
    ensures ILike(text, "%")
  {
    if text != [] { AnyTail(text[1..]); }
  }

  lemma {:induction false} LikePrefix(text: string, x: string)
    requires Plain(x)
    ensures ILike(text, x + "%") <==> |x| <= |text| && FoldedEqual(text[..|x|], x)
  {
    if x == [] {
      assert x + "%" == "%";
      AnyTail(text);
    } else if text != [] {
      LikePrefix(text[1..], x[1..]);
      assert (x + "%")[1..] == x[1..] + "%";
      if |x| <= |text| {
        assert text[..|x|] == [text[0]] + text[1..][..|x| - 1];
        assert x == [x[0]] + x[1..];
      }
    }
  }

  lemma {:induction false} LikeSomewhere(text: string, p: string)
    ensures ILike(text, "%" + p) <==> exists i :: 0 <= i <= |text| && ILike(text[i..], p)
    decreases |text|
  {
    assert ("%" + p)[1..] == p;
    if text == [] {
      assert text[0..] == text;
    } else {
      LikeSomewhere(text[1..], p);
      assert text[0..] == text;
      assert forall i :: 0 <= i < |text| ==> text[1..][i..] == text[i + 1..];
      if i :| 0 <= i <= |text| && ILike(text[i..], p) {
        if i > 0 { assert ILike(text[1..][i - 1..], p); }
      }
      if i :| 0 <= i <= |text[1..]| && ILike(text[1..][i..], p) {
        assert ILike(text[i + 1..], p);
      }
    }
  }

  /** For a text without pattern characters the `%x%` filter is a case-insensitive substring search. */
  lemma PlainSearch(text: string, x: string)
    requires Plain(x)
    ensures ILike(text, Around(x)) <==> ContainsFolded(text, x)
  {
    LikeSomewhere(text, x + "%");
    assert Around(x) == "%" + (x + "%");
    forall i | 0 <= i <= |text|
      ensures ILike(text[i..], x + "%") <==> OccursAt(text, x, i)
    {
      LikePrefix(text[i..], x);
      if i <= |text| - |x| { assert text[i..][..|x|] == text[i..i + |x|]; }
    }
  }

  /** A text that the filter finds by reading pattern characters of `x` as such. */
  function Hit(x: string): string
    decreases |x|
  {
    if x == [] then ""
    else if x[0] == '%' then Hit(x[1..])
    else if x[0] == '_' then "q" + Hit(x[1..])
    else if x[0] == '\\' then if |x| == 1 then "%" else [x[1]] + Hit(x[2..])
    else [x[0]] + Hit(x[1..])
  }

  lemma {:induction false} HitIsFound(x: string)
    ensures ILike(Hit(x), x + "%")
    decreases |x|
  {
    var p := x + "%";
    if x == [] {
      assert p == "%";
    } else if x[0] == '\\' {
      if |x| == 1 {
        assert p[1] == '%' && p[2..] == [] && Hit(x)[1..] == [];
      } else {
        HitIsFound(x[2..]);
        assert p[1] == x[1] && p[2..] == x[2..] + "%" && Hit(x)[1..] == Hit(x[2..]);
      }
    } else {
      HitIsFound(x[1..]);
      assert p[1..] == x[1..] + "%";
      if x[0] != '%' { assert Hit(x)[1..] == Hit(x[1..]); }
    }
  }

  /** It is shorter than `x`, or differs from it in case-insensitive comparison. */
  lemma {:induction false} HitIsOther(x: string)
    ensures |Hit(x)| <= |x| && (!Plain(x) ==> !FoldedEqual(Hit(x), x))
    decreases |x|
  {
    if x != [] {
      if x[0] == '\\' {
        if |x| > 1 { HitIsOther(x[2..]); }
      } else {
        HitIsOther(x[1..]);
        if x[0] != '%' && x[0] != '_' && !Plain(x) { TailDiffers(Hit(x[1..]), x); }
      }
    }
  }

  lemma TailDiffers(y: string, x: string)
    requires x != [] && !Plain(x) && x[0] != '%' && x[0] != '_' && x[0] != '\\'
    requires !Plain(x[1..]) ==> !FoldedEqual(y, x[1..])
    ensures !FoldedEqual([x[0]] + y, x)
  {
    if Plain(x[1..]) {
      assert forall i :: 1 <= i < |x| ==> x[i] == x[1..][i - 1];
      assert Plain(x);
    } else if |y| == |x[1..]| {
      var i :| 0 <= i < |y| && Fold(y[i]) != Fold(x[1..][i]);
      assert ([x[0]] + y)[i + 1] == y[i] && x[i + 1] == x[1..][i];
    }
  }

  /** The `%x%` filter is a case-insensitive substring search exactly for the texts without pattern characters:
      nothing is escaped. */
  lemma SearchExactly(x: string)
    ensures (forall text :: ILike(text, Around(x)) <==> ContainsFolded(text, x)) <==> Plain(x)
  {
    if Plain(x) {
      forall text ensures ILike(text, Around(x)) <==> ContainsFolded(text, x) { PlainSearch(text, x); }
    } else {
      var text := Hit(x);
      HitIsFound(x);
      HitIsOther(x);
      assert Around(x)[1..] == x + "%";
      assert ILike(text, Around(x));
      assert |text| == |x| ==> text[0..|x|] == text;
      assert !ContainsFolded(text, x);
    }
  }

  // ---------- the filter, column by column ----------

  /** Two characters that differ at most in the case of a letter from A to Z. */
  predicate SameLetter(a: char, b: char) {
    || a == b
    || ('A' <= a <= 'Z' && b as int == a as int + 32)
    || ('A' <= b <= 'Z' && a as int == b as int + 32)
  }

  lemma FoldExactly(a: char, b: char)
    ensures Fold(a) == Fold(b) <==> SameLetter(a, b)
  {
  }

  /** `x` is somewhere in the text, up to case. */
  ghost predicate Finds(text: string, x: string) {
    exists i :: 0 <= i <= |text| - |x| && MatchesAt(text, x, i)
  }

  ghost predicate MatchesAt(text: string, x: string, i: int) {
    0 <= i <= |text| - |x| && forall k :: 0 <= k < |x| ==> SameLetter(text[i + k], x[k])
  }

  lemma FindsExactly(text: string, x: string)
    requires Plain(x)
    ensures ILike(text, Around(x)) <==> Finds(text, x)
  {
    PlainSearch(text, x);
    forall i | 0 <= i <= |text| - |x| ensures OccursAt(text, x, i) <==> MatchesAt(text, x, i) {
      forall k | 0 <= k < |x| ensures Fold(text[i..i + |x|][k]) == Fold(x[k]) <==> SameLetter(text[i + k], x[k]) {
        FoldExactly(text[i + k], x[k]);
      }
    }
  }

  /** A column that may be NULL; where it is, nothing is found in it. */
  ghost predicate FindsIn(cell: Option<string>, x: string) {
    cell.Some? && Finds(cell.value, x)
  }

  lemma TextWantedMeans(cell: Option<string>, x: string)
    requires Plain(x)
    ensures TextWanted(cell, x) <==> (x != "" ==> FindsIn(cell, x))
  {
    if cell.Some? { FindsExactly(cell.value, x); }
  }

  /** The keyword is looked for in six columns. */
  lemma KeywordMeans(row: Row, x: string)
    requires Plain(x) && x != ""
    ensures KeywordHit(row, Around(x)) <==>
              || FindsIn(row.username, x) || FindsIn(row.tenantName, x) || FindsIn(row.bucketName, x)
              || FindsIn(row.objectKey, x) || Finds(row.action, x) || FindsIn(row.errorMessage, x)
  {
    FindsExactly(row.action, x);
    forall cell: Option<string> ensures ILike(Coalesce(cell), Around(x)) <==> FindsIn(cell, x) {
      FindsExactly(Coalesce(cell), x);
    }
  }

  ghost predicate PlainTexts(f: Filter) {
    && Plain(f.tenantName) && Plain(f.username) && Plain(f.bucketName) && Plain(f.objectKey) && Plain(f.sourceIp)
    && Plain(f.keyword)
  }

  /** What a filter whose texts have no pattern characters selects. */
  lemma FilterMeans(f: Filter, row: Row)
    requires PlainTexts(f)
    ensures Wanted(f, row) <==>
              && (f.tenantId.Some? ==> row.tenantId == f.tenantId)
              && (f.tenantName != "" ==> FindsIn(row.tenantName, f.tenantName))
              && (f.userId.Some? ==> row.userId == f.userId)
              && (f.username != "" ==> FindsIn(row.username, f.username))
              && (f.bucketName != "" ==> FindsIn(row.bucketName, f.bucketName))
              && (f.objectKey != "" ==> FindsIn(row.objectKey, f.objectKey))
              && (f.action != "" ==> row.action == f.action)
              && (f.status != "" ==> row.status == f.status)
              && (f.sourceIp != "" ==> FindsIn(row.sourceIp, f.sourceIp))
              && (f.keyword != "" ==>
                    || FindsIn(row.username, f.keyword) || FindsIn(row.tenantName, f.keyword)
                    || FindsIn(row.bucketName, f.keyword) || FindsIn(row.objectKey, f.keyword)
                    || Finds(row.action, f.keyword) || FindsIn(row.errorMessage, f.keyword))
              && (f.from.Some? ==> f.from.value <= row.createdAt)
              && (f.to.Some? ==> row.createdAt <= f.to.value)
              && (f.adminOnly ==> row.action in ADMIN_ACTIONS)
  {
    TextWantedMeans(row.tenantName, f.tenantName);
    TextWantedMeans(row.username, f.username);
    TextWantedMeans(row.bucketName, f.bucketName);
    TextWantedMeans(row.objectKey, f.objectKey);
    TextWantedMeans(row.sourceIp, f.sourceIp);
    if f.keyword != "" { KeywordMeans(row, f.keyword); }
    hide TextWanted, KeywordHit, FindsIn, Finds;
  }
}
