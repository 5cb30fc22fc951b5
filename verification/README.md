# Verification model of the OSSPilot operations API

This project models the parts of the operations API that keep state in step over time, and proves what
they promise. Each model follows the Go source branch by branch.

- **Alerts** (`AlertTable`, `AlertEval`, `AlertInvariants`, `AlertMachine`, `AlertKeys`, `AlertTimes`,
  `AlertReconcile`, `AlertThresholds`, `AlertViews`, `AlertMirror`, `AlertNotices`, `AlertExamples`, `AlertService`,
  `Fingerprints`). The event table and the evaluator. `AlertEval` says what a run computes, call by call, with a
  failure or a lost reply possible at every call; `AlertService` has the imperative code (the store with its
  numbered SQL conditions, the evaluator with its loops, counters and `seen` sets) and proves it equal to that. The
  other modules prove what the runs mean: the invariant over all histories, uniqueness of open keys,
  reconciliation, idleness of a second run, independence of the order of rules, and agreement with the alerts
  shown to tenants. `AlertThresholds` says in rows and numbers when an alert is open, `AlertNotices` to whom alerts
  are shown, `AlertTimes` what their times mean. `AlertExamples` reaches each exception from empty tables.
- **Audit log** (`AuditPaging`, `AuditWhere`). A page of the global log cut from two sources, and the WHERE
  builder with its numbered placeholders.
- **Lifecycle** (`Shelves`, `Lifecycle`, `LifecycleRun`). A storage listing with the contract of the S3 API, the
  capped deletion loops over the very store they are listing, and a whole run over the rules.
- **Accounts and grants** (`ProjectionModel`, `ProjectionService`, `GrantIds`). Two stores without a shared
  transaction. The class keeps the list of all states between calls, so that the theorems about histories
  also speak of what a failing request leaves behind.
- **Supporting algorithms** (`CephStats`, `Remap`, `RemapInPlace`, `BucketName`).

`Common` holds the option type and the fate of a call: `Fine`, `Fails` (no effect, an error) or `LostReply`
(the effect, and still an error).

Check everything with `dafny verify dfyconfig.toml`.

## Where the code differs from what one would expect

- An event whose INSERT takes effect but whose read-back, reply, name look-up or PUT is lost is open and never
  announced, and one whose closing is not announced stays shown: later runs see nothing to do and stay silent.
  `AlertMirror.FireExact` and `AlertMirror.ClearExact` have the conditions of one operation,
  `AlertMirror.MirrorFollows` that of whole histories; see also `AlertMirror.StaysSilent` and
  `AlertExamples.NeverAnnounced`.
- A manual resolve is not sent to the tenant (`AlertMirror.ManualResolve`, `AlertExamples.ResolvedByHand`), and no
  alert is withdrawn when a tenant's row is deleted (`AlertMirror.DropTenantMirrors`).
- Deletions can leave several open events on the all-null key of a tenant or bucket rule, exactly when
  `AlertKeys.UniqueExactly` says (`AlertExamples.TwoDeletionsMerge` reaches it), and no run ever closes them
  (`AlertMachine.OrphansOutlive`).
- The error of the usage report is dropped, and such a run closes every capacity alert, rightly only if the report
  would have selected no bucket (`AlertReconcile.NoUsageCapacityRight`, `AlertReconcile.NoUsageQuotaRight`,
  `AlertExamples.FullBucketClosed`).
- `page * pageSize` is not checked for overflow of a 64-bit integer: a large page can show page 1 again or end
  in a slice panic (`AuditPaging.ListRight`, `AuditPaging.OverflowExample`, `AuditPaging.CrashExample`).
- A tenant row whose timestamp does not parse shifts later pages and makes the total too large
  (`AuditPaging.PagesRightExactly`, `AuditPaging.AnswersAddUp`).
- Search texts are put into ILIKE patterns without escaping, so that the search is one for the text itself exactly
  when the text has no pattern characters (`AuditWhere.SearchExactly`).
- A password reset orders a change of password at the tenant but leaves `must_change_password` of the row as
  it was (`ProjectionModel.ResetFlag`, `ProjectionModel.ResetFlagExample`).
- A lost reply to a delete is counted as a failure although the object is gone, so the cap of 2000 can be passed
  (`Lifecycle.CapExactly`, `Lifecycle.PastTheCap`).

## Model

| member | source | states |
|---|---|---|
| `AlertMachine.ReachableInv` | internal/alerts/store.go:94-119 | every state reached by any sequence of evaluator runs (failing at any call or not), acknowledgements, manual resolves, rule additions, edits and deletions, and tenant and bucket deletions satisfies the invariant of the event table |
| `AlertMachine.AtMostOneOpen` | internal/alerts/evaluate.go:104-109 | in every reachable table, of two events that share a live (rule, tenant, bucket) key the earlier one is resolved, although nothing but a check before each insert prevents two open ones |
| `AlertMachine.DisjointPeriods` | migrations/00008_audit_alerts.sql:52-70 | two events with a common live key were open at disjoint times: the first was resolved no later than the second fired, by any clock that does not run backwards |
| `AlertMachine.ResolvedIsFinal` | internal/alerts/store.go:218-237 | between any moment of a history and any later one rows stay in place, a resolved row keeps its status and its `resolved_at`, and key columns change only to null |
| `AlertKeys.UniqueExactly` | migrations/00008_audit_alerts.sql:54-61 | for every history from the empty tables: in all its states no two open events share a key, null columns included, if and only if no deletion in it finds an open event of its tenant (or bucket) beside an open event of the same rule on the nulled key |
| `AlertKeys.MergesExactly` | migrations/00008_audit_alerts.sql:54-61 | when open keys are unique, they still are after a tenant deletion if and only if no rule has an open event on that tenant together with one on the nulled key |
| `AlertKeys.BucketMergesExactly` | migrations/00008_audit_alerts.sql:54-61 | the same for a bucket deletion |
| `AlertKeys.OthersKeepUnique` | internal/alerts/evaluate.go:104-122 | runs, failing or not, operators and rule edits never make two open events share a key |
| `AlertExamples.TwoDeletionsMerge` | migrations/00008_audit_alerts.sql:54-61 | a concrete history from the empty tables (one rule, one run on two full tenants, both deleted) ends with two open events on one key |
| `AlertMachine.OrphansOutlive` | internal/alerts/evaluate.go:172-190 | an open event whose tenant or bucket row was deleted is never closed by any number of later evaluator runs |
| `AlertMachine.ApplyKeeps` | internal/alerts/store.go:106-119 | one action of any kind keeps the invariant, never reopens a row, never moves one and never sets the clock back |
| `AlertTimes.ApplyTimed` | internal/alerts/store.go:354-393 | an event that fires, is acknowledged or is resolved during an action of any kind carries a time within that action, and all other times stay |
| `AlertInvariants.RunInv` | internal/alerts/evaluate.go:30-71 | a run keeps the invariant, evolves rows only forwards and leaves the rules alone, wherever it fails |
| `AlertInvariants.MatchesAgree` | internal/alerts/store.go:304-325 | on every row of a table satisfying the invariant, `ResolveOpen` with nil read as "any" and `HasOpenEvent` with nil read as NULL select alike, for every key the evaluator passes |
| `AlertInvariants.QueriesAgree` | internal/alerts/store.go:375-393 | the two selections agree in the state before each single operation of a rule's plan and of its closing sweep |
| `AlertInvariants.StepInv` | internal/alerts/evaluate.go:104-122 | check-then-insert and resolve-by-key each keep the invariant for a live rule, including when the insert fails or loses its reply |
| `AlertInvariants.EvalFrame` | internal/alerts/evaluate.go:203-330 | evaluating one rule changes no rule and no row of any other rule |
| `AlertInvariants.EvalInv` | internal/alerts/evaluate.go:203-330 | evaluating one live rule keeps the invariant |
| `AlertInvariants.SweepPointed` | internal/alerts/evaluate.go:172-190 | because the sweep skips null subjects, none of its resolves ever has an all-null key |
| `AlertInvariants.RunKeepsOrphans` | internal/alerts/evaluate.go:172-201 | one run leaves every open event with a nulled subject exactly as it was |
| `AlertReconcile.TenantsReconciled` | internal/alerts/evaluate.go:203-268 | whatever the table held before, after an error-free run a tenant has an open event for an enabled quota rule if and only if it is listed, active, has a positive quota and uses at least the threshold |
| `AlertThresholds.TenantAlertMeans` | internal/alerts/evaluate.go:203-268 | said in rows and numbers only: after an error-free run a tenant has an open event of an enabled `tenant_quota_exceeded` rule if and only if a row lists it as active with a positive quota of which the sum of the bytes reported for its granted buckets, plus 1e-12, is at least `threshold_percent` (1.0 if not set) |
| `AlertThresholds.TenantUsedIsTotal` | internal/alerts/evaluate.go:222-237 | the used bytes of a tenant are the sum over its granted buckets of what the report says of each |
| `AlertThresholds.UsedAppend` | internal/alerts/evaluate.go:228-236 | the bytes of two lists of grants add up |
| `AlertThresholds.LastRowDecides` | internal/alerts/evaluate.go:212-217 | a bucket is known if and only if a row of the report names it, and the last such row gives its bytes |
| `AlertExamples.FilledTogether` | internal/alerts/evaluate.go:222-243 | concrete histories: two buckets of 6 bytes each fill a quota of 10 and an event opens; with either of them alone none does |
| `AlertReconcile.BucketsReconciled` | internal/alerts/evaluate.go:270-330 | the same for buckets and capacity rules, where a usage row is needed as well |
| `AlertThresholds.BucketAlertMeans` | internal/alerts/evaluate.go:270-330 | the same in rows and numbers for capacity rules, with 0.8 and 0.9 as defaults |
| `AlertReconcile.PlatformReconciled` | internal/alerts/evaluate.go:332-413 | after an error-free run a platform rule has an open event if and only if the error rate, the failure rate or the count reaches its threshold, provided that the audit window of an audit rule could be read |
| `AlertThresholds.ErrorRateAlertMeans` | internal/alerts/evaluate.go:332-362 | the same for the 5xx rule, 0.05 as default |
| `AlertThresholds.FailureAlertMeans` | internal/alerts/evaluate.go:364-394 | for the failure rules: a window of whole minutes (60 unless a setting is at least 1), something in it, and a share of failures at `failure_rate` (0.1) |
| `AlertThresholds.CountAlertMeans` | internal/alerts/evaluate.go:395-413 | for the frequency rules: as many actions as `count_threshold` (50) without its fraction |
| `AlertReconcile.UnreadWindowIdle` | internal/alerts/evaluate.go:364-381 | an audit rule whose window could not be read leaves tables, mirror and counters alone |
| `AlertReconcile.NoUsageClosesBuckets` | internal/alerts/evaluate.go:39-39 | with the usage report lost, whose error is dropped, an error-free run leaves no capacity alert open |
| `AlertReconcile.NoUsageQuota` | internal/alerts/evaluate.go:39-39 | and a quota alert is open if and only if the threshold is at most the slack and the tenant is listed, active and has a quota |
| `AlertReconcile.NoUsageCapacityRight` | internal/alerts/evaluate.go:39-39 | so after such a run the open capacity alerts are those of the report that was lost if and only if that report selects no bucket |
| `AlertReconcile.NoUsageQuotaRight` | internal/alerts/evaluate.go:39-39 | and the open quota alerts are those of the lost report if and only if it selects no tenant, or, with a threshold within the slack, every tenant with a quota |
| `AlertExamples.FullBucketClosed` | internal/alerts/evaluate.go:39-39 | a concrete history in which the alert of a bucket that is still full is closed by such a run |
| `AlertReconcile.FineRunSucceeds` | internal/alerts/evaluate.go:30-71 | a run in which every call succeeds is error-free |
| `AlertReconcile.RunSettles` | internal/alerts/evaluate.go:30-71 | after an error-free run every enabled rule is settled at once: each fired key is open, each cleared key and each unseen subject is not, and later rules did not undo earlier ones |
| `AlertReconcile.EvalSettles` | internal/alerts/evaluate.go:203-330 | one error-free evaluation settles its rule |
| `AlertReconcile.PlanIsSound` | internal/alerts/evaluate.go:221-267 | no two operations of a plan undo each other and the sweep spares every key the loop decided on |
| `AlertReconcile.SecondRunIdle` | internal/alerts/evaluate.go:30-71 | a second run on the same readings creates nothing, resolves nothing and leaves events and mirror as they were, even when its own calls fail |
| `AlertReconcile.CountersExact` | internal/alerts/evaluate.go:40-70 | an error-free run reports exactly the rows inserted and the rows that went from open to resolved, so open after is open before plus created minus resolved; a failing run reports no more than it did |
| `AlertReconcile.TenantOpsExact` | internal/alerts/evaluate.go:221-262 | the loop over tenants acts on a key exactly when that tenant is active with a positive quota, and fires it exactly when its usage reaches the threshold |
| `AlertReconcile.BucketOpsExact` | internal/alerts/evaluate.go:289-324 | the same for the loop over buckets |
| `AlertReconcile.EnabledRulesExact` | internal/alerts/store.go:287-302 | the rules of a run are exactly the enabled ones, each once |
| `AlertReconcile.EnabledRulesAscend` | internal/alerts/store.go:287-302 | in the order of their ids |
| `AlertReconcile.SweepOpsExact` | internal/alerts/evaluate.go:160-190 | the sweep resolves the keys of exactly those open events whose subject is not null and was not seen |
| `AlertViews.OrderIrrelevant` | internal/alerts/evaluate.go:40-70 | two error-free passes over the same rules in different orders, with different call numbers, leave each rule with the same events up to ids and timestamps |
| `AlertViews.RulesOnViews` | internal/alerts/evaluate.go:40-70 | what a pass leaves of a rule's events is a function of that rule's events before it and the readings alone |
| `AlertViews.EvalOnView` | internal/alerts/evaluate.go:203-330 | evaluating a rule commutes with forgetting ids, timestamps and the rows of all other rules |
| `AlertViews.OthersUntouched` | internal/alerts/evaluate.go:40-70 | rows without a rule, or of rules not evaluated, stay identical |
| `AlertMirror.MirrorFollows` | internal/alerts/evaluate.go:135-158 | for every history from the empty tables, with runs failing anywhere, operators, rule edits and tenants and buckets coming and going: after every action each tenant sees an alert firing under a quota fingerprint if and only if an event for that rule and tenant is open, exactly when no action was silent |
| `AlertMirror.ActionExact` | internal/alerts/evaluate.go:135-158 | one action of any kind keeps both sides in step if and only if it was not silent: a run when it told what it did, a manual resolve when it hit no open quota event, a tenant deletion when the tenant had none, every other action always |
| `AlertMirror.DropTenantMirrors` | migrations/00008_audit_alerts.sql:60-60 | deleting a tenant, of which the tenant side is not told here, keeps both in step if and only if no quota rule has an open event on it |
| `AlertMirror.RunExact` | internal/alerts/evaluate.go:192-201 | a run that starts in step ends in step if and only if every operation it came to met its condition, wherever else it failed |
| `AlertMirror.FireExact` | internal/alerts/evaluate.go:104-122 | firing a key keeps its tenant in step if and only if the key is open already, the check fails, the INSERT has no effect, or INSERT, read-back and look-up succeed and the PUT to a tenant known by name takes effect for a rule that notifies; otherwise the event is open and untold |
| `AlertMirror.ClearExact` | internal/alerts/evaluate.go:192-201 | clearing an open key keeps its tenant in step if and only if the UPDATE has no effect, or UPDATE and look-up succeed and the PUT takes effect under the same conditions; otherwise the event is resolved and the alert still shown |
| `AlertMirror.StepMirrors` | internal/alerts/evaluate.go:104-122 | one operation keeps the mirror of all rules and tenants in step if it met that condition, and otherwise leaves its own pair out of step |
| `AlertMirror.ExecExact` | internal/alerts/evaluate.go:221-262 | the operations of a loop keep it in step if and only if each did until the first failure |
| `AlertMirror.EvalExact` | internal/alerts/evaluate.go:203-268 | so does the evaluation of a rule with its sweep |
| `AlertMirror.RunMirrors` | internal/alerts/evaluate.go:192-201 | in particular a run in which every call succeeds, every quota rule notifies and every tenant concerned is known by name keeps both sides in step |
| `AlertMirror.StaysSilent` | internal/alerts/evaluate.go:104-122 | an event opened and not told stays open and untold through every later run, failing or not, that still selects its tenant, and one closed and not told stays closed and shown through every run that does not select it |
| `AlertNotices.NoticeExact` | internal/alerts/evaluate.go:135-158 | a notice changes at most the entry under its own fingerprint, which then carries the name looked up for its tenant |
| `AlertNotices.NoticesAddressed` | internal/alerts/evaluate.go:139-144 | in every history each alert at the tenant side is under the fingerprint of a rule and a tenant and carries a name that some run of the history read for that very tenant |
| `AlertNotices.OwnName` | internal/alerts/evaluate.go:139-144 | so when all runs agree on the names, the entry of a rule and a tenant carries that tenant's name |
| `AlertNotices.ShownToItsTenant` | internal/alerts/evaluate.go:135-158 | and then, wherever both sides are in step, an event is open if and only if the tenant of that name is shown a firing alert under its fingerprint |
| `AlertExamples.NeverAnnounced` | internal/alerts/evaluate.go:104-122 | a concrete history in which the read-back of an INSERT fails and a later faultless run does not tell the tenant either |
| `AlertMirror.AcknowledgeMirrors` | internal/alerts/store.go:218-229 | acknowledging keeps them in step |
| `AlertMirror.ManualResolve` | internal/alerts/handler.go:410-421 | a manual resolve, which is not sent to the tenant, keeps them in step exactly when the event is not an open quota event of a live rule with a tenant |
| `AlertExamples.ResolvedByHand` | internal/alerts/handler.go:410-421 | a concrete history in which it does not |
| `Fingerprints.FingerprintExact` | internal/alerts/evaluate.go:124-133 | two keys share a fingerprint if and only if their rules are equal and their tenants and buckets are equal with nil read as 0 |
| `Fingerprints.FingerprintInjective` | internal/alerts/evaluate.go:124-133 | on positive ids the fingerprint determines rule, tenant and bucket, and tells nil from every id |
| `Fingerprints.FingerprintExample` | internal/alerts/evaluate.go:124-133 | the fingerprint of rule 12 and tenant 7 is `r12-t7-b0` |
| `Fingerprints.DigitsRoundTrip` | internal/alerts/evaluate.go:124-133 | reading back the decimal digits of a number gives the number |
| `AlertService.Evaluator.Run` | internal/alerts/evaluate.go:30-71 | the loop over the rules computes exactly the specified run: same tables, mirror, counters and error, and the first failing rule ends it with the partial counts |
| `AlertService.Evaluator.EvalTenantQuota` | internal/alerts/evaluate.go:203-268 | listing, loop, `seen` set and sweep compute the specified plan of a quota rule call by call |
| `AlertService.Evaluator.EvalTenants` | internal/alerts/evaluate.go:221-262 | the loop over tenants, with its running counters and its early return, executes the specified operations and collects the tenants seen |
| `AlertService.Evaluator.EvalBucketCapacity` | internal/alerts/evaluate.go:270-330 | the same for a capacity rule |
| `AlertService.Evaluator.EvalBuckets` | internal/alerts/evaluate.go:289-324 | the loop over buckets executes the specified operations and collects the buckets seen |
| `AlertService.Evaluator.EvalRGW5xx` | internal/alerts/evaluate.go:332-362 | fires on a known rate at or over the threshold and resolves in every other case, also when no rate could be read |
| `AlertService.Evaluator.EvalAuditRate` | internal/alerts/evaluate.go:364-413 | failure rules need a non-empty window and a rate at the threshold, count rules a count; an unreadable window does nothing |
| `AlertService.Evaluator.Fire` | internal/alerts/evaluate.go:104-122 | inserts only when no event with that exact key is open, then tells the tenant; every failure point behaves as specified |
| `AlertService.Evaluator.ProjectEvent` | internal/alerts/evaluate.go:135-158 | writes at most the entry under the fingerprint, with the name looked up for the tenant, only for a notifying rule with a known tenant name; failures are swallowed |
| `AlertService.Evaluator.ResolveAndProject` | internal/alerts/evaluate.go:192-201 | resolves by key and tells the tenant only when a row was closed |
| `AlertService.Evaluator.ResolveUnseen` | internal/alerts/evaluate.go:172-190 | the sweep over the open rows read before it computes the specified resolves |
| `AlertService.Store.ResolveOpen` | internal/alerts/store.go:375-393 | the numbered conditions built step by step close exactly the open rows that match the given, non-nil columns, and the count is theirs |
| `AlertService.Store.HasOpenEvent` | internal/alerts/store.go:304-325 | the numbered conditions built step by step select by equality, nil as IS NULL |
| `AlertService.Store.InsertEvent` | internal/alerts/store.go:354-364 | appends at most one row, firing under the rule's id and type, the given key and the notify flag of the rule, with a fresh id and the time of the call, and reads it back; a lost reply leaves the row behind an error |
| `AlertService.Store.ListEnabledRules` | internal/alerts/store.go:287-302 | the enabled rules in id order |
| `AlertService.Store.Acknowledge` | internal/alerts/store.go:218-229 | the open events with the id become acknowledged by the user, every other row is untouched, and every key is open afterwards exactly when it was before |
| `AlertService.Store.Resolve` | internal/alerts/store.go:231-237 | the events with the id are resolved, events resolved before keep their time, every other row is untouched, and a key stays open exactly when an event with another id holds it |
| `AlertService.Store.InsertRule` | internal/alerts/store.go:94-104 | the id is new, no other rule changes, and the next run evaluates the same rules followed by the new one if it is enabled |
| `AlertService.Store.UpdateRule` | internal/alerts/store.go:106-114 | no rule comes or goes and the type cannot change, so every event that fitted its rule still does |
| `AlertService.Store.DeleteRule` | internal/alerts/store.go:116-119 | the rule is gone, no event names it, no event opens or closes, and the open keys of all other rules are as before |
| `AlertTable.SameKeysOpen` | internal/alerts/store.go:218-229 | rows that differ only between firing and acknowledged leave the same keys open |
| `AlertTable.ResolveLeavesOpen` | internal/alerts/store.go:231-237 | a key is open after a manual resolve exactly when an event with another id holds it |
| `AlertTable.ForgetRuleOpen` | migrations/00008_audit_alerts.sql:54-54 | nulling a deleted rule closes exactly the keys of that rule |
| `AuditPaging.FastFormRefines` | internal/audit/merge.go:32-62 | for every page, size and pair of logs, ordered or not, merging the first page*size rows of each and slicing gives the page of the full merge |
| `AuditPaging.MergePrefix` | internal/audit/merge.go:33-53 | the first n rows of a merge depend on the first n rows of each side only |
| `AuditPaging.MergePage` | internal/audit/merge.go:33-62 | the slice of the merge, its total, and the crash of a negative (overflowed) start |
| `AuditPaging.MergeRows` | internal/audit/merge.go:33-53 | the two-index loop computes the recursive merge |
| `AuditPaging.TenantEntries` | internal/audit/merge.go:12-30 | keeps the readable rows in order with shifted ids |
| `AuditPaging.EntriesInOrder` | internal/audit/merge.go:12-30 | row by row, unreadable ones left out and the others in their places with ids shifted by 10^12 |
| `AuditPaging.List` | internal/audit/handler.go:49-70 | asks each source for the first page*pageSize rows in 64-bit arithmetic and slices their merge; with sources in order the answer is the page of the log of all rows, latest first |
| `AuditPaging.WrapExactly` | internal/audit/handler.go:57-64 | the arithmetic differs from that of integers by a multiple of 2^64 and stays within 64 bits |
| `AuditPaging.Export` | internal/audit/handler.go:72-90 | the first 10000 rows of the merge of the first 10000 rows of each source; with sources in order these are the first 10000 rows of the log of all rows, latest first |
| `AuditPaging.ListRight` | internal/audit/handler.go:57-64 | a list answer is the page of the full log if and only if page*pageSize does not overflow or the overflowed request happens to fetch nothing at or past its start |
| `AuditPaging.OverflowExample` | internal/audit/handler.go:57-64 | a concrete page number whose overflow shows page 1 again |
| `AuditPaging.CrashExample` | internal/audit/handler.go:57-64 | a concrete page number whose start overflows to a negative number and panics, where the right answer is the empty page |
| `AuditPaging.ExportRight` | internal/audit/handler.go:80-86 | the export is the newest 10000 rows of the full merge |
| `AuditPaging.PagesRightExactly` | internal/audit/merge.go:12-30 | all pages over all ops logs are right if and only if no row with an unreadable timestamp stands before a readable one |
| `AuditPaging.MergedLog` | internal/audit/merge.go:10-69 | with both sources latest first, ops ids up to 10^12 and tenant ids positive, the merged log is latest first (by time, then by greater id), has unique ids and is a permutation of the local rows and the tenant rows with ids shifted by 10^12 |
| `AuditPaging.ListMeans` | internal/audit/handler.go:57-64 | then, short of overflow, a list answer is the rows from (page - 1) * size up to page * size of a log of all rows, latest first, and the number of all rows |
| `AuditPaging.TotalExact` | internal/audit/merge.go:54-62 | the reported total is the length of the merged log if and only if every timestamp parses |
| `AuditPaging.PagesCover` | internal/audit/merge.go:54-62 | the pages one after another are the log |
| `AuditPaging.AnswersAddUp` | internal/audit/merge.go:54-62 | the numbers of rows in all answers add up to the total each of them reports if and only if every timestamp parses |
| `AuditPaging.PageEmptyExactly` | internal/audit/merge.go:54-57 | a page is empty exactly when its start is at or past the end |
| `AuditPaging.OnePageEach` | internal/audit/merge.go:54-62 | row i is on page i/size + 1 and on no other |
| `AuditWhere.Where` | internal/audit/store.go:165-217 | for every combination of filter fields the placeholders are 1..len(args), each bound to its own field's value, and the clause selects exactly the rows all set filters want |
| `AuditWhere.ListStatement` | internal/audit/store.go:124-131 | LIMIT and OFFSET take the next two numbers and select page size and offset, without disturbing the clause |
| `AuditWhere.Add` | internal/audit/store.go:165-171 | the `add` closure numbers a condition by its own argument and keeps the meaning of all earlier ones |
| `AuditWhere.AddKeyword` | internal/audit/store.go:198-202 | one argument under one number shared by six columns |
| `AuditWhere.MoreArgs` | internal/audit/store.go:168-171 | appending arguments never changes what an earlier placeholder selects |
| `AuditWhere.SearchExactly` | internal/audit/store.go:175-197 | the ILIKE filter made of a text is a case-insensitive substring search, on all rows, if and only if the text has no `%`, `_` or backslash |
| `AuditWhere.FilterMeans` | internal/audit/store.go:165-217 | column by column: for a filter whose texts have no pattern characters the clause selects the rows whose named columns equal, contain up to the case of A to Z, or bound in time what the filter sets, the keyword in any of six columns |
| `AuditWhere.KeywordMeans` | internal/audit/store.go:198-202 | the keyword is found if and only if one of username, tenant name, bucket name, object key, action and error message contains it; NULL contains nothing |
| `Lifecycle.DeletePrefix` | internal/lifecycle/runner.go:78-106 | removes only eligible objects, at most 2000 by its own count, returns what it removed up to lost replies, fails exactly when a listing fails, and, unless it failed or the cap was reached, accounts for every eligible object as removed or refused |
| `Lifecycle.DeletePages` | internal/lifecycle/runner.go:78-106 | the paginated loop over a store that shrinks under it terminates and misses no eligible object behind its advancing marker |
| `Lifecycle.AbortMultipart` | internal/lifecycle/runner.go:108-136 | the same for unfinished uploads under a marker of two parts |
| `Lifecycle.AbortPages` | internal/lifecycle/runner.go:108-136 | its loop terminates and misses none |
| `Lifecycle.CleanPage` | internal/lifecycle/runner.go:83-102 | one page: what was eligible before the marker is dealt with, what is behind it is untouched, and the search space strictly shrinks |
| `Lifecycle.RemoveLines` | internal/lifecycle/runner.go:88-101 | the loop over one page stops at the cap and otherwise deals with exactly its eligible lines |
| `Lifecycle.RemoveLine` | internal/lifecycle/runner.go:92-100 | the key filter, the missing time and the strict cutoff decide; a failed delete is not counted |
| `Lifecycle.CompleteCall` | internal/lifecycle/runner.go:78-106 | a call whose requests all succeed removes exactly min(2000, E) of the E eligible objects and leaves the rest eligible |
| `Lifecycle.CallsAddUp` | internal/lifecycle/runner.go:78-106 | after k such calls at a fixed cutoff max(0, E - 2000k) eligible objects are left |
| `Lifecycle.CapExactly` | internal/lifecycle/runner.go:12-12 | a call whose listings succeed removes more than 2000 objects if and only if some reply was lost and the eligible objects outnumber the refused ones by more than 2000 (only then also when a listing fails); the returned number is the number gone if and only if no reply was lost |
| `Lifecycle.CleanUnanswered` | internal/lifecycle/runner.go:92-100 | when no delete is answered, one call removes every eligible object of any store and returns zero |
| `Lifecycle.PastTheCap` | internal/lifecycle/runner.go:12-12 | a concrete store for every n, 2001 included: n objects are gone and the call returns zero |
| `Lifecycle.PageSwept` | internal/lifecycle/runner.go:84-105 | keeps the books across pages although the listing runs over the store being emptied |
| `LifecycleRun.Runner.Run` | internal/lifecycle/runner.go:19-60 | a run makes one call for each action set for an enabled rule, in order, whichever of them fail, each at its own look at the clock and on the store as the one before left it; the four counters add up what the calls counted; without readable rules nothing happens |
| `LifecycleRun.Runner.ActAll` | internal/lifecycle/runner.go:28-57 | the calls of the four actions of a rule are added to the log in order; an error of one does not stop the next |
| `LifecycleRun.Runner.Act` | internal/lifecycle/runner.go:29-56 | without a positive number of days nothing happens at all; otherwise one call with bucket, prefix, filter and cutoff of its own class, which moves no counter but its own, also when it fails |
| `LifecycleRun.Runner.Attempt` | internal/lifecycle/runner.go:29-56 | one action reads the clock once and is one call with the target of its own class |
| `LifecycleRun.EveryRuleAttended` | internal/lifecycle/runner.go:28-57 | said without targets: for every action set for an enabled rule there is a call in the log such that, unless a listing of that very call failed or it counted 2000 deletes itself, no more items of its class that were due when it looked at the clock are left at the end of the run than the store refused to give up, whatever happened to all other calls |
| `LifecycleRun.EligibleExactly` | internal/lifecycle/runner.go:64-106 | what an action of an enabled rule may remove is exactly what is due: in the rule's bucket, of the class of the action, older than its days of 86400 seconds, and under the prefix, for trash and versions under the folder and the prefix without its leading slashes |
| `LifecycleRun.InFolderExactly` | internal/lifecycle/runner.go:70-76 | joining a folder and a prefix drops exactly the leading slashes of the prefix |
| `LifecycleRun.AllDidTheirPart` | internal/lifecycle/runner.go:28-57 | the same for each call of a log, at the end of the log |
| `LifecycleRun.SmoothCallEmpties` | internal/lifecycle/runner.go:78-106 | a call below its cap whose own requests succeed leaves nothing it was due |
| `LifecycleRun.FailuresCounted` | internal/lifecycle/runner.go:30-33 | the calls that ended in an error are as many as the listings that failed |
| `LifecycleRun.RunAccounts` | internal/lifecycle/runner.go:27-58 | everything gone from a store after a run is justified by an enabled rule, nothing came back or changed, and class by class what is gone was counted or lost its reply |
| `LifecycleRun.AccountOn` | internal/lifecycle/runner.go:29-56 | one more call keeps that account |
| `LifecycleRun.ActionsExactly` | internal/lifecycle/runner.go:28-57 | the actions of a run are those of its rules |
| `LifecycleRun.ActionsNext` | internal/lifecycle/runner.go:28-57 | rule by rule, live, trash, versions and uploads in this order |
| `LifecycleRun.EnabledInOrder` | internal/lifecycle/store.go:89-103 | the rules of a run are the enabled ones in their places |
| `LifecycleRun.Runner.ListEnabled` | internal/lifecycle/store.go:89-103 | the enabled rules in order |
| `LifecycleRun.ClassesApart` | internal/lifecycle/runner.go:64-76 | live, trash and version actions of all rules act on pairwise disjoint sets of keys, so a live key is never removed by a trash or version action |
| `LifecycleRun.RemovalIsDue` | internal/lifecycle/runner.go:28-49 | any object that is gone was due under an enabled rule on its bucket, its prefix, the days of its own class and its age at an instant of the run |
| `LifecycleRun.CountersAddUp` | internal/lifecycle/runner.go:27-58 | the three counters sum to the objects removed, up to lost replies |
| `Shelves.Shelf.List` | internal/rgw/client.go:132-163 | one page: at most 1000 lines in key order behind the marker, truncated exactly when something is left, with a marker at its last line |
| `Shelves.Shelf.Remove` | internal/rgw/client.go:165-171 | a delete takes effect unless the request failed, also when its reply is lost |
| `Shelves.LessTotal` | internal/rgw/client.go:132-163 | the order of keys is a strict total order, which makes the marker meaningful |
| `Shelves.LessExactly` | internal/rgw/client.go:132-163 | it decides by the first character that differs, and a beginning comes before what it begins |
| `ProjectionModel.ReachableInv` | internal/accounts/handler.go:143-155 | in every state between any two calls of any history, whatever failed or lost its reply, every account on the tenant side has a row with the same username on the operations side; usernames are unique and grants point to existing rows |
| `ProjectionModel.TenantFollows` | internal/grants/handler.go:105-114 | in every such state the tenant's bucket set for an account equals a set the operations side held for that very row at that moment or earlier, and so do its password and profile |
| `ProjectionModel.TenantFollowsPlainly` | internal/grants/handler.go:105-114 | spelled out field by field for hash, profile and the names of granted buckets |
| `ProjectionModel.StepInv` | internal/accounts/handler.go:253-265 | each single call keeps the invariant because creation writes the row first and removal drops the tenant account first |
| `ProjectionModel.CopySteps` | internal/project/client.go:53-75 | one call leaves the tenant's copy of an account alone, empties its grants, or sets it to what its row says now |
| `ProjectionModel.OrphansStep` | internal/accounts/handler.go:248-270 | no call leaves a tenant account without its row |
| `ProjectionModel.PushedFlag` | internal/accounts/handler.go:319-345 | after an account is sent, the flag at the tenant is the row's if and only if the order given is the row's, or none was given and they agreed before (for a new copy: the tenant's own choice agrees) |
| `ProjectionModel.ResetFlag` | internal/accounts/handler.go:304-312 | after a password reset both `must_change_password` flags agree if and only if the row asked for a change already |
| `ProjectionModel.ResetFlagExample` | internal/accounts/handler.go:304-312 | a concrete history, account created and then reset, in which they agreed before and do not agree after |
| `ProjectionService.Panel.Create` | internal/accounts/handler.go:114-160 | refuses a blank name, a password of the wrong length or not confirmed, and a region that is unknown or inactive, in that order and before anything is stored; otherwise status and both stores for every failure point; success adds exactly one row, under the trimmed name, with the texts trimmed and blank ones dropped, status active and the flag set unless declined, and its exact copy without grants at the tenant, and changes nothing else |
| `ProjectionService.TrimExactly` | internal/accounts/handler.go:124-124 | trimming drops white space at both ends and nothing else |
| `ProjectionService.EmptyToNilExactly` | internal/accounts/handler.go:434-443 | blank texts are dropped, others trimmed |
| `ProjectionService.Panel.CheckRegion` | internal/accounts/handler.go:368-386 | accepts no region, or an active one; a failed look-up is a refusal |
| `ProjectionService.Panel.Update` | internal/accounts/handler.go:170-246 | refusals leave both stores alone; success changes profile and bucket limit of that row and profile and password of its copy, whatever the divergence before, and nothing else: grants, flag and all other accounts stay |
| `ProjectionService.Panel.Remove` | internal/accounts/handler.go:248-270 | success removes exactly the tenant account, the row and its grants; a failure never removes the row before the copy |
| `ProjectionService.Panel.ResetPassword` | internal/accounts/handler.go:272-317 | success stores the new hash in row and copy, sets the flag of the copy and changes nothing else; the flags then agree if and only if the row asked for a change already; every failure point leaves a listed state |
| `ProjectionService.Panel.PushAccount` | internal/accounts/handler.go:319-345 | sends the password just read with the profile of the row; a failure leaves the tenant as it was or as sent |
| `ProjectionService.Panel.Replace` | internal/grants/handler.go:59-121 | after success exactly the requested buckets are granted, the tenant holds exactly their names, and nothing else changed on either side; every other answer leaves one of the listed states |
| `ProjectionService.ReplaceSucceeds` | internal/grants/handler.go:69-108 | with every call fine a replace succeeds if and only if the account exists, all requested buckets exist and are active, their distinct number is within the limit, and the tenant knows the account |
| `ProjectionService.Panel.Revoke` | internal/grants/handler.go:123-156 | after success the grant was there and is gone, all other grants, rows and buckets are as before, and the tenant holds exactly the names still granted, not the revoked one |
| `ProjectionService.RevokeSucceeds` | internal/grants/handler.go:123-156 | with every call fine a revoke succeeds if and only if the bucket was granted to the account and the tenant knows it |
| `ProjectionService.Panel.Check` | internal/grants/handler.go:69-104 | refuses ids below 1, then the limit over distinct ids, then ids of no active bucket, in that order |
| `ProjectionService.Panel.StoreReplace` | internal/grants/store.go:48-64 | the transaction takes effect as a whole or not at all, and when every statement succeeds it fails exactly when a key is hit |
| `ProjectionService.Panel.InsertAccount` | internal/accounts/store.go:121-137 | a taken username is a conflict and uses up an id, nothing else |
| `ProjectionService.Panel.ChangeBuckets` | migrations/00005_platform_buckets.sql:2-23 | a change of the bucket table takes effect unless its call failed, also when its reply is lost: a bucket appears as active, changes its status, or goes with its grants and nothing else |
| `ProjectionService.StoredGrants` | internal/grants/handler.go:77-108 | a request that passed the checks hits no key and stores exactly the requested set |
| `GrantIds.KeysHitExactly` | internal/grants/store.go:48-64 | the inserts hit no primary or foreign key if and only if ids do not repeat, the account exists and every bucket exists; then the result is the old grants of others plus the new ones |
| `GrantIds.CheckedIdsFit` | internal/grants/ids.go:3-17 | deduplication and the missing-id check are enough for that |
| `GrantIds.UniqueIDs` | internal/grants/ids.go:3-17 | refuses exactly the lists with an id below 1 and otherwise keeps each id at its first place |
| `GrantIds.FirstPlacesExactly` | internal/grants/ids.go:3-17 | no repeats, same set |
| `GrantIds.FirstPlacesInOrder` | internal/grants/ids.go:3-17 | the order of first occurrences is kept |
| `CephStats.StatsUnordered` | cmd/ceph-mgmt/parse.go:129-160 | two aggregations of the same dumps in any order, visiting sections in any order, report the same |
| `CephStats.AggregateStats` | cmd/ceph-mgmt/parse.go:129-160 | whatever order the sections are visited in, the report is the one of the multiset of samples and the sums; p95 and p99 come together and p95 is at most p99 after rounding |
| `CephStats.Percentile` | cmd/ceph-mgmt/parse.go:172-187 | the in-place insertion sort and the truncated index compute the percentile of the samples |
| `CephStats.SortInPlace` | cmd/ceph-mgmt/parse.go:176-181 | the two nested loops compute the sorted list |
| `CephStats.SortKeeps` | cmd/ceph-mgmt/parse.go:176-181 | which is an ascending permutation |
| `CephStats.PercentileRank` | cmd/ceph-mgmt/parse.go:182-186 | the chosen sample has at least max(1, floor(n*p)) samples at or below it and at least n - max(0, floor(n*p) - 1) at or above it |
| `CephStats.PercentileMonotone` | cmd/ceph-mgmt/parse.go:157-158 | a higher percentile is never below a lower one, also after rounding |
| `CephStats.PercentileUnordered` | cmd/ceph-mgmt/parse.go:172-187 | the order of samples does not matter |
| `CephStats.DumpsUnordered` | cmd/ceph-mgmt/parse.go:132-151 | the running sums do not depend on the order of dumps |
| `CephStats.AnyName` | cmd/ceph-mgmt/parse.go:134-150 | nor on the order in which the sections of a dump are visited |
| `CephStats.MoreSections` | cmd/ceph-mgmt/parse.go:134-150 | one more section adds its `avgcount`, else its `count`, to the requests and to the failures when its name is listed there, and its average time in milliseconds to the samples when its name contains latency or time |
| `CephStats.DumpsAddUp` | cmd/ceph-mgmt/parse.go:132-151 | no section and no dump count nothing, and one more dump adds its sums |
| `CephStats.RoundsToThousandths` | cmd/ceph-mgmt/parse.go:266-266 | a value that is not negative is rounded to the nearest thousandth, a half upwards |
| `CephStats.RoundsToMillionths` | cmd/ceph-mgmt/parse.go:265-265 | and the error rate to the nearest millionth |
| `Remap.RemappedLacksTenant` | internal/tenantrbac/remap.go:23-38 | after the walk no object anywhere has a `tenant_id` |
| `Remap.UnchangedExactly` | internal/tenantrbac/remap.go:23-38 | a document is left alone if and only if it has no `tenant_id` anywhere |
| `Remap.Idempotent` | internal/tenantrbac/remap.go:23-38 | walking again, even for another account, changes nothing |
| `Remap.PlacesKept` | internal/tenantrbac/remap.go:23-38 | every place not under a `tenant_id` or an overwritten `account_id` is still there with its content walked; objects that had a `tenant_id` carry the account id; arrays keep length and order |
| `Remap.PlacesComeFrom` | internal/tenantrbac/remap.go:23-38 | the places of the walked document are exactly those that survive and the `account_id` members of objects that had a `tenant_id`, which hold the id |
| `RemapInPlace.WalkRemap` | internal/tenantrbac/remap.go:23-38 | the walk that edits a heap of nodes in place while iterating over it leaves the tree that spells the remapped document |
| `RemapInPlace.WalkFields` | internal/tenantrbac/remap.go:25-32 | the object case: delete, set, then visit the members in any order, the new one included |
| `RemapInPlace.WalkItems` | internal/tenantrbac/remap.go:33-36 | the array case |
| `BucketName.AcceptsLabels` | internal/buckets/name.go:9-19 | a name is accepted if and only if it has 3 to 63 characters and splits at dots into non-empty labels of lower-case letters, digits and hyphens that start and end with a letter or digit (the label shape of section 2.1 of RFC 1123 in lower case) |
| `BucketName.SplitJoin` | internal/buckets/name.go:15-17 | splitting at dots loses nothing and leaves no dot in a label |
| `BucketName.SplitClean` | internal/buckets/name.go:15-17 | the three forbidden pairs are exactly what makes some inner label start or end wrongly |

## Left out

- Floating point: percentages, rates and latencies are exact reals; the slack of 1e-12 and the two rounding
  functions are kept as real arithmetic.
- Time: the number of a call serves as its time in the alert tables; for the lifecycle the clock is an arbitrary
  function read once per action, and a day is 86400 seconds.
- Concurrency: runs and requests happen one after another. Check-then-insert has no unique index behind it, and an
  update racing a removal can recreate a tenant account, so the invariants are for sequential requests.
- Wrap-around of 64-bit integers is modelled for paging only, not for sums of used bytes, shifted ids or counters.
- Event texts, severities, details and channel delivery: delivery only rewrites an event's details, so key and
  status, which is all the model carries, are the same with and without it.
- SQL text and its execution, JSON decoding, HTTP, the S3 client, password hashing: only the contracts of the
  statements and calls are modelled. The order in which `ListOpenByRule` returns rows is insertion order.
- The tenant API is not part of this model beyond its contract: an upsert creates or overwrites an account and keeps its
  grants, an omitted `must_change_password` stays as it is, replacing the buckets of an unknown account is refused,
  and an audit page holds the rows asked for.
- Bucket display names, the fields of a region and granted_at: they travel with the modelled fields unread.
- Lengths of passwords are counted in characters, where the source counts bytes; a failure to hash is not modelled.
- The link to the tenant side is configured once for a whole history. Removing an account while it is not configured
  leaves a tenant account without its row; a history in which the link is switched off or on is not modelled.
- Which profiles an update refuses, apart from its region, is a parameter.
- `tenantAudit` never forwards `user_id` (internal/audit/handler.go:146-190), so the tenant side of a page is not
  filtered by it. The model takes the rows that side returns as they come; which of them a filter should have kept
  is not part of it.
- AlertMirror.MirrorFollows: assumes, like the reconciliation theorems, that a listing names each tenant and each
  bucket once, which their primary keys ensure.
- AuditPaging.FastFormRefines: assumes both sources return the rows asked for; `AuditPaging.ListRight` adds the overflow.
- Lifecycle.DeletePrefix: objects have non-empty keys and keep their time while the call runs.
- Remap.PlacesKept: JSON numbers are kept as they are; the loss of precision of decoded large numbers is not modelled,
  nor is the pass-through of bodies that are not JSON.
- CephStats.AggregateStats: the reading of numbers out of loosely typed JSON values is a parameter of a section.
- Settings, regions, ops users, roles, locale catalogue, period parsing and the ceph payload parsers: one-branch checks.
