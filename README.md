# Account scheduling store

A Dafny model of the account repository of sub2api
(`backend/internal/repository/account_repo.go`). The repository keeps the
upstream accounts a gateway schedules requests onto. It also owns their
memberships in groups. The model covers:

- the `accounts` and `account_groups` tables, with GORM's soft delete and
  automatic timestamps;
- the eligibility filter that decides which accounts are candidates at an instant;
- every account listing query;
- every targeted mutator, with its statements in the order the repository
  issues them;
- the two converters between stored rows and service accounts.

Modules, in dependency order:

- `Wrappers`: `Option`.
- `Models`: the stored rows (`AccountModel` has the 22 columns of `accounts` plus the
  preloaded memberships, `AccountGroupModel` has 4), the two tables as maps (`Db`), the database's errors (`NotFound`, a
  key violation), and the `Ok`/`Err` outcome of a call.
- `Convert`: `accountModelToService`, `accountGroupModelToService` and
  `accountModelFromService`, plus the two round trips between them.
- `Eligibility`: the four-clause schedulable filter, as a predicate of a row
  and the clock.
- `Ordering`: sorted enumerations of finite sets. `ORDER BY` is modelled on these.
  - Ties between equal keys are left to a choice the model does not fix,
    because SQL does not fix them either.
  - `ORDER BY id DESC` is a total order, so that listing is deterministic.
- `Queries`: the listings, as functions of the tables.
  - Each one states that every listed account is the service view of a
    live row, that no id repeats, and how the list is ordered.
  - It also states which rows are listed, in both directions.
- `Rows`: what each update does to one row.
  - Each row function names the columns it writes and states that every
    other column is unchanged.
  - It also covers the JSON key merge shared by `UpdateExtra` and
    `BulkUpdate`'s `COALESCE(col,'{}') || ?`.
- `Tables`: each mutator as a transition of the two tables.
  - It gives the new tables and, where the call has one, its outcome or
    affected-row count.
  - It also holds the `CASE` update, the multi-row insert and the
    `BindGroups` lemmas.
- `Repository`: `class AccountRepository`, which holds the two tables as fields.
  - Its methods update them step by step: loops over the update maps, the
    `CASE` builder, the row builder of `BindGroups`.
  - Each method is proved to end in exactly the state the matching `Tables`
    transition gives.
- `Properties`: what the transitions mean for the candidate lists.
  - `SetError` removes an account from every status-filtered list, and the removal survives
    clearing its gates.
  - A gate keeps the account out until its instant.
  - Use bookkeeping, session windows and `extra` never change the
    candidates.
  - `Delete` removes the account from every list.
  - `BindGroups` is a full replacement.
  - The overloaded account is skipped.

The wall clock (`time.Now()` in the source) is a `now: Timestamp` parameter.
Queries take the instant their `WHERE` clause compares with. Mutators take
the instant GORM writes into `updated_at`, `rate_limited_at`, `created_at`
or `deleted_at`.

GORM conventions the model makes explicit:

- Reads see only live rows, where `deleted_at IS NULL`. So do `Update`,
  `Updates` and the raw `CASE` update, which has that clause written out.
- An update whose `WHERE` matches no live row changes nothing and returns
  no error.
- `Update`/`Updates` also stamp `updated_at := now`. The raw `Exec` of
  `BatchUpdateLastUsed` and the soft delete do not.
- `Create` of a membership stamps `created_at := now`. A zero priority is
  left to the column default, 50.
- `First` on a missing or deleted row reports `NotFound`. An insert that hits
  an existing composite key reports a key violation and inserts nothing.

Behaviour of the code that the model keeps as written:

- Rows of equal priority come back in no fixed order; the queries add no
  id tie-break. They order by priority alone (by group priority, then
  account priority, where a group is joined), and the model leaves such
  ties unordered.
- `SetRateLimited` and `SetOverloaded` accept any instant, past or future.
  A past instant simply leaves the gate open
  (`Properties.PastResetKeepsSchedulable`).
- `BindGroups` deletes the memberships in a statement of its own. A
  repeated group id then fails the insert and leaves the account in no
  group (`Tables.BindGroupsOutcome`, `Properties.BindGroupsDuplicateFails`).
- `Delete` issues two statements without a transaction: memberships first,
  then the row.

## Model

| member | source | states |
|---|---|---|
| Convert.AccountGroupModelToService | backend/internal/repository/account_repo.go:539-551 | the service membership carries the row's account id, group id, priority and creation time |
| Convert.GroupsToService | backend/internal/repository/account_repo.go:593-608 | one converted membership per preloaded membership, in order |
| Convert.GroupIdsOf | backend/internal/repository/account_repo.go:593-608 | `GroupIDs[i]` is the group id of `AccountGroups[i]`, same length |
| Convert.AccountModelToService | backend/internal/repository/account_repo.go:553-611 | the view keeps id, platform, priority, status, flag and both gates; its memberships and group ids are the converted preloaded memberships, index by index |
| Convert.AccountModelFromService | backend/internal/repository/account_repo.go:613-651 | the row keeps id, priority and status, starts live and carries no memberships |
| Convert.ServiceRoundTrip | backend/internal/repository/account_repo.go:553-651 | service -> row -> service gives back every field except the memberships |
| Convert.ModelRoundTrip | backend/internal/repository/account_repo.go:553-651 | row -> service -> row gives back every column except the deletion mark and the memberships |
| Eligibility.IsSchedulable | backend/internal/repository/account_repo.go:258-260 | an account is eligible at `now` iff its status is `active`, its schedulable flag is set, and neither `overload_until` nor `rate_limit_reset_at` holds an instant still ahead of `now`; a NULL gate never blocks |
| Eligibility.NullAndPastGatesAgree | backend/internal/repository/account_repo.go:258-260 | a NULL gate and a gate already reached give the same eligibility, for both gates |
| Eligibility.SchedulableLater | backend/internal/repository/account_repo.go:258-260 | an account eligible at `now` is eligible at every later instant |
| Eligibility.SessionWindowDoesNotGate | backend/internal/repository/account_repo.go:258-260 | the session window columns never affect eligibility |
| Queries.ListSchedulable | backend/internal/repository/account_repo.go:254-272 | live views with distinct ids in ascending priority; an id is listed iff its row is live, active, flagged schedulable and both gates are open at `now` |
| Queries.ListSchedulableByGroupID | backend/internal/repository/account_repo.go:274-294 | as above, restricted to the group's members, ordered by membership priority then account priority |
| Queries.ListSchedulableByPlatform | backend/internal/repository/account_repo.go:296-315 | as `ListSchedulable`, restricted to one platform |
| Queries.ListSchedulableByGroupIDAndPlatform | backend/internal/repository/account_repo.go:317-338 | group members on one platform, eligible at `now`, in group-then-account priority order |
| Queries.ListSchedulableByPlatforms | backend/internal/repository/account_repo.go:340-362 | an empty platform list gives the empty list; otherwise eligible accounts whose platform is in the list, by priority |
| Queries.ListSchedulableByGroupIDAndPlatforms | backend/internal/repository/account_repo.go:364-388 | an empty platform list gives the empty list; otherwise eligible group members on those platforms, group-then-account priority |
| Queries.ListByGroup | backend/internal/repository/account_repo.go:114-131 | active live members of the group, whatever their flag and gates, group-then-account priority |
| Queries.ListActive | backend/internal/repository/account_repo.go:133-149 | every active live account, whatever its flag and gates, by priority |
| Queries.ListByPlatform | backend/internal/repository/account_repo.go:151-167 | every active live account of the platform, by priority |
| Queries.ListWithFilters | backend/internal/repository/account_repo.go:78-112 | live rows passing the equality filters (an empty filter is no filter), ids strictly decreasing, total equal to the number matched, each view with its memberships preloaded |
| Queries.List | backend/internal/repository/account_repo.go:74-76 | every live account, ids strictly decreasing, total equal to the count, each entry the service view of its live row with its memberships preloaded |
| Rows.RateLimited | backend/internal/repository/account_repo.go:390-397 | `rate_limited_at := now`, `rate_limit_reset_at := resetAt`, `updated_at := now`, every other column unchanged |
| Rows.Overloaded | backend/internal/repository/account_repo.go:399-402 | `overload_until := until`, `updated_at := now`, every other column unchanged |
| Rows.RateLimitCleared | backend/internal/repository/account_repo.go:404-411 | both rate-limit columns and the overload gate become NULL, every other column unchanged |
| Rows.SessionWindowUpdated | backend/internal/repository/account_repo.go:413-424 | the status is always written; a window bound only when supplied, otherwise kept |
| Rows.SchedulableSet | backend/internal/repository/account_repo.go:426-429 | the flag takes the given value, true or false |
| Rows.Errored | backend/internal/repository/account_repo.go:195-201 | status becomes `error` with the message, every other column unchanged |
| Rows.LastUsedStamped | backend/internal/repository/account_repo.go:169-172 | `last_used_at := now` and `updated_at := now`, nothing else |
| Rows.LastUsedSet | backend/internal/repository/account_repo.go:181-192 | the raw `CASE` update writes `last_used_at` alone and leaves `updated_at` |
| Rows.SoftDeleted | backend/internal/repository/account_repo.go:71 | the soft delete sets `deleted_at` and nothing else |
| Rows.MergeJson | backend/internal/repository/account_repo.go:441-446 | keys of the result are the stored keys (NULL counts as `{}`) plus the supplied ones; supplied keys win, other stored keys keep their values |
| Rows.ExtraMerged | backend/internal/repository/account_repo.go:448-449 | `extra` becomes the merge of the stored object with the updates, all else unchanged |
| Rows.BulkUpdated | backend/internal/repository/account_repo.go:452-491 | each supplied field is written, the supplied JSON objects are merged in, each field not supplied keeps its value |
| Rows.UpdateMapEmpty | backend/internal/repository/account_repo.go:481-483 | the update map is empty exactly when no field is supplied |
| Rows.UpdateMapMeansBulkUpdated | backend/internal/repository/account_repo.go:457-489 | writing the update map built for an edit to a row is that edit of the row |
| Rows.MergeStep | backend/internal/repository/account_repo.go:444-446 | one turn of the write loop moves one key from pending to written |
| Rows.WrittenBounds | backend/internal/repository/account_repo.go:441-446 | before the loop nothing is written, after it every key is |
| Tables.SetRateLimited | backend/internal/repository/account_repo.go:390-397 | only the target row changes, it becomes `RateLimited`; a missing or deleted id changes nothing; table validity is kept |
| Tables.SetOverloaded | backend/internal/repository/account_repo.go:399-402 | same frame, the live row becomes `Overloaded`; no check that the instant lies ahead |
| Tables.ClearRateLimit | backend/internal/repository/account_repo.go:404-411 | same frame, the live row has all three gate columns cleared |
| Tables.UpdateSessionWindow | backend/internal/repository/account_repo.go:413-424 | same frame, the live row gets the new window |
| Tables.SetSchedulable | backend/internal/repository/account_repo.go:426-429 | same frame, the live row gets the flag |
| Tables.SetError | backend/internal/repository/account_repo.go:195-201 | same frame, the live row gets the error status and message |
| Tables.UpdateLastUsed | backend/internal/repository/account_repo.go:169-172 | same frame, the live row gets `last_used_at := now` |
| Tables.BatchUpdateLastUsed | backend/internal/repository/account_repo.go:174-193 | an empty map changes nothing; each live row whose id is a key gets that key's instant; every other row and every membership is unchanged |
| Tables.CaseValue | backend/internal/repository/account_repo.go:183-189 | the `CASE` yields NULL iff no branch names the id, otherwise the instant of a branch naming it |
| Tables.CaseValueAgrees | backend/internal/repository/account_repo.go:183-185 | when every branch carries its id's instant from the map, the `CASE` yields that instant |
| Tables.ExecLastUsedCase | backend/internal/repository/account_repo.go:189-192 | the statement sets each live listed row's `last_used_at` to the `CASE` value and touches nothing else |
| Tables.CaseUpdateIsBatch | backend/internal/repository/account_repo.go:174-193 | the `CASE` statement built from the map is the batch update the map describes |
| Tables.UpdateExtra | backend/internal/repository/account_repo.go:431-450 | no keys: success and no change; missing or deleted row: `NotFound` and no change; otherwise success, only that row changes, its `extra` is the merge |
| Tables.BulkUpdate | backend/internal/repository/account_repo.go:452-492 | no ids or no field: 0 and no change; otherwise the count is the number of live listed rows, each gets the edit, other rows and memberships are unchanged |
| Tables.ExecBulkUpdate | backend/internal/repository/account_repo.go:484-491 | the `UPDATE ... WHERE id IN ids` writes the update map to each live listed row and reports how many there were |
| Tables.UpdateMapIsBulk | backend/internal/repository/account_repo.go:452-492 | executing the map built for an edit is `BulkUpdate` whenever the call reaches the statement |
| Tables.InsertMemberships | backend/internal/repository/account_repo.go:251 | a multi-row insert succeeds iff the new keys are distinct and absent; then the table is the old one plus exactly the new rows |
| Tables.StoredPriority | backend/internal/repository/account_repo.go:530 | a zero membership priority is stored as the column default 50, any other as given |
| Tables.AddToGroup | backend/internal/repository/account_repo.go:203-210 | an existing membership gives a key violation and no change; otherwise exactly that membership is added with the stored priority and `created_at := now` |
| Tables.RemoveFromGroup | backend/internal/repository/account_repo.go:212-215 | that membership is gone, every other is unchanged, accounts untouched |
| Tables.DeleteMembershipsOf | backend/internal/repository/account_repo.go:68 | exactly the account's memberships are removed |
| Tables.NewMemberships | backend/internal/repository/account_repo.go:243-250 | the i-th listed group gets priority i + 1 |
| Tables.BindGroups | backend/internal/repository/account_repo.go:234-252 | the accounts table is untouched; the outcome is success or a key violation; after a failure, or for an empty list, the account has no membership (full statement in `Tables.BindGroupsFrame` and `Tables.BindGroupsOutcome`) |
| Tables.BindGroupsFrame | backend/internal/repository/account_repo.go:234-252 | accounts and other accounts' memberships are untouched |
| Tables.BindGroupsOutcome | backend/internal/repository/account_repo.go:234-252 | success iff no group id repeats; on success the account is in exactly the listed groups, the i-th at priority i + 1; on failure a key violation and the account is in no group |
| Tables.NewMembershipKeys | backend/internal/repository/account_repo.go:243-251 | after the delete, the new rows collide iff a group id repeats |
| Tables.Delete | backend/internal/repository/account_repo.go:67-72 | the account's memberships are removed, the row is soft-deleted if live, it is not live afterwards, no other row changes |
| Repository.BuildUpdateMap | backend/internal/repository/account_repo.go:457-479 | the map holds an entry exactly for each supplied field (JSON fields only when non-empty) with that field's value |
| Repository.BuildCase | backend/internal/repository/account_repo.go:179-189 | one branch and one listed id per key; the ids are exactly the keys; the `CASE` yields each key's instant |
| Repository.MergeKeys | backend/internal/repository/account_repo.go:441-446 | the write loop ends with the merge of the stored object and the updates |
| Repository.AccountRepository.constructor | backend/internal/repository/account_repo.go:20-22 | the repository starts on the given valid tables |
| Repository.AccountRepository.SetRateLimited | backend/internal/repository/account_repo.go:390-397 | the new tables are `Tables.SetRateLimited` of the old, validity kept |
| Repository.AccountRepository.SetOverloaded | backend/internal/repository/account_repo.go:399-402 | the new tables are `Tables.SetOverloaded` of the old |
| Repository.AccountRepository.ClearRateLimit | backend/internal/repository/account_repo.go:404-411 | the new tables are `Tables.ClearRateLimit` of the old |
| Repository.AccountRepository.UpdateSessionWindow | backend/internal/repository/account_repo.go:413-424 | the new tables are `Tables.UpdateSessionWindow` of the old |
| Repository.AccountRepository.SetSchedulable | backend/internal/repository/account_repo.go:426-429 | the new tables are `Tables.SetSchedulable` of the old |
| Repository.AccountRepository.SetError | backend/internal/repository/account_repo.go:195-201 | the new tables are `Tables.SetError` of the old |
| Repository.AccountRepository.UpdateLastUsed | backend/internal/repository/account_repo.go:169-172 | the new tables are `Tables.UpdateLastUsed` of the old |
| Repository.AccountRepository.BatchUpdateLastUsed | backend/internal/repository/account_repo.go:174-193 | building and running the `CASE` update leaves the tables `Tables.BatchUpdateLastUsed` describes |
| Repository.AccountRepository.UpdateExtra | backend/internal/repository/account_repo.go:431-450 | tables and outcome are those of `Tables.UpdateExtra` |
| Repository.AccountRepository.BulkUpdate | backend/internal/repository/account_repo.go:452-492 | tables and affected-row count are those of `Tables.BulkUpdate` |
| Repository.AccountRepository.AddToGroup | backend/internal/repository/account_repo.go:203-210 | tables and outcome are those of `Tables.AddToGroup` |
| Repository.AccountRepository.RemoveFromGroup | backend/internal/repository/account_repo.go:212-215 | the new tables are `Tables.RemoveFromGroup` of the old |
| Repository.AccountRepository.BindGroups | backend/internal/repository/account_repo.go:234-252 | the delete, the row-building loop and the insert leave tables and outcome of `Tables.BindGroups` |
| Repository.AccountRepository.Delete | backend/internal/repository/account_repo.go:67-72 | the new tables are `Tables.Delete` of the old |
| Properties.SetErrorExcludesEverywhere | backend/internal/repository/account_repo.go:195-201 | after `SetError` the account is in none of the nine status-filtered lists, at any instant, for any platform or group |
| Properties.ErrorSurvivesRecovery | backend/internal/repository/account_repo.go:404-429 | clearing the gates and setting the flag after `SetError` does not make the account schedulable again |
| Properties.PastResetKeepsSchedulable | backend/internal/repository/account_repo.go:390-397 | a reset instant already reached keeps a schedulable account in `ListSchedulable` |
| Properties.RateLimitGatesUntilReset | backend/internal/repository/account_repo.go:390-397 | after `SetRateLimited` the account is out before the reset instant; from then on only status, flag and overload decide |
| Properties.OverloadGatesUntil | backend/internal/repository/account_repo.go:399-402 | after `SetOverloaded` the account is out before the instant; from then on only status, flag and rate limit decide |
| Properties.ClearRateLimitOpensGates | backend/internal/repository/account_repo.go:404-411 | after `ClearRateLimit` both gates are open at every instant, and the account is schedulable iff it is active and flagged |
| Properties.RateLimitThenClear | backend/internal/repository/account_repo.go:404-411 | a rate limit followed by a clear leaves an active flagged account eligible at every instant |
| Properties.UnschedulableStaysActive | backend/internal/repository/account_repo.go:426-429 | with the flag off the account is in none of the six `ListSchedulable*` lists, for any instant, platform, platform list or group, and still in `ListActive` while active |
| Properties.SameEligibilitySameCandidates | backend/internal/repository/account_repo.go:254-272 | tables agreeing on liveness and eligibility give the same ids from `ListSchedulable` |
| Properties.LastUseKeepsCandidates | backend/internal/repository/account_repo.go:169-193 | single and batch use recording never change the ids `ListSchedulable` returns |
| Properties.WindowAndExtraKeepCandidates | backend/internal/repository/account_repo.go:413-450 | session window updates and `extra` merges never change the ids `ListSchedulable` returns |
| Properties.DeleteRemovesEverywhere | backend/internal/repository/account_repo.go:67-72 | after `Delete` the account is in none of the six `ListSchedulable*` lists, nor in `ListActive`, `ListByPlatform`, `ListByGroup`, `List` or `ListWithFilters` under any filters, and in no group |
| Properties.BindGroupsReplaces | backend/internal/repository/account_repo.go:234-252 | binding `[g3, g1, g2]` gives priorities 1, 2, 3; binding `[g2]` afterwards removes g3 and g1 and puts g2 first |
| Properties.BindGroupsDuplicateFails | backend/internal/repository/account_repo.go:234-252 | binding `[g, g]` fails with a key violation and leaves the account in no group |
| Properties.OverloadedAccountSkipped | backend/internal/repository/account_repo.go:296-315 | with A at priority 10 and B at priority 5 overloaded for another hour, the platform's list is A alone |

## Left out

- Pagination: `ListWithFilters` and `List` return every matching row, so the total equals the number listed. Offsets, limits and `paginationResultFromTotal` are not part of this model.
- Queries.ListWithFilters: the `name ILIKE` search is not modelled; only the three equality filters are.
- The `Proxy` preload and `proxyModelToService`: proxies are not part of this model.
- The `Group` inside each membership (`Preload("AccountGroups.Group")`, `account.Groups`) is not modelled, because `groupModelToService` is not part of this model. Memberships and group ids are.
- Convert.AccountGroupModelToService: the service membership has no `Account` back-pointer. The source converts `m.Account`, but no query preloads `AccountGroups.Account`, so that pointer is nil on every path the model covers.
- `Create`, `Update`, `GetByID`, `GetByCRSAccountID`, `GetGroups` and `applyAccountModelToService` are not part of this model.
- Database errors other than a missing row and a key violation (connection loss, timeouts, constraint checks on other columns, foreign keys to groups and proxies): the model assumes every statement reaches the database.
- Concurrency and isolation between calls: each call is a sequence of statements against a single copy of the tables.
- Integer width: ids, priorities and concurrency are unbounded integers, not `int64`/`int`. The only arithmetic in the core is the `i + 1` priority in `BindGroups`.
- JSON values are opaque. `COALESCE(col,'{}') || ?` merges one level deep, as the source's JSONB operator does, and nested objects are not modelled.
- Timestamps are integers. Time zones and the cast to `TIMESTAMP` in the `CASE` update are left out.
- The clock: `time.Now()` becomes the `now` parameter, and every stamp within one call uses that one instant.
- Queries.ListSchedulable: the order among accounts of equal priority is deliberately left open. The listing functions state only the sort key; the source adds no tie-break either.
- Tables.BulkUpdate (and Tables.ExecBulkUpdate): the returned count is modelled as the number of distinct live rows the `UPDATE ... WHERE id IN ?` matches. The statement's `RETURNING` clause is not modelled, and neither is how GORM counts the rows it reads back into the single model value, so the count the source reports may differ.
- Tables.BindGroups: its own contract states only the frame on accounts and the failure cases. The frame on other accounts' memberships and the success case are stated by `Tables.BindGroupsFrame` and `Tables.BindGroupsOutcome`.
