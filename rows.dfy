/**
 * What each targeted update does to one `accounts` row. GORM's `Update` and
 * `Updates` on a model with an `UpdatedAt` field also write `updated_at`,
 * so every function here that models one of them stamps it; the raw
 * `Exec` of `BatchUpdateLastUsed` and the soft delete do not.
 */
module Rows {
  import opened Wrappers
  import opened Models

  /** `SetRateLimited`: `rate_limited_at := now` and `rate_limit_reset_at := resetAt`, in one statement. */
  function RateLimited(a: AccountModel, resetAt: Timestamp, now: Timestamp): (r: AccountModel)
    ensures r.rateLimitedAt == Some(now) && r.rateLimitResetAt == Some(resetAt) && r.updatedAt == now
    ensures r.(rateLimitedAt := a.rateLimitedAt, rateLimitResetAt := a.rateLimitResetAt, updatedAt := a.updatedAt) == a
  {
    a.(rateLimitedAt := Some(now), rateLimitResetAt := Some(resetAt), updatedAt := now)
  }

  /** `SetOverloaded`: `overload_until := until`. */
  function Overloaded(a: AccountModel, until: Timestamp, now: Timestamp): (r: AccountModel)
    ensures r.overloadUntil == Some(until) && r.updatedAt == now
    ensures r.(overloadUntil := a.overloadUntil, updatedAt := a.updatedAt) == a
  {
    a.(overloadUntil := Some(until), updatedAt := now)
  }

  /** `ClearRateLimit`: both rate-limit columns and the overload gate become `NULL`. */
  function RateLimitCleared(a: AccountModel, now: Timestamp): (r: AccountModel)
    ensures r.rateLimitedAt.None? && r.rateLimitResetAt.None? && r.overloadUntil.None? && r.updatedAt == now
    ensures r.(rateLimitedAt := a.rateLimitedAt, rateLimitResetAt := a.rateLimitResetAt,
               overloadUntil := a.overloadUntil, updatedAt := a.updatedAt) == a
  {
    a.(rateLimitedAt := None, rateLimitResetAt := None, overloadUntil := None, updatedAt := now)
  }

  /** `UpdateSessionWindow`: the status always; a bound only when one is supplied. */
  function SessionWindowUpdated(a: AccountModel, start: Option<Timestamp>, end: Option<Timestamp>, status: string, now: Timestamp): (r: AccountModel)
    ensures r.sessionWindowStatus == status && r.updatedAt == now
    ensures start.Some? ==> r.sessionWindowStart == start
    ensures start.None? ==> r.sessionWindowStart == a.sessionWindowStart
    ensures end.Some? ==> r.sessionWindowEnd == end
    ensures end.None? ==> r.sessionWindowEnd == a.sessionWindowEnd
    ensures r.(sessionWindowStart := a.sessionWindowStart, sessionWindowEnd := a.sessionWindowEnd,
               sessionWindowStatus := a.sessionWindowStatus, updatedAt := a.updatedAt) == a
  {
    var withStart := if start.Some? then a.(sessionWindowStart := start) else a;
    var withEnd := if end.Some? then withStart.(sessionWindowEnd := end) else withStart;
    withEnd.(sessionWindowStatus := status, updatedAt := now)
  }

  /** `SetSchedulable`: the flag is written whichever value it gets. */
  function SchedulableSet(a: AccountModel, schedulable: bool, now: Timestamp): (r: AccountModel)
    ensures r.schedulable == schedulable && r.updatedAt == now
    ensures r.(schedulable := a.schedulable, updatedAt := a.updatedAt) == a
  {
    a.(schedulable := schedulable, updatedAt := now)
  }

  /** `SetError`: `status := 'error'` and the message. */
  function Errored(a: AccountModel, message: string, now: Timestamp): (r: AccountModel)
    ensures r.status == StatusError && r.errorMessage == message && r.updatedAt == now
    ensures r.(status := a.status, errorMessage := a.errorMessage, updatedAt := a.updatedAt) == a
  {
    a.(status := StatusError, errorMessage := message, updatedAt := now)
  }

  /** `UpdateLastUsed`: `last_used_at := now`. */
  function LastUsedStamped(a: AccountModel, now: Timestamp): (r: AccountModel)
    ensures r.lastUsedAt == Some(now) && r.updatedAt == now
    ensures r.(lastUsedAt := a.lastUsedAt, updatedAt := a.updatedAt) == a
  {
    a.(lastUsedAt := Some(now), updatedAt := now)
  }

  /** The raw `UPDATE accounts SET last_used_at = CASE ...`: that column alone, `updated_at` untouched. */
  function LastUsedSet(a: AccountModel, usedAt: Option<Timestamp>): (r: AccountModel)
    ensures r.lastUsedAt == usedAt
    ensures r.(lastUsedAt := a.lastUsedAt) == a
  {
    a.(lastUsedAt := usedAt)
  }

  /** The soft delete: `deleted_at := now` and nothing else. */
  function SoftDeleted(a: AccountModel, now: Timestamp): (r: AccountModel)
    ensures r.deletedAt == Some(now)
    ensures r.(deletedAt := a.deletedAt) == a
  {
    a.(deletedAt := Some(now))
  }

  /**
   * A key merge into a JSON object that may be `NULL`: `NULL` counts as `{}`,
   * supplied keys overwrite, other keys stay. It is both the write loop of
   * `UpdateExtra` and JSONB's `COALESCE(col, '{}') || ?`.
   */
  function MergeJson(base: Option<JsonMap>, updates: JsonMap): (m: JsonMap)
    ensures forall k :: k in m <==> k in updates || (base.Some? && k in base.value)
    ensures forall k :: k in updates ==> m[k] == updates[k]
    ensures forall k :: base.Some? && k in base.value && k !in updates ==> m[k] == base.value[k]
  {
    base.GetOr(map[]) + updates
  }

  /** `UpdateExtra`'s final write: the merged object replaces `extra`. */
  function ExtraMerged(a: AccountModel, updates: JsonMap, now: Timestamp): (r: AccountModel)
    ensures r.extra == Some(MergeJson(a.extra, updates)) && r.updatedAt == now
    ensures r.(extra := a.extra, updatedAt := a.updatedAt) == a
  {
    a.(extra := Some(MergeJson(a.extra, updates)), updatedAt := now)
  }

  /** The fields of a bulk edit; `None` (or an empty object) means "not supplied". */
  datatype BulkFields = BulkFields(
    name: Option<string>,
    proxyId: Option<int>,
    concurrency: Option<int>,
    priority: Option<int>,
    status: Option<string>,
    credentials: JsonMap,
    extra: JsonMap)

  predicate AnyField(u: BulkFields) {
    u.name.Some? || u.proxyId.Some? || u.concurrency.Some? || u.priority.Some? || u.status.Some? ||
    |u.credentials| > 0 || |u.extra| > 0
  }

  /** What a bulk edit means for one row: each supplied field is set, the JSON fields are merged. */
  function BulkUpdated(a: AccountModel, u: BulkFields, now: Timestamp): (r: AccountModel)
    ensures u.name.Some? ==> r.name == u.name.value
    ensures u.proxyId.Some? ==> r.proxyId == u.proxyId
    ensures u.concurrency.Some? ==> r.concurrency == u.concurrency.value
    ensures u.priority.Some? ==> r.priority == u.priority.value
    ensures u.status.Some? ==> r.status == u.status.value
    ensures |u.credentials| > 0 ==> r.credentials == Some(MergeJson(a.credentials, u.credentials))
    ensures |u.extra| > 0 ==> r.extra == Some(MergeJson(a.extra, u.extra))
    ensures r.updatedAt == now
    ensures u.name.None? ==> r.name == a.name
    ensures u.proxyId.None? ==> r.proxyId == a.proxyId
    ensures u.concurrency.None? ==> r.concurrency == a.concurrency
    ensures u.priority.None? ==> r.priority == a.priority
    ensures u.status.None? ==> r.status == a.status
    ensures |u.credentials| == 0 ==> r.credentials == a.credentials
    ensures |u.extra| == 0 ==> r.extra == a.extra
    ensures r.(name := a.name, proxyId := a.proxyId, concurrency := a.concurrency, priority := a.priority,
               status := a.status, credentials := a.credentials, extra := a.extra, updatedAt := a.updatedAt) == a
  {
    a.(name := u.name.GetOr(a.name),
       proxyId := if u.proxyId.Some? then u.proxyId else a.proxyId,
       concurrency := u.concurrency.GetOr(a.concurrency),
       priority := u.priority.GetOr(a.priority),
       status := u.status.GetOr(a.status),
       credentials := if |u.credentials| > 0 then Some(MergeJson(a.credentials, u.credentials)) else a.credentials,
       extra := if |u.extra| > 0 then Some(MergeJson(a.extra, u.extra)) else a.extra,
       updatedAt := now)
  }

  /**
   * The update map `BulkUpdate` builds. Its keys are a fixed set of column
   * names, so it is a record with one optional entry per column; the JSON
   * entries hold the object to merge in.
   */
  datatype UpdateMap = UpdateMap(
    name: Option<string>,
    proxyId: Option<int>,
    concurrency: Option<int>,
    priority: Option<int>,
    status: Option<string>,
    credentials: Option<JsonMap>,
    extra: Option<JsonMap>)

  const EmptyUpdateMap: UpdateMap := UpdateMap(None, None, None, None, None, None, None)

  /** `len(updateMap)`: the number of entries present. */
  function Len(m: UpdateMap): nat {
    (if m.name.Some? then 1 else 0) + (if m.proxyId.Some? then 1 else 0) +
    (if m.concurrency.Some? then 1 else 0) + (if m.priority.Some? then 1 else 0) +
    (if m.status.Some? then 1 else 0) + (if m.credentials.Some? then 1 else 0) +
    (if m.extra.Some? then 1 else 0)
  }

  /** `Updates(updateMap)` on one row: each present column is written, the JSON ones merged; then `updated_at`. */
  function ApplyUpdateMap(a: AccountModel, m: UpdateMap, now: Timestamp): AccountModel {
    a.(name := m.name.GetOr(a.name),
       proxyId := if m.proxyId.Some? then m.proxyId else a.proxyId,
       concurrency := m.concurrency.GetOr(a.concurrency),
       priority := m.priority.GetOr(a.priority),
       status := m.status.GetOr(a.status),
       credentials := if m.credentials.Some? then Some(MergeJson(a.credentials, m.credentials.value)) else a.credentials,
       extra := if m.extra.Some? then Some(MergeJson(a.extra, m.extra.value)) else a.extra,
       updatedAt := now)
  }

  /** `m` is the update map for `u`: an entry exactly for each supplied field, holding that field's value. */
  predicate UpdateMapOf(m: UpdateMap, u: BulkFields) {
    && m.name == u.name
    && m.proxyId == u.proxyId
    && m.concurrency == u.concurrency
    && m.priority == u.priority
    && m.status == u.status
    && (m.credentials.Some? <==> |u.credentials| > 0) && (m.credentials.Some? ==> m.credentials.value == u.credentials)
    && (m.extra.Some? <==> |u.extra| > 0) && (m.extra.Some? ==> m.extra.value == u.extra)
  }

  /** The update map for `u` is empty exactly when `u` supplies nothing. */
  lemma UpdateMapEmpty(m: UpdateMap, u: BulkFields)
    requires UpdateMapOf(m, u)
    ensures Len(m) == 0 <==> !AnyField(u)
  {
  }

  /** Writing the update map for `u` to a row is the bulk edit `u` of that row. */
  lemma UpdateMapMeansBulkUpdated(a: AccountModel, m: UpdateMap, u: BulkFields, now: Timestamp)
    requires UpdateMapOf(m, u)
    ensures ApplyUpdateMap(a, m, now) == BulkUpdated(a, u, now)
  {
  }

  /** The keys of `updates` the write loop has already copied, with their values. */
  function Written(updates: JsonMap, pending: set<string>): map<string, JsonValue> {
    map k | k in updates && k !in pending :: updates[k]
  }

  /** One turn of `UpdateExtra`'s write loop moves one key from pending to written. */
  lemma {:induction false} MergeStep(base: Option<JsonMap>, updates: JsonMap, pending: set<string>, k: string)
    requires k in pending && k in updates
    ensures MergeJson(base, Written(updates, pending))[k := updates[k]] == MergeJson(base, Written(updates, pending - {k}))
  {
    var lhs := MergeJson(base, Written(updates, pending))[k := updates[k]];
    var rhs := MergeJson(base, Written(updates, pending - {k}));
    assert forall x :: x in lhs <==> x in rhs;
    forall x | x in lhs ensures lhs[x] == rhs[x] {
      if x != k && x in updates && x !in pending {
        assert Written(updates, pending - {k})[x] == updates[x];
      }
    }
  }

  /** Before the loop nothing is written; after it, everything is. */
  lemma WrittenBounds(updates: JsonMap)
    ensures Written(updates, updates.Keys) == map[]
    ensures Written(updates, {}) == updates
  {
  }
}
