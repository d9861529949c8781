/**
 * The account repository as an object over its two tables. Each method
 * issues the statements of the corresponding repository method in order and
 * leaves the tables as the matching transition in `Tables` says.
 */
module Repository {
  import opened Wrappers
  import opened Models
  import opened Rows
  import opened Tables
  import opened Ordering

  /**
   * `BulkUpdate`'s update map, built one supplied field at a time; the JSON
   * fields enter only when they have at least one key.
   */
  method BuildUpdateMap(u: BulkFields) returns (m: UpdateMap)
    ensures UpdateMapOf(m, u)
  {
    m := EmptyUpdateMap;
    if u.name.Some? {
      m := m.(name := u.name);
    }
    assert m.name == u.name;
    if u.proxyId.Some? {
      m := m.(proxyId := u.proxyId);
    }
    assert m.proxyId == u.proxyId;
    if u.concurrency.Some? {
      m := m.(concurrency := u.concurrency);
    }
    assert m.concurrency == u.concurrency;
    if u.priority.Some? {
      m := m.(priority := u.priority);
    }
    assert m.priority == u.priority;
    if u.status.Some? {
      m := m.(status := u.status);
    }
    assert m.status == u.status;
    if |u.credentials| > 0 {
      m := m.(credentials := Some(u.credentials));
    }
    if |u.extra| > 0 {
      m := m.(extra := Some(u.extra));
    }
  }

  /**
   * `BatchUpdateLastUsed`'s loop over the map: one `WHEN id THEN instant`
   * branch and one entry of the `IN` list per key, in whatever order the map
   * yields them.
   */
  method BuildCase(updates: map<int, Timestamp>) returns (whens: seq<(int, Timestamp)>, ids: seq<int>)
    ensures |whens| == |ids| == |updates|
    ensures forall k :: k in ids <==> k in updates
    ensures forall k :: k in ids ==> CaseValue(whens, k) == Some(updates[k])
  {
    whens := [];
    ids := [];
    var pending := updates.Keys;
    while pending != {}
      invariant pending <= updates.Keys
      invariant |whens| == |ids| == |updates| - |pending|
      invariant forall j :: 0 <= j < |ids| ==> whens[j].0 == ids[j] && ids[j] in updates
      invariant BranchesAgree(whens, updates)
      invariant forall k :: k in updates ==> (k in ids <==> k !in pending)
      decreases |pending|
    {
      HasMember(pending);
      var id :| id in pending;
      whens := whens + [(id, updates[id])];
      ids := ids + [id];
      pending := pending - {id};
    }
    forall k | k in ids ensures CaseValue(whens, k) == Some(updates[k]) {
      var j :| 0 <= j < |ids| && ids[j] == k;
      assert whens[j].0 == k;
      CaseValueAgrees(whens, updates, k);
    }
  }

  /** `UpdateExtra`'s write loop: starting from the stored object, or `{}` when it is `NULL`, each key is written in turn. */
  method MergeKeys(base: Option<JsonMap>, updates: JsonMap) returns (extra: JsonMap)
    ensures extra == MergeJson(base, updates)
  {
    extra := if base.None? then map[] else base.value;
    var pending := updates.Keys;
    WrittenBounds(updates);
    while pending != {}
      invariant pending <= updates.Keys
      invariant extra == MergeJson(base, Written(updates, pending))
      decreases |pending|
    {
      var k :| k in pending;
      MergeStep(base, updates, pending, k);
      extra := extra[k := updates[k]];
      pending := pending - {k};
    }
  }

  class AccountRepository {
    var accounts: map<int, AccountModel>
    var accountGroups: map<MembershipKey, MembershipRow>

    function Snapshot(): Db
      reads this
    {
      Db(accounts, accountGroups)
    }

    ghost predicate Valid()
      reads this
    {
      Snapshot().Valid()
    }

    constructor (db: Db)
      requires db.Valid()
      ensures Valid() && Snapshot() == db
    {
      accounts := db.accounts;
      accountGroups := db.accountGroups;
    }

    method SetRateLimited(id: int, resetAt: Timestamp, now: Timestamp)
      requires Valid()
      modifies this
      ensures Valid()
      ensures Snapshot() == Tables.SetRateLimited(old(Snapshot()), id, resetAt, now)
    {
      if IsLive(accounts, id) {
        accounts := accounts[id := RateLimited(accounts[id], resetAt, now)];
      }
    }

    method SetOverloaded(id: int, until: Timestamp, now: Timestamp)
      requires Valid()
      modifies this
      ensures Valid()
      ensures Snapshot() == Tables.SetOverloaded(old(Snapshot()), id, until, now)
    {
      if IsLive(accounts, id) {
        accounts := accounts[id := Overloaded(accounts[id], until, now)];
      }
    }

    method ClearRateLimit(id: int, now: Timestamp)
      requires Valid()
      modifies this
      ensures Valid()
      ensures Snapshot() == Tables.ClearRateLimit(old(Snapshot()), id, now)
    {
      if IsLive(accounts, id) {
        accounts := accounts[id := RateLimitCleared(accounts[id], now)];
      }
    }

    method UpdateSessionWindow(id: int, start: Option<Timestamp>, end: Option<Timestamp>, status: string, now: Timestamp)
      requires Valid()
      modifies this
      ensures Valid()
      ensures Snapshot() == Tables.UpdateSessionWindow(old(Snapshot()), id, start, end, status, now)
    {
      if IsLive(accounts, id) {
        accounts := accounts[id := SessionWindowUpdated(accounts[id], start, end, status, now)];
      }
    }

    method SetSchedulable(id: int, schedulable: bool, now: Timestamp)
      requires Valid()
      modifies this
      ensures Valid()
      ensures Snapshot() == Tables.SetSchedulable(old(Snapshot()), id, schedulable, now)
    {
      if IsLive(accounts, id) {
        accounts := accounts[id := SchedulableSet(accounts[id], schedulable, now)];
      }
    }

    method SetError(id: int, message: string, now: Timestamp)
      requires Valid()
      modifies this
      ensures Valid()
      ensures Snapshot() == Tables.SetError(old(Snapshot()), id, message, now)
    {
      if IsLive(accounts, id) {
        accounts := accounts[id := Errored(accounts[id], message, now)];
      }
    }

    method UpdateLastUsed(id: int, now: Timestamp)
      requires Valid()
      modifies this
      ensures Valid()
      ensures Snapshot() == Tables.UpdateLastUsed(old(Snapshot()), id, now)
    {
      if IsLive(accounts, id) {
        accounts := accounts[id := LastUsedStamped(accounts[id], now)];
      }
    }

    /** Builds one `CASE id WHEN ... END` update from the map, then runs it on the listed live rows. */
    method BatchUpdateLastUsed(updates: map<int, Timestamp>)
      requires Valid()
      modifies this
      ensures Valid()
      ensures Snapshot() == Tables.BatchUpdateLastUsed(old(Snapshot()), updates)
    {
      if |updates| == 0 {
        return;
      }
      var whens, ids := BuildCase(updates);
      CaseUpdateIsBatch(Snapshot(), whens, ids, updates);
      accounts := ExecLastUsedCase(Snapshot(), whens, ids).accounts;
    }

    /** Reads `extra`, merges the supplied keys into it one by one, and writes it back. */
    method UpdateExtra(id: int, updates: JsonMap, now: Timestamp) returns (outcome: Outcome)
      requires Valid()
      modifies this
      ensures Valid()
      ensures Effect(Snapshot(), outcome) == Tables.UpdateExtra(old(Snapshot()), id, updates, now)
    {
      if |updates| == 0 {
        return Ok;
      }
      if !IsLive(accounts, id) {
        return Err(NotFound);
      }
      var extra := MergeKeys(accounts[id].extra, updates);
      accounts := accounts[id := accounts[id].(extra := Some(extra), updatedAt := now)];
      return Ok;
    }

    /** Builds the update map, then runs one `UPDATE ... WHERE id IN ids` and reports the rows it touched. */
    method BulkUpdate(ids: seq<int>, u: BulkFields, now: Timestamp) returns (rowsAffected: int)
      requires Valid()
      modifies this
      ensures Valid()
      ensures Effect(Snapshot(), rowsAffected) == Tables.BulkUpdate(old(Snapshot()), ids, u, now)
    {
      if |ids| == 0 {
        return 0;
      }
      var m := BuildUpdateMap(u);
      UpdateMapEmpty(m, u);
      if Len(m) == 0 {
        return 0;
      }
      UpdateMapIsBulk(Snapshot(), ids, m, u, now);
      var e := ExecBulkUpdate(Snapshot(), ids, m, now);
      accounts := e.db.accounts;
      rowsAffected := e.result;
    }

    method AddToGroup(accountId: int, groupId: int, priority: int, now: Timestamp) returns (outcome: Outcome)
      requires Valid()
      modifies this
      ensures Valid()
      ensures Effect(Snapshot(), outcome) == Tables.AddToGroup(old(Snapshot()), accountId, groupId, priority, now)
    {
      var row := AccountGroupModel(accountId, groupId, StoredPriority(priority), now);
      var inserted := InsertMemberships(accountGroups, [row]);
      if inserted.None? {
        return Err(DuplicateKey);
      }
      accountGroups := inserted.value;
      return Ok;
    }

    method RemoveFromGroup(accountId: int, groupId: int)
      requires Valid()
      modifies this
      ensures Valid()
      ensures Snapshot() == Tables.RemoveFromGroup(old(Snapshot()), accountId, groupId)
    {
      accountGroups := accountGroups - {(accountId, groupId)};
    }

    /** Deletes the account's memberships, builds the rows for the new list, and inserts them all at once. */
    method BindGroups(accountId: int, groupIds: seq<int>, now: Timestamp) returns (outcome: Outcome)
      requires Valid()
      modifies this
      ensures Valid()
      ensures Effect(Snapshot(), outcome) == Tables.BindGroups(old(Snapshot()), accountId, groupIds, now)
    {
      accountGroups := DeleteMembershipsOf(accountGroups, accountId);
      if |groupIds| == 0 {
        return Ok;
      }
      var rows: seq<AccountGroupModel> := [];
      var i := 0;
      while i < |groupIds|
        invariant 0 <= i <= |groupIds|
        invariant |rows| == i
        invariant forall j :: 0 <= j < i ==> rows[j] == AccountGroupModel(accountId, groupIds[j], j + 1, now)
      {
        rows := rows + [AccountGroupModel(accountId, groupIds[i], i + 1, now)];
        i := i + 1;
      }
      assert rows == NewMemberships(accountId, groupIds, now);
      var inserted := InsertMemberships(accountGroups, rows);
      if inserted.None? {
        return Err(DuplicateKey);
      }
      accountGroups := inserted.value;
      return Ok;
    }

    /** Two statements, not a transaction: the memberships go first, then the row is soft-deleted. */
    method Delete(id: int, now: Timestamp)
      requires Valid()
      modifies this
      ensures Valid()
      ensures Snapshot() == Tables.Delete(old(Snapshot()), id, now)
    {
      accountGroups := DeleteMembershipsOf(accountGroups, id);
      if IsLive(accounts, id) {
        accounts := accounts[id := SoftDeleted(accounts[id], now)];
      }
    }
  }
}
