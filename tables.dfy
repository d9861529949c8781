/**
 * The repository's mutators as transitions of the two tables. Each function
 * gives the tables after the whole call, statement by statement as the
 * repository issues them. A GORM update whose `WHERE` matches no live row
 * changes nothing and reports no error.
 */
module Tables {
  import opened Wrappers
  import opened Models
  import opened Rows
  import opened Ordering

  /** Nothing but row `id` may differ, and no row appears or disappears. */
  predicate OnlyRowChanged(db: Db, d: Db, id: int) {
    && d.accountGroups == db.accountGroups
    && d.accounts.Keys == db.accounts.Keys
    && forall k :: k in db.accounts && k != id ==> d.accounts[k] == db.accounts[k]
  }

  function SetRateLimited(db: Db, id: int, resetAt: Timestamp, now: Timestamp): (d: Db)
    ensures OnlyRowChanged(db, d, id)
    ensures IsLive(db.accounts, id) ==> d.accounts[id] == RateLimited(db.accounts[id], resetAt, now)
    ensures !IsLive(db.accounts, id) ==> d == db
    ensures db.Valid() ==> d.Valid()
  {
    if IsLive(db.accounts, id) then db.(accounts := db.accounts[id := RateLimited(db.accounts[id], resetAt, now)]) else db
  }

  function SetOverloaded(db: Db, id: int, until: Timestamp, now: Timestamp): (d: Db)
    ensures OnlyRowChanged(db, d, id)
    ensures IsLive(db.accounts, id) ==> d.accounts[id] == Overloaded(db.accounts[id], until, now)
    ensures !IsLive(db.accounts, id) ==> d == db
    ensures db.Valid() ==> d.Valid()
  {
    if IsLive(db.accounts, id) then db.(accounts := db.accounts[id := Overloaded(db.accounts[id], until, now)]) else db
  }

  function ClearRateLimit(db: Db, id: int, now: Timestamp): (d: Db)
    ensures OnlyRowChanged(db, d, id)
    ensures IsLive(db.accounts, id) ==> d.accounts[id] == RateLimitCleared(db.accounts[id], now)
    ensures !IsLive(db.accounts, id) ==> d == db
    ensures db.Valid() ==> d.Valid()
  {
    if IsLive(db.accounts, id) then db.(accounts := db.accounts[id := RateLimitCleared(db.accounts[id], now)]) else db
  }

  function UpdateSessionWindow(db: Db, id: int, start: Option<Timestamp>, end: Option<Timestamp>, status: string, now: Timestamp): (d: Db)
    ensures OnlyRowChanged(db, d, id)
    ensures IsLive(db.accounts, id) ==> d.accounts[id] == SessionWindowUpdated(db.accounts[id], start, end, status, now)
    ensures !IsLive(db.accounts, id) ==> d == db
    ensures db.Valid() ==> d.Valid()
  {
    if IsLive(db.accounts, id) then db.(accounts := db.accounts[id := SessionWindowUpdated(db.accounts[id], start, end, status, now)]) else db
  }

  function SetSchedulable(db: Db, id: int, schedulable: bool, now: Timestamp): (d: Db)
    ensures OnlyRowChanged(db, d, id)
    ensures IsLive(db.accounts, id) ==> d.accounts[id] == SchedulableSet(db.accounts[id], schedulable, now)
    ensures !IsLive(db.accounts, id) ==> d == db
    ensures db.Valid() ==> d.Valid()
  {
    if IsLive(db.accounts, id) then db.(accounts := db.accounts[id := SchedulableSet(db.accounts[id], schedulable, now)]) else db
  }

  function SetError(db: Db, id: int, message: string, now: Timestamp): (d: Db)
    ensures OnlyRowChanged(db, d, id)
    ensures IsLive(db.accounts, id) ==> d.accounts[id] == Errored(db.accounts[id], message, now)
    ensures !IsLive(db.accounts, id) ==> d == db
    ensures db.Valid() ==> d.Valid()
  {
    if IsLive(db.accounts, id) then db.(accounts := db.accounts[id := Errored(db.accounts[id], message, now)]) else db
  }

  function UpdateLastUsed(db: Db, id: int, now: Timestamp): (d: Db)
    ensures OnlyRowChanged(db, d, id)
    ensures IsLive(db.accounts, id) ==> d.accounts[id] == LastUsedStamped(db.accounts[id], now)
    ensures !IsLive(db.accounts, id) ==> d == db
    ensures db.Valid() ==> d.Valid()
  {
    if IsLive(db.accounts, id) then db.(accounts := db.accounts[id := LastUsedStamped(db.accounts[id], now)]) else db
  }

  /** What `BatchUpdateLastUsed` achieves: every live listed row gets its own instant, `updated_at` untouched. */
  function BatchUpdateLastUsed(db: Db, updates: map<int, Timestamp>): (d: Db)
    ensures |updates| == 0 ==> d == db
    ensures d.accountGroups == db.accountGroups && d.accounts.Keys == db.accounts.Keys
    ensures forall k :: k in db.accounts && k in updates && IsLive(db.accounts, k) ==>
      d.accounts[k] == LastUsedSet(db.accounts[k], Some(updates[k]))
    ensures forall k :: k in db.accounts && !(k in updates && IsLive(db.accounts, k)) ==> d.accounts[k] == db.accounts[k]
    ensures db.Valid() ==> d.Valid()
  {
    if |updates| == 0 then db
    else
      db.(accounts := map k | k in db.accounts ::
            if k in updates && IsLive(db.accounts, k) then LastUsedSet(db.accounts[k], Some(updates[k])) else db.accounts[k])
  }

  /** `CASE id WHEN i1 THEN t1 WHEN i2 THEN t2 ... END`: the first matching branch, `NULL` when none matches. */
  function CaseValue(whens: seq<(int, Timestamp)>, id: int): (v: Option<Timestamp>)
    ensures v.None? <==> forall j :: 0 <= j < |whens| ==> whens[j].0 != id
    ensures v.Some? ==> exists j :: 0 <= j < |whens| && whens[j] == (id, v.value)
    decreases |whens|
  {
    if whens == [] then None
    else if whens[0].0 == id then Some(whens[0].1)
    else
      var v := CaseValue(whens[1..], id);
      assert forall j :: 1 <= j < |whens| ==> whens[j] == whens[1..][j - 1];
      v
  }

  /** Every branch of the `CASE` carries the instant the map holds for its id. */
  predicate BranchesAgree(whens: seq<(int, Timestamp)>, updates: map<int, Timestamp>) {
    forall j :: 0 <= j < |whens| ==> whens[j].0 in updates && whens[j].1 == updates[whens[j].0]
  }

  /** When every branch agrees with the map, the `CASE` yields the map's instant for an id it lists. */
  lemma {:induction false} CaseValueAgrees(whens: seq<(int, Timestamp)>, updates: map<int, Timestamp>, id: int)
    requires BranchesAgree(whens, updates)
    requires id in updates
    ensures CaseValue(whens, id).Some? ==> CaseValue(whens, id) == Some(updates[id])
  {
    if CaseValue(whens, id).Some? {
      var j :| 0 <= j < |whens| && whens[j] == (id, CaseValue(whens, id).value);
      assert whens[j].1 == updates[whens[j].0];
    }
  }

  /** `UPDATE accounts SET last_used_at = <case> WHERE id IN ids AND deleted_at IS NULL`, issued through `Exec`. */
  function ExecLastUsedCase(db: Db, whens: seq<(int, Timestamp)>, ids: seq<int>): (d: Db)
    ensures d.accountGroups == db.accountGroups && d.accounts.Keys == db.accounts.Keys
    ensures forall k :: k in db.accounts && k in ids && IsLive(db.accounts, k) ==>
      d.accounts[k] == LastUsedSet(db.accounts[k], CaseValue(whens, k))
    ensures forall k :: k in db.accounts && !(k in ids && IsLive(db.accounts, k)) ==> d.accounts[k] == db.accounts[k]
  {
    db.(accounts := map k | k in db.accounts ::
          if k in ids && IsLive(db.accounts, k) then LastUsedSet(db.accounts[k], CaseValue(whens, k)) else db.accounts[k])
  }

  /** The `CASE` update built from the map is `BatchUpdateLastUsed`: it lists every key, and each branch yields its own instant. */
  lemma {:induction false} CaseUpdateIsBatch(db: Db, whens: seq<(int, Timestamp)>, ids: seq<int>, updates: map<int, Timestamp>)
    requires |updates| > 0
    requires forall k :: k in ids <==> k in updates
    requires forall k :: k in ids ==> CaseValue(whens, k) == Some(updates[k])
    ensures ExecLastUsedCase(db, whens, ids) == BatchUpdateLastUsed(db, updates)
  {
    var l := ExecLastUsedCase(db, whens, ids);
    var r := BatchUpdateLastUsed(db, updates);
    assert l.accounts.Keys == r.accounts.Keys;
    forall k | k in l.accounts ensures l.accounts[k] == r.accounts[k] {
      if k in ids && IsLive(db.accounts, k) {
        assert l.accounts[k] == LastUsedSet(db.accounts[k], Some(updates[k]));
      }
    }
    assert l.accounts == r.accounts;
  }

  /** `UpdateExtra`: a no-op for no keys, `NotFound` for a missing or deleted row, else the merged object is written. */
  function UpdateExtra(db: Db, id: int, updates: JsonMap, now: Timestamp): (e: Effect<Outcome>)
    ensures |updates| == 0 ==> e == Effect(db, Ok)
    ensures |updates| > 0 && !IsLive(db.accounts, id) ==> e == Effect(db, Err(NotFound))
    ensures |updates| > 0 && IsLive(db.accounts, id) ==>
      e.result == Ok && OnlyRowChanged(db, e.db, id) && e.db.accounts[id] == ExtraMerged(db.accounts[id], updates, now)
    ensures db.Valid() ==> e.db.Valid()
  {
    if |updates| == 0 then Effect(db, Ok)
    else if !IsLive(db.accounts, id) then Effect(db, Err(NotFound))
    else Effect(db.(accounts := db.accounts[id := ExtraMerged(db.accounts[id], updates, now)]), Ok)
  }

  /** The live rows an `id IN ids` clause selects. */
  function Targets(db: Db, ids: seq<int>): set<int> {
    set k | k in db.accounts && k in ids && IsLive(db.accounts, k)
  }

  /** What `BulkUpdate` achieves: the supplied fields on every live listed row, and how many rows that was. */
  function BulkUpdate(db: Db, ids: seq<int>, u: BulkFields, now: Timestamp): (e: Effect<int>)
    ensures |ids| == 0 || !AnyField(u) ==> e == Effect(db, 0)
    ensures |ids| > 0 && AnyField(u) ==> e.result == |Targets(db, ids)|
    ensures e.db.accountGroups == db.accountGroups && e.db.accounts.Keys == db.accounts.Keys
    ensures forall k :: k in db.accounts && |ids| > 0 && AnyField(u) && k in Targets(db, ids) ==>
      e.db.accounts[k] == BulkUpdated(db.accounts[k], u, now)
    ensures forall k :: k in db.accounts && k !in Targets(db, ids) ==> e.db.accounts[k] == db.accounts[k]
    ensures db.Valid() ==> e.db.Valid()
  {
    if |ids| == 0 || !AnyField(u) then Effect(db, 0)
    else
      Effect(db.(accounts := map k | k in db.accounts ::
                   if k in Targets(db, ids) then BulkUpdated(db.accounts[k], u, now) else db.accounts[k]),
             |Targets(db, ids)|)
  }

  /** `UPDATE accounts SET <update map>, updated_at = now WHERE id IN ids AND deleted_at IS NULL` and its row count. */
  function ExecBulkUpdate(db: Db, ids: seq<int>, m: UpdateMap, now: Timestamp): (e: Effect<int>)
    ensures e.result == |Targets(db, ids)|
    ensures e.db.accountGroups == db.accountGroups && e.db.accounts.Keys == db.accounts.Keys
    ensures forall k :: k in db.accounts && k in Targets(db, ids) ==> e.db.accounts[k] == ApplyUpdateMap(db.accounts[k], m, now)
    ensures forall k :: k in db.accounts && k !in Targets(db, ids) ==> e.db.accounts[k] == db.accounts[k]
  {
    Effect(db.(accounts := map k | k in db.accounts ::
                 if k in Targets(db, ids) then ApplyUpdateMap(db.accounts[k], m, now) else db.accounts[k]),
           |Targets(db, ids)|)
  }

  /** Running the update map for `u` is `BulkUpdate` whenever the call gets that far. */
  lemma {:induction false} UpdateMapIsBulk(db: Db, ids: seq<int>, m: UpdateMap, u: BulkFields, now: Timestamp)
    requires |ids| > 0 && AnyField(u) && UpdateMapOf(m, u)
    ensures ExecBulkUpdate(db, ids, m, now) == BulkUpdate(db, ids, u, now)
  {
    var l := ExecBulkUpdate(db, ids, m, now);
    var r := BulkUpdate(db, ids, u, now);
    forall k | k in l.db.accounts ensures l.db.accounts[k] == r.db.accounts[k] {
      if k in Targets(db, ids) {
        UpdateMapMeansBulkUpdated(db.accounts[k], m, u, now);
      }
    }
    assert l.db.accounts == r.db.accounts;
  }

  function KeyOf(m: AccountGroupModel): MembershipKey {
    (m.accountId, m.groupId)
  }

  function RowOf(m: AccountGroupModel): MembershipRow {
    MembershipRow(m.priority, m.createdAt)
  }

  predicate DistinctKeys(rows: seq<AccountGroupModel>) {
    forall i, j :: 0 <= i < j < |rows| ==> KeyOf(rows[i]) != KeyOf(rows[j])
  }

  /**
   * One `INSERT INTO account_groups` of all `rows`: it fails as a whole with a
   * key violation when a row's key is already present or two rows share one.
   */
  function InsertMemberships(table: map<MembershipKey, MembershipRow>, rows: seq<AccountGroupModel>): (r: Option<map<MembershipKey, MembershipRow>>)
    ensures r.Some? <==> DistinctKeys(rows) && forall i :: 0 <= i < |rows| ==> KeyOf(rows[i]) !in table
    ensures r.Some? ==> forall k :: k in r.value <==> k in table || exists i :: 0 <= i < |rows| && KeyOf(rows[i]) == k
    ensures r.Some? ==> forall k :: k in table ==> r.value[k] == table[k]
    ensures r.Some? ==> forall i :: 0 <= i < |rows| ==> r.value[KeyOf(rows[i])] == RowOf(rows[i])
    decreases |rows|
  {
    if rows == [] then Some(table)
    else if KeyOf(rows[0]) in table then
      None
    else
      var r := InsertMemberships(table[KeyOf(rows[0]) := RowOf(rows[0])], rows[1..]);
      InsertMembershipsStep(table, rows, r);
      r
  }

  /** The inductive step of `InsertMemberships`, from the rest of the rows back to all of them. */
  lemma {:induction false} InsertMembershipsStep(table: map<MembershipKey, MembershipRow>, rows: seq<AccountGroupModel>,
                                                 r: Option<map<MembershipKey, MembershipRow>>)
    requires rows != [] && KeyOf(rows[0]) !in table
    requires var t := table[KeyOf(rows[0]) := RowOf(rows[0])]; var rest := rows[1..];
      && (r.Some? <==> DistinctKeys(rest) && forall i :: 0 <= i < |rest| ==> KeyOf(rest[i]) !in t)
      && (r.Some? ==> forall k :: k in r.value <==> k in t || exists i :: 0 <= i < |rest| && KeyOf(rest[i]) == k)
      && (r.Some? ==> forall k :: k in t ==> r.value[k] == t[k])
      && (r.Some? ==> forall i :: 0 <= i < |rest| ==> r.value[KeyOf(rest[i])] == RowOf(rest[i]))
    ensures r.Some? <==> DistinctKeys(rows) && forall i :: 0 <= i < |rows| ==> KeyOf(rows[i]) !in table
    ensures r.Some? ==> forall k :: k in r.value <==> k in table || exists i :: 0 <= i < |rows| && KeyOf(rows[i]) == k
    ensures r.Some? ==> forall k :: k in table ==> r.value[k] == table[k]
    ensures r.Some? ==> forall i :: 0 <= i < |rows| ==> r.value[KeyOf(rows[i])] == RowOf(rows[i])
  {
    var t := table[KeyOf(rows[0]) := RowOf(rows[0])];
    var rest := rows[1..];
    assert forall i :: 1 <= i < |rows| ==> rows[i] == rest[i - 1];
    if r.Some? {
      forall i, j | 0 <= i < j < |rows| ensures KeyOf(rows[i]) != KeyOf(rows[j]) {
        if i == 0 {
          assert KeyOf(rest[j - 1]) !in t;
        } else {
          assert KeyOf(rest[i - 1]) != KeyOf(rest[j - 1]);
        }
      }
      forall i | 0 <= i < |rows| ensures KeyOf(rows[i]) !in table {
        if i > 0 {
          assert KeyOf(rest[i - 1]) !in t;
        }
      }
      forall k ensures k in r.value <==> k in table || exists i :: 0 <= i < |rows| && KeyOf(rows[i]) == k {
        if k in r.value && k !in table && k != KeyOf(rows[0]) {
          var i :| 0 <= i < |rest| && KeyOf(rest[i]) == k;
          assert KeyOf(rows[i + 1]) == k;
        }
        if exists i :: 0 <= i < |rows| && KeyOf(rows[i]) == k {
          var i :| 0 <= i < |rows| && KeyOf(rows[i]) == k;
          if i > 0 {
            assert KeyOf(rest[i - 1]) == k;
          }
        }
      }
      forall i | 0 <= i < |rows| ensures r.value[KeyOf(rows[i])] == RowOf(rows[i]) {
        if i > 0 {
          assert rows[i] == rest[i - 1];
        }
      }
    } else {
      if DistinctKeys(rows) && forall i :: 0 <= i < |rows| ==> KeyOf(rows[i]) !in table {
        forall i, j | 0 <= i < j < |rest| ensures KeyOf(rest[i]) != KeyOf(rest[j]) {
          assert KeyOf(rows[i + 1]) != KeyOf(rows[j + 1]);
        }
        forall i | 0 <= i < |rest| ensures KeyOf(rest[i]) !in t {
          assert KeyOf(rows[0]) != KeyOf(rows[i + 1]);
          assert KeyOf(rows[i + 1]) !in table;
        }
        assert false;
      }
    }
  }

  /** The stored membership priority: a zero priority is left to the column default. */
  function StoredPriority(priority: int): (p: int)
    ensures priority != 0 ==> p == priority
    ensures priority == 0 ==> p == DefaultMembershipPriority
  {
    if priority == 0 then DefaultMembershipPriority else priority
  }

  /** `AddToGroup`: one insert, refused when the membership exists. */
  function AddToGroup(db: Db, accountId: int, groupId: int, priority: int, now: Timestamp): (e: Effect<Outcome>)
    ensures e.db.accounts == db.accounts
    ensures (accountId, groupId) in db.accountGroups ==> e == Effect(db, Err(DuplicateKey))
    ensures (accountId, groupId) !in db.accountGroups ==>
      e.result == Ok && e.db.accountGroups == db.accountGroups[(accountId, groupId) := MembershipRow(StoredPriority(priority), now)]
  {
    var row := AccountGroupModel(accountId, groupId, StoredPriority(priority), now);
    match InsertMemberships(db.accountGroups, [row])
    case None => Effect(db, Err(DuplicateKey))
    case Some(t) =>
      assert t == db.accountGroups[KeyOf(row) := RowOf(row)] by {
        assert forall k :: k in t <==> k in db.accountGroups || k == KeyOf(row);
      }
      Effect(db.(accountGroups := t), Ok)
  }

  /** `RemoveFromGroup`: deletes that membership if it exists. */
  function RemoveFromGroup(db: Db, accountId: int, groupId: int): (d: Db)
    ensures d.accounts == db.accounts
    ensures (accountId, groupId) !in d.accountGroups
    ensures forall k :: k != (accountId, groupId) ==>
      (k in d.accountGroups <==> k in db.accountGroups) && (k in d.accountGroups ==> d.accountGroups[k] == db.accountGroups[k])
  {
    db.(accountGroups := db.accountGroups - {(accountId, groupId)})
  }

  /** `DELETE FROM account_groups WHERE account_id = ?`. */
  function DeleteMembershipsOf(table: map<MembershipKey, MembershipRow>, accountId: int): (t: map<MembershipKey, MembershipRow>)
    ensures forall k :: k in t <==> k in table && k.0 != accountId
    ensures forall k :: k in t ==> t[k] == table[k]
  {
    map k | k in table && k.0 != accountId :: table[k]
  }

  /** The rows `BindGroups` inserts: the i-th group at priority i + 1. */
  function NewMemberships(accountId: int, groupIds: seq<int>, now: Timestamp): (rows: seq<AccountGroupModel>)
    ensures |rows| == |groupIds|
    ensures forall i :: 0 <= i < |rows| ==> rows[i] == AccountGroupModel(accountId, groupIds[i], i + 1, now)
  {
    seq(|groupIds|, i requires 0 <= i < |groupIds| => AccountGroupModel(accountId, groupIds[i], i + 1, now))
  }

  /** `BindGroups`: delete the account's memberships, then insert the new ones in one statement. */
  function BindGroups(db: Db, accountId: int, groupIds: seq<int>, now: Timestamp): (e: Effect<Outcome>)
    ensures e.db.accounts == db.accounts
    ensures e.result == Ok || e.result == Err(DuplicateKey)
    ensures e.result != Ok ==> forall k :: k in e.db.accountGroups ==> k.0 != accountId
    ensures |groupIds| == 0 ==> e.result == Ok && forall k :: k in e.db.accountGroups ==> k.0 != accountId
  {
    var cleared := DeleteMembershipsOf(db.accountGroups, accountId);
    if |groupIds| == 0 then Effect(db.(accountGroups := cleared), Ok)
    else
      match InsertMemberships(cleared, NewMemberships(accountId, groupIds, now))
      case None => Effect(db.(accountGroups := cleared), Err(DuplicateKey))
      case Some(t) => Effect(db.(accountGroups := t), Ok)
  }

  /** `BindGroups` leaves the accounts and every other account's memberships as they were. */
  lemma {:induction false} BindGroupsFrame(db: Db, accountId: int, groupIds: seq<int>, now: Timestamp)
    ensures BindGroups(db, accountId, groupIds, now).db.accounts == db.accounts
    ensures forall k: MembershipKey :: k.0 != accountId ==>
      (k in BindGroups(db, accountId, groupIds, now).db.accountGroups <==> k in db.accountGroups)
    ensures forall k: MembershipKey :: k.0 != accountId && k in db.accountGroups ==>
      BindGroups(db, accountId, groupIds, now).db.accountGroups[k] == db.accountGroups[k]
  {
    var cleared := DeleteMembershipsOf(db.accountGroups, accountId);
    if |groupIds| > 0 {
      var rows := NewMemberships(accountId, groupIds, now);
      NewMembershipKeys(cleared, accountId, groupIds, now);
    }
  }

  /**
   * `BindGroups` succeeds exactly when no group id repeats. On success the
   * account is in exactly the listed groups, the i-th at priority i + 1; on
   * failure the delete has already run and the account is in no group.
   */
  lemma {:induction false} BindGroupsOutcome(db: Db, accountId: int, groupIds: seq<int>, now: Timestamp)
    ensures BindGroups(db, accountId, groupIds, now).result == Ok <==> Distinct(groupIds)
    ensures BindGroups(db, accountId, groupIds, now).result != Ok ==>
      && BindGroups(db, accountId, groupIds, now).result == Err(DuplicateKey)
      && forall k :: k in BindGroups(db, accountId, groupIds, now).db.accountGroups ==> k.0 != accountId
    ensures BindGroups(db, accountId, groupIds, now).result == Ok ==>
      forall g :: (accountId, g) in BindGroups(db, accountId, groupIds, now).db.accountGroups <==> g in groupIds
    ensures BindGroups(db, accountId, groupIds, now).result == Ok ==>
      forall i :: 0 <= i < |groupIds| ==>
        && (accountId, groupIds[i]) in BindGroups(db, accountId, groupIds, now).db.accountGroups
        && BindGroups(db, accountId, groupIds, now).db.accountGroups[(accountId, groupIds[i])] == MembershipRow(i + 1, now)
  {
    var cleared := DeleteMembershipsOf(db.accountGroups, accountId);
    var e := BindGroups(db, accountId, groupIds, now);
    if |groupIds| > 0 {
      var rows := NewMemberships(accountId, groupIds, now);
      NewMembershipKeys(cleared, accountId, groupIds, now);
      var r := InsertMemberships(cleared, rows);
      if r.Some? {
        forall g | (accountId, g) in r.value ensures g in groupIds {
          var i :| 0 <= i < |rows| && KeyOf(rows[i]) == (accountId, g);
          assert groupIds[i] == g;
        }
        forall g | g in groupIds ensures (accountId, g) in r.value {
          var i :| 0 <= i < |groupIds| && groupIds[i] == g;
          assert KeyOf(rows[i]) == (accountId, g);
        }
        forall i | 0 <= i < |groupIds| ensures r.value[(accountId, groupIds[i])] == MembershipRow(i + 1, now) {
          assert KeyOf(rows[i]) == (accountId, groupIds[i]);
        }
      }
    }
  }

  /** The new rows collide exactly when a group id repeats: no key of the account survives the delete. */
  lemma {:induction false} NewMembershipKeys(cleared: map<MembershipKey, MembershipRow>, accountId: int, groupIds: seq<int>, now: Timestamp)
    requires forall k :: k in cleared ==> k.0 != accountId
    ensures DistinctKeys(NewMemberships(accountId, groupIds, now)) <==> Distinct(groupIds)
    ensures forall i :: 0 <= i < |groupIds| ==> KeyOf(NewMemberships(accountId, groupIds, now)[i]) !in cleared
    ensures forall i :: 0 <= i < |groupIds| ==> KeyOf(NewMemberships(accountId, groupIds, now)[i]) == (accountId, groupIds[i])
  {
    var rows := NewMemberships(accountId, groupIds, now);
    assert forall i :: 0 <= i < |rows| ==> KeyOf(rows[i]) == (accountId, groupIds[i]);
  }

  /** `Delete`: the account's memberships go, then the row is soft-deleted if it is still live. */
  function Delete(db: Db, id: int, now: Timestamp): (d: Db)
    ensures d.accounts.Keys == db.accounts.Keys
    ensures !IsLive(d.accounts, id)
    ensures IsLive(db.accounts, id) ==> d.accounts[id] == SoftDeleted(db.accounts[id], now)
    ensures forall k :: k in db.accounts && (k != id || !IsLive(db.accounts, id)) ==> d.accounts[k] == db.accounts[k]
    ensures d.accountGroups == DeleteMembershipsOf(db.accountGroups, id)
    ensures db.Valid() ==> d.Valid()
  {
    var cleared := db.(accountGroups := DeleteMembershipsOf(db.accountGroups, id));
    if IsLive(db.accounts, id) then cleared.(accounts := db.accounts[id := SoftDeleted(db.accounts[id], now)]) else cleared
  }
}
