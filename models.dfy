/**
 * The two tables behind the account repository: `accounts` (one row per
 * account, soft-deleted through `deleted_at`) and `account_groups` (the
 * many-to-many membership relation with a priority of its own).
 */
module Models {
  import opened Wrappers

  /** Instants are whole numbers on one clock; `NULL` is `None`. */
  type Timestamp = int

  /** A JSONB value; the repository stores and merges these without looking inside. */
  datatype JsonValue = JNull | JBool(b: bool) | JNumber(n: int) | JString(s: string) | JRaw(text: string)

  /** A JSONB object, as held in the `credentials` and `extra` columns. */
  type JsonMap = map<string, JsonValue>

  const StatusActive: string := "active"
  const StatusError: string := "error"

  /** Column default of `account_groups.priority`, used by an insert that leaves it zero. */
  const DefaultMembershipPriority: int := 50

  /** A membership as read back through `Preload("AccountGroups")`. */
  datatype AccountGroupModel = AccountGroupModel(
    accountId: int,
    groupId: int,
    priority: int,
    createdAt: Timestamp)

  /** A row of `accounts`, with the preloaded memberships. */
  datatype AccountModel = AccountModel(
    id: int,
    name: string,
    platform: string,
    accountType: string,
    credentials: Option<JsonMap>,
    extra: Option<JsonMap>,
    proxyId: Option<int>,
    concurrency: int,
    priority: int,
    status: string,
    errorMessage: string,
    lastUsedAt: Option<Timestamp>,
    createdAt: Timestamp,
    updatedAt: Timestamp,
    deletedAt: Option<Timestamp>,
    schedulable: bool,
    rateLimitedAt: Option<Timestamp>,
    rateLimitResetAt: Option<Timestamp>,
    overloadUntil: Option<Timestamp>,
    sessionWindowStart: Option<Timestamp>,
    sessionWindowEnd: Option<Timestamp>,
    sessionWindowStatus: string,
    accountGroups: seq<AccountGroupModel>)

  /** The non-key columns of an `account_groups` row. */
  datatype MembershipRow = MembershipRow(priority: int, createdAt: Timestamp)

  /** The key of an `account_groups` row: (account_id, group_id). */
  type MembershipKey = (int, int)

  /** A snapshot of both tables. */
  datatype Db = Db(accounts: map<int, AccountModel>, accountGroups: map<MembershipKey, MembershipRow>) {

    /** Every row sits under its own primary key; memberships live in their own table, not in the row. */
    predicate Valid() {
      forall id :: id in accounts ==> accounts[id].id == id && accounts[id].accountGroups == []
    }
  }

  /** A row that exists and has not been soft-deleted: the only rows GORM's queries and updates see. */
  predicate IsLive(accounts: map<int, AccountModel>, id: int) {
    id in accounts && accounts[id].deletedAt.None?
  }

  /** The errors this store reports: a missing row and a primary-key violation. */
  datatype RepoError = NotFound | DuplicateKey

  datatype Outcome = Ok | Err(error: RepoError)

  /** The new state of the tables with what the call returned. */
  datatype Effect<T> = Effect(db: Db, result: T)
}
