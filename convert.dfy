/**
 * The record maps between a stored row and the service-level account
 * (`accountModelToService`, `accountGroupModelToService`, `accountModelFromService`).
 */
module Convert {
  import opened Wrappers
  import opened Models

  /** The service view of a membership. */
  datatype AccountGroup = AccountGroup(accountId: int, groupId: int, priority: int, createdAt: Timestamp)

  /** The service view of an account: the row's columns, its memberships and their group ids. */
  datatype Account = Account(
    id: int,
    name: string,
    platform: string,
    accountType: string,
    credentials: Option<JsonMap>,
    extra: Option<JsonMap>,
    proxyId: Option<int>,
    concurrency: int,
    priority: int,
    status: string,
    errorMessage: string,
    lastUsedAt: Option<Timestamp>,
    createdAt: Timestamp,
    updatedAt: Timestamp,
    schedulable: bool,
    rateLimitedAt: Option<Timestamp>,
    rateLimitResetAt: Option<Timestamp>,
    overloadUntil: Option<Timestamp>,
    sessionWindowStart: Option<Timestamp>,
    sessionWindowEnd: Option<Timestamp>,
    sessionWindowStatus: string,
    accountGroups: seq<AccountGroup>,
    groupIds: seq<int>)

  function AccountGroupModelToService(m: AccountGroupModel): (g: AccountGroup)
    ensures g.accountId == m.accountId && g.groupId == m.groupId
    ensures g.priority == m.priority && g.createdAt == m.createdAt
  {
    AccountGroup(m.accountId, m.groupId, m.priority, m.createdAt)
  }

  /** The append loop over the preloaded memberships, converting each in turn. */
  function GroupsToService(ms: seq<AccountGroupModel>): (gs: seq<AccountGroup>)
    ensures |gs| == |ms|
    ensures forall i :: 0 <= i < |ms| ==> gs[i] == AccountGroupModelToService(ms[i])
  {
    if ms == [] then [] else [AccountGroupModelToService(ms[0])] + GroupsToService(ms[1..])
  }

  /** The same loop's second slice: one group id per converted membership. */
  function GroupIdsOf(gs: seq<AccountGroup>): (ids: seq<int>)
    ensures |ids| == |gs|
    ensures forall i :: 0 <= i < |gs| ==> ids[i] == gs[i].groupId
  {
    if gs == [] then [] else [gs[0].groupId] + GroupIdsOf(gs[1..])
  }

  /** Copies every column; `GroupIds[i]` is the group of `AccountGroups[i]`. */
  function AccountModelToService(m: AccountModel): (a: Account)
    ensures a.id == m.id && a.platform == m.platform && a.priority == m.priority
    ensures a.status == m.status && a.schedulable == m.schedulable
    ensures a.overloadUntil == m.overloadUntil && a.rateLimitResetAt == m.rateLimitResetAt
    ensures |a.accountGroups| == |m.accountGroups| && |a.groupIds| == |m.accountGroups|
    ensures forall i :: 0 <= i < |m.accountGroups| ==>
      a.accountGroups[i] == AccountGroupModelToService(m.accountGroups[i]) &&
      a.groupIds[i] == m.accountGroups[i].groupId
  {
    var groups := GroupsToService(m.accountGroups);
    Account(m.id, m.name, m.platform, m.accountType, m.credentials, m.extra, m.proxyId,
            m.concurrency, m.priority, m.status, m.errorMessage, m.lastUsedAt,
            m.createdAt, m.updatedAt, m.schedulable, m.rateLimitedAt, m.rateLimitResetAt,
            m.overloadUntil, m.sessionWindowStart, m.sessionWindowEnd, m.sessionWindowStatus,
            groups, GroupIdsOf(groups))
  }

  /** Copies every column back; memberships are not written through the row and `deleted_at` starts unset. */
  function AccountModelFromService(a: Account): (m: AccountModel)
    ensures m.id == a.id && m.priority == a.priority && m.status == a.status
    ensures m.deletedAt == None && m.accountGroups == []
  {
    AccountModel(a.id, a.name, a.platform, a.accountType, a.credentials, a.extra, a.proxyId,
                 a.concurrency, a.priority, a.status, a.errorMessage, a.lastUsedAt,
                 a.createdAt, a.updatedAt, None, a.schedulable, a.rateLimitedAt,
                 a.rateLimitResetAt, a.overloadUntil, a.sessionWindowStart, a.sessionWindowEnd,
                 a.sessionWindowStatus, [])
  }

  /** Service -> row -> service gives back the account without its memberships. */
  lemma ServiceRoundTrip(a: Account)
    ensures AccountModelToService(AccountModelFromService(a)) == a.(accountGroups := [], groupIds := [])
  {
  }

  /** Row -> service -> row gives back the row without its memberships and its deletion mark. */
  lemma ModelRoundTrip(m: AccountModel)
    ensures AccountModelFromService(AccountModelToService(m)) == m.(deletedAt := None, accountGroups := [])
  {
  }
}
