/**
 * The read queries of the account repository over a snapshot of both tables.
 * Every query sees live rows only (GORM's soft-delete scope). The
 * `ListSchedulable*` family adds the eligibility filter; `ListActive`,
 * `ListByPlatform` and `ListByGroup` check `status = 'active'` and nothing else.
 */
module Queries {
  import opened Wrappers
  import opened Models
  import opened Eligibility
  import opened Ordering
  import opened Convert

  /** The platform clause: none, `platform = ?`, or `platform IN ?`. */
  datatype PlatformFilter = AnyPlatform | OnPlatform(name: string) | OnPlatforms(names: seq<string>)

  /** The static part of a candidate query; `schedulableAt` adds the eligibility filter at that instant. */
  datatype Filter = Filter(platforms: PlatformFilter, schedulableAt: Option<Timestamp>)

  predicate PlatformAdmits(pf: PlatformFilter, platform: string) {
    match pf
    case AnyPlatform => true
    case OnPlatform(p) => platform == p
    case OnPlatforms(ps) => platform in ps
  }

  predicate Admits(f: Filter, a: AccountModel) {
    && a.status == StatusActive
    && PlatformAdmits(f.platforms, a.platform)
    && (f.schedulableAt.Some? ==> IsSchedulable(a, f.schedulableAt.value))
  }

  function Ids(r: seq<Account>): seq<int> {
    seq(|r|, i requires 0 <= i < |r| => r[i].id)
  }

  /** Each listed account is the service view of the live row with its id. */
  predicate ViewsOfLiveRows(db: Db, r: seq<Account>) {
    forall i :: 0 <= i < |r| ==> IsLive(db.accounts, r[i].id) && r[i] == AccountModelToService(db.accounts[r[i].id])
  }

  predicate DistinctIds(r: seq<Account>) {
    forall i, j :: 0 <= i < j < |r| ==> r[i].id != r[j].id
  }

  /** `ORDER BY priority ASC`. */
  predicate ByPriority(r: seq<Account>) {
    forall i, j :: 0 <= i < j < |r| ==> r[i].priority <= r[j].priority
  }

  predicate InGroup(db: Db, g: int, r: seq<Account>) {
    forall i :: 0 <= i < |r| ==> (r[i].id, g) in db.accountGroups
  }

  /** `ORDER BY account_groups.priority ASC, accounts.priority ASC`. */
  predicate ByGroupThenPriority(db: Db, g: int, r: seq<Account>)
    requires InGroup(db, g, r)
  {
    forall i, j :: 0 <= i < j < |r| ==>
      RankLe(Rank(db.accountGroups[(r[i].id, g)].priority, r[i].priority),
             Rank(db.accountGroups[(r[j].id, g)].priority, r[j].priority))
  }

  function PlatformMatches(db: Db, f: Filter): set<int> {
    set id | id in db.accounts && IsLive(db.accounts, id) && Admits(f, db.accounts[id])
  }

  function PlatformRanks(db: Db): map<int, Rank> {
    map id | id in db.accounts :: Rank(0, db.accounts[id].priority)
  }

  /** The accounts the join with `account_groups` on group `g` produces. */
  function GroupMatches(db: Db, g: int, f: Filter): set<int> {
    set id | id in db.accounts && IsLive(db.accounts, id) && (id, g) in db.accountGroups && Admits(f, db.accounts[id])
  }

  function GroupRanks(db: Db, g: int): map<int, Rank> {
    map id | id in db.accounts && (id, g) in db.accountGroups :: Rank(db.accountGroups[(id, g)].priority, db.accounts[id].priority)
  }

  /** The service views of the rows with the given ids, in that order. */
  function ServiceViews(db: Db, ids: seq<int>): seq<Account>
    requires forall i :: 0 <= i < |ids| ==> ids[i] in db.accounts
  {
    seq(|ids|, i requires 0 <= i < |ids| => AccountModelToService(db.accounts[ids[i]]))
  }

  /** Over rows stored under their own ids, the views carry the same ids. */
  lemma ServiceViewsIds(db: Db, ids: seq<int>)
    requires db.Valid()
    requires forall i :: 0 <= i < |ids| ==> ids[i] in db.accounts
    ensures Ids(ServiceViews(db, ids)) == ids
  {
    var r := ServiceViews(db, ids);
    assert forall i | 0 <= i < |ids| :: Ids(r)[i] == db.accounts[ids[i]].id == ids[i];
  }

  /** Membership and distinctness carried from a listing of ids to its service views. */
  lemma {:induction false} ViewsOfListing(db: Db, s: set<int>, ids: seq<int>)
    requires db.Valid()
    requires forall x :: x in s ==> IsLive(db.accounts, x)
    requires forall x | x in s :: x in ids
    requires forall i | 0 <= i < |ids| :: ids[i] in s
    requires Distinct(ids)
    ensures forall i :: 0 <= i < |ids| ==> ids[i] in db.accounts
    ensures ViewsOfLiveRows(db, ServiceViews(db, ids)) && DistinctIds(ServiceViews(db, ids))
    ensures forall id :: id in Ids(ServiceViews(db, ids)) <==> id in s
  {
    forall i | 0 <= i < |ids| ensures ids[i] in db.accounts {
      assert ids[i] in s;
      assert IsLive(db.accounts, ids[i]);
    }
    ServiceViewsIds(db, ids);
    var r := ServiceViews(db, ids);
    forall i | 0 <= i < |r| ensures IsLive(db.accounts, r[i].id) && r[i] == AccountModelToService(db.accounts[r[i].id]) {
      assert Ids(r)[i] == r[i].id == ids[i];
    }
    forall i, j | 0 <= i < j < |r| ensures r[i].id != r[j].id {
      assert Ids(r)[i] == ids[i] && Ids(r)[j] == ids[j];
    }
  }

  /** A listing ranked by account priority gives views ordered by priority. */
  lemma {:induction false} PriorityOrder(db: Db, ids: seq<int>)
    requires db.Valid()
    requires forall i :: 0 <= i < |ids| ==> ids[i] in db.accounts
    requires Ranked(PlatformRanks(db), ids)
    ensures ByPriority(ServiceViews(db, ids))
  {
    var r := ServiceViews(db, ids);
    var keys := PlatformRanks(db);
    forall i, j | 0 <= i < j < |r| ensures r[i].priority <= r[j].priority {
      assert keys[ids[i]].priority == r[i].priority;
      assert keys[ids[j]].priority == r[j].priority;
      assert RankLe(keys[ids[i]], keys[ids[j]]);
    }
  }

  /** A listing of members of `g` ranked by (membership priority, priority) gives views in that order. */
  lemma {:induction false} GroupOrder(db: Db, g: int, ids: seq<int>)
    requires db.Valid()
    requires forall i :: 0 <= i < |ids| ==> ids[i] in db.accounts && (ids[i], g) in db.accountGroups
    requires Ranked(GroupRanks(db, g), ids)
    ensures InGroup(db, g, ServiceViews(db, ids)) && ByGroupThenPriority(db, g, ServiceViews(db, ids))
  {
    var r := ServiceViews(db, ids);
    var keys := GroupRanks(db, g);
    assert forall i :: 0 <= i < |r| ==> r[i].id == ids[i];
    forall i, j | 0 <= i < j < |r|
      ensures RankLe(Rank(db.accountGroups[(r[i].id, g)].priority, r[i].priority),
                     Rank(db.accountGroups[(r[j].id, g)].priority, r[j].priority))
    {
      assert keys[ids[i]] == Rank(db.accountGroups[(r[i].id, g)].priority, r[i].priority);
      assert keys[ids[j]] == Rank(db.accountGroups[(r[j].id, g)].priority, r[j].priority);
      assert RankLe(keys[ids[i]], keys[ids[j]]);
    }
  }

  /** A query without a group join, ordered by account priority. */
  ghost function PlatformListing(db: Db, f: Filter): (r: seq<Account>)
    requires db.Valid()
    ensures ViewsOfLiveRows(db, r) && DistinctIds(r) && ByPriority(r)
    ensures forall id :: id in Ids(r) <==> IsLive(db.accounts, id) && Admits(f, db.accounts[id])
  {
    var s := PlatformMatches(db, f);
    var keys := PlatformRanks(db);
    RankedListingMembers(s, keys);
    RankedListingSorted(s, keys);
    var ids := RankedListing(s, keys);
    ViewsOfListing(db, s, ids);
    PriorityOrder(db, ids);
    ServiceViews(db, ids)
  }

  /** A query joined with the memberships of group `g`, ordered by membership then account priority. */
  ghost function GroupListing(db: Db, g: int, f: Filter): (r: seq<Account>)
    requires db.Valid()
    ensures ViewsOfLiveRows(db, r) && DistinctIds(r)
    ensures InGroup(db, g, r) && ByGroupThenPriority(db, g, r)
    ensures forall id :: id in Ids(r) <==> IsLive(db.accounts, id) && (id, g) in db.accountGroups && Admits(f, db.accounts[id])
  {
    var s := GroupMatches(db, g, f);
    var keys := GroupRanks(db, g);
    RankedListingMembers(s, keys);
    RankedListingSorted(s, keys);
    var ids := RankedListing(s, keys);
    ViewsOfListing(db, s, ids);
    GroupOrder(db, g, ids);
    ServiceViews(db, ids)
  }

  ghost function ListSchedulable(db: Db, now: Timestamp): (r: seq<Account>)
    requires db.Valid()
    ensures ViewsOfLiveRows(db, r) && DistinctIds(r) && ByPriority(r)
    ensures forall id :: id in Ids(r) <==> IsLive(db.accounts, id) && IsSchedulable(db.accounts[id], now)
  {
    PlatformListing(db, Filter(AnyPlatform, Some(now)))
  }

  ghost function ListSchedulableByPlatform(db: Db, platform: string, now: Timestamp): (r: seq<Account>)
    requires db.Valid()
    ensures ViewsOfLiveRows(db, r) && DistinctIds(r) && ByPriority(r)
    ensures forall id :: id in Ids(r) <==>
      IsLive(db.accounts, id) && db.accounts[id].platform == platform && IsSchedulable(db.accounts[id], now)
  {
    PlatformListing(db, Filter(OnPlatform(platform), Some(now)))
  }

  /** An empty platform list answers with no accounts without reading the tables. */
  ghost function ListSchedulableByPlatforms(db: Db, platforms: seq<string>, now: Timestamp): (r: seq<Account>)
    requires db.Valid()
    ensures platforms == [] ==> r == []
    ensures ViewsOfLiveRows(db, r) && DistinctIds(r) && ByPriority(r)
    ensures forall id :: id in Ids(r) <==>
      IsLive(db.accounts, id) && db.accounts[id].platform in platforms && IsSchedulable(db.accounts[id], now)
  {
    if |platforms| == 0 then [] else PlatformListing(db, Filter(OnPlatforms(platforms), Some(now)))
  }

  ghost function ListSchedulableByGroupID(db: Db, groupId: int, now: Timestamp): (r: seq<Account>)
    requires db.Valid()
    ensures ViewsOfLiveRows(db, r) && DistinctIds(r)
    ensures InGroup(db, groupId, r) && ByGroupThenPriority(db, groupId, r)
    ensures forall id :: id in Ids(r) <==>
      IsLive(db.accounts, id) && (id, groupId) in db.accountGroups && IsSchedulable(db.accounts[id], now)
  {
    GroupListing(db, groupId, Filter(AnyPlatform, Some(now)))
  }

  ghost function ListSchedulableByGroupIDAndPlatform(db: Db, groupId: int, platform: string, now: Timestamp): (r: seq<Account>)
    requires db.Valid()
    ensures ViewsOfLiveRows(db, r) && DistinctIds(r)
    ensures InGroup(db, groupId, r) && ByGroupThenPriority(db, groupId, r)
    ensures forall id :: id in Ids(r) <==>
      IsLive(db.accounts, id) && (id, groupId) in db.accountGroups &&
      db.accounts[id].platform == platform && IsSchedulable(db.accounts[id], now)
  {
    GroupListing(db, groupId, Filter(OnPlatform(platform), Some(now)))
  }

  /** An empty platform list answers with no accounts without reading the tables. */
  ghost function ListSchedulableByGroupIDAndPlatforms(db: Db, groupId: int, platforms: seq<string>, now: Timestamp): (r: seq<Account>)
    requires db.Valid()
    ensures platforms == [] ==> r == []
    ensures ViewsOfLiveRows(db, r) && DistinctIds(r)
    ensures InGroup(db, groupId, r) && ByGroupThenPriority(db, groupId, r)
    ensures forall id :: id in Ids(r) <==>
      IsLive(db.accounts, id) && (id, groupId) in db.accountGroups &&
      db.accounts[id].platform in platforms && IsSchedulable(db.accounts[id], now)
  {
    if |platforms| == 0 then [] else GroupListing(db, groupId, Filter(OnPlatforms(platforms), Some(now)))
  }

  /** Active members of a group, whatever their schedulable flag and time gates say. */
  ghost function ListByGroup(db: Db, groupId: int): (r: seq<Account>)
    requires db.Valid()
    ensures ViewsOfLiveRows(db, r) && DistinctIds(r)
    ensures InGroup(db, groupId, r) && ByGroupThenPriority(db, groupId, r)
    ensures forall id :: id in Ids(r) <==>
      IsLive(db.accounts, id) && (id, groupId) in db.accountGroups && db.accounts[id].status == StatusActive
  {
    GroupListing(db, groupId, Filter(AnyPlatform, None))
  }

  /** Active accounts, whatever their schedulable flag and time gates say. */
  ghost function ListActive(db: Db): (r: seq<Account>)
    requires db.Valid()
    ensures ViewsOfLiveRows(db, r) && DistinctIds(r) && ByPriority(r)
    ensures forall id :: id in Ids(r) <==> IsLive(db.accounts, id) && db.accounts[id].status == StatusActive
  {
    PlatformListing(db, Filter(AnyPlatform, None))
  }

  /** Active accounts of one platform, whatever their schedulable flag and time gates say. */
  ghost function ListByPlatform(db: Db, platform: string): (r: seq<Account>)
    requires db.Valid()
    ensures ViewsOfLiveRows(db, r) && DistinctIds(r) && ByPriority(r)
    ensures forall id :: id in Ids(r) <==>
      IsLive(db.accounts, id) && db.accounts[id].platform == platform && db.accounts[id].status == StatusActive
  {
    PlatformListing(db, Filter(OnPlatform(platform), None))
  }

  /** One page of the admin listing and the number of rows matching the filters. */
  datatype Page = Page(accounts: seq<Account>, total: int)

  /** The equality filters of the admin listing; an empty string drops its clause. */
  predicate MatchesFilters(a: AccountModel, platform: string, accountType: string, status: string) {
    && (platform == "" || a.platform == platform)
    && (accountType == "" || a.accountType == accountType)
    && (status == "" || a.status == status)
  }

  function FilterMatches(db: Db, platform: string, accountType: string, status: string): set<int> {
    set id | id in db.accounts && IsLive(db.accounts, id) && MatchesFilters(db.accounts[id], platform, accountType, status)
  }

  /** The group ids account `id` has memberships in. */
  function MemberGroups(db: Db, id: int): set<int> {
    set k | k in db.accountGroups && k.0 == id :: k.1
  }

  /** The memberships of account `id`, loaded as the row's `AccountGroups` (their order is unspecified). */
  ghost function PreloadedGroups(db: Db, id: int): seq<AccountGroupModel> {
    var gids := Enumerate(MemberGroups(db, id));
    EnumerateMembers(MemberGroups(db, id));
    seq(|gids|, j requires 0 <= j < |gids| && (id, gids[j]) in db.accountGroups =>
      AccountGroupModel(id, gids[j], db.accountGroups[(id, gids[j])].priority, db.accountGroups[(id, gids[j])].createdAt))
  }

  /** A listed account carries exactly the memberships of its id, each once, with its group id beside it. */
  predicate PreloadsMemberships(db: Db, a: Account) {
    && |a.groupIds| == |a.accountGroups|
    && Distinct(a.groupIds)
    && (forall k :: k in db.accountGroups && k.0 == a.id ==> k.1 in a.groupIds)
    && (forall j :: 0 <= j < |a.accountGroups| ==>
          && a.groupIds[j] == a.accountGroups[j].groupId
          && (a.id, a.groupIds[j]) in db.accountGroups
          && a.accountGroups[j] == AccountGroup(a.id, a.groupIds[j],
               db.accountGroups[(a.id, a.groupIds[j])].priority, db.accountGroups[(a.id, a.groupIds[j])].createdAt))
  }

  /** The service view of a row with its memberships preloaded. */
  ghost function PreloadedView(db: Db, id: int): Account
    requires id in db.accounts
  {
    AccountModelToService(db.accounts[id].(accountGroups := PreloadedGroups(db, id)))
  }

  /** The preloaded memberships of `id` are its rows of `account_groups`, one per group. */
  lemma {:induction false} PreloadedGroupsFacts(db: Db, id: int)
    ensures |PreloadedGroups(db, id)| == |Enumerate(MemberGroups(db, id))|
    ensures Distinct(Enumerate(MemberGroups(db, id)))
    ensures forall k :: k in db.accountGroups && k.0 == id ==> k.1 in Enumerate(MemberGroups(db, id))
    ensures forall j :: 0 <= j < |PreloadedGroups(db, id)| ==>
      && (id, Enumerate(MemberGroups(db, id))[j]) in db.accountGroups
      && PreloadedGroups(db, id)[j] == AccountGroupModel(id, Enumerate(MemberGroups(db, id))[j],
           db.accountGroups[(id, Enumerate(MemberGroups(db, id))[j])].priority,
           db.accountGroups[(id, Enumerate(MemberGroups(db, id))[j])].createdAt)
  {
    var s := MemberGroups(db, id);
    var gids := Enumerate(s);
    EnumerateMembers(s);
    forall k | k in db.accountGroups && k.0 == id ensures k.1 in gids {
      var g := k.1;
      assert g in s;
      assert g in gids;
    }
    forall j | 0 <= j < |gids| ensures (id, gids[j]) in db.accountGroups {
      assert gids[j] in s;
      var k :| k in db.accountGroups && k.0 == id && k.1 == gids[j];
      assert k == (id, gids[j]);
    }
  }

  lemma {:induction false} PreloadedViewFacts(db: Db, id: int)
    requires db.Valid() && id in db.accounts
    ensures PreloadedView(db, id).id == id
    ensures PreloadedView(db, id).(accountGroups := [], groupIds := []) == AccountModelToService(db.accounts[id])
    ensures PreloadsMemberships(db, PreloadedView(db, id))
  {
    var gids := Enumerate(MemberGroups(db, id));
    PreloadedGroupsFacts(db, id);
    var ms := PreloadedGroups(db, id);
    var a := PreloadedView(db, id);
    assert a.id == id;
    assert forall j :: 0 <= j < |a.accountGroups| ==> a.groupIds[j] == ms[j].groupId == gids[j];
    assert a.groupIds == gids;
  }

  /** The preloaded service views of the rows with the given ids, in that order. */
  ghost function PreloadedViews(db: Db, ids: seq<int>): seq<Account>
    requires forall i :: 0 <= i < |ids| ==> ids[i] in db.accounts
  {
    seq(|ids|, i requires 0 <= i < |ids| => PreloadedView(db, ids[i]))
  }

  lemma {:induction false} PreloadedViewsFacts(db: Db, ids: seq<int>)
    requires db.Valid()
    requires forall i :: 0 <= i < |ids| ==> ids[i] in db.accounts
    ensures Ids(PreloadedViews(db, ids)) == ids
    ensures forall i :: 0 <= i < |ids| ==>
      && PreloadedViews(db, ids)[i].(accountGroups := [], groupIds := []) == AccountModelToService(db.accounts[ids[i]])
      && PreloadsMemberships(db, PreloadedViews(db, ids)[i])
  {
    var r := PreloadedViews(db, ids);
    forall i | 0 <= i < |ids|
      ensures r[i].id == ids[i]
      ensures r[i].(accountGroups := [], groupIds := []) == AccountModelToService(db.accounts[ids[i]])
      ensures PreloadsMemberships(db, r[i])
    {
      PreloadedViewFacts(db, ids[i]);
    }
    assert forall i :: 0 <= i < |ids| ==> Ids(r)[i] == ids[i];
  }

  /** `ListWithFilters` without pagination and without the name search: live rows matching the filters, newest id first. */
  ghost function ListWithFilters(db: Db, platform: string, accountType: string, status: string): (p: Page)
    requires db.Valid()
    ensures p.total == |p.accounts|
    ensures forall i, j :: 0 <= i < j < |p.accounts| ==> p.accounts[i].id > p.accounts[j].id
    ensures forall id :: id in Ids(p.accounts) <==>
      IsLive(db.accounts, id) && MatchesFilters(db.accounts[id], platform, accountType, status)
    ensures forall i :: 0 <= i < |p.accounts| ==>
      && IsLive(db.accounts, p.accounts[i].id)
      && p.accounts[i].(accountGroups := [], groupIds := []) == AccountModelToService(db.accounts[p.accounts[i].id])
      && PreloadsMemberships(db, p.accounts[i])
  {
    var s := FilterMatches(db, platform, accountType, status);
    DescendingMembers(s);
    DescendingSorted(s);
    var ids := Descending(s);
    AdminListingFacts(db, s, ids);
    Page(PreloadedViews(db, ids), |s|)
  }

  lemma {:induction false} AdminListingFacts(db: Db, s: set<int>, ids: seq<int>)
    requires db.Valid()
    requires forall x :: x in s ==> IsLive(db.accounts, x)
    requires |ids| == |s|
    requires forall x | x in s :: x in ids
    requires forall i | 0 <= i < |ids| :: ids[i] in s
    requires forall i, j | 0 <= i < j < |ids| :: ids[i] > ids[j]
    ensures forall i :: 0 <= i < |ids| ==> ids[i] in db.accounts
    ensures |PreloadedViews(db, ids)| == |s|
    ensures forall i, j :: 0 <= i < j < |ids| ==> PreloadedViews(db, ids)[i].id > PreloadedViews(db, ids)[j].id
    ensures forall id :: id in Ids(PreloadedViews(db, ids)) <==> id in s
    ensures forall i :: 0 <= i < |ids| ==>
      && IsLive(db.accounts, PreloadedViews(db, ids)[i].id)
      && PreloadedViews(db, ids)[i].(accountGroups := [], groupIds := []) == AccountModelToService(db.accounts[PreloadedViews(db, ids)[i].id])
      && PreloadsMemberships(db, PreloadedViews(db, ids)[i])
  {
    forall i | 0 <= i < |ids| ensures ids[i] in db.accounts {
      assert ids[i] in s;
      assert IsLive(db.accounts, ids[i]);
    }
    PreloadedViewsFacts(db, ids);
    var r := PreloadedViews(db, ids);
    assert forall i :: 0 <= i < |ids| ==> r[i].id == Ids(r)[i] == ids[i];
  }

  /** `List`: the admin listing with every filter empty. */
  ghost function List(db: Db): (p: Page)
    requires db.Valid()
    ensures p.total == |p.accounts|
    ensures forall i, j :: 0 <= i < j < |p.accounts| ==> p.accounts[i].id > p.accounts[j].id
    ensures forall id :: id in Ids(p.accounts) <==> IsLive(db.accounts, id)
    ensures forall i :: 0 <= i < |p.accounts| ==>
      && IsLive(db.accounts, p.accounts[i].id)
      && p.accounts[i].(accountGroups := [], groupIds := []) == AccountModelToService(db.accounts[p.accounts[i].id])
      && PreloadsMemberships(db, p.accounts[i])
  {
    ListWithFilters(db, "", "", "")
  }
}
