/**
 * What the transitions mean for the candidate lists: which calls take an
 * account out of scheduling, which bring it back, and which leave every
 * list's membership alone.
 */
module Properties {
  import opened Wrappers
  import opened Models
  import opened Eligibility
  import opened Ordering
  import opened Convert
  import opened Rows
  import opened Queries
  import opened Tables

  lemma ErrorIsNotActive()
    ensures StatusError != StatusActive
  {
    assert StatusError[0] != StatusActive[0];
  }

  /**
   * After `SetError` the account is in no list that filters on `status`:
   * every schedulable variant, `ListActive`, `ListByPlatform` and
   * `ListByGroup`, whatever the clock, platform or group.
   */
  lemma SetErrorExcludesEverywhere(db: Db, id: int, message: string, now: Timestamp,
                                   t: Timestamp, platform: string, platforms: seq<string>, groupId: int)
    requires db.Valid()
    ensures var d := Tables.SetError(db, id, message, now);
      && id !in Ids(ListSchedulable(d, t))
      && id !in Ids(ListSchedulableByPlatform(d, platform, t))
      && id !in Ids(ListSchedulableByPlatforms(d, platforms, t))
      && id !in Ids(ListSchedulableByGroupID(d, groupId, t))
      && id !in Ids(ListSchedulableByGroupIDAndPlatform(d, groupId, platform, t))
      && id !in Ids(ListSchedulableByGroupIDAndPlatforms(d, groupId, platforms, t))
      && id !in Ids(ListActive(d))
      && id !in Ids(ListByPlatform(d, platform))
      && id !in Ids(ListByGroup(d, groupId))
  {
    ErrorIsNotActive();
    var d := Tables.SetError(db, id, message, now);
    assert IsLive(d.accounts, id) ==> d.accounts[id].status == StatusError;
  }

  /**
   * The error status is sticky: clearing the gates and setting the flag
   * again, at any later instants, do not bring the account back.
   */
  lemma ErrorSurvivesRecovery(db: Db, id: int, message: string, now: Timestamp, later: Timestamp, t: Timestamp)
    requires db.Valid()
    ensures var d := Tables.SetSchedulable(Tables.ClearRateLimit(Tables.SetError(db, id, message, now), id, later), id, true, later);
      id !in Ids(ListSchedulable(d, t))
  {
    ErrorIsNotActive();
    var d1 := Tables.SetError(db, id, message, now);
    var d2 := Tables.ClearRateLimit(d1, id, later);
    var d3 := Tables.SetSchedulable(d2, id, true, later);
    if IsLive(d3.accounts, id) {
      assert d3.accounts[id].status == d2.accounts[id].status == d1.accounts[id].status == StatusError;
    }
  }

  /** A reset instant already reached does not take a schedulable account out of `ListSchedulable`. */
  lemma PastResetKeepsSchedulable(db: Db, id: int, resetAt: Timestamp, now: Timestamp)
    requires db.Valid() && resetAt <= now
    requires id in Ids(ListSchedulable(db, now))
    ensures id in Ids(ListSchedulable(Tables.SetRateLimited(db, id, resetAt, now), now))
  {
    var d := Tables.SetRateLimited(db, id, resetAt, now);
    assert IsSchedulable(d.accounts[id], now);
  }

  /**
   * A reset instant in the future keeps the account out of every
   * schedulable list until it is reached; from then on only the other
   * three clauses decide.
   */
  lemma RateLimitGatesUntilReset(db: Db, id: int, resetAt: Timestamp, now: Timestamp, t: Timestamp)
    requires db.Valid() && IsLive(db.accounts, id)
    ensures var d := Tables.SetRateLimited(db, id, resetAt, now);
      && (t < resetAt ==> id !in Ids(ListSchedulable(d, t)))
      && (resetAt <= t ==> (id in Ids(ListSchedulable(d, t)) <==>
            db.accounts[id].status == StatusActive && db.accounts[id].schedulable && GateOpen(db.accounts[id].overloadUntil, t)))
  {
    var d := Tables.SetRateLimited(db, id, resetAt, now);
    assert d.accounts[id] == RateLimited(db.accounts[id], resetAt, now);
  }

  /** The overload gate works the same way, independently of the rate limit. */
  lemma OverloadGatesUntil(db: Db, id: int, until: Timestamp, now: Timestamp, t: Timestamp)
    requires db.Valid() && IsLive(db.accounts, id)
    ensures var d := Tables.SetOverloaded(db, id, until, now);
      && (t < until ==> id !in Ids(ListSchedulable(d, t)))
      && (until <= t ==> (id in Ids(ListSchedulable(d, t)) <==>
            db.accounts[id].status == StatusActive && db.accounts[id].schedulable && GateOpen(db.accounts[id].rateLimitResetAt, t)))
  {
    var d := Tables.SetOverloaded(db, id, until, now);
    assert d.accounts[id] == Overloaded(db.accounts[id], until, now);
  }

  /**
   * After `ClearRateLimit` both time gates are open at every instant, so
   * the account is schedulable exactly when it is active and its flag is set,
   * and neither of those changed.
   */
  lemma ClearRateLimitOpensGates(db: Db, id: int, now: Timestamp, t: Timestamp)
    requires db.Valid() && IsLive(db.accounts, id)
    ensures var d := Tables.ClearRateLimit(db, id, now);
      && GateOpen(d.accounts[id].overloadUntil, t) && GateOpen(d.accounts[id].rateLimitResetAt, t)
      && d.accounts[id].status == db.accounts[id].status && d.accounts[id].schedulable == db.accounts[id].schedulable
      && (id in Ids(ListSchedulable(d, t)) <==> db.accounts[id].status == StatusActive && db.accounts[id].schedulable)
  {
    var d := Tables.ClearRateLimit(db, id, now);
    assert d.accounts[id] == RateLimitCleared(db.accounts[id], now);
  }

  /** A rate limit followed by `ClearRateLimit` leaves an active, schedulable account eligible at every instant. */
  lemma RateLimitThenClear(db: Db, id: int, resetAt: Timestamp, now: Timestamp, later: Timestamp, t: Timestamp)
    requires db.Valid() && IsLive(db.accounts, id)
    requires db.accounts[id].status == StatusActive && db.accounts[id].schedulable
    ensures id in Ids(ListSchedulable(Tables.ClearRateLimit(Tables.SetRateLimited(db, id, resetAt, now), id, later), t))
  {
    var d1 := Tables.SetRateLimited(db, id, resetAt, now);
    assert d1.accounts[id] == RateLimited(db.accounts[id], resetAt, now);
    ClearRateLimitOpensGates(d1, id, later, t);
  }

  /** With the flag off the account is in no schedulable list, yet `ListActive` still shows it while it is active. */
  lemma UnschedulableStaysActive(db: Db, id: int, now: Timestamp, t: Timestamp, platform: string, platforms: seq<string>, groupId: int)
    requires db.Valid() && IsLive(db.accounts, id)
    ensures var d := Tables.SetSchedulable(db, id, false, now);
      && id !in Ids(ListSchedulable(d, t))
      && id !in Ids(ListSchedulableByPlatform(d, platform, t))
      && id !in Ids(ListSchedulableByPlatforms(d, platforms, t))
      && id !in Ids(ListSchedulableByGroupID(d, groupId, t))
      && id !in Ids(ListSchedulableByGroupIDAndPlatform(d, groupId, platform, t))
      && id !in Ids(ListSchedulableByGroupIDAndPlatforms(d, groupId, platforms, t))
      && (id in Ids(ListActive(d)) <==> db.accounts[id].status == StatusActive)
  {
    var d := Tables.SetSchedulable(db, id, false, now);
    assert d.accounts[id] == SchedulableSet(db.accounts[id], false, now);
  }

  /** Two lists hold the same accounts (their views may differ in columns no filter reads). */
  ghost predicate SameIds(r1: seq<Account>, r2: seq<Account>) {
    forall x :: x in Ids(r1) <==> x in Ids(r2)
  }

  /** Every row keeps its liveness and its eligibility at `t`. */
  ghost predicate SameEligibility(db: Db, d: Db, t: Timestamp) {
    && d.accounts.Keys == db.accounts.Keys
    && forall x :: x in db.accounts ==>
         d.accounts[x].deletedAt == db.accounts[x].deletedAt && IsSchedulable(d.accounts[x], t) == IsSchedulable(db.accounts[x], t)
  }

  lemma SameEligibilitySameCandidates(db: Db, d: Db, t: Timestamp)
    requires db.Valid() && d.Valid() && SameEligibility(db, d, t)
    ensures SameIds(ListSchedulable(d, t), ListSchedulable(db, t))
  {
  }

  /** Recording a use, one at a time or in a batch, never moves an account into or out of a schedulable list. */
  lemma LastUseKeepsCandidates(db: Db, id: int, updates: map<int, Timestamp>, now: Timestamp, t: Timestamp)
    requires db.Valid()
    ensures SameIds(ListSchedulable(Tables.UpdateLastUsed(db, id, now), t), ListSchedulable(db, t))
    ensures SameIds(ListSchedulable(Tables.BatchUpdateLastUsed(db, updates), t), ListSchedulable(db, t))
  {
    SameEligibilitySameCandidates(db, Tables.UpdateLastUsed(db, id, now), t);
    SameEligibilitySameCandidates(db, Tables.BatchUpdateLastUsed(db, updates), t);
  }

  /** Neither the session window nor `extra` takes part in eligibility. */
  lemma WindowAndExtraKeepCandidates(db: Db, id: int, start: Option<Timestamp>, end: Option<Timestamp>, status: string,
                                     extra: JsonMap, now: Timestamp, t: Timestamp)
    requires db.Valid()
    ensures SameIds(ListSchedulable(Tables.UpdateSessionWindow(db, id, start, end, status, now), t), ListSchedulable(db, t))
    ensures SameIds(ListSchedulable(Tables.UpdateExtra(db, id, extra, now).db, t), ListSchedulable(db, t))
  {
    SameEligibilitySameCandidates(db, Tables.UpdateSessionWindow(db, id, start, end, status, now), t);
    SameEligibilitySameCandidates(db, Tables.UpdateExtra(db, id, extra, now).db, t);
  }

  /** After `Delete` the account is in no list at all and in no group. */
  lemma DeleteRemovesEverywhere(db: Db, id: int, now: Timestamp, t: Timestamp, platform: string, platforms: seq<string>,
                                 groupId: int, accountType: string, status: string)
    requires db.Valid()
    ensures var d := Tables.Delete(db, id, now);
      && id !in Ids(ListSchedulable(d, t))
      && id !in Ids(ListSchedulableByPlatform(d, platform, t))
      && id !in Ids(ListSchedulableByPlatforms(d, platforms, t))
      && id !in Ids(ListSchedulableByGroupID(d, groupId, t))
      && id !in Ids(ListSchedulableByGroupIDAndPlatform(d, groupId, platform, t))
      && id !in Ids(ListSchedulableByGroupIDAndPlatforms(d, groupId, platforms, t))
      && id !in Ids(ListActive(d))
      && id !in Ids(ListByPlatform(d, platform))
      && id !in Ids(ListByGroup(d, groupId))
      && id !in Ids(List(d).accounts)
      && id !in Ids(ListWithFilters(d, platform, accountType, status).accounts)
      && forall k :: k in d.accountGroups ==> k.0 != id
  {
  }

  /**
   * Binding `[g3, g1, g2]` gives them priorities 1, 2, 3; binding `[g2]`
   * afterwards is a full replace: g3 and g1 are gone and g2 is first.
   */
  lemma BindGroupsReplaces(db: Db, id: int, g1: int, g2: int, g3: int, now: Timestamp, later: Timestamp)
    requires g1 != g2 && g2 != g3 && g1 != g3
    ensures var e1 := Tables.BindGroups(db, id, [g3, g1, g2], now);
      && e1.result == Ok
      && (id, g3) in e1.db.accountGroups && (id, g1) in e1.db.accountGroups && (id, g2) in e1.db.accountGroups
      && e1.db.accountGroups[(id, g3)] == MembershipRow(1, now)
      && e1.db.accountGroups[(id, g1)] == MembershipRow(2, now)
      && e1.db.accountGroups[(id, g2)] == MembershipRow(3, now)
    ensures var e2 := Tables.BindGroups(Tables.BindGroups(db, id, [g3, g1, g2], now).db, id, [g2], later);
      && e2.result == Ok
      && (id, g3) !in e2.db.accountGroups && (id, g1) !in e2.db.accountGroups && (id, g2) in e2.db.accountGroups
      && e2.db.accountGroups[(id, g2)] == MembershipRow(1, later)
  {
    var gs := [g3, g1, g2];
    assert Distinct(gs);
    BindGroupsOutcome(db, id, gs, now);
    var e1 := Tables.BindGroups(db, id, gs, now);
    assert gs[0] == g3 && gs[1] == g1 && gs[2] == g2;
    assert Distinct([g2]);
    BindGroupsOutcome(e1.db, id, [g2], later);
    assert [g2][0] == g2;
  }

  /** A binding that repeats a group fails, and the account has lost its old memberships. */
  lemma BindGroupsDuplicateFails(db: Db, id: int, g: int, now: Timestamp)
    ensures var e := Tables.BindGroups(db, id, [g, g], now);
      && e.result == Err(DuplicateKey)
      && forall k :: k in e.db.accountGroups ==> k.0 != id
  {
    assert !Distinct([g, g]) by {
      assert [g, g][0] == [g, g][1];
    }
    BindGroupsOutcome(db, id, [g, g], now);
  }

  /** A row with the given id, platform, priority and gates, otherwise active and schedulable. */
  function Candidate(id: int, platform: string, priority: int, overloadUntil: Option<Timestamp>): AccountModel {
    AccountModel(id, "", platform, "", None, None, None, 3, priority, StatusActive, "", None, 0, 0, None,
                 true, None, None, overloadUntil, None, None, "", [])
  }

  /** A list of distinct live views whose only id is `x` is the one view of `x`. */
  lemma {:induction false} OnlyCandidate(db: Db, r: seq<Account>, x: int)
    requires ViewsOfLiveRows(db, r) && DistinctIds(r)
    requires x in db.accounts && forall y :: y in Ids(r) <==> y == x
    ensures r == [AccountModelToService(db.accounts[x])]
  {
    assert x in Ids(r);
    forall i | 0 <= i < |r| ensures r[i].id == x {
      assert Ids(r)[i] in Ids(r);
    }
    if |r| >= 2 {
      FirstTwoDiffer(r);
      assert false;
    }
  }

  /** Distinct ids: the first two listed accounts differ. */
  lemma FirstTwoDiffer(r: seq<Account>)
    requires DistinctIds(r) && |r| >= 2
    ensures r[0].id != r[1].id
  {
  }

  /**
   * A at priority 10 with no gates, B at priority 5 overloaded for another
   * hour: the platform's schedulable list is A alone, its lower priority
   * number notwithstanding.
   */
  lemma OverloadedAccountSkipped(idA: int, idB: int, platform: string, now: Timestamp)
    requires idA != idB
    ensures var db := Db(map[idA := Candidate(idA, platform, 10, None), idB := Candidate(idB, platform, 5, Some(now + 3600))], map[]);
      db.Valid() && ListSchedulableByPlatform(db, platform, now) == [AccountModelToService(db.accounts[idA])]
  {
    var db := Db(map[idA := Candidate(idA, platform, 10, None), idB := Candidate(idB, platform, 5, Some(now + 3600))], map[]);
    assert db.Valid();
    var r := ListSchedulableByPlatform(db, platform, now);
    assert !IsSchedulable(db.accounts[idB], now);
    assert IsSchedulable(db.accounts[idA], now);
    assert forall x :: x in Ids(r) <==> x == idA;
    OnlyCandidate(db, r, idA);
  }
}
