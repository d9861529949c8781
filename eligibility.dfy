/**
 * The four-clause filter shared by every `ListSchedulable*` query:
 * `status = 'active' AND schedulable = true
 *  AND (overload_until IS NULL OR overload_until <= now)
 *  AND (rate_limit_reset_at IS NULL OR rate_limit_reset_at <= now)`.
 */
module Eligibility {
  import opened Wrappers
  import opened Models

  /** A time gate is open when it was never set or its instant has been reached. */
  predicate GateOpen(gate: Option<Timestamp>, now: Timestamp) {
    gate.None? || gate.value <= now
  }

  /**
   * The account may be picked at `now`: it is active and flagged, and no gate
   * holds an instant that still lies ahead of `now` (a NULL gate never blocks).
   */
  predicate IsSchedulable(a: AccountModel, now: Timestamp): (r: bool)
    ensures r <==>
      && a.status == StatusActive
      && a.schedulable
      && !(a.overloadUntil.Some? && now < a.overloadUntil.value)
      && !(a.rateLimitResetAt.Some? && now < a.rateLimitResetAt.value)
  {
    && a.status == StatusActive
    && a.schedulable
    && GateOpen(a.overloadUntil, now)
    && GateOpen(a.rateLimitResetAt, now)
  }

  /** A null gate and a gate already in the past give the same answer. */
  lemma NullAndPastGatesAgree(a: AccountModel, past: Timestamp, now: Timestamp)
    requires past <= now
    ensures IsSchedulable(a.(overloadUntil := None), now) == IsSchedulable(a.(overloadUntil := Some(past)), now)
    ensures IsSchedulable(a.(rateLimitResetAt := None), now) == IsSchedulable(a.(rateLimitResetAt := Some(past)), now)
  {
  }

  /** Eligibility is a function of the clock: once every gate has opened, later instants keep it open. */
  lemma SchedulableLater(a: AccountModel, now: Timestamp, later: Timestamp)
    requires now <= later && IsSchedulable(a, now)
    ensures IsSchedulable(a, later)
  {
  }

  /** The session window is informational: it never takes part in the filter. */
  lemma SessionWindowDoesNotGate(a: AccountModel, start: Option<Timestamp>, end: Option<Timestamp>, status: string, now: Timestamp)
    ensures IsSchedulable(a.(sessionWindowStart := start, sessionWindowEnd := end, sessionWindowStatus := status), now)
         == IsSchedulable(a, now)
  {
  }
}
