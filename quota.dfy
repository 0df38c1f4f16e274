/** The participation quota as a value: the three persisted fields of
    `LimitedParticipation`, the admission rules of `LimitedParticipation` and
    `ExtraParticipationTime`, and the transitions `participate`,
    `add_extra_participation` and `_set_finished_participation`. The class in
    module Participants performs these transitions in place; the functions here
    are what its methods are proved against. */
module Quota {
  import opened Periods

  datatype Option<T> = None | Some(value: T)

  /** `participation_times_left`, `last_participated_at` (an instant, absent
      until first stamped) and `extra_participations_received`. */
  datatype Record = Record(timesLeft: nat, lastParticipatedAt: Option<int>, extraReceived: nat)

  /** Which admission rule applies: the counter alone (`LimitedParticipation`)
      or the counter plus the time bonus of a period (`ExtraParticipationTime`). */
  datatype Policy = Limited | ExtraTime(period: Period)

  /** What `participate` does: return normally, or raise `NoMoreParticipation`. */
  datatype Outcome = Participated | NoMoreParticipation

  /** The field defaults of a newly created participant. */
  function Initial(): Record
  {
    Record(1, None, 0)
  }

  /** `get_extra_participation_from_time`: the participant has been stamped,
      and the current period started at or after that stamp. Equivalently, a
      period boundary was reached since the stamp. */
  predicate ExtraParticipationFromTime(r: Record, p: Period, now: int)
    ensures ExtraParticipationFromTime(r, p, now) <==>
              r.lastParticipatedAt.Some? && PeriodStartReached(p, r.lastParticipatedAt.value, now)
  {
    match r.lastParticipatedAt
    case None => false
    case Some(t) =>
      CurrentPeriodReached(p, t, now);
      CurrentPeriod(p, now) >= t
  }

  /** `can_participate` as each class defines it: the counter alone, or the
      counter or a period boundary reached since the stamp. */
  predicate CanParticipate(r: Record, policy: Policy, now: int)
    ensures CanParticipate(r, policy, now) <==>
              r.timesLeft > 0 ||
              (policy.ExtraTime? && r.lastParticipatedAt.Some? &&
               PeriodStartReached(policy.period, r.lastParticipatedAt.value, now))
  {
    match policy
    case Limited => r.timesLeft > 0
    case ExtraTime(p) => r.timesLeft > 0 || ExtraParticipationFromTime(r, p, now)
  }

  /** `participate` at instant `now`: refuse when not admitted; otherwise take
      one from the counter only if it is positive, and stamp `now`. */
  function Participate(r: Record, policy: Policy, now: int): (Outcome, Record)
  {
    if !CanParticipate(r, policy, now) then (NoMoreParticipation, r)
    else if r.timesLeft > 0 then
      (Participated, r.(timesLeft := r.timesLeft - 1, lastParticipatedAt := Some(now)))
    else
      (Participated, r.(lastParticipatedAt := Some(now)))
  }

  /** `add_extra_participation(number)`. */
  function AddExtraParticipation(r: Record, number: nat): Record
  {
    r.(timesLeft := r.timesLeft + number, extraReceived := r.extraReceived + number)
  }

  /** `_set_finished_participation` at instant `now`. */
  function SetFinishedParticipation(r: Record, p: Period, now: int): Record
  {
    if r.timesLeft == 0 && (r.lastParticipatedAt.None? || ExtraParticipationFromTime(r, p, now))
    then r.(lastParticipatedAt := Some(now))
    else r
  }

  /** A new participant may participate under either rule, and is never
      offered the time bonus, whatever the instant and the period. */
  lemma InitialAdmitted(policy: Policy, now: int)
    ensures CanParticipate(Initial(), policy, now)
    ensures forall p: Period :: !ExtraParticipationFromTime(Initial(), p, now)
  {
  }

  /** How the two rules compare: the base rule does not depend on the clock;
      whoever it admits, the time rule admits too; and the two agree on a
      participant that was never stamped. */
  lemma AdmissionRulesCompared(r: Record, p: Period, now: int, other: int)
    ensures CanParticipate(r, Limited, now) == CanParticipate(r, Limited, other)
    ensures CanParticipate(r, Limited, now) ==> CanParticipate(r, ExtraTime(p), now)
    ensures r.lastParticipatedAt.None? ==>
              (CanParticipate(r, ExtraTime(p), now) <==> CanParticipate(r, Limited, now))
  {
  }

  /** One full period after the stamp, the time bonus is open again. */
  lemma NextPeriodOpensBonus(r: Record, p: Period, t: int, now: int)
    requires r.lastParticipatedAt == Some(t)
    requires now >= t + p.length
    ensures ExtraParticipationFromTime(r, p, now)
    ensures CanParticipate(r, ExtraTime(p), now)
  {
  }

  /** A participation paid for by the time bonus leaves the counter at 0,
      stamps `now`, and closes the bonus for every later call whose period
      started before `now`: in particular for the rest of the same period when
      `now` is not itself a period start. */
  lemma BonusParticipation(r: Record, p: Period, now: int, later: int)
    requires r.timesLeft == 0
    requires ExtraParticipationFromTime(r, p, now)
    requires CurrentPeriod(p, later) < now || (CurrentPeriod(p, now) < now <= later < CurrentPeriod(p, now) + p.length)
    ensures Participate(r, ExtraTime(p), now).0 == Participated
    ensures Participate(r, ExtraTime(p), now).1 == r.(lastParticipatedAt := Some(now))
    ensures Participate(Participate(r, ExtraTime(p), now).1, ExtraTime(p), later).0 == NoMoreParticipation
  {
    if CurrentPeriod(p, now) <= later < CurrentPeriod(p, now) + p.length {
      SamePeriod(p, now, later);
    }
  }

  /** The bonus test is inclusive: a stamp placed exactly on a period start
      leaves the bonus open for that whole period. */
  lemma StampOnPeriodStartKeepsBonus(r: Record, p: Period, b: int, later: int)
    requires IsPeriodStart(p, b)
    requires r.lastParticipatedAt == Some(b)
    requires b <= later < b + p.length
    ensures ExtraParticipationFromTime(r, p, later)
  {
    CurrentPeriodUnique(p, later, b);
  }

  /** A participant with the counter used up and stamped exactly on a period
      start is admitted at that instant from the bonus, and the call leaves the
      record as it was: every further call at the same instant is admitted
      too. */
  lemma BonusAtPeriodStartIsFixedPoint(p: Period, b: int, extra: nat)
    requires IsPeriodStart(p, b)
    ensures Participate(Record(0, Some(b), extra), ExtraTime(p), b) ==
              (Participated, Record(0, Some(b), extra))
  {
    CurrentPeriodUnique(p, b, b);
  }

  /** `_set_finished_participation` with the counter used up, at an instant
      after its period's start, leaves the bonus closed for the rest of that
      period, whether it stamps or not. */
  lemma SetFinishedClosesPeriod(r: Record, p: Period, now: int, later: int)
    requires r.timesLeft == 0
    requires CurrentPeriod(p, now) < now <= later < CurrentPeriod(p, now) + p.length
    ensures !ExtraParticipationFromTime(SetFinishedParticipation(r, p, now), p, later)
  {
    SamePeriod(p, now, later);
  }

  /** Calling `_set_finished_participation` again at the same instant changes
      nothing more, and it never touches the counters. */
  lemma SetFinishedIdempotent(r: Record, p: Period, now: int)
    ensures var once := SetFinishedParticipation(r, p, now);
            SetFinishedParticipation(once, p, now) == once &&
            once.timesLeft == r.timesLeft && once.extraReceived == r.extraReceived
  {
  }
}
