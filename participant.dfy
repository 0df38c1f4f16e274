/** The participant record that callers hold and mutate in place.

    The source has a base class, `LimitedParticipation`, and a subclass,
    `ExtraParticipationTime`, that overrides `can_participate`; `participate`
    and `add_extra_participation` are inherited and call whichever
    `can_participate` the object has. Here one class carries the admission
    rule as a constant `policy`, and `CanParticipate` dispatches on it. */
module Participants {
  import opened Periods
  import opened Quota

  class Participant {
    /** `Limited` for a `LimitedParticipation`, `ExtraTime(p)` for an
        `ExtraParticipationTime` whose `get_current_period` is that of `p`. */
    const policy: Policy
    var participationTimesLeft: nat
    var lastParticipatedAt: Option<int>
    var extraParticipationsReceived: nat

    /** The persisted fields as a value. */
    function AsRecord(): Record
      reads this
    {
      Record(participationTimesLeft, lastParticipatedAt, extraParticipationsReceived)
    }

    /** A new participant with the fields' defaults. */
    constructor (policy: Policy)
      ensures this.policy == policy
      ensures participationTimesLeft == 1
      ensures lastParticipatedAt == None
      ensures extraParticipationsReceived == 0
      ensures AsRecord() == Initial()
    {
      this.policy := policy;
      participationTimesLeft := 1;
      lastParticipatedAt := None;
      extraParticipationsReceived := 0;
    }

    /** `can_participate` at instant `now`: the base class's counter test, or
        the subclass's counter-or-bonus test. */
    predicate CanParticipate(now: int)
      reads this
      ensures policy.Limited? ==> (CanParticipate(now) <==> participationTimesLeft > 0)
      ensures policy.ExtraTime? ==>
                (CanParticipate(now) <==> participationTimesLeft > 0 || ExtraParticipationFromTime(now))
    {
      Quota.CanParticipate(AsRecord(), policy, now)
    }

    /** `get_extra_participation_from_time` at instant `now`; it exists only on
        `ExtraParticipationTime`. */
    predicate ExtraParticipationFromTime(now: int)
      requires policy.ExtraTime?
      reads this
      ensures ExtraParticipationFromTime(now) <==>
                lastParticipatedAt.Some? && PeriodStartReached(policy.period, lastParticipatedAt.value, now)
    {
      Quota.ExtraParticipationFromTime(AsRecord(), policy.period, now)
    }

    /** `participate` at instant `now`. A refusal is the outcome
        `NoMoreParticipation` and leaves every field as it was. */
    method Participate(now: int) returns (outcome: Outcome)
      modifies this
      ensures outcome == Participated <==> old(CanParticipate(now))
      ensures outcome == NoMoreParticipation ==> unchanged(this)
      ensures outcome == Participated ==> lastParticipatedAt == Some(now)
      ensures outcome == Participated && old(participationTimesLeft) > 0 ==>
                participationTimesLeft == old(participationTimesLeft) - 1
      ensures outcome == Participated && old(participationTimesLeft) == 0 ==>
                participationTimesLeft == 0
      ensures extraParticipationsReceived == old(extraParticipationsReceived)
      ensures (outcome, AsRecord()) == Quota.Participate(old(AsRecord()), policy, now)
    {
      if !CanParticipate(now) {
        return NoMoreParticipation;
      } else if participationTimesLeft > 0 {
        participationTimesLeft := participationTimesLeft - 1;
      }
      lastParticipatedAt := Some(now);
      outcome := Participated;
    }

    /** `add_extra_participation(number)`, by default one. */
    method AddExtraParticipation(number: nat := 1)
      modifies this
      ensures participationTimesLeft == old(participationTimesLeft) + number
      ensures extraParticipationsReceived == old(extraParticipationsReceived) + number
      ensures lastParticipatedAt == old(lastParticipatedAt)
      ensures AsRecord() == Quota.AddExtraParticipation(old(AsRecord()), number)
    {
      participationTimesLeft := participationTimesLeft + number;
      extraParticipationsReceived := extraParticipationsReceived + number;
    }

    /** `_set_finished_participation` at instant `now`: stamp `now` once the
        counter is used up, if never stamped before or if the time bonus is
        open; otherwise change nothing. */
    method SetFinishedParticipation(now: int)
      requires policy.ExtraTime?
      modifies this
      ensures var fires := old(participationTimesLeft) == 0 &&
                (old(lastParticipatedAt).None? || old(ExtraParticipationFromTime(now)));
              lastParticipatedAt == (if fires then Some(now) else old(lastParticipatedAt))
      ensures participationTimesLeft == old(participationTimesLeft)
      ensures extraParticipationsReceived == old(extraParticipationsReceived)
      ensures AsRecord() == Quota.SetFinishedParticipation(old(AsRecord()), policy.period, now)
    {
      if participationTimesLeft == 0 && (lastParticipatedAt.None? || ExtraParticipationFromTime(now)) {
        lastParticipatedAt := Some(now);
      }
    }
  }
}
