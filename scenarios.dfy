/** Clients of the `Participant` class that walk through the behaviour the
    test suite describes: a new participant, using up every participation,
    being refused, receiving an extra participation, and the daily bonus. */
module Scenarios {
  import opened Periods
  import opened Quota
  import opened Participants

  /** Call `participate` once for each instant, starting with exactly as many
      participations left as there are instants: each call is admitted, the
      counter ends at 0, and the stamp is the last instant. */
  method UseUpAllParticipations(p: Participant, instants: seq<int>) returns (outcomes: seq<Outcome>)
    requires p.participationTimesLeft == |instants|
    modifies p
    ensures outcomes == seq(|instants|, _ => Participated)
    ensures p.participationTimesLeft == 0
    ensures p.lastParticipatedAt == if instants == [] then old(p.lastParticipatedAt) else Some(instants[|instants| - 1])
    ensures p.extraParticipationsReceived == old(p.extraParticipationsReceived)
  {
    outcomes := [];
    var i := 0;
    while i < |instants|
      invariant 0 <= i <= |instants|
      invariant p.participationTimesLeft == |instants| - i
      invariant outcomes == seq(i, _ => Participated)
      invariant p.lastParticipatedAt == if i == 0 then old(p.lastParticipatedAt) else Some(instants[i - 1])
      invariant p.extraParticipationsReceived == old(p.extraParticipationsReceived)
    {
      var outcome := p.Participate(instants[i]);
      outcomes := outcomes + [outcome];
      i := i + 1;
    }
  }

  /** A participant that was just created can participate. */
  method NewParticipantCanParticipate(policy: Policy, now: int) returns (can: bool)
    ensures can
  {
    var p := new Participant(policy);
    can := p.CanParticipate(now);
  }

  /** Participating lowers the times left by one. */
  method ParticipatingLowersTimesLeft(policy: Policy, now: int) returns (before: nat, after: nat)
    ensures after == before - 1
  {
    var p := new Participant(policy);
    before := p.participationTimesLeft;
    var _ := p.Participate(now);
    after := p.participationTimesLeft;
  }

  /** Using up every participation leaves the counter at 0 and the stamp set. */
  method UsedUpParticipantIsMarked(policy: Policy, now: int) returns (left: nat, stamp: Option<int>)
    ensures left == 0 && stamp == Some(now)
  {
    var p := new Participant(policy);
    var _ := UseUpAllParticipations(p, [now]);
    left, stamp := p.participationTimesLeft, p.lastParticipatedAt;
  }

  /** Under the base rule, participating once more than allowed is refused,
      however much later it is tried. */
  method ParticipatingMoreThanAllowedIsRefused(now: int, later: int) returns (outcome: Outcome)
    ensures outcome == NoMoreParticipation
  {
    var p := new Participant(Limited);
    var _ := UseUpAllParticipations(p, [now]);
    outcome := p.Participate(later);
  }

  /** One extra participation raises the times left to two and is recorded as
      received. */
  method ReceivingAnExtraParticipation(policy: Policy) returns (left: nat, received: nat)
    ensures left == 2 && received == 1
  {
    var p := new Participant(policy);
    p.AddExtraParticipation();
    left, received := p.participationTimesLeft, p.extraParticipationsReceived;
  }

  /** Under the daily rule: use up the one participation at `first`; a call at
      `again`, whose local day started before `first`, is refused; a call a day
      or more after `first` is admitted from the time bonus, which stamps it and
      leaves the counter at 0. */
  method DailyParticipatesAgainNextDay(utcOffset: int, first: int, again: int, nextDay: int)
    returns (refused: Outcome, admitted: Outcome, left: nat, stamp: Option<int>, received: nat)
    requires CurrentPeriod(Daily(utcOffset), again) < first
    requires first + Day <= nextDay
    ensures refused == NoMoreParticipation && admitted == Participated
    ensures left == 0 && stamp == Some(nextDay) && received == 0
  {
    var p := new Participant(ExtraTime(Daily(utcOffset)));
    var _ := UseUpAllParticipations(p, [first]);
    refused := p.Participate(again);
    admitted := p.Participate(nextDay);
    left, stamp, received := p.participationTimesLeft, p.lastParticipatedAt, p.extraParticipationsReceived;
  }

  /** Under the daily rule, right after using up the counter at an instant past
      local midnight, no time bonus is open. */
  method FinishedParticipantHasNoTimeBonus(utcOffset: int, now: int) returns (left: nat, bonus: bool)
    requires CurrentPeriod(Daily(utcOffset), now) < now
    ensures left == 0 && !bonus
  {
    var p := new Participant(ExtraTime(Daily(utcOffset)));
    var _ := UseUpAllParticipations(p, [now]);
    left := p.participationTimesLeft;
    bonus := p.ExtraParticipationFromTime(now);
  }

  /** Three extra participations on a new participant give four, and three
      participations are then paid from the counter alone, leaving one. */
  method ThreeExtraParticipations(policy: Policy, t1: int, t2: int, t3: int)
    returns (outcomes: seq<Outcome>, left: nat, received: nat)
    ensures outcomes == [Participated, Participated, Participated]
    ensures left == 1 && received == 3
  {
    var p := new Participant(policy);
    p.AddExtraParticipation(3);
    var o1 := p.Participate(t1);
    var o2 := p.Participate(t2);
    var o3 := p.Participate(t3);
    outcomes := [o1, o2, o3];
    left, received := p.participationTimesLeft, p.extraParticipationsReceived;
  }
}
