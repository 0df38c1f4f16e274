/** Sequences of calls on one participant, and what holds across all of them:
    the bookkeeping of `extra_participations_received`, the stamp that is never
    cleared, the conservation of the counter, and the time bonus being granted
    at most once per period. */
module Traces {
  import opened Periods
  import opened Quota

  /** A call a caller makes on a participant: `participate` at an instant, or
      `add_extra_participation(number)`. */
  datatype Call = ParticipateAt(now: int) | AddExtra(number: nat)

  /** The record after the calls, and the outcome of each `participate`, in
      order. */
  function Replay(r: Record, policy: Policy, calls: seq<Call>): (Record, seq<Outcome>)
    decreases |calls|
  {
    if calls == [] then (r, [])
    else match calls[0]
      case ParticipateAt(now) =>
        var step := Participate(r, policy, now);
        var rest := Replay(step.1, policy, calls[1..]);
        (rest.0, [step.0] + rest.1)
      case AddExtra(number) =>
        Replay(AddExtraParticipation(r, number), policy, calls[1..])
  }

  /** The participations added by the `add_extra_participation` calls. */
  function Granted(calls: seq<Call>): nat
  {
    if calls == [] then 0
    else (if calls[0].AddExtra? then calls[0].number else 0) + Granted(calls[1..])
  }

  /** How many `participate` calls were admitted. */
  function Admitted(outcomes: seq<Outcome>): nat
  {
    if outcomes == [] then 0
    else (if outcomes[0] == Participated then 1 else 0) + Admitted(outcomes[1..])
  }

  /** `extra_participations_received` counts exactly the explicit additions;
      participations from the time bonus never show up in it. */
  lemma {:induction false} ReplayExtraReceived(r: Record, policy: Policy, calls: seq<Call>)
    ensures Replay(r, policy, calls).0.extraReceived == r.extraReceived + Granted(calls)
    decreases |calls|
  {
    if calls != [] {
      match calls[0]
      case ParticipateAt(now) =>
        ReplayExtraReceived(Participate(r, policy, now).1, policy, calls[1..]);
      case AddExtra(number) =>
        ReplayExtraReceived(AddExtraParticipation(r, number), policy, calls[1..]);
    }
  }

  /** The stamp is present at the end exactly when it was present at the start
      or some `participate` was admitted: once set it is never cleared. */
  lemma {:induction false} ReplayStamp(r: Record, policy: Policy, calls: seq<Call>)
    ensures Replay(r, policy, calls).0.lastParticipatedAt.Some? <==>
              r.lastParticipatedAt.Some? || Admitted(Replay(r, policy, calls).1) > 0
    decreases |calls|
  {
    if calls != [] {
      match calls[0]
      case ParticipateAt(now) =>
        var step := Participate(r, policy, now);
        ReplayStamp(step.1, policy, calls[1..]);
        assert Replay(r, policy, calls).1 == [step.0] + Replay(step.1, policy, calls[1..]).1;
      case AddExtra(number) =>
        ReplayStamp(AddExtraParticipation(r, number), policy, calls[1..]);
    }
  }

  /** Under the base rule every admitted participation used up one unit of the
      counter: what is left plus what was used is what there was plus what was
      added. */
  lemma {:induction false} ReplayLimitedCounter(r: Record, calls: seq<Call>)
    ensures var (final, outcomes) := Replay(r, Limited, calls);
            final.timesLeft + Admitted(outcomes) == r.timesLeft + Granted(calls)
    decreases |calls|
  {
    if calls != [] {
      match calls[0]
      case ParticipateAt(now) =>
        var step := Participate(r, Limited, now);
        ReplayLimitedCounter(step.1, calls[1..]);
        assert Replay(r, Limited, calls).1 == [step.0] + Replay(step.1, Limited, calls[1..]).1;
      case AddExtra(number) =>
        ReplayLimitedCounter(AddExtraParticipation(r, number), calls[1..]);
    }
  }

  /** Under either rule the counter never grows except by additions, and every
      unit of it that is gone was spent on an admitted participation; the time
      bonus can only add admissions, never units. */
  lemma {:induction false} ReplayCounterBounds(r: Record, policy: Policy, calls: seq<Call>)
    ensures var (final, outcomes) := Replay(r, policy, calls);
            final.timesLeft <= r.timesLeft + Granted(calls) &&
            r.timesLeft + Granted(calls) <= final.timesLeft + Admitted(outcomes)
    decreases |calls|
  {
    if calls != [] {
      match calls[0]
      case ParticipateAt(now) =>
        var step := Participate(r, policy, now);
        ReplayCounterBounds(step.1, policy, calls[1..]);
        assert Replay(r, policy, calls).1 == [step.0] + Replay(step.1, policy, calls[1..]).1;
      case AddExtra(number) =>
        ReplayCounterBounds(AddExtraParticipation(r, number), policy, calls[1..]);
    }
  }

  /** Within the period that starts at `b`, and with every `participate`
      after that start instant, the participant is admitted at most once more
      than the counter and the additions allow, and only if the bonus was open
      at the period's start. */
  lemma {:induction false} AtMostOneBonusPerPeriod(r: Record, p: Period, b: int, calls: seq<Call>)
    requires IsPeriodStart(p, b)
    requires forall i :: 0 <= i < |calls| && calls[i].ParticipateAt? ==>
               CurrentPeriod(p, calls[i].now) == b < calls[i].now
    ensures Admitted(Replay(r, ExtraTime(p), calls).1) <=
              r.timesLeft + Granted(calls) + (if ExtraParticipationFromTime(r, p, b) then 1 else 0)
    decreases |calls|
  {
    CurrentPeriodUnique(p, b, b);
    if calls != [] {
      assert forall i :: 0 <= i < |calls[1..]| ==> calls[1..][i] == calls[i + 1];
      match calls[0]
      case ParticipateAt(now) =>
        var step := Participate(r, ExtraTime(p), now);
        assert CurrentPeriod(p, now) == b < now;
        AtMostOneBonusPerPeriod(step.1, p, b, calls[1..]);
        assert Replay(r, ExtraTime(p), calls).1 == [step.0] + Replay(step.1, ExtraTime(p), calls[1..]).1;
      case AddExtra(number) =>
        AtMostOneBonusPerPeriod(AddExtraParticipation(r, number), p, b, calls[1..]);
    }
  }

  /** Any number of `participate` calls exactly at a period start, on a
      participant stamped at that start with the counter used up, are all
      admitted from the bonus and leave the record as it was. */
  lemma {:induction false} RepeatedBonusAtPeriodStart(p: Period, b: int, extra: nat, calls: seq<Call>)
    requires IsPeriodStart(p, b)
    requires forall i :: 0 <= i < |calls| ==> calls[i] == ParticipateAt(b)
    ensures var (final, outcomes) := Replay(Record(0, Some(b), extra), ExtraTime(p), calls);
            final == Record(0, Some(b), extra) &&
            |outcomes| == |calls| && forall i :: 0 <= i < |outcomes| ==> outcomes[i] == Participated
    decreases |calls|
  {
    if calls != [] {
      var r := Record(0, Some(b), extra);
      BonusAtPeriodStartIsFixedPoint(p, b, extra);
      assert forall i :: 0 <= i < |calls[1..]| ==> calls[1..][i] == calls[i + 1];
      RepeatedBonusAtPeriodStart(p, b, extra, calls[1..]);
      var rest := Replay(r, ExtraTime(p), calls[1..]);
      assert Replay(r, ExtraTime(p), calls) == (rest.0, [Participated] + rest.1);
    }
  }

  /** Because the bonus test is inclusive, a participant that used up its
      counter in one period and is admitted from the bonus exactly at the next
      period's start is admitted from the bonus again right after it, in the
      same period. */
  lemma TwoBonusesFromPeriodStart(p: Period, b: int, extra: nat)
    requires IsPeriodStart(p, b)
    requires 2 <= p.length
    ensures var (final, outcomes) := Replay(Record(0, Some(b - 1), extra), ExtraTime(p),
                                           [ParticipateAt(b), ParticipateAt(b + 1)]);
            outcomes == [Participated, Participated] && final == Record(0, Some(b + 1), extra)
  {
    var r := Record(0, Some(b - 1), extra);
    var calls := [ParticipateAt(b), ParticipateAt(b + 1)];
    CurrentPeriodUnique(p, b, b);
    CurrentPeriodUnique(p, b + 1, b);
    var first := Participate(r, ExtraTime(p), b);
    assert first == (Participated, Record(0, Some(b), extra));
    var second := Participate(first.1, ExtraTime(p), b + 1);
    assert second == (Participated, Record(0, Some(b + 1), extra));
    var tail := [ParticipateAt(b + 1)];
    assert calls[1..] == tail && tail[0] == ParticipateAt(b + 1) && tail[1..] == [];
    assert Replay(second.1, ExtraTime(p), tail[1..]) == (second.1, []);
    assert [Participated] + [] == [Participated];
    assert Replay(first.1, ExtraTime(p), tail) == (second.1, [Participated]);
  }
}
