# Participation quota (django-referee)

A Dafny model of the participant quota of django-referee: a per-participant
record that says how many more times the participant may take part, when it
last took part, and how many participations it was given on top of the
default. Two rules decide admission:

- `LimitedParticipation`: a participant may participate while
  `participation_times_left` is positive. `participate` takes one from the
  counter and stamps the current instant. When it is refused, it raises
  `NoMoreParticipation`.
- `ExtraParticipationTime`: a participant may also participate once the
  current period started at or after the last stamp (the time bonus). The
  default period is the local day. A participant that was never stamped gets
  no bonus. A participation paid for by the bonus leaves the counter at 0 and
  only moves the stamp.

Layout:

- `periods.dfy` (module `Periods`): `get_current_period`. A period has a
  length in seconds and a UTC offset. `CurrentPeriod` is the latest period
  start at or before an instant, and it is proved to be the only one.
  `Daily(offset)` is the default period: it starts at local midnight.
- `quota.dfy` (module `Quota`): the three fields as a value `Record`, the two
  admission rules as `Policy`, and the transitions as functions. It also holds
  the one-step lemmas.
- `participant.dfy` (module `Participants`): the class `Participant`. Its
  methods update the fields in place, as the source's methods do. Each method
  is proved to produce the record that the `Quota` function gives. Python
  inheritance becomes a constant `policy`: `participate` and
  `add_extra_participation` are written once, and `CanParticipate` dispatches
  on the rule, as the overridden `can_participate` property does in the source.
- `traces.dfy` (module `Traces`): `Replay` runs a sequence of `participate`
  and `add_extra_participation` calls. Its lemmas state what holds over every
  such sequence.
- `scenarios.dfy` (module `Scenarios`): methods that drive the class through
  the situations the test suite checks.

Instants are integers (seconds). The clock is the parameter `now` of every
call that reads it.

The bonus test `get_current_period() >= last_participated_at` is inclusive.
So a participant stamped exactly on a period start keeps the bonus for that
whole period. A bonus participation made exactly at the start instant
re-stamps that same instant and leaves the record as it was, so any number of
calls at that instant are all admitted, and one more call after it is admitted
too (`BonusAtPeriodStartIsFixedPoint`, `RepeatedBonusAtPeriodStart`,
`TwoBonusesFromPeriodStart`). The model keeps the code's inclusive comparison.
`AtMostOneBonusPerPeriod` proves the once-per-period limit for calls made
after the period's start instant.

## Model

| member | source | states |
|---|---|---|
| `Periods.CurrentPeriod` | referee/models/participant.py:121-126 | the current period's start is a period start (local midnight for the daily period), at or before `now`, and less than one period before it |
| `Periods.CurrentPeriodUnique` | referee/models/participant.py:121-126 | any period start at or before `now` and less than one period before it is the current period's start |
| `Periods.SamePeriod` | referee/models/participant.py:121-126 | every instant between a period's start and its end has that same current period |
| `Periods.CurrentPeriodReached` | referee/models/participant.py:121-126 | the current period started at or after an instant `t` exactly when some period start lies between `t` and `now`: `CurrentPeriod` is the latest period start at or before `now` |
| `Quota.InitialAdmitted` | referee/models/participant.py:42-52 | a record with the field defaults (1, no stamp, 0) is admitted under both rules and never has the time bonus |
| `Quota.ExtraParticipationFromTime` | referee/models/participant.py:112-119 | the time bonus is open exactly when the participant has a stamp and a period boundary was reached at or after it, no later than `now`; never without a stamp |
| `Quota.CanParticipate` | referee/models/participant.py:57-59 | admitted exactly when the counter is positive or, under the time rule only, a period boundary was reached since the stamp |
| `Quota.AdmissionRulesCompared` | referee/models/participant.py:107-110 | the base rule does not depend on the clock; whoever the base rule admits, the time rule admits too; the two rules agree on a participant that was never stamped |
| `Quota.NextPeriodOpensBonus` | referee/models/participant.py:112-119 | one full period after the stamp, the bonus is open and the participant is admitted |
| `Quota.BonusParticipation` | referee/models/participant.py:66-71 | with the counter at 0 and the bonus open, `participate` is admitted, keeps the counter at 0, only moves the stamp, and a following call later in the same period (or in any period that started before the stamp) is refused |
| `Quota.StampOnPeriodStartKeepsBonus` | referee/models/participant.py:118-119 | because the comparison is inclusive, a stamp exactly on a period start leaves the bonus open for the whole period |
| `Quota.BonusAtPeriodStartIsFixedPoint` | referee/models/participant.py:66-71 | with the counter used up and the stamp exactly on a period start, a call at that instant is admitted and leaves the record unchanged |
| `Quota.SetFinishedClosesPeriod` | referee/models/participant.py:128-137 | with the counter at 0, calling `_set_finished_participation` after the period's start leaves the bonus closed for the rest of the period, whether it stamps or not |
| `Quota.SetFinishedIdempotent` | referee/models/participant.py:128-137 | a second call at the same instant changes nothing, and the helper never changes the counters |
| `Participants.Participant.constructor` | referee/models/participant.py:42-52 | a new participant has 1 participation left, no stamp and 0 extra received |
| `Participants.Participant.CanParticipate` | referee/models/participant.py:107-110 | for a `LimitedParticipation`, admitted exactly when the counter is positive; for an `ExtraParticipationTime`, exactly when the counter is positive or the time bonus is open |
| `Participants.Participant.ExtraParticipationFromTime` | referee/models/participant.py:112-119 | the bonus of an `ExtraParticipationTime` is open exactly when it has a stamp and a period boundary was reached since it |
| `Participants.Participant.Participate` | referee/models/participant.py:61-74 | admitted exactly when `can_participate` held; a refusal (`NoMoreParticipation`) changes no field; an admission stamps `now`, lowers a positive counter by one, leaves a zero counter at 0, and never changes the extra count |
| `Participants.Participant.AddExtraParticipation` | referee/models/participant.py:76-85 | adds `number` (default 1) to both the counter and the extra count, and keeps the stamp |
| `Participants.Participant.SetFinishedParticipation` | referee/models/participant.py:128-137 | stamps `now` exactly when the counter is 0 and the participant was never stamped or has the bonus open; otherwise nothing changes; the counters never change |
| `Traces.ReplayExtraReceived` | referee/models/participant.py:97-98 | over any sequence of calls, the extra count grows by exactly the explicit additions; bonus participations never appear in it |
| `Traces.ReplayStamp` | referee/models/participant.py:61-71 | over any sequence of calls, the stamp is present at the end exactly when it was present before or some participation was admitted; once set it is never cleared |
| `Traces.ReplayLimitedCounter` | referee/models/participant.py:57-82 | under the base rule, the counter left plus the admitted participations equals the starting counter plus everything added |
| `Traces.ReplayCounterBounds` | referee/models/participant.py:61-82 | under either rule, the counter never ends above the starting counter plus the additions, and every unit of it that is gone was spent on an admitted participation |
| `Traces.AtMostOneBonusPerPeriod` | referee/models/participant.py:88-119 | within one period, with every call after the period's start instant, admissions are at most the counter plus the additions, plus one only if the bonus was open at the period's start |
| `Traces.RepeatedBonusAtPeriodStart` | referee/models/participant.py:118-119 | any number of calls exactly at a period start, on a participant with the counter used up and stamped at that start, are all admitted and leave the record unchanged |
| `Traces.TwoBonusesFromPeriodStart` | referee/models/participant.py:118-119 | a participant exhausted before a period start and admitted exactly at that start is admitted again one second later, both times from the bonus |
| `Scenarios.UseUpAllParticipations` | referee/tests/participant_tests.py:18-20 | as many calls as participations left are all admitted, leave the counter at 0 and the stamp at the last instant, and keep the extra count |
| `Scenarios.NewParticipantCanParticipate` | referee/tests/participant_tests.py:26-27 | a new participant can participate under either rule |
| `Scenarios.ParticipatingLowersTimesLeft` | referee/tests/participant_tests.py:29-33 | one participation lowers the times left by one |
| `Scenarios.UsedUpParticipantIsMarked` | referee/tests/participant_tests.py:35-39 | after using up every participation, the counter is 0 and the stamp is set |
| `Scenarios.ParticipatingMoreThanAllowedIsRefused` | referee/tests/participant_tests.py:41-46 | under the base rule, a call after using up every participation is refused, at any later instant |
| `Scenarios.ReceivingAnExtraParticipation` | referee/tests/participant_tests.py:48-53 | one extra participation on a new participant gives 2 left and 1 received |
| `Scenarios.DailyParticipatesAgainNextDay` | referee/tests/participant_tests.py:60-69 | under the daily rule, after using up the counter, a call the same local day is refused and a call a day later is admitted from the bonus, stamps that instant, keeps the counter at 0 and adds nothing to the extra count |
| `Scenarios.FinishedParticipantHasNoTimeBonus` | referee/tests/participant_tests.py:71-76 | under the daily rule, right after using up the counter at an instant past local midnight, the counter is 0 and no bonus is open |
| `Scenarios.ThreeExtraParticipations` | referee/models/participant.py:61-82 | three extra participations on a new participant allow three admissions from the counter alone, leaving 1, with 3 recorded as received |

## Left out

- Persistence: the Django model base, `Meta.abstract`, `save()` and the `commit` argument. `commit` only decides whether the record is saved, which does not change the modelled fields.
- `NoMoreParticipation` being a subclass of the database's `IntegrityError`: a refusal is the outcome `NoMoreParticipation` instead of an exception.
- The clock `timezone.now()`: every operation that reads it takes the instant `now` as a parameter.
- Sub-second precision: instants are whole seconds. The window in which repeated bonus participations at a period start are all admitted is therefore one whole second in the model, where the source's microsecond timestamps make it a single microsecond.
- Two clock reads in one call: `participate` on an `ExtraParticipationTime` reads the clock once for the period test and once for the stamp. The model takes both at the same instant `now`, so a call that straddles local midnight is not modelled as the source may stamp it.
- `timezone.localtime` and `truncate_day`: the local day is taken at a fixed UTC offset. Time-zone databases and daylight-saving changes are not modelled.
- `Periods.CurrentPeriod`: a subclass may override `get_current_period` with any function of the clock. The model covers every period of a fixed length aligned to a UTC offset, not arbitrary functions.
- `Participants.Participant.AddExtraParticipation`: `number` is a natural number. The source accepts any integer in memory; a negative result would only be refused by the database's positive-integer column when saving.
- Field `help_text`, translations and `editable=False`: these are presentation metadata.
- referee/tests/test_app/models.py: it holds empty subclasses, and it imports `TimePeriodBase`, which is not part of this model.
- Concurrency: the source has none. Two requests that check and then participate at once are not modelled.
