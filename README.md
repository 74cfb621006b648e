# Cuckoo clock: schedule resolver and state tracker

A model of the logic in `clock.py` of the cuckoo clock. The clock shows a bird's
picture and plays its call, depending on the time of day and the season. Two
parts have real logic and are modelled here:

- **`get_current_bird`**, the resolver. It takes a timestamp and the bird data
  (seasons with their months, one quiet-hours window per season, and birds with
  "HH:MM" times per season). It returns quiet hours, no birds scheduled, or the
  bird whose scheduled time passed most recently, each with the season.
- **`main` and its nested `handle_input`**, the state tracker. It keeps the
  tracked timestamp, the current bird and the current season. It moves the time
  by an hour on next/prev, or follows the real clock when polling. It
  re-resolves, and it asks for a display only when the (bird, season) pair
  changes to a real bird. On `s`/`sound` it asks for a sound.

Files, leaf first:

- `wrappers.dfy`: `Option` and `Result`.
- `time_text.dfy` (`TimeText`): Python's string order as `StrLe`/`StrLt`, with
  proofs that it is a total order. Also `"HH:MM"` strings: `WellFormed`,
  `Minutes`, and `Format` (what `strftime("%H:%M")` produces). It proves that on
  well-formed times the string order is the order of minutes since midnight.
- `date_time.dfy` (`Timestamps`): the naive `datetime` as a record of year,
  month, day, hour and minute, using the proleptic Gregorian calendar. It
  defines `+ timedelta(hours=1)` and `- timedelta(hours=1)` as `NextHour` and
  `PrevHour`, with rollover of day, month and year. `Ordinal` counts minutes
  since 0001-01-01; on that scale a one-hour shift adds or subtracts exactly 60.
- `bird_data.dfy` (`BirdData`): the catalog as ordered sequences, following
  the JSON object order. It defines:
  - the first-season lookup;
  - the (time, bird) pairs the dict comprehension iterates over;
  - the dict itself (`Dict`: keys in insertion order, plus the bindings);
  - the `<=` filter and Python's `max`.
- `current_bird.dfy` (`CurrentBird`): the resolver `ResolveAt`/`Resolve` and its
  properties. `CurrentBirdExample` proves a worked three-bird schedule.
- `clock_state.dfy` (`ClockState`): the pure transition functions (`Displays`,
  `Boot`, `Run`, `Sounds`, `Shifted`) and their lemmas. The class `Clock` has
  the fields the source reassigns: `now`, `bird`, `season`, plus the log
  `requests` of display and sound requests. Its methods are `Start`,
  `HandleInput`, `SetClock` and the polling loop `Poll`, with the shared
  `Refresh` and `Apply`.
- `clock_scenario.dfy` (`ClockScenario`): a client run of `Clock`. It starts,
  presses next, polls and presses sound.

The model follows the code as written:

- **Failures.** The resolver returns `Failure` in three cases, where the
  source raises:
  - no season lists the month (`next` raises StopIteration);
  - the season has no quiet-hours entry (KeyError);
  - outside quiet hours, the merged schedule is non-empty but no time is
    `<=` now. Here `max([])` raises ValueError. The code does not report "no
    birds scheduled" in this case (`NothingYet`).
- **Quiet test.** It is `start <= now or now < end` for every window.
  `SameDayWindowAlwaysQuiet` proves a consequence: a season whose window does
  not cross midnight is quiet all day.
- **No validation.** The catalog is not validated up front. A month no season
  covers is found only when it is resolved.
- **Failure inside the tracker.** When re-resolution fails inside the
  tracker, the timestamp has already moved. The pair and the requests stay as
  they were, and no sound is requested. The failure is returned to the caller
  (in the source it is an exception out of `handle_input` or the polling
  loop).
- **Sentinels as strings.** The tracker compares and tests bird names as
  strings, as the source does. A bird keyed `"quiet-hours"` would be taken for
  the sentinel. `RealBirdIffActive` states when the string test and the
  datatype tag agree.

Inputs that came from outside become parameters: the wall clock
(`datetime.now()`) is the argument of `Clock.Start` and `Clock.SetClock`, the
successive readings of the device's polling loop are the argument of `Clock.Poll`, and a
key press is the argument of `HandleInput`. The display and the speaker are
entries `ShowImage(bird)` and `PlaySound(bird)` appended to `requests`.

## Model

| member | source | states |
|---|---|---|
| TimeText.StrLe | clock.py:96 | defines Python's `<=` on strings: code point by code point, a proper prefix first; its order properties are the lemmas below |
| TimeText.StrLt | clock.py:96 | defines Python's `<` on strings; StrLtIsStrictLe relates it to StrLe |
| TimeText.StrLeReflexive | clock.py:108-110 | every time compares `<=` to itself, as `max` needs |
| TimeText.StrLeAntisymmetric | clock.py:108-110 | two strings each `<=` the other are equal, so the greatest scheduled time is unique |
| TimeText.StrLeTransitive | clock.py:108-110 | Python's string `<=` is transitive |
| TimeText.StrLeTotal | clock.py:108-110 | any two strings are ordered one way or the other |
| TimeText.StrLtIsStrictLe | clock.py:96 | string `<` is `<=` without equality, and is the negation of the reversed `<=` |
| TimeText.DigitChar | clock.py:85 | the character written for a decimal digit is a digit and reads back as that digit |
| TimeText.Format | clock.py:85 | `strftime("%H:%M")` of an hour and a minute is a well-formed "HH:MM" whose minutes since midnight are hour*60+minute |
| TimeText.FormatOfMinutes | clock.py:85 | every well-formed "HH:MM" is what the formatter writes for its own minutes, so formatting and reading minutes back are inverse |
| TimeText.OrderAgrees | clock.py:96 | on well-formed "HH:MM" strings, string `<=` and `<` agree with `<=` and `<` on minutes since midnight |
| Timestamps.DaysInMonth | clock.py:140 | the months of the calendar the hour shifts roll over have 28 to 31 days |
| Timestamps.TimeOfDay | clock.py:85 | the time of day of a valid timestamp is in 0..1439 minutes |
| Timestamps.NextHour | clock.py:140 | one hour later is again a valid date and time |
| Timestamps.PrevHour | clock.py:142 | one hour earlier is again a valid date and time |
| Timestamps.YearLength | clock.py:140 | the days before year y+1 are those before year y plus the length of y, leap years included |
| Timestamps.MonthsFillYear | clock.py:140 | the twelve months add up to the year's length |
| Timestamps.NextHourAddsAnHour | clock.py:140 | `+ timedelta(hours=1)` adds exactly 60 minutes on the absolute scale, across day, month and year ends, and moves the time of day by 60 modulo a day |
| Timestamps.PrevHourSubtractsAnHour | clock.py:142 | `- timedelta(hours=1)` subtracts exactly 60 minutes and moves the time of day back 60 modulo a day |
| Timestamps.ShiftsAreInverse | clock.py:139-142 | next then prev gives back the same timestamp, and so does prev then next |
| BirdData.FirstSeason | clock.py:88-92 | it finds a season exactly when some season lists the month; the one found lists the month, and no earlier season does |
| BirdData.PartitionFindsTheSeason | clock.py:88-92 | when exactly one season lists the month, that season is the one found |
| BirdData.BirdEntries | clock.py:103 | one bird contributes exactly the pairs of one of its times for the season with its own key; a bird without the season contributes none |
| BirdData.TimesIn | clock.py:103 | defines `info["seasons"].get(current_season, [])`: the bird's times for the season, or none; BirdEntries and EntriesExactly state how it is used |
| BirdData.EntriesExactly | clock.py:100-104 | a (time, bird) pair is iterated over exactly when that bird lists that time for the season |
| BirdData.Entries | clock.py:100-104 | defines the pairs the comprehension iterates over, birds in data order and each bird's times in list order; EntriesExactly states which pairs occur |
| BirdData.Insert | clock.py:101 | defines one dict assignment `d[time] = bird`: a new key goes last, an existing key keeps its place; InsertMerges states what it preserves |
| BirdData.Build | clock.py:100-104 | defines the comprehension as successive assignments; BuildMerges states the resulting dict |
| BirdData.Schedule | clock.py:100-104 | defines `scheduled_birds` for a season; ScheduleKeys states its keys |
| BirdData.InsertMerges | clock.py:100-104 | one more assignment `d[time] = bird` keeps keys unique, adds a new time and makes it bind the latest bird |
| BirdData.BuildMerges | clock.py:100-104 | in the merged dict, each time is a key exactly once, the keys are exactly the iterated times, and each time binds the bird of the last pair naming it |
| BirdData.Candidates | clock.py:109 | the filtered list holds exactly the schedule's times that are `<=` now |
| BirdData.Max | clock.py:108-110 | `max` of a non-empty list is one of its items, and every item is `<=` it |
| CurrentBird.ResolveAt | clock.py:88-113 | defines `get_current_bird` on a month and an "HH:MM" time, with the three raising paths as failures; SeasonIsFirstCovering, QuietExactly, ResolveOutcomes, NothingYetExactly and ActiveIsMostRecent state each of its outcomes and when it is taken |
| CurrentBird.Resolve | clock.py:83-85 | defines the resolver on a timestamp: its month and its `strftime("%H:%M")` text, so the ResolveAt lemmas apply to it; ActiveInMinutes restates an active result in minutes |
| CurrentBird.IsQuiet | clock.py:96 | defines the quiet test `start <= now or now < end`; QuietInMinutes, OvernightBoundaries and SameDayWindowAlwaysQuiet state what it accepts |
| CurrentBird.SeasonIsFirstCovering | clock.py:88-92 | the result fails with an unmapped month exactly when no season lists the month; a returned state carries the first season that lists it |
| CurrentBird.QuietExactly | clock.py:95-97 | once season and window are found, the result is quiet hours exactly when `start <= now or now < end` |
| CurrentBird.QuietIgnoresBirds | clock.py:95-104 | a quiet-hours result does not depend on the birds: the quiet test comes before any schedule lookup |
| CurrentBird.QuietInMinutes | clock.py:96 | on well-formed window ends, the quiet test is `start <= t or t < end` on minutes since midnight |
| CurrentBird.OvernightBoundaries | clock.py:96 | for the window 22:00 to 06:00: 21:59 is not quiet, 22:00 is, 05:59 is, 06:00 is not |
| CurrentBird.SameDayWindowAlwaysQuiet | clock.py:96 | for a window with start `<=` end, the unconditional quiet test holds at every time |
| CurrentBird.ScheduleKeys | clock.py:100-104 | the merged schedule's keys are exactly the union of all birds' times for the season |
| CurrentBird.TimeInEntries | clock.py:100-104 | some iterated pair carries a time exactly when some bird lists that time for the season |
| CurrentBird.EmptyScheduleMeansNoBirds | clock.py:105-106 | outside quiet hours, a season in which no bird has times reports no birds scheduled, whatever the time |
| CurrentBird.ResolveOutcomes | clock.py:95-113 | once the season is found: KeyError exactly when it has no quiet-hours window; outside quiet hours, no birds exactly when the merged schedule is empty; and a scheduled time `<=` now always gives an active bird |
| CurrentBird.ActiveIsMostRecent | clock.py:108-113 | an active bird is bound to a scheduled time `<=` now, and no scheduled time lies after that time and at or before now |
| CurrentBird.NothingYetExactly | clock.py:105-110 | outside quiet hours with a non-empty schedule, the resolver raises exactly when every scheduled time is later than now |
| CurrentBird.ActiveInMinutes | clock.py:108-113 | on a catalog of well-formed times, the active bird's slot starts at or before the timestamp's minute of day, and no slot starts between the two |
| CurrentBirdExample.ThreeBirdsEntries | clock.py:100-104 | the three-bird catalog iterates (08:00, a), (12:00, b), (18:00, c) |
| CurrentBirdExample.ThreeBirdsBuild | clock.py:100-104 | those pairs merge into the dict {08:00: a, 12:00: b, 18:00: c} |
| CurrentBirdExample.ThreeBirdsSchedule | clock.py:100-104 | the three-bird catalog's merged schedule is {08:00: a, 12:00: b, 18:00: c} |
| CurrentBirdExample.Placement | clock.py:96 | a time of day is `>=` 08:00, 12:00 or 18:00, or inside 22:00 to 06:00, exactly as its minutes are |
| CurrentBirdExample.ThreeBirdsAt | clock.py:95-113 | from 06:00 to 21:59 the three-bird resolver skips quiet hours and picks the max among the passed slots, or raises when there are none |
| CurrentBirdExample.ThreeCandidates | clock.py:109 | the filtered list of the three slots keeps, in order, those at or before now |
| CurrentBirdExample.SlotOrder | clock.py:108-110 | `max` of [08:00, 12:00] is 12:00 and of all three is 18:00 |
| CurrentBirdExample.AfterNoon | clock.py:108-113 | at 12:30 the result is the noon bird |
| CurrentBirdExample.NoonCandidates | clock.py:109 | at 12:30 the slots at or before now are 08:00 and 12:00 |
| CurrentBirdExample.AtSixInTheEvening | clock.py:108-113 | at exactly 18:00 the result is the evening bird |
| CurrentBirdExample.EveningCandidates | clock.py:109 | at 18:00 all three slots are at or before now |
| CurrentBirdExample.MorningSlot | clock.py:108-113 | from 08:00 up to noon the result is the morning bird |
| CurrentBirdExample.BeforeTheFirstSlot | clock.py:108-110 | at 07:59, outside quiet hours and before every slot, the resolver raises (`max` of an empty list) |
| ClockState.Label | clock.py:97 | the (bird, season) string pair of a result keeps the result's season |
| ClockState.RealBirdIffActive | clock.py:130 | when no bird key is a sentinel string, the string test "is a real bird" holds exactly for active results |
| ClockState.IsRealBird | clock.py:130 | defines the sentinel test on the stored bird name, used at clock.py:130, 148 and 158 |
| ClockState.Displays | clock.py:145-149 | defines the requests of one re-resolution: a display only when the pair changed into a real bird; SilentRunExactly states it over a whole run |
| ClockState.Boot | clock.py:129-131 | defines the start-up request: a display of a real bird, without comparing; TwoDisplaysForRepeatThenChange uses it |
| ClockState.Run | clock.py:144-149 | across successive re-resolutions, there are no more requests than resolutions, and every request is a display of a real bird |
| ClockState.SilentRunExactly | clock.py:144-149 | a run requests nothing exactly when no resolution changes the stored pair into a real bird, both directions |
| ClockState.RepeatIsSilent | clock.py:145 | resolving to the same state twice in a row adds no request: the repeated state never displays again |
| ClockState.TwoDisplaysForRepeatThenChange | clock.py:129-149 | states A, A, B give exactly two displays: A at start-up and B on the change |
| ClockState.Trace | clock.py:129-149 | defines the requests from start-up on: the start-up display, then those of each re-resolution; TwoDisplaysForRepeatThenChange computes it on an example |
| ClockState.After | clock.py:145-147 | defines the stored pair after a run: the last resolution's, or the pair before when there is none |
| ClockState.RunAppend | clock.py:144-149 | one more resolution at the end of a run adds exactly its own requests, compared with the pair the run leaves |
| ClockState.RunStep | clock.py:144-149 | after one more resolution the logged requests are those of the longer run, and the stored pair is the new one |
| ClockState.Readings | clock.py:191-192 | defines what the resolver gives for each successive clock reading |
| ClockState.Successes | clock.py:182-209 | the resolutions the polling loop acts on: each is the success at its reading, and the list stops only at the end or at a reading that raises |
| ClockState.SuccessesAre | clock.py:182-209 | any list of successes of a prefix of the readings that stops at the end or at a failure is exactly Successes |
| ClockState.CommandOf | clock.py:139-141 | defines which keys mean next, prev and sound (clock.py:157); Shifted and HandleInput state their effect |
| ClockState.Sounds | clock.py:157-159 | defines the sound request after re-resolution: only for `s`/`sound` and a real stored bird; HandleInput states it |
| ClockState.Shifted | clock.py:139-142 | `n`/`next` moves the tracked time exactly one hour on, `p`/`prev` one hour back (60 minutes on the absolute scale), and any other key leaves the timestamp equal |
| ClockState.Clock.constructor | clock.py:128-131 | for the resolver's result at the start-up time, the stored pair is that result's, and a display is requested only when it is a real bird |
| ClockState.Clock.Start | clock.py:128-131 | start-up either fails with the resolver's error or gives a clock at that time holding the first result, with the start-up display |
| ClockState.Clock.Refresh | clock.py:144-149 | after re-resolution the stored pair is the new result's; a display is appended only when the pair changed into a real bird; a resolver error leaves pair and requests unchanged |
| ClockState.Clock.HandleInput | clock.py:137-159 | the time moves as the key says; then it re-resolves as in Refresh; then a sound is requested only for `s`/`sound` when the bird now stored is real |
| ClockState.Clock.SetClock | clock.py:189-200 | the polling step sets the time to the clock's reading, then re-resolves as in Refresh |
| ClockState.Clock.Apply | clock.py:144-149 | on a resolver outcome: a success stores its pair and appends the display Displays says; a failure changes neither pair nor requests |
| ClockState.Clock.Poll | clock.py:182-209 | the device's polling loop over successive readings: the requests logged are exactly those of Run over the successful resolutions, the pair is the last one's, and the loop ends with the error of the first reading that raises |
| ClockState.Clock.Follow | clock.py:182-209 | the loop of Poll over given outcomes, one pass per reading, with the same result in terms of Successes |
| ClockScenario.ThreeBirdsMorningToNoon | clock.py:108-113 | the three-bird catalog resolves 08:30 and 09:30 to the morning bird and 12:30 to the noon bird |
| ClockScenario.MorningToNoon | clock.py:128-159 | on the three-bird catalog, start at 08:30, next, poll at 12:30, sound: the requests are exactly display morning, display noon, sound noon |
| ClockScenario.NextAtMorning | clock.py:139-149 | pressing next at 08:30 moves the time to 09:30, keeps the morning bird and requests nothing |
| ClockScenario.NoonThenSound | clock.py:144-159 | polling at 12:30 from the morning bird displays the noon bird, and pressing sound then plays it |

## Left out

- Image loading and display (`load_image`, `display_image`, clock.py:37-44, 66-80) use PIL and the file system. They appear only as a `ShowImage(bird)` request.
- Sound playback (`play_random_sound`, clock.py:47-63) lists a directory, makes a random choice and plays through pygame. It appears only as a `PlaySound(bird)` request.
- The GPIO setup, the button callbacks and their debounce (clock.py:10-24, 161-179) are hardware access. The callbacks also run `handle_input` concurrently with the polling loop. The model handles one event at a time.
- The console loop (clock.py:181-188): `input()`, `.lower()` and the `q` key that ends the program. Also the `time.sleep` pauses and the `datetime.now()` readings (clock.py:128, 191, 207-209). Time readings are parameters; the rest is I/O.
- Clock.Poll: the device's `while True` loop runs over a finite list of readings, so the model states any finite prefix of the loop, not a run that never ends.
- Loading `bird_data.json` (clock.py:30-31): the catalog is given as Dafny data. Duplicate JSON object keys are not modelled. A catalog entry missing its `months`, `start`, `end` or `seasons` field is not modelled either.
- The print and log lines (clock.py:117-126, 132-135, 150-155, 201-206, 211) are output formatting.
- Seconds and microseconds of `datetime`: `strftime("%H:%M")` drops them and a one-hour shift leaves them unchanged, so the model keeps timestamps to the minute.
- The `datetime` year range 1..9999, and the OverflowError from shifting past it: years are unbounded integers.
- What happens after a resolver exception: in the source it ends the console loop, ends the device's polling loop (clock.py:192) and with it the program, or is reported by the callback thread. The model returns the error and the clock can be used again.
- BirdData.Candidates: states which times are kept, not that they keep the dict's order (`max` does not depend on the order).
- BirdData.BuildMerges: does not state that the dict's keys are in first-insertion order (nothing in the resolver depends on it).
