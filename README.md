# Pulse of Korea — a verified model of the population estimator and broadcaster

Pulse of Korea shows a live estimate of the populations of South and North
Korea. The figures are not simulated: they come from a fixed formula over the
official annual statistics of each country and the wall clock. A
`PopulationManager` holds both countries' statistics, computes a snapshot
(population, today's births and deaths) on demand, and once a second
broadcasts it to every connected viewer. Viewers whose send fails are
dropped. An admin endpoint may replace the base statistics. This project
models that core in Dafny and proves what it promises.

Modules (one per concern of the source):

- `Wrappers` — `Option` and `Result`.
- `Strings` — the Python string behaviour the code relies on: `str.lower()`,
  `str(n)`, `int(s)` and the `","` format specifier.
- `Estimator` — the pure arithmetic of `population_manager.py`: the
  `CountryData` record, KST time of day, population growth anchored to
  2024-01-01T00:00:00Z, today's counts, per-second rates and the consistency
  report.
- `Viewers` — the viewer list as a sequence: `list.remove`, and the split of
  one broadcast into failed and surviving viewers.
- `Manager` — the `PopulationManager` class (fields updated in place by its
  methods), the snapshot, the tick message, the resync hint and the admin
  update of a record.
- `Web` — the parts of `main.py` with logic of their own: the `comma`
  template filter, the admin endpoint's checks and payload, and the initial
  message of a new WebSocket connection.

Arithmetic is exact. Time is whole seconds since the Unix epoch. The year is
365.25 = 1461/4 days. The growth rate is a `real`. Python's `int()` on a float
is `Estimator.Trunc`, which truncates toward zero. Dafny's `Floor` rounds
toward minus infinity. The two agree on every non-negative value, including
both countries' populations under their initial statistics. They differ only
when the truncated value is negative. That happens with a negative base
population set through the admin endpoint, or with a population that has
shrunk below zero.

365.25 days after the epoch, the code gives South Korea
trunc(51628117 − 0.0021 · 51628117) = trunc(51519697.9543) = 51519697
(`Estimator.SouthKoreaAfterOneYear`). The viewers are kept as a list:
`add_client` appends even a viewer that is already present, and
`remove_client` removes only the first match.

## Model

| member | source | states |
|---|---|---|
| `Estimator.Population` | population_manager.py:233-237 | the population shown is the exact estimate base + rate/100 · base · years truncated toward zero: less than one person below it when it is non-negative, less than one above it when negative |
| `Estimator.Trunc` | population_manager.py:236-237 | `int()` on a float: the result is the integer part, toward zero, for negative as well as positive values |
| `Estimator.NorthKoreaAnnualCounts` | population_manager.py:127-128 | the North Korean annual births and deaths derived from the crude rates are 342829 and 238941 |
| `Estimator.SecondsSinceMidnightKst` | population_manager.py:153-163 | seconds since KST midnight lie in 0..86399 and differ from now+9h by a whole number of days |
| `Estimator.KstDay` | population_manager.py:219-223 | the KST calendar day and the seconds since its midnight recompose now+9h exactly |
| `Estimator.KstMidnight` | population_manager.py:158-163 | at the instant a KST day starts, the seconds since midnight are 0 and the day is that day |
| `Estimator.PopulationAtEpoch` | population_manager.py:225-237 | at 2024-01-01T00:00:00Z the estimate equals the base population |
| `Estimator.PopulationIgnoresBaseDate` | population_manager.py:226-237 | the estimate does not depend on the record's base year or base date, only on the fixed epoch |
| `Estimator.ExactPopulationDifference` | population_manager.py:232-234 | between two instants the untruncated estimate changes by rate/100 · base · elapsed years |
| `Estimator.PopulationNonDecreasing` | population_manager.py:232-237 | with base ≥ 0 and rate ≥ 0 the estimate never falls as time advances |
| `Estimator.PopulationNonIncreasing` | population_manager.py:232-237 | with base ≥ 0 and rate ≤ 0 the estimate never rises as time advances |
| `Estimator.SouthKoreaAfterOneYear` | population_manager.py:226-236 | South Korea 365.25 days after the epoch is 51519697 |
| `Estimator.DailyIncrement` | population_manager.py:41-44 | the daily increment times 365.25 is the annual increment base · rate/100 |
| `Estimator.ExactPopulationPerDay` | population_manager.py:41-44 | the untruncated estimate grows by exactly one daily increment per 86400 seconds |
| `Estimator.CountToday` | population_manager.py:243-247 | today's count is never negative for a non-negative annual figure, and never positive for a non-positive one |
| `Estimator.CountTodayIsIntegerDivision` | population_manager.py:243-247 | for non-negative inputs, trunc(annual · (s/86400) / 365.25) is the integer quotient annual·s·4 / (86400·1461) |
| `Estimator.CountTodayAtMidnight` | population_manager.py:240-247 | today's births and deaths are 0 at KST midnight |
| `Estimator.CountTodayMonotone` | population_manager.py:243-247 | within a day, today's count never falls as seconds advance |
| `Estimator.CountTodayBelowDailyAverage` | population_manager.py:243-247 | before the next midnight, today's count is ≥ 0 and strictly below annual/365.25 |
| `Estimator.SouthKoreaBirthsLastSecond` | population_manager.py:243-244 | one second before midnight South Korea has counted 591 births, below 216215/365.25 ≈ 591.96 |
| `Estimator.PerSecondRate` | population_manager.py:46-50 | a per-second rate multiplied back over 86400 · 365.25 seconds gives the annual count |
| `Estimator.BirthDeathRatesPerSecond` | population_manager.py:46-50 | births per second and deaths per second each reproduce their annual counts over a 365.25-day year |
| `Estimator.VerifyCalculations` | population_manager.py:52-63 | the report fails exactly when the base population is 0 (division by zero); otherwise it reports the record's births, deaths and stated rate, the net change births − deaths, an implied rate that reproduces the net change, and the discrepancy abs(stated − implied), which is 0 iff the two rates agree |
| `Viewers.RemoveFirst` | population_manager.py:270-274 | removing an absent viewer leaves the list unchanged |
| `Viewers.RemoveFirstCounts` | population_manager.py:272-273 | removing a present viewer shortens the list by one and takes exactly one occurrence of it |
| `Viewers.RemoveFirstAt` | population_manager.py:273 | it is the first occurrence that is removed; the entries before and after it keep their order |
| `Viewers.Failed` | population_manager.py:320-326 | the viewers whose send failed, collected in list order; never more than the list holds (membership in `Viewers.FailedMembers`) |
| `Viewers.Survivors` | population_manager.py:328-330 | the viewers whose send succeeded, in list order; never more than the list holds (membership in `Viewers.SurvivorsMembers`) |
| `Viewers.SurvivorsMembers` | population_manager.py:319-330 | a viewer survives a tick iff it was connected and its send did not fail |
| `Viewers.FailedMembers` | population_manager.py:320-326 | a viewer is collected as disconnected iff it was connected and its send failed |
| `Viewers.FailedAndSurvivorsPartition` | population_manager.py:319-330 | every entry of the list ends up in exactly one of the failed and surviving halves |
| `Viewers.FailedSnoc` | population_manager.py:321-326 | the failed viewers are collected one send at a time, in list order |
| `Viewers.RemoveFailedLeavesSurvivors` | population_manager.py:328-330 | removing each collected failed viewer with `remove_client` leaves exactly the surviving viewers in their original order, duplicates included, given that every entry of a viewer has the same send outcome in one tick |
| `Manager.Snapshot` | population_manager.py:252-263 | a snapshot carries its timestamp, its total is the sum of the two populations, and its seconds since midnight lie in one day |
| `Manager.SnapshotAtEpoch` | population_manager.py:225-256 | at the epoch the total is the sum of the two base populations |
| `Manager.SnapshotAtKstMidnight` | population_manager.py:239-247 | at every KST midnight all four daily counters are 0 |
| `Manager.ApplyUpdate` | population_manager.py:344-349 | an update never touches the name, the data source, the fertility rate, the life expectancy or the crude birth and death rates |
| `Manager.ApplyUpdateFields` | population_manager.py:344-349 | each of the six fields takes the new value when its key is present and keeps its value otherwise; all other fields are untouched |
| `Manager.ApplyEmptyUpdate` | population_manager.py:344-349 | an update with no keys leaves the record as it was |
| `Manager.ApplyUpdateIdempotent` | population_manager.py:344-349 | applying the same update twice is applying it once |
| `Manager.UpdateWithoutCountsKeepsDailyCounts` | population_manager.py:344-349 | an update without births or deaths, for example one that changes only the growth rate, leaves today's counts unchanged at every instant |
| `Manager.TickMessageOf` | population_manager.py:288-310 | the tick message carries the snapshot's timestamp, total and seconds since midnight and the resync hint, and both event indicators are false |
| `Manager.ResyncStep` | population_manager.py:281-285 | the hint is raised iff at least 30 s have passed since the last resync; the last-resync time then becomes the tick's time and is otherwise kept |
| `Manager.ResyncFlags` | population_manager.py:281-285 | a run of ticks yields one hint per tick |
| `Manager.ResyncFlagsAfterStart` | population_manager.py:281-285 | every raised hint comes at least 30 s after the resync the run started from |
| `Manager.ResyncHintsSpaced` | population_manager.py:281-285 | two raised hints are always at least 30 s apart |
| `Manager.DueTickResyncs` | population_manager.py:281-285 | a tick at least 30 s after the run's starting resync raises a hint, or an earlier tick already did |
| `Manager.ResyncFlagsAfterHint` | population_manager.py:281-285 | after a raised hint the run continues exactly as a fresh run whose last resync is that hint's tick |
| `Manager.HintFollowsHint` | population_manager.py:281-285 | hints keep coming: once a tick is at least 30 s after a raised hint, a next hint is raised at some tick after it and no later than that one |
| `Manager.PopulationManager.constructor` | population_manager.py:82-139 | a new manager has no viewers, both resync and update times at the clock reading, the initial statistics, and per-second rates derived from them |
| `Manager.PopulationManager.CalculateCurrentPopulation` | population_manager.py:215-263 | returns the snapshot of the current statistics at `now`; stores its figures in the manager's fields; sets the current KST day and the last update time |
| `Manager.PopulationManager.AddClient` | population_manager.py:265-268 | the viewer is appended once to the end of the list |
| `Manager.PopulationManager.RemoveClient` | population_manager.py:270-274 | the first occurrence of the viewer is removed if present; otherwise the list is unchanged |
| `Manager.PopulationManager.BroadcastUpdate` | population_manager.py:276-330 | with no viewers nothing changes and nothing is sent; otherwise the resync decision is `ResyncStep`, the message carries the snapshot, hint and current rates, and the list becomes exactly the viewers whose send succeeded, in order |
| `Manager.PopulationManager.Tick` | population_manager.py:335-337 | one loop turn stores the snapshot at `now` in the population and daily-count fields, sets the day and the update time, broadcasts that snapshot, and leaves exactly the surviving viewers |
| `Manager.PopulationManager.UpdateBaseData` | population_manager.py:340-368 | for a recognised country (any case), that record takes the update and its daily increment and per-second rates are recomputed; the other country is untouched; an unrecognised country changes nothing |
| `Manager.PopulationManager.GetStaticData` | population_manager.py:370-376 | returns the two current records and the given timestamp |
| `Strings.Lower` | population_manager.py:342 | lower-casing keeps the length and maps each character on its own |
| `Strings.LowerIdempotent` | main.py:402 | lowering the already-lowered country key again changes nothing |
| `Strings.StripLeft` | main.py:107 | `int()` skips leading whitespace (space and tab through carriage return): the result is a suffix of the input, everything dropped is whitespace, and the result does not start with whitespace |
| `Strings.StripRight` | main.py:107 | `int()` skips trailing whitespace (space and tab through carriage return): the result is a prefix of the input, everything dropped is whitespace, and the result does not end with whitespace |
| `Strings.ParseInt` | main.py:106-108 | `int(s)` succeeds only when the stripped text ends with a digit, and gives a negative number only when it starts with '-' |
| `Strings.IntToString` | main.py:391 | `str(n)` starts with '-' exactly for negatives and ends with a digit |
| `Strings.ParseIntRoundTrip` | main.py:107 | `int(str(n)) == n` |
| `Strings.ParseIntRejectsComma` | main.py:107-109 | `int()` rejects every string containing a comma |
| `Strings.GroupThousandsRoundTrip` | main.py:107 | deleting the separators from grouped digits gives the digits back |
| `Strings.GroupThousandsLayout` | main.py:107 | grouped digits have a comma exactly at every fourth position from the right, and the length grows by one per full group |
| `Strings.FormatThousands` | main.py:106 | `f"{n:,}"` is non-empty, starts with '-' exactly for negatives and ends with a digit |
| `Strings.FormatThousandsRoundTrip` | main.py:107 | `f"{n:,}"` with its commas deleted is `str(n)` |
| `Web.ToInt` | main.py:106-108 | `int(value)` keeps an integer and rejects `None` |
| `Web.ToIntRejectsComma` | main.py:106-108 | `int(value)` rejects any text containing a comma |
| `Web.CommaFilter` | main.py:105-109 | a value `int()` rejects is returned unchanged; otherwise the result is text whose commas, deleted, give `str(int(value))` |
| `Web.CommaFilterGroupsDigits` | main.py:105-107 | for an integer the result starts with '-' exactly for negatives; after the sign, a comma stands at every fourth place from the right and at neither end, and there is exactly one comma per full group of three digits |
| `Web.CommaFilterIdempotent` | main.py:105-109 | filtering the filter's own output changes nothing |
| `Web.CommaFilterPopulationExample` | main.py:105-107 | 51628117 is shown as "51,628,117" |
| `Web.CommaFilterSeparatorExample` | main.py:105-109 | text starting with the information separator U+001C is not a number to `int()`, so it passes through unchanged |
| `Web.CommaFilterTextExample` | main.py:108-109 | the text "n/a" passes through unchanged |
| `Web.AdminPayload` | main.py:388-399 | the payload always sets population, year and a date, and passes births, deaths and growth rate through as supplied |
| `Web.AdminPayloadKeys` | main.py:388-399 | the payload always has population, year and date "{year}-01-01T00:00:00Z"; births, deaths and growth rate appear exactly when supplied |
| `Web.AdminUpdateEffect` | main.py:388-402 | after the endpoint's update, population and year are the supplied ones, and an omitted births, deaths or growth rate keeps its stored value |
| `Web.ValidateAdminUpdate` | main.py:379-402 | a wrong or missing admin key gives 401; with the right key, a country outside the two keys gives 400 and nothing else is an error; on success the manager receives the lower-cased key and the endpoint's payload |
| `Web.HandleAdminUpdate` | main.py:372-409 | a rejected request changes nothing in the manager; an accepted one updates exactly the named country's record with the payload and recomputes that country's daily increment, while the other country's record, daily increment and per-second rates stay as they were |
| `Web.InitialMessageOf` | main.py:121-143 | the initial message is tagged "initial_state", all six event indicators are false and both event lists are empty |
| `Web.InitialMessageAgreesWithTick` | main.py:121-143 | the initial message and a tick message built from the same snapshot carry the same figures |
| `Web.OpenViewer` | main.py:114-143 | a new viewer is appended; the snapshot at connect time is stored in the population and daily-count fields, with the day and update time; the initial message is built from it, so its total is the sum of its two populations |
| `Web.CloseViewer` | main.py:157-158 | on disconnect the viewer's first entry is removed |

## Left out

- Clock reads (`time.time()`, `datetime.now()`) are parameters. `calculate_current_population` reads the clock three times: the timestamp, the KST date, and the seconds since midnight (population_manager.py:217, 220, 240). The model uses one reading `now` for all three. It therefore does not capture a call whose readings straddle KST midnight, where the day and the seconds would refer to different days. Fractions of a second are not modelled.
- IEEE-754 doubles. All float arithmetic is exact over `real`, so figures that depend on float rounding near an integer boundary are not modelled bit for bit.
- `strftime("%H:%M:%S")`, `isoformat()` and `json.dumps`: the `koreaTime` and timestamp strings are parameters, and messages are records rather than JSON text.
- `start_broadcasting`'s endless loop and its one-second `sleep`: one turn is `Manager.PopulationManager.Tick`.
- Socket I/O: a tick is given the set of viewers whose send raises, so every entry of one viewer shares one send outcome per tick. The source sends to each entry separately. If a viewer appeared twice and only its later send failed, `remove_client` would drop its first entry. The order of the remaining viewers would then differ from `Viewers.Survivors`, and the model cannot express that case. `websocket_endpoint` registers a fresh connection each time, so duplicates do not arise there. A viewer added or removed by another task while a tick awaits its sends is not modelled.
- `verify_population_calculations` and all `print` output. `get_days_since_base_date` is never called. `recent_events` is never appended to, so `PopulationState` omits it.
- `Strings.Lower`: only ASCII A–Z and the KELVIN SIGN (which lowers to "k") are folded. Any other non-ASCII character is kept as is. This gives the same answer as Python when comparing against "south_korea" and "north_korea", but not in general.
- `Strings.ParseInt`: non-ASCII digits and non-ASCII whitespace, which Python's `int()` also accepts, are not modelled. The 4300-digit limit on integer/string conversion is not modelled either.
- `Web.CommaFilter`: Python's `bool` values, and float infinities and NaN (whose `int()` raises OverflowError or ValueError), are not among the modelled values.
- The FastAPI app, middleware, rate limiter, templates, HTML pages, the JSON REST endpoints, the validation endpoint and the contact mailer are web plumbing around the core.
