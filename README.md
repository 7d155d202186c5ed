# Broiler dashboard core, modelled in Dafny

This project models the state and derivation logic of the broiler-house
monitoring dashboard (`src/app/page.tsx`). The dashboard replays an archive of
environmental sensor samples as a simulated live stream. It keeps the six most
recent samples, derives a synthetic activity score and a list of anomaly
reasons, colours five status cards, and keeps two hand-fed logs: feed and
water consumption per day, and bird mortality.

Four modules, one per part of that logic:

- `telemetry.dfy` (`Telemetry`): the `Sample` record and the `ReplayWindow`
  class. Its `Tick` method models one firing of the replay timer. The cursor
  and the six-sample buffer are specified by the functions `Cursor`,
  `SampleAt` and `WindowAfter` (the buffer after `n` ticks).
- `metrics.dfy` (`Metrics`): `Clamp`, the activity score, the ordered anomaly
  reasons and the reason line with its two sentinels, the three-way activity
  status, the `latestSafe` fallback chain and the card colours.
- `consumption.dfy` (`Consumption`): the upsert keyed by day, the stable sort
  by day, the chart rows that join each entry with the standard curve, and the
  `ConsumptionLog` class with the "Add" handler.
- `mortality.dfy` (`Mortality`): the validated append of the mortality form
  and the `MortalityLog` class.

`Math.random()` becomes a parameter `random` (the code scales it to a noise
term `random * 10`). The standard feed and water curves become the function
parameters `stdFeed` and `stdWater` of `ChartData`. Today's date, which
initialises the mortality form, is a constructor parameter. The archive is a
constructor parameter of `ReplayWindow`: the timer is only scheduled once the
archive is loaded, so no tick happens before that.

## Model

| member | source | states |
|---|---|---|
| Telemetry.Slide | src/app/page.tsx:125-126 | the new buffer ends with the sample read; below six samples it is the old buffer plus that sample, at six or more the oldest sample is dropped first; a buffer of at most six stays at most six |
| Telemetry.Advance | src/app/page.tsx:124 | the cursor moves to `(index + 1) % length` and stays inside the archive |
| Telemetry.Cursor | src/app/page.tsx:124 | the cursor after any number of ticks is a valid archive index |
| Telemetry.CursorIsMod | src/app/page.tsx:124 | after `k` ticks from 0 the cursor is `k % length` |
| Telemetry.SampleAt | src/app/page.tsx:122 | the sample a tick reads is always one of the archive's samples |
| Telemetry.WindowAfter | src/app/page.tsx:121-127 | after any number of ticks the buffer holds at most six samples, and at least one once a tick has happened |
| Telemetry.SampleAtCyclic | src/app/page.tsx:122-124 | tick `k` and tick `k + length` read the same sample (cyclic replay) |
| Telemetry.WindowLength | src/app/page.tsx:118-131 | after `n` ticks from an empty buffer the buffer holds exactly `min(n, 6)` samples |
| Telemetry.WindowContents | src/app/page.tsx:121-127 | the buffer holds the most recently read samples, oldest first, in the order they were read |
| Telemetry.WindowPeriodic | src/app/page.tsx:122-126 | once full, the buffer repeats with period equal to the archive length |
| Telemetry.ReplayWindow.constructor | src/app/page.tsx:54-57 | replay starts with an empty buffer, cursor 0 and an empty last-update label |
| Telemetry.ReplayWindow.Tick | src/app/page.tsx:118-131 | with an empty archive nothing changes; otherwise the buffer slides by the sample under the cursor, `lastUpdate` becomes its time label, the cursor advances modulo the archive length, and the buffer stays equal to `WindowAfter` of the tick count |
| Metrics.Clamp | src/app/page.tsx:40 | the result never exceeds `hi`, lies in `[lo, hi]` when `lo <= hi`, equals `v` when `v` is already inside, and is the nearer bound otherwise |
| Metrics.Score | src/app/page.tsx:82-85 | the score of a sample lies in `[5, 95]` whatever its readings and the noise |
| Metrics.ActivityScore | src/app/page.tsx:79-86 | the score is 50 for an empty buffer, otherwise the score of the newest sample, and always lies in `[5, 95]` |
| Metrics.ScoreFloor | src/app/page.tsx:82-85 | with noise from `[0, 10)` the score lies in `[25, 95]` |
| Metrics.IdealConditionsScore | src/app/page.tsx:82-85 | at 28 °C and 65 % humidity the score is at least 90 |
| Metrics.LowScoreNeedsTemperatureStress | src/app/page.tsx:82-85 | a score below 35 needs a temperature below 18 °C or above 38 °C |
| Metrics.Reasons | src/app/page.tsx:91-96 | at most five reasons, and each listed reason's condition holds for the sample and score |
| Metrics.Select | src/app/page.tsx:91-96 | reference definition of the reasons: the triggered anomalies of a candidate list, never more than the candidates |
| Metrics.SelectMembership | src/app/page.tsx:91-96 | an anomaly is selected iff it is a candidate and its condition holds |
| Metrics.SelectKeepsRanking | src/app/page.tsx:91-96 | selection keeps the candidates' priority order |
| Metrics.ReasonsFollowPriority | src/app/page.tsx:91-96 | the pushed reasons equal the priority list filtered by the conditions |
| Metrics.ReasonsExact | src/app/page.tsx:91-96 | each reason is listed iff its condition holds (temp > 32, CO₂ > 1200, NH₃ > 5, PM2.5 > 35, score < 35), in that fixed order, none twice |
| Metrics.Join | src/app/page.tsx:97 | no parts give the empty text; otherwise the text starts with the first part and is exactly as long as all parts plus one separator between each pair |
| Metrics.JoinSnoc | src/app/page.tsx:97 | joining one more part appends the separator and that part, so every part appears in order with the separator between neighbours |
| Metrics.Labels | src/app/page.tsx:92-96 | each reason is shown by its own label, one label per reason |
| Metrics.AbnormalReason | src/app/page.tsx:88-98 | the reason line is never empty; when some reason holds it is the labels of all the reasons, in priority order, joined by ", ", starting with the highest-priority label |
| Metrics.AbnormalReasonSentinels | src/app/page.tsx:88-98 | the reason line is "Insufficient data" iff the buffer is empty and "Normal" iff a sample exists and no reason holds |
| Metrics.AllFiveReasonsReachable | src/app/page.tsx:79-96 | a sample at 40 °C, 100 % humidity, CO₂ 1300, NH₃ 6, PM2.5 40 with zero noise yields all five reasons in priority order |
| Metrics.ActivityStatus | src/app/page.tsx:547 | "Abnormal (Low)" iff score < 35, "Moderate" iff 35 <= score < 60, "Normal" iff score >= 60 |
| Metrics.StatusMonotone | src/app/page.tsx:540-547 | a higher score never gives a worse status |
| Metrics.StatusAgreesWithReasons | src/app/page.tsx:88-98 | the status is "Abnormal (Low)" exactly when "Low movement" is among the reasons |
| Metrics.LatestSafe | src/app/page.tsx:135-144 | the newest buffered sample, else the first archive sample, else the all-zero placeholder |
| Metrics.LatestIsLastRead | src/app/page.tsx:121-144 | during replay the cards show the sample of the last tick, and before the first tick the first archive sample |
| Metrics.Cards | src/app/page.tsx:147-153 | exactly five cards: temperature, humidity, CO₂, NH₃ and PM2.5, each showing the sample's own value with its unit and its limit (32, 85, 1200, 5, 35) |
| Metrics.CardTiers | src/app/page.tsx:147-153 | humidity is always green; every other card leaves green iff its value exceeds its limit, then turning red (temperature, CO₂), orange (NH₃) or yellow (PM2.5) |
| Metrics.CardsAgreeWithReasons | src/app/page.tsx:147-153 | for the same sample, a card is coloured exactly when its anomaly is among that sample's reasons, for any score |
| Metrics.CardsAndReasonsDisagreeBeforeFirstTick | src/app/page.tsx:135-153 | before the first tick a hot first archive sample gives a red temperature card while the reason line reads "Insufficient data" |
| Metrics.SingleSampleScenario | src/app/page.tsx:79-153 | a one-sample archive at 33 °C, CO₂ 1300, NH₃ 6 and PM2.5 40, replayed for one tick, gives a red temperature card, a green humidity card and exactly the four environmental reasons |
| Consumption.HasDay | src/app/page.tsx:183 | true iff some entry of the log has that day |
| Consumption.Replace | src/app/page.tsx:185-187 | same length; entries of that day get the new feed and water, all others are unchanged |
| Consumption.Upsert | src/app/page.tsx:182-189 | afterwards the day is logged; the log keeps its length when the day was already logged and grows by one otherwise |
| Consumption.UpsertShape | src/app/page.tsx:182-189 | an existing day is updated in place (same length, days kept, only that day's feed and water change); a new day is appended as exactly one entry after the unchanged log |
| Consumption.UpsertKeepsDistinct | src/app/page.tsx:182-189 | upsert keeps days unique and the set of days grows by exactly the upserted day |
| Consumption.UpsertIdempotent | src/app/page.tsx:182-189 | upserting the same day, feed and water twice gives the same log as once |
| Consumption.Lookup | src/app/page.tsx:183-186 | the feed and water logged for a day: absent iff no entry has that day, otherwise those of an entry with that day |
| Consumption.ReplaceLookup | src/app/page.tsx:185-187 | after overwriting a logged day, that day reads the new values and every other day reads as before |
| Consumption.AppendLookup | src/app/page.tsx:188 | appending an entry for a new day makes that day read its values and leaves every logged day as before |
| Consumption.UpsertIsTableUpdate | src/app/page.tsx:182-189 | reading the log as a table from day to (feed, water), upsert is the update `day := (feed, water)`: that day reads the new values, every other day reads what it read before |
| Consumption.Insert | src/app/page.tsx:157-158 | inserting into a list sorted by day keeps it sorted and adds exactly that entry |
| Consumption.InsertKeepsDistinct | src/app/page.tsx:157-158 | inserting a new day keeps days unique and adds that day |
| Consumption.SortByDay | src/app/page.tsx:157-158 | the sorted log is ascending by day and a permutation of the log |
| Consumption.SortKeepsDistinct | src/app/page.tsx:157-158 | sorting keeps days unique and keeps the same set of days |
| Consumption.ChartData | src/app/page.tsx:156-167 | one row per entry, ascending by day, the rows' actual values are a permutation of the log, and each row carries the standard feed and water of its day |
| Consumption.ChartStrictlyAscending | src/app/page.tsx:156-167 | with unique days the rows are strictly ascending by day |
| Consumption.ConsumptionLog.constructor | src/app/page.tsx:67-76 | the log starts with the five seeded days 1 to 5, the day input at 6, feed 0.1 and water 0.22 |
| Consumption.ConsumptionLog.EditForm | src/app/page.tsx:572-592 | the form inputs take the typed values and the log is unchanged |
| Consumption.ConsumptionLog.AddConsumption | src/app/page.tsx:180-192 | a day <= 0 leaves log and day input unchanged; otherwise the log becomes the upsert of that day, that day reads back the new values and every other day reads as before, days stay unique and positive, and the day input moves on by one |
| Mortality.Submission | src/app/page.tsx:171-174 | a submission is ignored iff the date is empty or the count is NaN; an accepted one records date and count, and notes only when non-empty |
| Mortality.Appended | src/app/page.tsx:170-178 | the existing records stay untouched as a prefix; exactly one record is added iff the submission is accepted, and it is the record the submission builds: its date, its count, and its notes or none when they are empty |
| Mortality.SameDateAccumulates | src/app/page.tsx:170-178 | two accepted submissions for one date leave two separate records, in order |
| Mortality.MortalityLog.constructor | src/app/page.tsx:61-64 | the log starts empty with today's date, count 0 and no notes in the form |
| Mortality.MortalityLog.EditForm | src/app/page.tsx:444-466 | the form inputs take the typed values and the log is unchanged |
| Mortality.MortalityLog.AddMortality | src/app/page.tsx:170-178 | the log becomes `Appended` of the form, so an accepted submission adds its date, count and notes (absent when empty); an accepted submission clears count and notes, an ignored one changes nothing, and the date is kept |

## Left out

- Loading the archive: the `fetch` of the JSON file and the `String(...)` / `Number(...)` coercion of its labelled fields (src/app/page.tsx:101-115). This is network I/O and JavaScript coercion; the archive is a given sequence of samples.
- The timer: `setInterval`, `clearInterval` and the 2-second period (src/app/page.tsx:120, 129-130). One call of `Tick` stands for one firing; cancellation on teardown is not modelled.
- Telemetry.ReplayWindow.Tick: the archive is fixed at construction. The source could in principle replace `allData` while replaying; it only sets it once, after loading.
- `Math.random()`: replaced by the parameter `random`. The lemmas that need its range require `0 <= random < 1`.
- The standard curve: `Math.pow(day, 1.15)` and the `toFixed(3)` rounding of `standardFeedKg` and `standardWaterL` (src/app/page.tsx:43-50) are floating point with a non-integer exponent. `ChartData` takes both curves as parameters, so it does not capture that the water curve is derived from the feed curve.
- Floating point in general: sample values, scores, feed and water are exact reals. NaN and infinities are not modelled, except NaN for the mortality count.
- Consumption.ConsumptionLog.AddConsumption: the day input is an integer. The source's number input could hold a fraction or NaN; a NaN day would pass the `day <= 0` guard and be appended.
- Consumption.SortByDay: the sort is stable, as JavaScript's is, but stability is not stated as a property. With unique days, which the log keeps, it makes no difference.
- Rendering: the JSX, the recharts charts, the video and heatmap overlay, Tailwind classes, the card icons, `Math.round` for display, the "Online"/"Starting…" and last-update lines, and the loading message.
- src/app/layout.tsx: static metadata and a layout wrapper, with no logic.

## Notes on the code

- A temperature of 35 °C can never appear together with "Low movement". With noise of at least 0, a score below 35 needs a temperature penalty above 30, that is a temperature below 18 °C or above 38 °C (`LowScoreNeedsTemperatureStress`). So no sample at 35 °C can show all five reasons in the code as written. `AllFiveReasonsReachable` gives a sample that does reach all five.
- The score's lower clamp bound 5 is never reached: with noise in `[0, 10)` the score is at least 25 (`ScoreFloor`).
- The cards and the reason line read different samples before the first tick. The cards use `latestSafe`, which falls back to the first archive sample, while the reason line looks only at the buffer and reads "Insufficient data" while it is empty. For the first two seconds after loading, a hot first sample therefore shows a red temperature card beside "Insufficient data" (`CardsAndReasonsDisagreeBeforeFirstTick`). `CardsAgreeWithReasons` holds for one and the same sample, so the two agree once a tick has happened.
- Humidity has a card limit of 85 but its colour is fixed to green, and it never contributes an anomaly reason. The model keeps this as written (`CardTiers`).
