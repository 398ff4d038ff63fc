# goldbot price-alert and chart core, modelled in Dafny

goldbot is a Discord bot. Once a minute it fetches a gold price and stores it as a
`(timestamp, price)` row in the `history` table. It then sends a DM to every subscriber
whose threshold the price has fallen to, and records in the `users` table that the alert
was sent. On request it draws two charts from the history: a daily chart (per-hour minima
of the most recent 25 hours that have samples) and a weekly chart (seven UTC days of five
four-hour buckets each).

This project models that core:

- `schema.dfy` (`Schema`): the row shapes of the two tables. `users` is a map keyed by the
  primary key `id`. `history` is a sequence of samples.
- `alerts.dfy` (`Alerts`): the alert engine and the two slash commands.
  - Class `Bot` holds both tables. `BotLoop` runs one loop step: append the sample (or stop,
    when its timestamp is already stored), then the alert query, then the per-user update
    inside the loop, then the bulk reset.
    `PriceAlert` and `ClearPriceAlerts` are the upsert and the delete.
  - Every SQL statement is a function on the map (`TriggerSet`, `MarkAlerted`,
    `ResetAbove`, `Subscribe`, `Unsubscribe`). The lemmas are stated over `AfterStep`, the
    table after one step.
- `grouping.dfy` (`Grouping`): the `GROUP BY ... min(price)` queries of both charts.
  - A group key is an integer: the UTC hour (`timestamp / 3600000`), or the UTC day
    together with `hour / 4`.
  - `MinPrice` is the reference definition of one group's minimum.
  - `GroupBy` builds the grouped result as a key-sorted list of rows and is proved to agree
    with `MinPrice` for every key.
- `weekly.dfy` (`Weekly`): `GetWeeklyImage`, written as the source writes it. It loads the
  grouped rows into a map (`PriceMapOf`), then fills the labels and points in two nested
  loops (`PastWeek`).
- `daily.dfy` (`Daily`): the daily window, the hour/date labels (a `map` followed by a
  `reverse`) and the date-tick placement callback, all as pure functions.
- `wrappers.dfy` (`Wrappers`): `Option`. A gap in a chart is `None`.

Representation choices:

- Prices are exact `real`s.
- Timestamps are `nat` milliseconds. The UTC day is `ts / 86400000` and the hour of the
  day is `(ts / 3600000) % 24`.
- A chart date is a day number (weekly) or a `Today`/`Yesterday` tag (daily).
- The current time, the current local hour and the fetched price are parameters. So is the
  set of users whose Discord lookup (`client.users.fetch` or `createDM`) rejects in this run.

Behaviours of the code that the model keeps as written, though a reader might expect otherwise:

- The weekly chart crashes on an empty history, because it dereferences the missing newest
  row. `GetWeeklyImage` returns `None` in that case.
- The daily chart on an empty history has no points and no labels, not a series of gaps.
- The daily chart inserts no gap entries. It shows the most recent hours that have samples.
- The weekly chart draws only buckets 0-4. Hours 20-23 are never drawn (`LateHoursNeverDrawn`).
- The date-tick range checks use `> N`, not `>= N`. `DateTickUpperChecksIdle` proves the
  `> N` half never fires, so the choice does not matter.
- Of `N` labels, `max(0, N - 1 - currentHour)` are dated yesterday. The single centred date appears
  when no label is dated yesterday (`N < currentHour + 2`). With at least one label dated
  yesterday the chart gets two dates, even when only one label is dated yesterday
  (`N = currentHour + 2`, the first date then at position 0). The centred date does not
  appear at `N = 24, currentHour = 0` either: that case gets two dates, at positions 11
  and 23.
- A chart with fewer than two points shows no date (`DateTicksNone`).
- The daily labels are positional. They count back from the current hour, not from the
  rows' own hours, so an hour with no sample shifts the labels against the data.
  `LabelsMatchContiguousHours` states when the two agree.
- A loop run at a timestamp that is already in `history` fails on the table's primary key
  at the insert, and the run ends there: nothing is sent and no table changes. Nothing
  handles that rejection of the loop function (app.js:36-37), so the bot process ends too.
- A rejected Discord lookup for one selected user ends the whole run, because both calls
  are awaited inside the loop. The users visited before it keep their update. The users
  after it are neither notified nor marked, and the reset of risen users does not run
  (`FailedStepKeepsRisen`). A failure for one subscriber therefore does affect the others.
  The rejection is not handled either, so the bot process ends too.

## Model

| member | source | states |
|---|---|---|
| Alerts.Bot.BotLoop | app.js:53-96 | the run fails iff `now` is already stored or some selected user's Discord lookup rejects. When `now` is already stored, nothing changes or is sent. Otherwise it appends exactly `(now, P)` to the history. Without failure it notifies exactly the users with `P <= thresh` and `price != P`, each once, quoting that user's threshold, and the new table is `AfterStep(old table, P)`. On a lookup failure the notified users are selected, reachable users, the table has exactly them marked, and there is no reset. The history's timestamps stay distinct |
| Alerts.TriggerSet | app.js:58-61 | the alert query selects only subscribed users, and only those whose threshold is at or above the price (which users exactly: `TriggerSetExactly`) |
| Alerts.TriggerSetExactly | app.js:58-61 | a user is selected iff subscribed, `P <= thresh` and `price != P` |
| Alerts.MarkAlerted | app.js:93 | the per-user update keeps every row and every threshold |
| Alerts.ResetAbove | app.js:96 | the bulk reset keeps every row, threshold and last price (it clears only `alerted`) |
| Alerts.AfterStep | app.js:58-96 | a step keeps the set of subscribed users |
| Alerts.Subscribe | app.js:184-192 | the upsert adds the caller's id if absent and no other id |
| Alerts.Unsubscribe | app.js:199-202 | the delete removes exactly the caller's id |
| Alerts.Bot.PriceAlert | app.js:184-192 | the table becomes the old one with the caller's row set to `(t, 0, false)`; the history is untouched |
| Alerts.Bot.ClearPriceAlerts | app.js:199-202 | the table becomes the old one without the caller's row; the history is untouched |
| Alerts.StepMarksSelected | app.js:58-93 | a selected user ends the step with `alerted = true`, `price = P` and the same threshold |
| Alerts.StepResetsRisen | app.js:96 | a user with `thresh < P` is not notified, and ends the step with `alerted = false`, same price and threshold |
| Alerts.StepSkipsSettled | app.js:58-96 | a user with `thresh >= P` whose stored price is already `P` is not notified and is left unchanged |
| Alerts.StepFrame | app.js:58-96 | a step adds and removes no user, changes no threshold, and leaves every user with `thresh >= P` at price `P` |
| Alerts.StepIdempotent | app.js:58-96 | a second step at the same price selects nobody and leaves the table unchanged |
| Alerts.FailedStepKeepsRisen | app.js:62-96 | when the loop stops early, a user whose threshold is below the price keeps its row, `alerted` included, because the reset never runs |
| Alerts.NotifiedAgainAtNewPrice | app.js:58-61 | a user below threshold at two different prices in a row is notified at the second one, and not when the same price repeats |
| Alerts.RiseDoesNotRearmSamePrice | app.js:93-96 | after a rise above the threshold, a drop back to the last notified price notifies nobody and leaves the user un-alerted below threshold |
| Alerts.SubscribeSetsOnlyCaller | app.js:184-192 | the upsert leaves one record for the id, `(t, 0, false)`, leaves other rows unchanged and is idempotent |
| Alerts.UnsubscribeRemovesOnlyCaller | app.js:199-202 | the delete removes only the caller's row and is idempotent |
| Grouping.HourKeyNamesDateAndHour | graphs.js:128-131 | the hour key divided by 24 is the sample's UTC date, the date part of the `%Y-%m-%d %H` group |
| Grouping.HourGroupInsideBucket | graphs.js:25-31 | a sample's weekly `date-bucket` key is a function of its hourly key: every hour group lies inside one weekly bucket |
| Grouping.DateBucketKeyInjective | graphs.js:36-49 | two weekly keys are equal iff their dates and their buckets are equal |
| Grouping.BucketInDay | graphs.js:25 | `hour / 4` is one of 0..5 |
| Grouping.MinPrice | graphs.js:22-32 | a group's value is absent iff no sample is in the group; otherwise it is the price of a sample in the group and no sample in it is cheaper |
| Grouping.Lookup | graphs.js:49-50 | a lookup finds nothing iff no row has the key, and otherwise returns the price of a row with that key |
| Grouping.LookupAt | graphs.js:35-39 | in a key-sorted result every row is what a lookup of its own key returns |
| Grouping.LookupAppend | graphs.js:36-39 | adding one row with a new, larger key changes the lookup of that key only |
| Grouping.Insert | graphs.js:28-31 | adding a sample keeps the result key-sorted, and folds the price into the minimum of its own group only |
| Grouping.GroupBy | graphs.js:22-32 | the grouped result is strictly sorted by key, and the lookup of every key equals `MinPrice` of that group |
| Grouping.GroupByRows | graphs.js:28-31 | the grouped result has exactly one row per group that has a sample, each carrying that group's minimum |
| Weekly.Newest | graphs.js:15-21 | the newest row is a sample of the history with the greatest timestamp |
| Weekly.PriceMapOf | graphs.js:35-39 | the map holds exactly the grouped rows: a key is present iff a row has it, with that row's price |
| Weekly.MapPoint | graphs.js:49-54 | a chart position's point is the Map's price under its `date-bucket` key, or a gap when the key is absent |
| Weekly.WeeklyPoint | graphs.js:22-54 | a chart position's point is `MinPrice` of its day and bucket (characterised in `WeeklyPointIsBucketMinimum`) |
| Weekly.WeeklyLabel | graphs.js:55-59 | a chart position's label is its day's date under bucket 2, blank elsewhere (characterised in `WeeklyLabelsMarkDays`) |
| Weekly.PastWeek | graphs.js:42-61 | exactly 35 points and 35 labels; point `k` is the map's price for day `k / 5`, bucket `k % 5`, or a gap; the label is that day's date iff `k % 5 == 2`, blank otherwise |
| Weekly.GetWeeklyImage | graphs.js:13-61 | no chart iff the history is empty; otherwise 35 points and 35 labels, point `k` being the minimum of chart day `k / 5` (the newest sample's date minus `6 - k / 5` days) and bucket `k % 5` |
| Weekly.WeeklyLabelsMarkDays | graphs.js:44-59 | position `5d + j` is labelled with the date `newest - (6 - d)` iff `j == 2`, so the days run oldest first and end on the newest sample's date |
| Weekly.WeeklyPointIsBucketMinimum | graphs.js:22-54 | point `(d, j)` is a gap iff no sample has that date and bucket; otherwise it is the least price among those samples, never carried over from a neighbouring bucket |
| Weekly.LateHoursNeverDrawn | graphs.js:25-48 | adding a sample from hours 20-23 changes no point, whatever day the chart ends on |
| Weekly.OlderSampleKeepsDays | graphs.js:15-21 | adding a sample not newer than the newest leaves the newest timestamp, and so the chart's days, unchanged |
| Daily.DailyRows | graphs.js:126-134 | the window holds at most 25 rows (all of its properties: `DailyWindow`) |
| Daily.LabelAt | graphs.js:137-148 | the label built for index `idx` has an hour in 0..23 whenever `currHour + 24 - idx >= 0` |
| Daily.DailyLabels | graphs.js:137-149 | there are exactly `N` labels |
| Daily.GetDailyImage | graphs.js:124-157 | the chart has as many labels as points, and at most 25 of each |
| Daily.Reverse | graphs.js:149 | the reverse has the same length and position `i` holds element `N - 1 - i` |
| Daily.NewestSuffix | graphs.js:132-134 | keeping the newest rows of a sorted result keeps it sorted, and every dropped key is older than every kept one |
| Daily.DailyWindow | graphs.js:126-134 | the daily rows are strictly ascending by hour, number `min(25, distinct hours with samples)`, and carry each hour's minimum price |
| Daily.DailyDropsOnlyOlder | graphs.js:126-134 | every hour with samples that is left out of the window is older than every hour in it |
| Daily.DailyImageSeries | graphs.js:124-157 | the chart has one label per point, `min(25, distinct hours)` points, and point `i` is the minimum price of the window's `i`-th hour |
| Daily.DailyLabelAt | graphs.js:137-149 | label `k` of `N` is the hour `N - 1 - k` hours before the current hour, always in 0..23; it is dated yesterday iff `N - 1 - k > currHour`, and its hour is then counted back from `currHour + 24` |
| Daily.LastLabelIsCurrentHour | graphs.js:137-149 | the last label is the current hour, dated today |
| Daily.ConsecutiveLabels | graphs.js:137-149 | neighbouring labels are consecutive hours, with 23 followed by 00; the date changes iff the hour wraps to 00, and only from yesterday to today |
| Daily.LabelsMatchContiguousHours | graphs.js:137-157 | when the window's hours are consecutive and end at the current hour, each label's hour is its data point's hour of day |
| Daily.DateTickIndices | graphs.js:213-224 | each index is its computed value or the centre `floor(N/2) - 1`, and both keep their computed values when both lie in `0..N` |
| Daily.ShowsDate | graphs.js:226 | position `k` shows a date iff it is one of the two indices after the fallbacks (which positions: the three `DateTicks` lemmas) |
| Daily.DateTick | graphs.js:215-229 | a date shown at position `k` is the date of the label at `k` (which positions: `DateTicksSplitDays`, `DateTicksCentred`, `DateTicksNone`) |
| Daily.DateTickUpperChecksIdle | graphs.js:213-224 | for `currHour >= 0` both computed indices are below `N`, so the `> N` checks never decide anything |
| Daily.DateTicksSplitDays | graphs.js:213-229 | with at least one label dated yesterday (`N >= currHour + 2`) the dates go exactly at `indexOne` and `indexTwo`; `indexOne` lies among the labels dated yesterday and shows yesterday's date, and `indexTwo` lies among those dated today and shows today's |
| Daily.DateTicksCentred | graphs.js:213-229 | with no label dated yesterday and at least two points (`2 <= N < currHour + 2`) exactly one position shows a date, the centre `floor(N/2) - 1`, and it shows today's |
| Daily.DateTicksNone | graphs.js:213-229 | with `N < 2` no position shows a date |

## Left out

- Discord I/O is not modelled: login, presence, nickname updates, building the DM, embed and buttons, and interaction replies. The notification list that `BotLoop` returns stands for the DMs. Whether a user's Discord lookup succeeds is a parameter, not an API call.
- Delivery of the DM is not modelled. The source does not await `dmChannel.send` and attaches no handler. A rejected send is an unhandled promise rejection. Under Node's default it ends the process at a later await, which can cut the step short as an unreachable user does. This is not modelled.
- `GetGoldPrice` (HTTP scraping of g2g.com) is not modelled. The fetched price is a parameter of `BotLoop`.
- The one-minute `setInterval` timer is not modelled. Overlapping loop runs are a concurrency matter; each step is modelled as atomic.
- The globals `lastPrice` and `lastPriceLink` are not modelled. They are written and never read.
- Chart rendering is not modelled: ChartJSNodeCanvas, the chart configuration, the background plugin, and the tick callback that splits labels on `;`.
- Date strings are not modelled. `toISOString`, `getFullYear`, `getMonth`, `getDate` and `padStart` formatting is left out. Dates are day numbers or today/yesterday tags.
- The local timezone is not modelled. `getHours()` gives the local hour, which is a parameter here. `LabelsMatchContiguousHours` assumes it equals the UTC hour.
- The weekly chart's `setDate` on a local-time `Date` is modelled as plain day arithmetic. Daylight-saving shifts of that computation are left out.
- The order in which SQLite returns the weekly grouped rows is not modelled. Those rows only fill a map, so the model keeps them in ascending key order.
- SQL `NULL` in `users.price` is not modelled. Every row is created with price 0, so `? != price` never meets `NULL`.
- Floating-point prices are modelled as exact reals.
- Opening the database and its DDL (database.js) are left out. Only the table schema is used: the record shapes, the uniqueness of `users.id` (the map's keys) and the uniqueness of `history.timestamp` (checked by `BotLoop`).
- Slash-command registration (deploy-commands.js) is left out.
- Alerts.Bot.BotLoop: the quoted price and the chart buttons in each DM are not part of the returned notification. Every DM quotes the step's own price.
