# py-analytics Redis backend, modelled in Dafny

This project models the Redis backend of py-analytics
(`analytics/backends/redis.py`). The backend is a time-bucketed counter store:

- `track_metric` adds an amount to three counters of a subject's metric: the
  day, the week and the month. It also adds the amount to an undated total.
- `track_count` adds only to the undated total.
- `get_metric_by_day`, `get_metric_by_week` and `get_metric_by_month` read a
  series of `limit` periods back as a dictionary keyed by `%Y-%m-%d`.
- `get_metrics` runs one of those queries for many (subject, metric) pairs.
- `get_count` and `get_counts` read undated totals.

The Redis server is an immutable `Store`. It holds hashes of integer fields and
integer scalars. A missing hash, field or scalar reads as zero. HINCRBY and INCRBY
create what they touch. HMGET returns a `Result` holding one `Option<int>` per
field, and fails when no field is given. GET returns `Option<int>`. A pipeline
(`map()`) is the sequential application of its commands. The two track
operations take the store and return the new store together with the reply.
The queries take the store and return only the reply.

Modules, in dependency order:

- `Wrappers`: `Option` and `Result`.
- `Calendar`: Python's proleptic Gregorian `date`. It covers `toordinal`,
  `isoweekday`, `calendar.monthrange`, `date + timedelta(days=k)` and
  `date + relativedelta(months=k)`.
- `Format`: the `strftime` directives the backend uses (`%y`, `%m`, `%d`, `%Y`).
- `RedisStore`: the store and the four commands (HINCRBY, INCRBY, HMGET, GET).
- `Keys`: `_get_closest_week`, the hash-key and field-name encoders, and the
  aggregate key.
- `Ranges`: `_get_daily_date_range` and `_get_weekly_date_range`.
- `Merge`: `_merger_dict_of_metrics`.
- `Backend`: the public operations.
- `Consistency`: properties across calls. A query reads back exactly what was
  tracked in each period, including weeks that straddle New Year. Untracked
  periods read zero. The days of a month add up to the month. Calls commute and
  add up. Undated totals never appear in a series.
- `Scenarios`: the year-boundary week test, proved from the general theorems.

The week and month fields live in the hash of the event's own two-digit year
(`redis.py:164`). A week's Monday can therefore belong to the previous year
while some of the week's events sit in the next year's hash. The weekly query
reads every year hash its range touches and sums them, so the week still reads
its total. `Consistency.WeekReadAfterWrite` proves this in general, and
`Scenarios.NewYearWeek` proves it for the test suite's example.

Dates start at 1900-01-01. The package is Python 2 code (`basestring` in
`analytics/__init__.py:48`). Python 2's `date.strftime` raises `ValueError` for
years before 1900, and every key and field name goes through `strftime`. So no
call with an earlier date succeeds, and `Calendar.Date` excludes those years.

HMGET with an empty field list is a Redis error ("wrong number of arguments").
A query with `limit` 0 builds an empty field list, so the model returns that
error instead of an empty series. Inside `get_metrics` one failing command fails
the whole pipeline.

The tests call `get_count` with `start_date`/`end_date` and expect a total over
that date range. The code of `get_count` ignores those arguments (they fall
into `**kwargs`) and returns the undated total. The model follows the code:
`Backend.GetCount` takes no dates.

## Model

| member | source | states |
|---|---|---|
| `Calendar.AddDays` | analytics/backends/redis.py:188 | `date + timedelta(days=k)` moves the ordinal by exactly k |
| `Calendar.AddMonths` | analytics/backends/redis.py:255 | `relativedelta(months=k)` moves the month index by exactly k and clamps the day to the target month's length |
| `Calendar.OrdinalOrder` | analytics/backends/redis.py:58 | ordinals are injective and order dates lexicographically, so weekday and day arithmetic are well defined |
| `Keys.ClosestWeek` | analytics/backends/redis.py:53-60 | the result is a Monday, lies in the seven days ending at the date, and is the date itself on a Monday |
| `Keys.ClosestWeekUnique` | analytics/backends/redis.py:53-60 | a Monday is the closest week of a date exactly when the date falls in the seven days starting at that Monday |
| `Keys.ClosestWeekOfSunday` | tests/analytics/backends/redis_test.py:173-191 | the Sunday 2012-04-01 snaps to Monday 2012-03-26 |
| `Keys.ClosestWeekOfSaturday` | tests/analytics/backends/redis_test.py:173-191 | the Saturday 2012-04-07 snaps to Monday 2012-04-02 |
| `Keys.ClosestWeekOfMonday` | tests/analytics/backends/redis_test.py:173-191 | the Monday 2012-04-09 is its own week |
| `Keys.DailyKeyInjective` | analytics/backends/redis.py:62-66 | two daily hash keys are equal exactly when the ids, the two-digit years and the months are equal |
| `Keys.WeeklyKeyInjective` | analytics/backends/redis.py:68-72 | two yearly hash keys are equal exactly when the ids and the two-digit years are equal |
| `Keys.DailyKeyNotWeeklyKey` | analytics/backends/redis.py:62-72 | no daily hash key equals any yearly hash key |
| `Keys.HashKeyNotAggregateKey` | analytics/backends/redis.py:146 | no hash key equals any aggregate total key |
| `Keys.DailyNameInjective` | analytics/backends/redis.py:74-78 | two daily field names are equal exactly when the metrics and the `%y-%m-%d` stamps are equal |
| `Keys.MonthlyNameInjective` | analytics/backends/redis.py:86-90 | two monthly field names are equal exactly when the metrics and the `%y-%m` stamps are equal |
| `Keys.WeeklyNameNotMonthlyName` | analytics/backends/redis.py:80-90 | a weekly field name never equals a monthly one, so both fit in one yearly hash |
| `Keys.DailyKeyInCentury` | analytics/backends/redis.py:62-66 | within one century, daily hash keys are equal exactly when the ids and the months are equal |
| `Keys.WeeklyKeyInCentury` | analytics/backends/redis.py:68-72 | within one century, yearly hash keys are equal exactly when the ids and the years are equal |
| `Keys.DailyNameInCentury` | analytics/backends/redis.py:74-78 | within one century, daily field names are equal exactly when the metrics and the dates are equal |
| `Keys.WeeklyNameInCentury` | analytics/backends/redis.py:80-84 | within one century, weekly field names are equal exactly when the metrics and the Mondays are equal |
| `Keys.MonthlyNameInCentury` | analytics/backends/redis.py:86-90 | within one century, monthly field names are equal exactly when the metrics and the months are equal |
| `Keys.CenturyAliasing` | analytics/backends/redis.py:66 | `%y` makes 1911-12-05 and 2011-12-05 share a daily hash key and a field name |
| `Keys.AggregateKeyAmbiguous` | analytics/backends/redis.py:146 | ids or metrics containing `:count:` can make two different pairs share one total |
| `Ranges.ShiftToNextMonth` | analytics/backends/redis.py:101-104 | one loop step lands on the first day of the next month |
| `Ranges.LoopGuard` | analytics/backends/redis.py:100 | while the walk has not passed the end month, the loop guard holds exactly when the current month is before the end month |
| `Ranges.MonthWalk` | analytics/backends/redis.py:96-107 | the loop yields the start date, then the first of each later month up to the end month, month indices increasing by one |
| `Ranges.DailyDateRange` | analytics/backends/redis.py:92-107 | the range has one date per month from the start through `start + delta`, and its first element is the start |
| `Ranges.WeeklyDateRange` | analytics/backends/redis.py:109-121 | the range is the start, then 1 January of every later year up to the year of `start + delta`, one entry per year |
| `Ranges.DailyRangeCovers` | analytics/backends/redis.py:92-107 | every day in the span has its month in the daily range exactly once |
| `Ranges.WeeklyRangeCovers` | analytics/backends/redis.py:109-121 | every day in the span has its year in the weekly range exactly once |
| `Ranges.DailyRangeThirtyDays` | tests/analytics/backends/redis_test.py:283-289 | 30 days from 2011-11-15 read the 2011-11 and 2011-12 hashes |
| `Ranges.DailyRangeSixtyFiveDays` | tests/analytics/backends/redis_test.py:291-298 | 65 days from 2011-11-15 read three month hashes, across New Year |
| `Ranges.WeeklyRangeTwelveWeeks` | tests/analytics/backends/redis_test.py:275-281 | twelve weeks from 2011-11-01 read the 2011 and 2012 hashes |
| `Merge.ResultDict` | analytics/backends/redis.py:125-129 | one reply list becomes a dictionary whose keys are exactly the series keys |
| `Merge.ResultDictAt` | analytics/backends/redis.py:127-128 | for distinct series keys, each key holds the reply at its index, a missing field (None) read as 0 |
| `Merge.Reduce` | analytics/backends/redis.py:131-132 | the reduction holds at each key the sum over all dictionaries |
| `Merge.SumOfDicts` | analytics/backends/redis.py:123-134 | summing the per-reply dictionaries at a series key sums the replies at that index |
| `Merge.MergeMetrics` | analytics/backends/redis.py:123-134 | the merged keys are exactly the `%Y-%m-%d` stamps of the series; for a series of distinct dates there are as many keys as dates, each holding the sum of its replies |
| `RedisStore.HIncrBy` | analytics/backends/redis.py:169-171 | HINCRBY replies with the new value and changes that one field only, creating it if missing |
| `RedisStore.Incr` | analytics/backends/redis.py:146 | INCRBY replies with the new value and changes that one scalar only, creating it if missing |
| `RedisStore.HMGet` | analytics/backends/redis.py:195-196 | HMGET fails with the wrong-number-of-arguments error exactly when the field list is empty; otherwise it gives one reply per field, None exactly for a missing field |
| `RedisStore.Get` | analytics/backends/redis.py:313 | GET gives None exactly for a missing key |
| `RedisStore.HIncrByCommute` | analytics/backends/redis.py:168-173 | two HINCRBYs commute |
| `RedisStore.HIncrByAdd` | analytics/backends/redis.py:169 | HINCRBY by a then by b is HINCRBY by a + b |
| `Backend.TrackCount` | analytics/backends/redis.py:136-146 | `track_count` adds the amount to its aggregate total only, replies with the new total and leaves every hash unchanged |
| `Backend.HIncrByTwo` | analytics/backends/redis.py:170-171 | two HINCRBYs of distinct fields of one hash each reply with their field's new value, add the amount to those two fields only and create them if missing |
| `Backend.PipelineWrites` | analytics/backends/redis.py:168-173 | the four pipelined commands add the amount to exactly their three fields and their one scalar, every other value unchanged |
| `Backend.PipelineCreates` | analytics/backends/redis.py:168-173 | the pipeline creates its two hashes, its three fields and its scalar if missing, and no other key or field |
| `Backend.PipelineReplies` | analytics/backends/redis.py:168-173 | the pipeline replies with the four new values, in command order |
| `Backend.TrackSlots` | analytics/backends/redis.py:160-171 | the slots the pipeline writes are exactly the day field in the month hash and the week (closest Monday) and month fields in the year hash |
| `Backend.TrackFields` | analytics/backends/redis.py:160-171 | the fields the pipeline creates are exactly the three slot names, in their two hashes |
| `Backend.AndAll` | analytics/backends/redis.py:175 | the `and` of the four replies is nonzero exactly when all four are, and then it is the last (the new total) |
| `Backend.TrackMetric` | analytics/backends/redis.py:148-175 | `track_metric` adds the amount to exactly the day field, the week field of the closest Monday and the month field (both in the event year's hash) and to the total; it replies 0 when any new value is 0, else the new total |
| `Backend.FirstTrackLayout` | tests/analytics/backends/redis_test.py:28-52 | the first track on an empty store creates one daily hash with one field, one yearly hash with two fields and one total, each holding the amount |
| `Backend.GetCount` | analytics/backends/redis.py:302-317 | `get_count` is the stored total, 0 when the key is absent |
| `Backend.GetCounts` | analytics/backends/redis.py:319-339 | `get_counts` gives one `get_count` per pair, in order |
| `Backend.HMGetEach` | analytics/backends/redis.py:195-196 | one HMGET per hash; an error exactly when there is a hash to read and the field list is empty; otherwise each reply is as long as the field list, a missing field reading 0 |
| `Backend.SumOfReplies` | analytics/backends/redis.py:131-132 | summing the replies at an index sums that field over all hashes read |
| `Backend.DaySeries` | analytics/backends/redis.py:188-191 | `limit` consecutive days from `from_date`, all distinct |
| `Backend.WeekSeries` | analytics/backends/redis.py:221-223 | `limit` dates seven days apart from the Monday, all distinct |
| `Backend.MonthSeries` | analytics/backends/redis.py:255-257 | `limit` consecutive month starts, all distinct |
| `Backend.DayQuery` | analytics/backends/redis.py:187-199 | under a caller's connection: the HMGET error exactly when `limit` is 0; otherwise every day field of the series is read from every month hash of the range |
| `Backend.WeekQuery` | analytics/backends/redis.py:217-231 | under a caller's connection: the HMGET error exactly when `limit` is 0; otherwise every Monday's field is read from every year hash of the range |
| `Backend.MonthQuery` | analytics/backends/redis.py:250-265 | under a caller's connection: the HMGET error exactly when `limit` is 0; otherwise every month's field is read from every year hash of the range |
| `Backend.GetMetricByDay` | analytics/backends/redis.py:177-205 | the HMGET error exactly when `limit` is 0; otherwise one key per day of the series, holding that day's field summed over the month hashes read |
| `Backend.GetMetricByWeek` | analytics/backends/redis.py:207-237 | the HMGET error exactly when `limit` is 0; otherwise one key per Monday from the closest Monday on, holding that week's field summed over the year hashes read |
| `Backend.GetMetricByMonth` | analytics/backends/redis.py:239-271 | the HMGET error exactly when `limit` is 0; otherwise one key per month from the first of `from_date`'s month, holding that month's field summed over the year hashes read |
| `Backend.LowerIdempotent` | analytics/backends/redis.py:289 | lower-casing twice is lower-casing once |
| `Backend.ParseGroupByCaseInsensitive` | analytics/backends/redis.py:289-292 | passing `group_by` already lower-cased selects the same granularity |
| `Backend.GroupByExamples` | analytics/backends/redis.py:289-292 | `DAY`, `Week`, `mOnTh` and (for a `unicode` argument) a Kelvin-sign `week` are accepted; `leapyear`, `days` and the empty string are refused |
| `Backend.GetMetricsRejectsLeapyear` | tests/analytics/backends/redis_test.py:396-399 | `group_by="leapyear"` is refused |
| `Backend.Collect` | analytics/backends/redis.py:293-296 | a pipeline of queries succeeds exactly when every query does, with their values in order; otherwise it fails with the error of a failed query |
| `Backend.GetMetrics` | analytics/backends/redis.py:273-300 | the `group_by` error exactly when the lower-cased `group_by` is not allowed; else the HMGET error exactly when `limit` is 0 and there is a pair; otherwise one answer per pair, in order |
| `Backend.GetMetricsIsStandAlone` | analytics/backends/redis.py:286-300 | each answer of a successful `get_metrics` equals the stand-alone query of its pair with the chosen granularity |
| `Consistency.Apply` | analytics/backends/redis.py:136-175 | one call adds its amount to exactly the counters it names, creates what it names, and changes nothing else |
| `Consistency.SlotSumAfterApply` | analytics/backends/redis.py:168-173 | a field summed over some hashes grows by what the event adds to those slots |
| `Consistency.ReplaySlots` | analytics/backends/redis.py:148-175 | if every event adds to a summed field exactly its amount when in the period, replaying them adds what was tracked in the period |
| `Consistency.ForeignDaily` | analytics/backends/redis.py:62-78 | a call for another subject or metric writes none of a day query's counters |
| `Consistency.ForeignWeekly` | analytics/backends/redis.py:68-90 | a call for another subject or metric writes none of a week query's counters |
| `Consistency.ForeignMonthly` | analytics/backends/redis.py:68-90 | a call for another subject or metric writes none of a month query's counters |
| `Consistency.DayAdded` | analytics/backends/redis.py:177-205 | an event adds to the day query's i-th value exactly its amount when it is on that day, else nothing |
| `Consistency.WeekAdded` | analytics/backends/redis.py:207-237 | an event adds to the week query's i-th value exactly its amount when it falls in that week, even when the week straddles New Year |
| `Consistency.MonthAdded` | analytics/backends/redis.py:239-271 | an event adds to the month query's i-th value exactly its amount when it falls in that month |
| `Consistency.DayReadAfterWrite` | analytics/backends/redis.py:177-205 | after a run of calls, each day reads its previous value plus everything tracked on it |
| `Consistency.WeekReadAfterWrite` | analytics/backends/redis.py:207-237 | after a run of calls, each week reads its previous value plus everything tracked in it |
| `Consistency.MonthReadAfterWrite` | analytics/backends/redis.py:239-271 | after a run of calls, each month reads its previous value plus everything tracked in it |
| `Consistency.EmptyReadsZero` | analytics/backends/redis.py:128 | on an empty store every query fails exactly when `limit` is 0; otherwise it has `limit` keys, each reading 0 |
| `Consistency.DaysSumToMonth` | analytics/backends/redis.py:148-271 | after tracking from an empty store, the daily series over the days of one month adds up to that month's entry in the monthly series |
| `Consistency.MonthDays` | analytics/backends/redis.py:188-191 | a daily series that starts on the 1st of a month and is as long as the month holds exactly that month's days |
| `Consistency.DaysOfMonth` | analytics/backends/redis.py:160-173 | summed over distinct days that are exactly one month's days, the amounts tracked per day equal the amount tracked in the month |
| `Consistency.CountReadAfterWrite` | analytics/backends/redis.py:302-317 | after a run of calls, the total reads its previous value plus every amount tracked under its key |
| `Consistency.ApplyCommute` | analytics/backends/redis.py:168-173 | any two calls reach the same store in either order |
| `Consistency.TrackMetricAdd` | tests/analytics/backends/redis_test.py:54-70 | tracking a then b on one date is tracking a + b once |
| `Consistency.ReplayAppend` | analytics/backends/redis.py:148-175 | replaying a + b is replaying a, then b |
| `Consistency.ReplaySwap` | analytics/backends/redis.py:148-175 | swapping two neighbouring calls leaves the final store unchanged |
| `Consistency.SameHashesSameReplies` | analytics/backends/redis.py:195-196 | HMGET replies depend only on the hashes |
| `Consistency.TrackCountNotQueryable` | analytics/backends/redis.py:137-139 | a `track_count` call changes no day, week or month query |
| `Scenarios.NewYearWeekTracked` | tests/analytics/backends/redis_test.py:254-273 | of the six tracked events, those of 2011-12-30 and 2012-01-01 fall in the week of Monday 2011-12-26, totalling 4 |
| `Scenarios.WeeksBetween` | analytics/backends/redis.py:164 | if `lo` and `hi` lie in one century, every event of the queried pair is at least six days after `lo`, and no such event's year is later than `hi`'s, then those events and their Mondays lie in that century |
| `Scenarios.WeekFromEmpty` | analytics/backends/redis.py:207-237 | starting from an empty store, each week reads exactly what was tracked in it |
| `Scenarios.NewYearWeek` | tests/analytics/backends/redis_test.py:254-273 | six weeks from 2011-12-01 after the test's six calls: the week of 2011-12-26 reads 4, summed from the 2011 and 2012 hashes |

## Left out

- Cluster setup (`redis.py:30-51`): host validation, nydus routing and the connection defaults. There is one abstract store.
- Concurrency: the `map()` pipeline is sequential application of its commands, with no interleaving of other clients.
- `RedisStore.HIncrBy`, `RedisStore.Incr`, `Backend.TrackMetric`, `Backend.TrackCount`: counters are unbounded integers. Redis keeps them as 64-bit signed integers and answers "increment or decrement would overflow" for a result outside [-2^63, 2^63-1], or "value is not an integer or out of range" for such an amount. Inside the `track_metric` pipeline the other commands still take effect while the call raises. None of this is modelled. `RedisStore.HIncrByCommute`, `RedisStore.HIncrByAdd`, `Consistency.ApplyCommute`, `Consistency.TrackMetricAdd`, `Consistency.ReplaySwap` and the `*ReadAfterWrite` lemmas therefore hold only while every counter and amount stays in that range.
- Default arguments (`limit=30` for days, `limit=10` for weeks, months and `get_metrics`, `inc_amt=1`, `group_by="week"`): every modelled operation takes the value explicitly, which covers the defaults; no behaviour is lost.
- Reply parsing: Redis returns strings, which the code parses with `int(...)` and a `TypeError` fallback. Stored values are `int` and absence is `None`.
- Stringifying ids and metrics with `%s`: ids and metrics are strings already. List-valued ids are not modelled.
- `Calendar.AddDays`: Python's `OverflowError` past year 9999 is not modelled; dates have no upper bound.
- `Calendar.AddMonths`: `relativedelta`'s `ValueError` (year out of range) past year 9999 is not modelled either. `Ranges.DailyDateRange`, `Ranges.WeeklyDateRange` and `Backend.MonthQuery` reach it through `Calendar.Plus`, so they also succeed where Python raises for ranges ending after 9999.
- `Format.LongDay`: `%Y` is written with four digits, which is exact for the years 1900 to 9999 that Python 2 formats. Years past 9999 are not excluded.
- `Backend.Lower`: lower-cases ASCII letters and the Kelvin sign (to `k`) and nothing else. This is `unicode.lower` as far as the allowed names are concerned. `unicode.lower` also turns U+0130 into a string starting with `i`, but no allowed name contains `i`, so `Lower` is still exact for deciding whether a `unicode` `group_by` lower-cases to day, week or month. A byte-string `group_by` (Python 2 `str`) has only its ASCII letters lowered, so there the Kelvin-sign case of `Backend.GroupByExamples` does not arise. It is not the whole of `unicode.lower`.
- `Backend.GetMetrics`: the `**kwargs` pass-through and raising a Python exception become a `Result` carrying the error message.
- `Backend.DaySeries`: `limit` is a natural number. `islice` raises `ValueError` for a negative limit, which is not modelled. A `limit` of 0 is modelled: it is the HMGET error.
- `Backend.GetCount`: the `start_date`/`end_date` arguments the tests pass are ignored by the code, so ranged counts are not modelled.
- `_parse_and_process_metrics`, which one test calls, is not part of `redis.py` and is not modelled.
- The other modules (`base.py`, `dummy.py`, `analytics/__init__.py`, `utils.py`) are abstract stubs, no-ops or import machinery and are not part of this model.
- `Consistency.DayReadAfterWrite`: requires the query span and every event of the queried pair to lie in one century. `%y` makes dates a century apart share counters (`Keys.CenturyAliasing`), so without that hypothesis the statement is false.
- `Consistency.WeekReadAfterWrite`: requires the query span, every event of the queried pair and its Monday to lie in one century, for the same reason.
- `Consistency.MonthReadAfterWrite`: requires the query span and every event of the queried pair to lie in one century, for the same reason.
- `Consistency.DaysSumToMonth`: requires every event of the queried pair to lie in the month's century, and the month not to be December of a year ending in 99. It rests on the day and month read-after-write lemmas, whose query spans reach the first day of the next month.
- `Consistency.DayAdded`: takes the same one-century hypothesis as `DayReadAfterWrite`.
- `Consistency.WeekAdded`: takes the same one-century hypothesis as `WeekReadAfterWrite`.
- `Consistency.MonthAdded`: takes the same one-century hypothesis as `MonthReadAfterWrite`.
- `Consistency.CountReadAfterWrite`: sums by total key, because `Keys.AggregateKeyAmbiguous` shows that different pairs can share a key.
