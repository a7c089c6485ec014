# Water-usage update cycle: a Dafny model

This project models the data-shaping core of the VertexOne WaterSmart Home
Assistant integration. Every six hours its coordinator logs in to the utility's
service and fetches a year or more of readings for each period type (hourly and
daily). It then turns each batch into two things:

- sensor **state histories**, one record per reading newer than the entity's last
  recorded state;
- long-term **statistics**, one per hour or day bucket newer than the last stored
  statistic.

The model covers the following, as pure Dafny functions with contracts, plus
lemmas relating them to independent reference definitions:

- the state-building loop: `StateBuilder.BuildStates`, against the per-entity
  reference `StateBuilder.Agrees`;
- the statistics rollup: `Statistics.Rollup`, against the groupby runs of
  `GroupBy.Buckets` and the per-bucket reference `Statistics.StatFor`;
- the bucketing helper `TimeBlocs`, together with the parts of Python's
  calendar and `datetime` it needs (`Calendar`, `DateTimes`);
- the retry loops and the per-period cycle: `Coordinator.Retry` and
  `Coordinator.Cycle`;
- the recorder writes the cycle makes, in order, including those made before
  an exception: `RecorderWrites.CycleEffects`;
- the entity table `ENTITIES`: `Readings.Entities`.

Inputs the code reads from outside become parameters:

- the readings a fetch returns;
- the success or failure of each login and fetch attempt;
- each entity's last recorded state time and last statistic start, as looked up
  in the recorder;
- the local zone, as a fixed offset in seconds;
- the order in which the cycle visits the period types.

Python exceptions become `Result` failures:

- `KeyError`;
- the `TypeError` of `min` over a null;
- `IndexError`;
- the out-of-range error of `fromtimestamp`;
- the `OverflowError` of adding an hour to a datetime in the last hour of the
  year 9999.

Files, in dependency order:

- `wrappers.dfy`: `Option` and `Result`.
- `arithmetic.dfy`: the integer-division facts behind the leap-year counts.
- `calendar.dfy`: the proleptic Gregorian calendar as Python counts it.
- `datetimes.dfy`: datetimes and their conversion from and to epoch seconds.
- `timeblocs.dfy`: `TimeBlocs`.
- `readings.dfy`: readings, errors and the entity table.
- `states.dfy`: the state builder and its loop invariant.
- `state_properties.dfy`: what the state histories promise.
- `groupby.dfy`: `itertools.groupby` over computed keys.
- `statistics.dfy`: the statistics rollup and what it promises.
- `coordinator.dfy`: the retry loops and the cycle over periods.
- `recorder_writes.dfy`: the recorder writes of a cycle, and the exception that
  stops it.

Points worth knowing about the code:

- There is no separate timestamp normaliser. The bucket key comes from
  `fromtimestamp` plus `as_local`, modelled as one fixed-offset conversion.
- The bucket key uses the naive `datetime.fromtimestamp(ts)`. To detect a
  fold, that call also converts the local time 24 hours earlier, and it
  raises ValueError when that time falls before the year 1. The states use
  `fromtimestamp(ts, tz=utc)`, which does no such look-back. So a reading in
  the first local day of the year 1 can get a state yet abort the statistics
  (`Statistics.FirstLocalDayRaises`).
- The recorder's `last_changed_ts` is a float; the model's cursor is its
  floor. For an integer `ts`, `ts <= c` holds exactly when `ts <= floor(c)`,
  so the readings kept are the same.
- The running total is reset at every hourly bucket (minute 0) and every daily
  bucket (hour 0). Those conditions hold for every bucket start of those types,
  so each `sum` equals its `state` (`Statistics.SumIsState`). It is not a
  cumulative total across buckets.
- Exhausted logins are only logged. No re-authentication signal is raised.
- An exception while building states or statistics aborts the whole cycle
  (`Coordinator.CycleFailsAtFirstError`). It is not confined to its period.
  Nothing already written is undone: the earlier periods' writes stay, and so
  do the writes of the failing period's earlier entities
  (`RecorderWrites.CycleWritesBeforeError`, `RecorderWrites.SaveLoopFailsAt`).
- Every reading's `ts` is converted twice before the entity loop. The second
  conversion, `end_time`, is never used. It still raises `OverflowError` for a
  reading in the last hour of the year 9999
  (`StateProperties.LastHourOverflows`).

## Model

| member | source | states |
|---|---|---|
| Readings.EntityTable | vertexone_watersmart/coordinator.py:65-126 | the six entities have distinct keys, each belongs to the hourly or the daily fetch, and the computed-leak entity is hourly |
| Readings.OfPeriod | vertexone_watersmart/coordinator.py:203 | the entities of one period: exactly the table's entities of that period, with distinct keys kept distinct |
| Readings.OfPeriodConcat | vertexone_watersmart/coordinator.py:203 | selecting a period keeps table order: selecting from two tables one after the other gives the two selections one after the other |
| Readings.EntitiesByPeriod | vertexone_watersmart/coordinator.py:203 | the hourly entities are the first three entries of `ENTITIES` and the daily ones the last three, in table order |
| Readings.PeriodTypes | vertexone_watersmart/coordinator.py:171 | the set of periods the cycle iterates over is exactly {hourly, daily} |
| TimeBlocs.Parse | vertexone_watersmart/utils.py:118-126 | a known `stat_type` name selects its truncation, and any other name selects none |
| TimeBlocs.TruncYearly | vertexone_watersmart/utils.py:128-131 | midnight of January 1 of the same year, no later than the input |
| TimeBlocs.TruncMonthly | vertexone_watersmart/utils.py:133-136 | midnight of the first of the same month, no later than the input |
| TimeBlocs.TruncWeekly | vertexone_watersmart/utils.py:138-143 | midnight of a Monday at most six days earlier, no later than the input |
| TimeBlocs.TruncDaily | vertexone_watersmart/utils.py:145-148 | midnight of the same date, no later than the input |
| TimeBlocs.TruncHourly | vertexone_watersmart/utils.py:150-153 | the same date and hour with zero minutes, seconds and microseconds, no later than the input |
| TimeBlocs.BucketOf | vertexone_watersmart/utils.py:128-157 | a key exists exactly when the naive `fromtimestamp` succeeds: the local time of `ts` and the local time one day earlier both fall in the years 1 to 9999. The key is a bucket start whose timestamp is at most `ts` |
| TimeBlocs.TruncateFixesStarts | vertexone_watersmart/utils.py:128-153 | every bucket start truncates to itself |
| TimeBlocs.TruncateIdempotent | vertexone_watersmart/utils.py:128-153 | truncating twice equals truncating once |
| TimeBlocs.TruncateIsGreatestStart | vertexone_watersmart/utils.py:128-153 | the truncation is the latest bucket start not after the input |
| TimeBlocs.TruncateMonotone | vertexone_watersmart/utils.py:128-153 | truncation preserves order |
| TimeBlocs.SameBucketBetween | vertexone_watersmart/utils.py:128-153 | an instant between an input's bucket start and the input has that same bucket |
| TimeBlocs.BucketOfMonotone | vertexone_watersmart/utils.py:128-153 | a later `ts` never gets an earlier bucket key |
| DateTimes.FromTimestamp | vertexone_watersmart/coordinator.py:247 | `fromtimestamp` succeeds exactly in years 1 to 9999, and converting back gives the same epoch second |
| DateTimes.TimestampOrder | vertexone_watersmart/coordinator.py:319 | `.timestamp()` orders datetimes exactly as their fields do |
| StateBuilder.PyMin | vertexone_watersmart/coordinator.py:262-266 | Python `min` over the window: a TypeError exactly when the window has two or more values and one is null; otherwise one of its values, no greater than any number in it |
| StateBuilder.Fresh | vertexone_watersmart/coordinator.py:255-260 | the readings an entity keeps are readings of the batch newer than its last state |
| StateBuilder.BuildStates | vertexone_watersmart/coordinator.py:239-280 | fails exactly when a `ts` or the hour after it has no datetime, or an entity's kept reading lacks its metric or has an undefined window minimum; never with IndexError; on success every entity has one record per kept reading with its expected state, and every link points backwards |
| StateBuilder.ServableAppend | vertexone_watersmart/coordinator.py:262-268 | a kept history stays processable after one more reading exactly when that reading has the metric and its window minimum is defined |
| StateProperties.FreshExact | vertexone_watersmart/coordinator.py:255-260 | a reading is kept exactly when it is in the batch and newer than the cursor |
| StateProperties.RefetchWritesNothing | vertexone_watersmart/coordinator.py:255-260 | re-fetching readings all at or before every entity's last state writes no record, and fails only when a `ts` or the hour after it has no datetime |
| StateProperties.LastHourOverflows | vertexone_watersmart/coordinator.py:247-248 | a reading at 23:00 UTC on 31 December 9999 converts, but adding the hour raises OverflowError |
| StateProperties.CopiesMetric | vertexone_watersmart/coordinator.py:267-276 | an entity other than the computed-leak one gets one record per kept reading holding its metric, with the reading's `ts` as both timestamps |
| StateProperties.WindowShape | vertexone_watersmart/coordinator.py:264-265 | after `j + 1` appends the window is the last `min(5, j + 1)` raw values, ending with the current one |
| StateProperties.LeakIsWindowMinimum | vertexone_watersmart/coordinator.py:262-266 | each computed-leak state is the `min` of the last at most five raw values ending at the current one, so it is no greater than the current raw value when that is a number |
| StateProperties.LeakNeverNull | vertexone_watersmart/coordinator.py:262-266 | with no null metric among the kept readings, every computed-leak state is a number |
| StateProperties.RecordsAscending | vertexone_watersmart/coordinator.py:246-276 | for a batch with increasing `ts`, each entity's records have strictly increasing timestamps |
| StateProperties.SingleEntityLinks | vertexone_watersmart/coordinator.py:243-278 | with a single entity, the first record has no `old_state` and each later record links to the one just before it, whatever readings were skipped |
| GroupBy.BucketsAreRuns | vertexone_watersmart/coordinator.py:314-316 | the groupby yields a result exactly when every key is computable, and then yields the maximal runs of equal keys that tile the batch in order |
| GroupBy.RunsCover | vertexone_watersmart/coordinator.py:314-316 | every reading lies in exactly one run |
| Statistics.Values | vertexone_watersmart/coordinator.py:328-332 | the non-null metric values of a group in order, and a KeyError exactly when some reading lacks the metric |
| Statistics.Mean | vertexone_watersmart/coordinator.py:333-335 | the mean times the count is the sum for a non-empty group, and 0 for an empty one |
| Statistics.RollupMatchesRuns | vertexone_watersmart/coordinator.py:313-348 | the runs exist exactly when every `ts` survives the naive conversion, one-day look-back included, and the rollup fails when they do not. Otherwise it fails exactly when a newer run lacks the metric, and it yields one statistic per newer run in order: start and last reset equal to the run's key, state the sum of its non-null values, mean their average or 0, and a running total reset at hour 0 (daily) or minute 0 (hourly) |
| Statistics.FirstLocalDayRaises | vertexone_watersmart/utils.py:128-130 | in a zone at or west of UTC, a reading in the first local day of the year 1 passes both `tz=utc` conversions, yet its bucket key raises, so its rollup fails |
| Statistics.EmittedIffNewer | vertexone_watersmart/coordinator.py:317-321 | a statistic starts at a reading's bucket exactly when that bucket's timestamp is after the last stored statistic's start, or there is none |
| Statistics.SumIsState | vertexone_watersmart/coordinator.py:322-337 | for hourly and daily statistics every `sum` equals its `state` |
| Statistics.StartsIncrease | vertexone_watersmart/coordinator.py:314-348 | for a batch with increasing `ts`, the statistics' start timestamps strictly increase |
| Statistics.PresentValues | vertexone_watersmart/coordinator.py:328-332 | a number is among the collected values exactly when some reading of the group has it |
| Coordinator.FirstSuccess | vertexone_watersmart/coordinator.py:174-183 | the first successful attempt in the budget, after only failures, or none exactly when every attempt fails |
| Coordinator.Retry | vertexone_watersmart/coordinator.py:174-186 | the loop makes between one and four attempts, succeeds exactly when one of the first four does, stops at the first success, and makes all four when it fails |
| Coordinator.RunPeriod | vertexone_watersmart/coordinator.py:173-202 | a period is skipped at login exactly when four logins fail, and at fetch exactly when the login succeeds and four fetches fail; otherwise it is processed |
| Coordinator.RollupAll | vertexone_watersmart/coordinator.py:286-348 | on success every entity of the period has a history; when the first entity has no history, the loop raises KeyError on its key |
| Coordinator.RollupAllFailsAt | vertexone_watersmart/coordinator.py:286-348 | when entity `n` is the first without a history or with a failing rollup, the loop raises KeyError on its key or its rollup's error |
| Coordinator.RollupAllStores | vertexone_watersmart/coordinator.py:286-348 | on success the statistics are keyed exactly by the entities' keys, and each key holds the rollup of the last entity with that key |
| Coordinator.RollupAllSucceeds | vertexone_watersmart/coordinator.py:286-348 | the statistics loop completes exactly when every entity has a history and its rollup completes |
| Coordinator.ProcessEmpty | vertexone_watersmart/coordinator.py:287 | an empty batch raises KeyError on the first entity's history |
| Coordinator.ProcessSucceeds | vertexone_watersmart/coordinator.py:239-348 | a fetched period completes exactly when its batch is processable (every `ts` and the hour after it convert, every kept reading has its metric and a defined window minimum), not empty, and every entity's rollup completes |
| Coordinator.ProcessSaves | vertexone_watersmart/coordinator.py:239-348 | a completed period saves the histories the builder computed and, under each entity's key, that entity's rollup |
| Coordinator.SavedSumsAreStates | vertexone_watersmart/coordinator.py:313-348 | every statistic a completed hourly or daily period saves has `sum` equal to `state` |
| Coordinator.SavedStartsIncrease | vertexone_watersmart/coordinator.py:313-348 | for a batch with increasing `ts`, each saved list of statistics has strictly increasing starts |
| Coordinator.CycleSucceeds | vertexone_watersmart/coordinator.py:173-202 | the cycle completes exactly when no period raises |
| Coordinator.CycleIsPerPeriod | vertexone_watersmart/coordinator.py:184-186 | a completed cycle gives each period the outcome of its own inputs, so a failed login or fetch skips that period alone |
| Coordinator.CycleFailsAtFirstError | vertexone_watersmart/coordinator.py:173-348 | an exception ends the cycle with the error of the first period that raises |
| RecorderWrites.SaveLoopRaises | vertexone_watersmart/coordinator.py:286-361 | the save loop raises exactly when the statistics loop does, with the same exception |
| RecorderWrites.SaveLoopWrites | vertexone_watersmart/coordinator.py:286-361 | when the statistics loop completes, the save loop saves each non-empty history and imports each non-empty list of statistics, entity by entity |
| RecorderWrites.SaveLoopFailsAt | vertexone_watersmart/coordinator.py:286-361 | when entity `n` is the first to raise, the entities before it have made all their writes, and entity `n` has saved its records if it has a history, because `save_states` runs before its statistics are built |
| RecorderWrites.PeriodEffectsAgree | vertexone_watersmart/coordinator.py:173-361 | a period's writes end in an exception exactly when the period raises, with the same exception; a completed period writes what its outcome calls for, and a skipped one writes nothing |
| RecorderWrites.CycleEffectsRaise | vertexone_watersmart/coordinator.py:173-361 | the cycle's writes end in an exception exactly when the cycle raises, with the same exception |
| RecorderWrites.CycleWrites | vertexone_watersmart/coordinator.py:173-361 | a completed cycle writes what its periods' outcomes call for, period after period |
| RecorderWrites.CycleWritesBeforeError | vertexone_watersmart/coordinator.py:173-361 | when period `n` is the first to raise, the writes of the periods before it stay made, followed by whatever period `n` wrote before raising |

## Left out

- Recorder I/O is not modelled: the metadata ids, `get_last_known_state`, `get_last_known_statistic`, `delete_invalid_states`, and the database side of `save_states` and `async_import_statistics` (`utils.py` lines 22-114). The looked-up values are parameters. The calls to `save_states` and `async_import_statistics` are kept as `RecorderWrites.Write` values, in the order the cycle makes them. The `delete_invalid_states` call is not kept.
- The remote client (`login`, `fetch`) is network code outside this repository. It becomes the attempt outcomes and the fetched batch.
- Time zones: `fromtimestamp` followed by `as_local` is one fixed offset east of UTC. Daylight-saving changes and the reinterpretation of naive datetimes are not modelled. With one fixed offset there is no fold, so the fold look-back of the naive `fromtimestamp` matters only through its range check. CPython makes that look-back everywhere but on Windows, which skips it up to one day after the epoch; the Windows behaviour is not modelled.
- Floating point: values, sums and means are exact reals. Rounding in `sum` and `statistics.mean` is not modelled.
- The Home Assistant glue is not modelled: coordinator lifecycle and polling (`coordinator.py` lines 132-157), `config_flow.py`, `sensor.py`, `const.py`, logging, and the units and device classes of the entity table.
- `StatisticMetaData` (coordinator.py lines 304-311) is constant metadata and carries nothing the rollup computes.
- StateProperties.SingleEntityLinks: holds for one entity only. With several entities, `last_idx` is shared across the entities of a period, so the links of one entity's records depend on the readings skipped by the others. The leak window is not shared: only the computed-leak entity appends to `last_values`. The model keeps that sharing but states no property for it.
- StateProperties.LeakNeverNull: assumes no null metric reaches the leak window. A null there makes `min` raise, which `BuildStates` reports as a failure.
- Coordinator.Cycle: the order of the periods is a parameter, because it comes from iterating a `set` of strings.
