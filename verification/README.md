# Verified model of the device platform's stateful core

A Dafny model of the parts of an IoT device platform that keep state or compute over time, with proofs of what they promise.

| file | what it models |
|---|---|
| `OnlineTrend.dfy` | the hourly online trend: one SQL query of ten stages, against a count of devices by their last status |
| `Calendar.dfy`, `Boundaries.dfy`, `Telemetry.dfy` | a Gregorian month table, window boundaries of hours to years, samples and tilings |
| `Wrappers.dfy` | shared small types |
| `DiffWindows.dfy`, `DiffRange.dfy` | differences per time window: counting, clipping, skipping, capping and sorting windows |
| `AggregateWindows.dfy` | aggregates per closed time window |
| `TelemetryStatistics.dfy` | the entry point that asks both for the last n units |
| `SqlBuckets.dfy` | half-open SQL buckets |
| `TelemetryTables.dfy` | the history table and the table of current values, written side by side |
| `AutomateStore.dfy`, `AutomateCache.dfy` | the three-level automation cache: its effects as functions with the theorems, and the class whose methods have these effects |
| `AlarmCache.dfy` | group records with three indices, and the removal that edits a slice while ranging over it |
| `GroupForest.dfy` | device counts over the forest of groups by two recursive queries |
| `Collector.dfy`, `FailureLog.dfy` | the buffered failure collector under concurrency, and the bounded newest-first list it writes to |
| `Downlink.dfy` | four bounded channels with a worker each, and the handler whose outcomes feed counters and log status |

Queries are functions over sequences of rows. Objects that change are classes, and each method states its whole new state
through a function on the old one; the theorems are about these functions. Concurrent parts are transition systems, and a
run is any sequence of steps. Times are integers, milliseconds or in the trend microseconds; values are reals. Redis keys and table
rows are maps. Ranging over a Go map may visit its keys in any order: the orders are arguments, and the theorems hold for all.

`dafny verify dfyconfig.toml` checks everything.

## What the proofs found

- Month windows use 30 days a month to count windows, and can miss the oldest part of the range. `MonthWindowsTile` has the
  exact condition, `MonthGapExample` dates.
- At most 100 difference windows are made, while the request may ask for 1000: hours, days and weeks lose the oldest part
  exactly from a limit of 100 on (`FixedDiffsCoverIff`, `HundredHoursExample`; `DiffsCoverIff` for every unit).
- Asked for the last n hours, days or weeks, aggregates always leave out the oldest part, since their windows end after now
  (`OldestPartIsLeftOut`). One month covers its 30 days only on the 31st (`OneMonthCoversIff`); `MonthsCoverIff` and
  `YearsCoverIff` have the exact conditions for months and years.
- SQL buckets hold their samples from 1970 on; before, integer division truncates towards zero and only exact multiples of
  the window lie in their bucket (`GroupHoldsIff`, `BeforeEpochExample`). Combining finer buckets is right all the same.
- The current-value table takes the last arrival, the history query the greatest time: they agree exactly where the last
  arrival is the newest (`CurrentAgreesIffLastIsNewest`, `LateRowExample`).
- A failure limit of 0 keeps every failure (`LimitZeroKeepsAll`, `LimitHoldsIffNotZero`). Failures are stored in the order
  recorded exactly when every write goes to the oldest unfinished batch (`OrderKeptIffOldestFirst`); with two flushes in
  flight it need not (`TwoFlushesLoseOrder`).
- Deleting an alarm group is complete exactly when the calls before agree about it (`DeleteIsCompleteIffCallsAgree`). The
  caller's own calls do not: a class condition sets the group once per triggering device, the record keeps the first, and
  the others keep listing the deleted group (`SecondDeviceLeavesMention`). A shrinking alarm list has the same effect
  (`ShrunkAlarmListLeavesMention`).
- The trend's offline number is never negative exactly when no more devices have rows than were created by the end
  (`NeverNegativeIffEnoughDevices`); a device whose time of creation is null is not counted (`NegativeOfflineExample`).
- Two device groups can be made each other's parents, and then the recursive count never ends (`EndsIffNoCycle`,
  `TwoGroupCycleNeverEnds`).
- When the deletion of a scene leaves other scenes in a device's automation entry, the whole entry is deleted; when it leaves
  none, an empty list is stored. This costs misses but never returns a wrong scene (`DeleteDropsExactlyTheScene`,
  `DeleteKindMisses`).

Two more conditions concern inputs that no caller passes: a difference query over a single instant (`InstantIsCovered`),
and an aggregate query of another time type, which splits the range (`SplitReachesEnd`).

## Model

| member | source | states |
|---|---|---|
| `OnlineTrend.TrendCountsOnlineDevices` | `internal/dal/board.go:168-275` | The ten-stage query as a whole: one point per hour from the start hour to the end hour, and its online number is the number of devices whose last row by (change_time, id), before the hour ends and not after the range end, has status 1; `Meaning` is defined without any stage of the query |
| `OnlineTrend.BaselinePlusDeltasIsOnlineCount` | `internal/dal/board.go:189-265` | The value before `GREATEST(…, 0)`, baseline plus cumulative deltas, already is that number of devices, so the clamp never changes a value |
| `OnlineTrend.ReversedRangeCountsAtStart` | `internal/dal/board.go:168-275` | A range that ends before it starts but in the same hour has one point, which counts the devices whose last row not after the start has status 1 |
| `OnlineTrend.ReversedRangeIsEmpty` | `internal/dal/board.go:176-181` | A range that ends in an earlier hour than it starts has no points |
| `OnlineTrend.TrendIndependentOfStart` | `internal/dal/board.go:189-265` | For start <= mid <= end the trend from mid is a suffix of the trend from start, whether or not mid is on an hour |
| `OnlineTrend.RepeatedRowChangesNoPoint` | `internal/dal/board.go:189-265` | A further row that repeats the device's status before it, or says offline of a device with no earlier row, changes no point of any trend, wherever in the history its time falls |
| `OnlineTrend.OfflineIsNotNegative` | `sql/12.sql:2-9` | When every history row is of a device of the same tenant created before it, 0 <= online <= total and offline = total - online at every point; the schema gives the device, its tenant and time of creation are up to the writers |
| `OnlineTrend.NeverNegativeIffEnoughDevices` | `internal/dal/board.go:183-188` | The offline number is never negative, whatever 0/1 statuses the rows have, if and only if no more devices have rows up to the end than were created by then |
| `OnlineTrend.NegativeOfflineExample` | `sql/1.sql:1395-1395` | A device without a time of creation, which the schema allows, is online but not counted: a negative offline number |
| `OnlineTrend.DeviceTrendMeaning` | `internal/dal/board.go:152-164` | The entry point for every choice of bounds, a missing end being now and a missing start 48 hours before now: the plain meaning, for reversed bounds too, and 49 points without bounds |
| `OnlineTrend.EventsMatchLastWords` | `internal/dal/board.go:189-229` | The devices online after the merged events before a cut are those whose last row of the full history before the cut has status 1: taking one baseline row per device loses nothing |
| `OnlineTrend.BaselinePlusSteps` | `internal/dal/board.go:201-244` | Initial online count plus the LAG steps of all later events before a cut is the number of devices online after those events |
| `OnlineTrend.OnlineAfterSnoc` | `internal/dal/board.go:219-240` | One event changes the number of online devices by exactly the step its LAG value gives it, also for repeated and first events |
| `OnlineTrend.BucketsAddUp` | `internal/dal/board.go:231-244` | Summing the hourly deltas up to an hour is summing the steps of the events before that hour's end: every event is in one bucket |
| `OnlineTrend.PointsFromSeries` | `internal/dal/board.go:176-275` | The join with the hour series, the running sum and the projection: point k is for hour k and shows the baseline plus the deltas up to it |
| `OnlineTrend.DistinctOnDeviceMembers` | `internal/dal/board.go:190-200` | DISTINCT ON keeps exactly the rows that are latest of their device by (change_time, id) |
| `OnlineTrend.InitialStatusMembers` | `internal/dal/board.go:190-200` | The baseline holds exactly the tenant's rows not after the start that are latest of their device among those |
| `OnlineTrend.RowsBetweenMembers` | `internal/dal/board.go:190-217` | The half-open time filters keep exactly the tenant's rows after the lower and not after the upper bound |
| `OnlineTrend.SortEventsSorts` | `internal/dal/board.go:219-229` | The window order puts events in (change_time, id) order and keeps exactly the events given |
| `DiffRange.GetDiffData` | `internal/dal/telemetry_datas.go:750-894` | Fails exactly for an unknown time type; otherwise returns the points of `DiffData` |
| `DiffRange.CollectDiffs` | `internal/dal/telemetry_datas.go:805-893` | The window loop, clipping, skipping and sorting in place give the specification's points, oldest first |
| `DiffRange.WindowPoint` | `internal/dal/telemetry_datas.go:830-883` | One window: skipped outside the range, clipped to it, and a point only when a difference exists |
| `Boundaries.WindowAt` | `internal/dal/telemetry_datas.go:809-825` | One step of i units from the aligned end and one unit back from there, months and years by calendar steps, land on the i-th and the next boundary |
| `Boundaries.StepFromBoundary` | `internal/dal/telemetry_datas.go:817-824` | Calendar and duration steps between boundaries of any unit land on boundaries |
| `DiffRange.CollectPoints` | `internal/dal/telemetry_datas.go:805-884` | The window loop collects the contributions newest first |
| `DiffRange.LimitedCount` | `internal/dal/telemetry_datas.go:780-803` | Between 1 and 100 windows: one estimated length less does not pass the start, and as many pass it unless there are 100 |
| `DiffRange.UncappedWindowsTile` | `internal/dal/telemetry_datas.go:780-843` | Hours, days, weeks and years: when the count is not capped, the kept and clipped windows are consecutive closed intervals from startTime exactly to endTime |
| `DiffRange.CappedWindowsTile` | `internal/dal/telemetry_datas.go:800-843` | When capped, 100 windows run exactly from the later of startTime and the 100th window's begin to endTime, months included |
| `DiffRange.MonthWindowsTile` | `internal/dal/telemetry_datas.go:792-843` | Months: the windows reach startTime if and only if `MonthGap` does not hold, a condition on the months and days of start and end: the 30-day estimate falls one window short when the months between are short |
| `DiffRange.MonthGapExample` | `internal/dal/telemetry_datas.go:792-843` | A concrete gap: one month back from noon on 2 March, in 2023 or any year that is not a leap year, the windows begin on 1 February, not on 31 January |
| `DiffRange.KeptWindowsHoldRange` | `internal/dal/telemetry_datas.go:805-843` | Uncapped, an instant lies in a kept window if and only if it is in the range |
| `DiffRange.InstantIsCovered` | `internal/dal/telemetry_datas.go:780-843` | With startTime = endTime the instant is covered if and only if it is not itself a window boundary |
| `DiffRange.InstantExample` | `internal/dal/telemetry_datas.go:806-843` | Midnight of 1 January 1970 with hour windows is not covered; no caller asks for a single instant |
| `DiffRange.PointsIncrease` | `internal/dal/telemetry_datas.go:886-893` | Emitted timestamps are strictly increasing for every time type, capped or not |
| `DiffRange.DiffDataTelescopes` | `internal/dal/telemetry_datas.go:806-893` | With numeric samples, one per time, and a sample on every boundary between two windows, the emitted values add up to the newest minus the oldest sample of the range |
| `DiffRange.CappedDiffDataTelescopes` | `internal/dal/telemetry_datas.go:800-893` | When capped they add up to that over the range the 100 windows reach |
| `Boundaries.EndInNewestWindow` | `internal/dal/telemetry_datas.go:604-688` | For every unit, and for both ways to count weeks, the aligned end is after the end of the range and one window back is not |
| `DiffWindows.CoversIffReaches` | `internal/dal/telemetry_datas.go:830-843` | For any falling boundaries: the kept windows tile the range exactly when the oldest reaches back to startTime |
| `DiffWindows.InstantCoverage` | `internal/dal/telemetry_datas.go:830-843` | The same for a range of one instant |
| `DiffWindows.KeptWindowsTile` | `internal/dal/telemetry_datas.go:830-843` | Skipping and clipping leave adjacent windows from the later of the n-th begin and startTime up to endTime |
| `DiffWindows.SortReverses` | `internal/dal/telemetry_datas.go:886-891` | Sorting the points collected newest first reverses them |
| `DiffWindows.ExtremeSamples` | `internal/dal/telemetry_datas.go:897-921` | The two limited queries return a newest and an oldest sample of the closed window, and nothing only when it is empty |
| `DiffWindows.ChangesAdd` | `internal/dal/telemetry_datas.go:897-938` | Newest minus oldest over two adjacent closed ranges that share a sample on their boundary adds up to that of their union |
| `DiffWindows.PointsTelescope` | `internal/dal/telemetry_datas.go:806-893` | Telescoping for any windows that tile a range |
| `Boundaries.StepsBackFall` | `internal/dal/telemetry_datas.go:809-825` | Stepping back by hours, days, weeks, months or years gives strictly falling boundaries |
| `Calendar.MonthOfIsUnique` | `internal/dal/telemetry_datas.go:770-775` | A day lies in exactly one month of the Gregorian table, before 1970 too |
| `Calendar.YearsLength` | `internal/dal/telemetry_datas.go:794-795` | n calendar years have 365 n days and one more for every leap year, so the estimate for years never falls short |
| `Calendar.ShortRuns` | `internal/dal/telemetry_datas.go:792-793` | Which runs of consecutive months are shorter than 30 days a month: exactly those `ShortRun` names |
| `Calendar.LengthOfMonths` | `internal/dal/telemetry_datas.go:460-461` | Any run of months has 30 days each, five more a year, one for every leap year, and a correction by the months at its ends |
| `AggregateWindows.GetAggregatedDataWithTime` | `internal/dal/telemetry_datas.go:589-747` | Fails exactly for an unknown aggregate; otherwise the aggregates of the specified windows, windows without numbers left out |
| `AggregateWindows.TimeWindows` | `internal/dal/telemetry_datas.go:590-706` | The window loops give the backward windows of the time type, or the plain split for any other type |
| `AggregateWindows.Query` | `internal/dal/telemetry_datas.go:709-746` | The query loop: one aggregate per window over the closed interval |
| `AggregateWindows.UnitWindowsTile` | `internal/dal/telemetry_datas.go:606-688` | Hour, day, week, month and year windows are contiguous back from the aligned end, which is the first boundary after endTime |
| `Boundaries.SundayAround` | `internal/dal/telemetry_datas.go:639-655` | Weeks end at the midnight before the next Sunday, the first one after endTime |
| `AggregateWindows.SplitReachesEnd` | `internal/dal/telemetry_datas.go:689-705` | The plain split tiles the range up to endTime if and only if the number of parts divides its length |
| `AggregateWindows.SplitExample` | `internal/dal/telemetry_datas.go:689-705` | Ten milliseconds split in three are not covered; the one caller refuses the time types that lead to a split |
| `AggregateWindows.UnitWindowsHoldRangeIff` | `internal/dal/telemetry_datas.go:606-688` | The windows hold every instant of the range if and only if the oldest boundary is not after startTime |
| `TelemetryStatistics.GetTelemetryStatisticDataByDeviceIds` | `internal/dal/telemetry_datas.go:436-514` | Fails exactly for lists of different length or an unknown time type; otherwise one entry per device and key, in order, for the last n units, without those whose aggregate is unknown |
| `TelemetryStatistics.OldestPartIsLeftOut` | `internal/dal/telemetry_datas.go:453-459` | Aggregates of the last n hours, days or weeks never cover the range asked for |
| `TelemetryStatistics.MonthsCoverIff` | `internal/dal/telemetry_datas.go:460-461` | Aggregates of the last n months cover n times 30 days if and only if the days of these months beyond 30 each, in closed form, are no less than what is left of the current month |
| `TelemetryStatistics.OneMonthCoversIff` | `internal/dal/telemetry_datas.go:460-461` | For one month: if and only if the call is made on the 31st |
| `TelemetryStatistics.YearsCoverIff` | `internal/dal/telemetry_datas.go:462-463` | Aggregates of the last n years cover n times 365 days if and only if there are as many leap days among them as days are left of the current year |
| `TelemetryStatistics.DiffsCoverIff` | `internal/dal/telemetry_datas.go:483-494` | Differences of the last n units, for every n: covered without the cap on windows, months unless there is a gap, and with it if and only if 100 windows reach the start |
| `TelemetryStatistics.FixedDiffsCoverIff` | `internal/dal/telemetry_datas.go:800-803` | For hours, days and weeks: covered if and only if n <= 99 |
| `TelemetryStatistics.HundredHoursExample` | `internal/dal/telemetry_datas.go:800-803` | The last 100 hours are not covered |
| `AggregateWindows.WindowAggregatesAddUp` | `internal/dal/telemetry_datas.go:606-744` | Window sums total the covered time's sum plus the samples on interior boundaries, which two closed windows share; the greatest maximum and least minimum over the windows are those of the covered time |
| `AggregateWindows.SumsOverlap` | `internal/dal/telemetry_datas.go:726-735` | Two adjacent closed windows count the samples on their common boundary twice |
| `AggregateWindows.ExtremesJoin` | `internal/dal/telemetry_datas.go:726-735` | Their maxima and minima join to those of the union |
| `AggregateWindows.ExtremeIsExtreme` | `internal/dal/telemetry_datas.go:716-720` | MAX and MIN of a window bound every number in it, are attained, and are null only without numbers |
| `SqlBuckets.BucketsPartition` | `internal/dal/telemetry_data_aggregate.go:61-134` | For times from 1970 on: disjoint half-open ranges in strictly increasing order, every sample in one of them, none empty |
| `SqlBuckets.BucketsHoldTheirRange` | `internal/dal/telemetry_data_aggregate.go:61-134` | For times from 1970 on the value of a bucket is the AVG, SUM, MAX, MIN or MAX - MIN of exactly the samples with x <= ts < x2 |
| `SqlBuckets.AggregateOfGroup` | `internal/dal/telemetry_data_aggregate.go:74-82` | The aggregate of a group of samples: their sum, mean, an attained bound, or the difference of the two bounds |
| `SqlBuckets.AggregateQueryMeaning` | `internal/dal/telemetry_data_aggregate.go:20-42` | The whole call: fails exactly for an unknown function; otherwise every number of the range is in a bucket and every bucket holds the aggregate of its range |
| `SqlBuckets.BucketsAscend` | `internal/dal/telemetry_data_aggregate.go:61-134` | Whatever the times, x strictly increases and x2 = x + the window |
| `SqlBuckets.GroupHoldsIff` | `internal/dal/telemetry_data_aggregate.go:61-134` | A time lies in the range of its bucket if and only if it is not negative or is a multiple of the window: integer division truncates |
| `SqlBuckets.BeforeEpochExample` | `internal/dal/telemetry_data_aggregate.go:61-134` | One millisecond before 1970 is outside its one-second bucket |
| `SqlBuckets.FinerBucketsCombine` | `internal/dal/telemetry_data_aggregate.go:61-134` | When window w divides w', aggregating the w-buckets by w' gives exactly the w'-buckets, for SUM, MAX and MIN and all times, negative ones included |
| `SqlBuckets.BucketSumsAreConserved` | `internal/dal/telemetry_data_aggregate.go:61-97` | Bucket sums add up to the sum of all filtered samples |
| `SqlBuckets.GroupOfGroup` | `internal/dal/telemetry_data_aggregate.go:61-97` | Truncating to w and then to a multiple of w is truncating to the multiple |
| `SqlBuckets.GroupsAreGroups` | `internal/dal/telemetry_data_aggregate.go:61-134` | GROUP BY and ORDER BY give the group numbers that occur, once each, ascending |
| `SqlBuckets.BucketPerGroup` | `internal/dal/telemetry_data_aggregate.go:61-134` | Every group gives one bucket with its bounds and a non-null aggregate |
| `SqlBuckets.WindowSeconds` | `internal/dal/telemetry_data_aggregate.go:44-59` | The window argument in whole seconds, rounded down, and one second below that |
| `TelemetryTables.Tables.CreateBatch` | `internal/dal/telemetry_datas.go:197-229` | Plain insert, then insert with conflict handling: refused as a whole exactly when the batch repeats a (device, key, ts); otherwise the history holds all old rows, the values of the batch at its times, and the tenants that rows had before |
| `TelemetryTables.Tables.Insert` | `internal/dal/telemetry_datas.go:197-205` | Row by row with rollback: succeeds exactly when no row repeats a key of the table or of the batch, then adds exactly the rows of the batch, and otherwise changes nothing |
| `TelemetryTables.Tables.InsertOnConflict` | `internal/dal/telemetry_datas.go:207-229` | Row by row: refused when a row is touched twice; otherwise new values at known keys, new rows elsewhere, and all other rows as they were |
| `TelemetryTables.Tables.UpdateBatch` | `internal/dal/telemetry_datas.go:243-270` | The row loop replaces, or creates, the current row of each place in turn and keeps the tenant of an existing row |
| `TelemetryTables.CurrentAgreesIffLastIsNewest` | `internal/dal/telemetry_datas.go:28-47` | After any batches accepted by both writers the current table equals the latest-per-key query at a place if and only if the last arrival there carries the greatest timestamp so far |
| `TelemetryTables.LateRowExample` | `internal/dal/telemetry_datas.go:243-270` | A late row of an earlier time makes the two reads differ |
| `TelemetryTables.InOrderKeepsAgreement` | `internal/dal/telemetry_current_datas.go:21-48` | Arrivals in time order keep both reads equal at every batch boundary |
| `TelemetryTables.TenantsAgree` | `internal/dal/telemetry_datas.go:243-270` | When no place changes its tenant the tenants agree as well |
| `TelemetryTables.TablesOfArrivals` | `internal/dal/telemetry_datas.go:197-270` | How arrivals are cut into batches changes neither table |
| `AutomateStore.DeleteDropsExactlyTheScene` | `initialize/automate_cache.go:120-220` | From every reachable state, deleting a scene turns every device lookup into a miss or into exactly the earlier result without that scene |
| `AutomateStore.DeleteKindMisses` | `initialize/automate_cache.go:192-220` | Which lookups become misses, exactly: devices named by the scene's cached conditions whose entry lists anything besides one mention of the scene |
| `AutomateStore.DeleteKindLookup` | `initialize/automate_cache.go:140-220` | The same per key prefix, from any state with owned groups |
| `AutomateStore.DeleteKindKeepsOther` | `initialize/automate_cache.go:120-135` | Deleting under one prefix changes no lookup under the other |
| `AutomateStore.ReturnedScenesCarryOwn` | `initialize/automate_cache.go:250-486` | Over every interleaving of device sets, scene sets, no-task sets, deletes and expiries with each group owned by one scene, every returned scene carries only its own actions and conditions |
| `AutomateStore.RunOwned` | `initialize/automate_cache.go:250-486` | Every such run keeps the ownership invariant of all three levels |
| `AutomateStore.SetThenGet` | `initialize/automate_cache.go:321-471` | After a device set its lookup returns each scene with both an action and a condition exactly once, with its actions in order and its conditions group by group, every group once and in full, a permutation of its conditions |
| `AutomateStore.SetExpireGet` | `initialize/automate_cache.go:339-471` | After a device set and any set of key expiries: a miss, or that result without the scenes whose actions and the whole groups whose conditions expired, actions intact |
| `AutomateCache.AutomateCache.GetCacheByDeviceId` | `initialize/automate_cache.go:321-337` | Picks the prefix by the device configuration and returns what `LookupOf` says of the stored keys |
| `AutomateCache.AutomateCache.GetCacheByDId` | `initialize/automate_cache.go:339-384` | The nested lookup loops: miss, NOTASK, or the scenes whose actions are cached with the conditions of the groups still cached |
| `AutomateCache.AutomateCache.SetCacheByDeviceId` | `initialize/automate_cache.go:393-401` | The whole new state of all three levels, for the orders in which the maps were ranged over |
| `AutomateCache.AutomateCache.SetCache` | `initialize/automate_cache.go:409-471` | The map-filling and writing loops have exactly the effect `AfterSetDevice` |
| `AutomateCache.AutomateCache.SetCacheBySceneAutomationId` | `initialize/automate_cache.go:228-243` | Both prefixes in turn: the effect `AfterSetScene` |
| `AutomateCache.AutomateCache.SetCacheBySceneAutId` | `initialize/automate_cache.go:250-315` | Nothing without a named device; otherwise groups with a condition of the prefix's type, the actions, and one more entry per named device |
| `AutomateCache.AutomateCache.SetCacheByDeviceIdWithNoTask` | `initialize/automate_cache.go:476-486` | The device's lookup becomes NOTASK and every other lookup stays as it was |
| `AutomateCache.AutomateCache.DeleteCacheBySceneAutomationId` | `initialize/automate_cache.go:120-135` | Both prefixes in turn: the effect `AfterDelete` |
| `AutomateCache.AutomateCache.DeleteCacheBySceneAutId` | `initialize/automate_cache.go:140-185` | Nothing without the action key; otherwise removes the action, its groups and the marked device keys |
| `AutomateCache.AutomateCache.AutomateDeviceCacheDeleteHandel` | `initialize/automate_cache.go:192-220` | As written: an entry left with scenes is marked for deletion, one left empty is stored as an empty list |
| `AutomateCache.RemoveFirst` | `initialize/automate_cache.go:202-209` | The search and copy shift removes the first entry of the scene and keeps the order of the rest |
| `AlarmCache.RemoveWhileRanging` | `initialize/alarm_cache.go:194-215` | Shifting the slice in place while ranging over it: on a list without duplicates no shift is out of range, and exactly the one occurrence is removed, the rest in order |
| `AlarmCache.ShiftLeft` | `initialize/alarm_cache.go:198-206` | The in-place shift of the shared array, element by element |
| `AlarmCache.RunsKeepLists` | `initialize/alarm_cache.go:163-215` | In every run of set and delete operations all stored index lists are non-empty and free of duplicates |
| `AlarmCache.ConsistentIffDisciplined` | `initialize/alarm_cache.go:100-135` | Throughout a run the device and scene indices are exact inverses of the group records, and every alarm entry is justified by its record, if and only if every call keeps the discipline: a set group keeps its scene and adds no device, alarms come after devices and at one of them, and no alarm that still lists the group is dropped |
| `AlarmCache.StepConsistency` | `initialize/alarm_cache.go:219-241` | From a consistent state one call keeps consistency if and only if it is disciplined |
| `AlarmCache.DeleteGroupLeavesNoMention` | `initialize/alarm_cache.go:269-306` | From any consistent state DeleteBygroupId(g) leaves no mention of g in any index and every mention of other groups |
| `AlarmCache.DeleteIsCompleteIffCallsAgree` | `initialize/alarm_cache.go:269-306` | From a state without mention of g and after any calls that do not delete g, DeleteBygroupId(g) leaves no mention of it if and only if every device and scene named for g is in its first record, and every pair set and not dropped by DeleteByAlarmId has its alarm in the last list and its device in the first record |
| `AlarmCache.CallsMakeRecord` | `initialize/alarm_cache.go:100-135` | The record those calls leave: devices and scene of the first, alarms of the last |
| `AlarmCache.CallsMakeMentions` | `initialize/alarm_cache.go:163-241` | The mentions those calls leave: every device, scene and undeleted pair they name |
| `AlarmCache.SecondDeviceLeavesMention` | `internal/service/automate_decoration.go:62-81` | What the caller does for class conditions, one set per triggering device: the second device and its alarm keep the deleted group |
| `AlarmCache.DeleteGroupLeaves` | `initialize/alarm_cache.go:269-306` | Exactly which mentions remain, for every index, key and group |
| `AlarmCache.ShrunkAlarmListLeavesMention` | `initialize/alarm_cache.go:219-241` | A concrete run: an alarm list that shrinks before the delete leaves the deleted group in the alarm index |
| `AlarmCache.DelKeepsLists` | `initialize/alarm_cache.go:194-215` | Removal from one key keeps lists well formed and takes away that one mention only |
| `AlarmCache.AddKeepsLists` | `initialize/alarm_cache.go:163-186` | Adding keeps lists well formed and adds that one mention only |
| `AlarmCache.WithoutAt` | `initialize/alarm_cache.go:194-215` | The removed occurrence splits the list into what was before and after it |
| `AlarmCache.AlarmCache.SetDevice` | `initialize/alarm_cache.go:100-135` | The whole new state: an existing record changes its contents only, every device and the scene list the group |
| `AlarmCache.AlarmCache.SetAlarm` | `initialize/alarm_cache.go:219-241` | The whole new state: the record's alarms are replaced, each alarm with the device lists the group |
| `AlarmCache.AlarmCache.DeleteBygroupId` | `initialize/alarm_cache.go:269-306` | The whole new state of all four index families |
| `AlarmCache.AlarmCache.DeleteByAlarmId` | `initialize/alarm_cache.go:309-330` | The SCAN loop, for any pages that return the matching keys, repeated or not: exactly the alarm's entries are gone |
| `AlarmCache.AlarmCache.GetAlarmDeviceExists` | `initialize/alarm_cache.go:142-160` | True exactly when some of the devices lists the group under the alarm |
| `AlarmCache.GroupCacheAdd` | `initialize/alarm_cache.go:163-186` | Appends unless the scan finds the id |
| `AlarmCache.GroupCacheDel` | `initialize/alarm_cache.go:194-215` | Stores the shortened list, or deletes the key when nothing is left |
| `GroupForest.EndsIffNoCycle` | `internal/dal/device_groups.go:91-132` | The recursive query over a tenant's groups ends if and only if no group is its own descendant, and then within as many levels as there are groups |
| `GroupForest.CycleNeverEnds` | `internal/dal/device_groups.go:94-106` | With a cycle no level is empty |
| `GroupForest.EndsWithoutCycle` | `internal/dal/device_groups.go:94-106` | Without one no path is as long as there are groups, by the pigeonhole principle |
| `GroupForest.TwoGroupCycleNeverEnds` | `internal/service/device_group.go:93-109` | Two groups that are each other's parents, which the update does not refuse, make the query run for ever |
| `GroupForest.TreeOnce` | `internal/dal/device_groups.go:94-106` | On an acyclic forest every (ancestor, descendant) pair comes out exactly once |
| `GroupForest.TreeMembers` | `internal/dal/device_groups.go:94-106` | The pairs are exactly those joined by a path from parent to child within the tenant |
| `GroupForest.TreeIsComplete` | `internal/dal/device_groups.go:94-106` | Once a level is empty no later level adds a pair |
| `GroupForest.LevelsArePaths` | `internal/dal/device_groups.go:94-106` | Level k of the recursion holds exactly the pairs joined by a path of k steps |
| `GroupForest.CountsAgree` | `internal/dal/device_groups.go:192-241` | When parents and children share a tenant and memberships carry their device's tenant, the count of the query over all groups equals the device total of the traversal from the group, which has ended by then too |
| `GroupForest.ChainIsTenantChain` | `internal/dal/device_groups.go:267-287` | The traversal from a group, which asks for no tenant, visits level by level the groups of the tenant's paths |
| `GroupForest.ParentCountBounds` | `internal/dal/device_groups.go:91-132` | A group counts at least as many devices as each child and at most its own members plus the sum over its children |
| `GroupForest.DevicesOfChildren` | `internal/dal/device_groups.go:107-124` | The devices counted for a group are its own and those counted for its children |
| `GroupForest.CountsAreCardinalities` | `internal/dal/device_groups.go:107-131` | The map entry, or 0 when absent, is the number of distinct active devices |
| `Collector.RunsLoseNothing` | `internal/diagnostics/collector.go:117-217` | In every interleaving of recorders, size-triggered, ticker and stop flushes the recorded failures are, in order, the taken batches and then the buffer; every unfinished batch is with exactly one flush; buffer length <= (BatchFlushSize - 1) + recorders about to flush |
| `Collector.AtRestEverythingIsTried` | `internal/diagnostics/collector.go:132-153` | When no flush is pending or running, everything recorded has been attempted or is in a buffer shorter than BatchFlushSize |
| `Collector.StoredIsNewestRecorded` | `internal/diagnostics/collector.go:132-217` | When every write goes to the oldest unfinished batch, at rest the writes are the records in the order recorded, up to the buffer, and the stored list of a device is the newest part of its recorded failures |
| `Collector.OneFlushSuffices` | `internal/diagnostics/collector.go:132-153` | With at most one flush in flight every write does |
| `Collector.OrderKeptIffOldestFirst` | `internal/diagnostics/collector.go:132-217` | When no two recorded failures are equal, the writes are at every point of a run the failures recorded first, in order, if and only if every write goes to the oldest unfinished batch |
| `Collector.EarlyWriteLosesOrder` | `internal/diagnostics/collector.go:144-152` | A write to a batch while an older one is unfinished breaks that order |
| `Collector.TwoFlushesLoseOrder` | `internal/diagnostics/collector.go:132-153` | A run with two flushes in flight that writes in the opposite order of recording |
| `FailureLog.TrimmedListIsNewest` | `internal/diagnostics/metrics.go:67-84` | For N >= 1 and any interleaving of pushes and trims that ends with a trim, the list is the newest min(N, k) of the k pushed failures, newest first, and reading N returns all of it |
| `FailureLog.ListIsNewestPart` | `internal/diagnostics/metrics.go:67-84` | Between a push and its trim the list still is a newest part of the log, at least min(N, k) long |
| `FailureLog.StoredNewest` | `internal/diagnostics/metrics.go:67-84` | Flushes one at a time, any limit N: the list is the newest min(N, k) of k for N >= 1, all of them for N = 0, none for N < 0 |
| `FailureLog.LimitHoldsIffNotZero` | `internal/diagnostics/metrics.go:79-79` | The stored list keeps within its limit if and only if the limit is not zero |
| `FailureLog.LimitZeroKeepsAll` | `internal/diagnostics/metrics.go:79-79` | N = 0 keeps every failure: LTRIM to -1 means the end of the list |
| `FailureLog.Metrics.AddFailure` | `internal/diagnostics/metrics.go:67-84` | Push and trim of the device's list, no other list changes, and the refinement of the unbounded log is kept |
| `FailureLog.Metrics.Flush` | `internal/diagnostics/collector.go:132-153` | Adds exactly the batch, in order |
| `FailureLog.Metrics.GetFailures` | `internal/diagnostics/metrics.go:119-138` | Returns the newest of all failures added for the device, newest first: min(N, k) of k, all for a limit of 0, none for a negative one |
| `Downlink.RunsKeepOrder` | `internal/downlink/bus.go:19-143` | In every run, on every channel: published = taken then queue, queue within the buffer, and the taken messages without nil are handled in order, one at a time |
| `Downlink.PublishedIsHandledThenQueued` | `internal/downlink/bus.go:79-143` | Nil messages aside, what was published is what was handled followed by the queue |
| `Downlink.OneStatusWrite` | `internal/downlink/handler.go:53-169` | Each handled message has at most one status write, "1" only when it was published, and any write for a published message is "1"; its final outcome is that of the handler as a whole |
| `Downlink.DoneEntryIsHandled` | `internal/downlink/handler.go:53-169` | What the interleaved steps leave of a message is `Handled` for some results of encoder, publisher and row lookup |
| `Downlink.FailedNeverExceedsTotal` | `internal/diagnostics/collector.go:278-312` | At every step of every run failed <= total for every device, so the reported rate lies in [0, 100] |
| `Downlink.RunsKeepCounters` | `internal/diagnostics/collector.go:278-312` | The counters of a device are the numbers of its messages counted and failed over all four channels |
| `Downlink.SuccessesAtRest` | `internal/diagnostics/collector.go:315-345` | When no worker is inside a message, total - failed = messages published + messages rejected by validation |
| `Downlink.RateInRange` | `internal/diagnostics/collector.go:347-358` | A rate of successes not above the total lies in [0, 100], and is 0 for no messages |
| `Downlink.Handler.Handle` | `internal/downlink/handler.go:53-169` | Status writes, both counters and the queued failure records after one message, for every branch and any results of encoder, publisher and lookup; nil changes nothing |
| `Downlink.Handler.UpdateLogStatus` | `internal/downlink/handler.go:196-293` | Writes the status exactly when both ids are given, the type has a log table and the row is found |
| `Downlink.Handler.RecordDownlinkTotal` | `internal/diagnostics/collector.go:278-291` | The count of this device grows by one and every other count stays; nothing changes for an empty id |
| `Downlink.Handler.RecordDownlinkFailed` | `internal/diagnostics/collector.go:294-312` | The failure count of this device grows by one, every other stays, and the failure is queued with its stage; nothing for an empty id |
| `Downlink.ChannelCounters` | `internal/downlink/handler.go:53-169` | Every step moves a message between stages exactly as it counts it |

## Left out

- `OnlineTrend.TrendCountsOnlineDevices`: statuses other than the documented 0 and 1 are not covered.
- `DiffWindows.SortReverses`: the sort is modelled as an insertion sort, which for distinct timestamps gives the only result.
- `AutomateCache.AutomateCache.SetCacheBySceneAutId`, `AutomateCache.AutomateCache.DeleteCacheBySceneAutId`: a condition of a device type without a trigger source, which makes the source panic, is excluded.
- `AutomateStore.ReturnedScenesCarryOwn`: cache operations are atomic and expiry falls between them; failing commands halfway through an update are not modelled.
- `AlarmCache.ConsistentIffDisciplined`: without expiry of keys, as the indices expire on their own and then are no inverses.
- `AlarmCache.AlarmCache.DeleteByAlarmId`: the key pattern is taken literally; ids with glob characters or "_" are not modelled. SCAN is taken to return every matching key that is there from its first call on.
- `TelemetryTables.CurrentAgreesIffLastIsNewest`: batches that either writer refuses, or that fail halfway through the row loop, are not part of the runs.
- `GroupForest.CountsAgree`: the number of levels is an argument; the recursive SQL stops by itself at the first empty level.
- `FailureLog.Metrics.GetFailures`: records that do not decode are not modelled, nor is the seven-day expiry of a list.
- `Collector.RunsLoseNothing`: the collector is initialised and enabled; the time limit of `Stop` is not modelled.
- `Downlink.Handler.RecordDownlinkFailed`: the time and the text of a failure record are not modelled, and the queue is that of the collector model.
- `Downlink.OneStatusWrite`: a status write that the database refuses counts as a row that was not found.
- The collector's and the bus's own methods are steps of transition systems on values, not class methods, because their interleaving is the point; update in place is modelled by the classes `Metrics` and `Handler` only.
- Time zones and daylight saving: boundaries are those of one fixed offset, and `date_trunc` cuts at whole hours of UTC.
- Floating-point rounding, the saturation of Go durations, and string formats of timestamps.
- Redis, PostgreSQL, JSON and MQTT themselves: maps, row sequences, an identity codec, and arbitrary results of encode and publish.
- The gRPC branches for other time-series databases in the telemetry files.
- Online, offline and alarm totals of the group statistics, which are views over other tables.
- Uplink and storage counters, which work like the downlink ones.
- HTTP handlers, paging and filter queries, access checks, the rate limiter, OTA, scripts and menus: no state of their own to reason about.
