# RadarGun core, modelled in Dafny

RadarGun is a benchmarking framework for distributed data grids. This project models five
sequential pieces of it:

- **The timeline event ledger** (`Timelines.dfy`). A `Timeline` belongs to one worker (a
  "slave"). It keeps a map from `Category` to the events recorded under it, in order, plus the
  earliest start and the latest end of all events. A category has two notions of sameness:
  `equals` uses the name and the type, `compareTo` the name only.
- **The strong-counter test stage** (`StrongCounter.dfy`). Each stressor records the values its
  counter requests return, and a request must change the counter. The coordinator concatenates
  every worker's values and rejects a value returned twice. The sorted values must then step by
  exactly `delta`: no duplicates and no gaps. `init` decides `delta` and the sort direction from
  the configured operation.
- **Time-based completion** (`TimeCompletion.dfy`). A stress test runs until the deadline
  `startTime + duration`, or for ever when the duration is 0. It logs its progress at most every
  20 seconds.
- **The HTML timeline report's bookkeeping** (`TimelineReport.dfy`). The `TimelineDocument`
  constructor does the following:
  - sorts the timelines by worker index;
  - takes the overall first and last timestamp;
  - gives each category name a dense id in first-seen order, once for events and once for values;
  - records each category's range of values, falling back to a default category.

  `range` widens a category's range to include 0. The chart file names are formatted from the
  configuration name, the category id and the worker index.
- **The Docker service's property converters and lifecycle flag** (`Docker.dfy`).
  `EnvsConverter` reads environment variables, one per line. `PortsConverter` reads
  `port/protocol` lines. Both write a list back with a newline after every element.
  `start`, `stop` and `isRunning` keep the `started` flag.

Supporting modules:

- `Wrappers.dfy` holds `Option`, `Result` and `Outcome`.
- `JavaNumbers.dfy` holds the `long` and `int` ranges, `long` wrap-around, minimum and maximum
  folds, and the saturating `TimeUnit.MILLISECONDS.toNanos`.
- `JavaStrings.dfy` holds `String.split` on one character, `String.trim`, `String.compareTo`,
  `Integer.parseInt`, `Integer.toString` and ASCII upper-casing.

The Java semantics are written out wherever they matter:

- `split` drops trailing empty strings and gives `[""]` for `""`;
- `trim` removes every character up to U+0020;
- `long` sums wrap around in two's complement.

The clock (`TimeService.nanoTime`) is a `now` parameter. The value a counter request returns is
an input of `StrongCounterLogic.run`. The Docker daemon is replaced by a log of the commands the
service sends it.

## Model

| member | source | states |
|---|---|---|
| Timelines.Category.Equals | core/src/main/java/org/radargun/reporting/Timeline.java:69-78 | `equals` holds exactly when name and type are both equal |
| Timelines.Category.CompareTo | core/src/main/java/org/radargun/reporting/Timeline.java:48-50 | `compareTo` is 0 exactly when the names agree, whatever the types |
| Timelines.CategoryCompareAntisymmetric | core/src/main/java/org/radargun/reporting/Timeline.java:48-50 | swapping two categories negates `compareTo`, as a `TreeMap` key order needs |
| Timelines.SysCategory | core/src/main/java/org/radargun/reporting/Timeline.java:52-54 | a category with the given name and the system-monitor type |
| Timelines.CustomCategory | core/src/main/java/org/radargun/reporting/Timeline.java:56-58 | a category with the given name and the custom type |
| Timelines.CompareToIsCoarserThanEquals | core/src/main/java/org/radargun/reporting/Timeline.java:48-78 | a system and a custom category with the same name compare as 0 but are not `equals` |
| Timelines.Compare | core/src/main/java/org/radargun/reporting/Timeline.java:120-122 | `Long.compare`/`Integer.compare` give -1, 0 or 1, with sign and zero exactly as the operands compare |
| Timelines.Event.Started | core/src/main/java/org/radargun/reporting/Timeline.java:143-145 | every event starts at its timestamp |
| Timelines.Event.Ended | core/src/main/java/org/radargun/reporting/Timeline.java:143-149 | value and text events end when they start; an interval event ends at `timestamp + duration` when that fits in a `long` |
| Timelines.Event.CompareTo | core/src/main/java/org/radargun/reporting/Timeline.java:139-141 | events are ordered by timestamp, in both the sign and the zero case |
| Timelines.LedgerContents | core/src/main/java/org/radargun/reporting/Timeline.java:88-105 | the ledger's keys are exactly the categories ever added; each maps to the non-empty list of its events in insertion order; an absent category has no events |
| Timelines.AppendRecord | core/src/main/java/org/radargun/reporting/Timeline.java:88-101 | one more record appends its event to its category's list only, and moves the two bounds by `min`/`max` with the event's start and end |
| Timelines.Timeline.constructor | core/src/main/java/org/radargun/reporting/Timeline.java:20-27 | a fresh timeline is empty with `firstTimestamp = Long.MAX_VALUE` and `lastTimestamp = Long.MIN_VALUE`, and its invariant holds |
| Timelines.Timeline.AddEvent | core/src/main/java/org/radargun/reporting/Timeline.java:88-96 | appends `e` to the category's list, creating it if absent; leaves every other category alone; widens both bounds; keeps the ledger invariant |
| Timelines.Timeline.UpdateTimestamps | core/src/main/java/org/radargun/reporting/Timeline.java:98-101 | the first timestamp becomes the min with the event's start and the last the max with its end |
| Timelines.Timeline.GetEventCategories | core/src/main/java/org/radargun/reporting/Timeline.java:103-105 | the key set is exactly the set of categories ever added, each with a non-empty list |
| Timelines.Timeline.GetEvents | core/src/main/java/org/radargun/reporting/Timeline.java:107-109 | a list is returned exactly for categories ever added, and it is their events in insertion order; otherwise null |
| Timelines.Timeline.GetFirstTimestamp | core/src/main/java/org/radargun/reporting/Timeline.java:111-113 | the least start of all added events, attained by one of them; `Long.MAX_VALUE` when there are none |
| Timelines.Timeline.GetLastTimestamp | core/src/main/java/org/radargun/reporting/Timeline.java:115-117 | the greatest end of all added events, attained by one of them; `Long.MIN_VALUE` when there are none |
| Timelines.Timeline.CompareTo | core/src/main/java/org/radargun/reporting/Timeline.java:120-122 | timelines are ordered by worker index |
| Timelines.BoundsExample | core/src/main/java/org/radargun/reporting/Timeline.java:88-101 | a value at 100, then an interval at 200 lasting 50, give the bounds 100 and 250 |
| StrongCounter.InsertSortedMembers | extensions/counter/src/main/java/org/radargun/stages/StrongCounterTestStage.java:115-119 | `TreeSet.add` leaves the set alone for a present value and otherwise adds exactly that value once |
| StrongCounter.InsertSortedSorted | extensions/counter/src/main/java/org/radargun/stages/StrongCounterTestStage.java:110-119 | `TreeSet.add` keeps the set strictly sorted under its comparator |
| StrongCounter.InsertAllContents | extensions/counter/src/main/java/org/radargun/stages/StrongCounterTestStage.java:109-122 | distinct values added one by one give a strictly sorted set holding exactly those values |
| StrongCounter.SortedUnique | extensions/counter/src/main/java/org/radargun/stages/StrongCounterTestStage.java:109-122 | two sorted sets with the same members are the same sequence: the set's order depends on its contents alone |
| StrongCounter.StepsGiveProgression | extensions/counter/src/main/java/org/radargun/stages/StrongCounterTestStage.java:124-135 | values sorted in the order the delta picks, each its predecessor plus `delta`, are `first + k * delta` with no wrap-around |
| StrongCounter.StepDoesNotWrap | extensions/counter/src/main/java/org/radargun/stages/StrongCounterTestStage.java:128 | a `long` step by `delta` that keeps the comparator's order did not overflow |
| StrongCounter.ProgressionSorted | extensions/counter/src/main/java/org/radargun/stages/StrongCounterTestStage.java:68-72 | a progression with a non-zero step is strictly sorted in the comparator `init` picks for that step |
| StrongCounter.ProgressionSteps | extensions/counter/src/main/java/org/radargun/stages/StrongCounterTestStage.java:127-133 | a progression within `long` steps by `delta` in `long` arithmetic |
| StrongCounter.ProgressionPasses | extensions/counter/src/main/java/org/radargun/stages/StrongCounterTestStage.java:109-135 | distinct values forming a progression, in any order, sort into a sequence that passes the step check and starts at `first` |
| StrongCounter.ConcatAppend | extensions/counter/src/main/java/org/radargun/stages/StrongCounterTestStage.java:88-93 | concatenating one more list appends its values at the end |
| StrongCounter.ConcatMembers | extensions/counter/src/main/java/org/radargun/stages/StrongCounterTestStage.java:88-93 | a value is in the concatenation exactly when it is in one of the lists |
| StrongCounter.GetSortedValues | extensions/counter/src/main/java/org/radargun/stages/StrongCounterTestStage.java:109-122 | succeeds exactly when the concatenated values are distinct, with the sorted set of exactly those values; otherwise fails naming the first value already seen |
| StrongCounter.AssertNoSkipped | extensions/counter/src/main/java/org/radargun/stages/StrongCounterTestStage.java:124-135 | fails on an empty set; passes exactly when each value is its predecessor plus `delta`; otherwise reports the first expected value and the actual one |
| StrongCounter.StrongCounterTestStage.constructor | extensions/counter/src/main/java/org/radargun/stages/StrongCounterTestStage.java:37-50 | the stage holds the configured initial value, operation and delta |
| StrongCounter.StrongCounterTestStage.Init | extensions/counter/src/main/java/org/radargun/stages/StrongCounterTestStage.java:61-73 | increment forces `delta = 1`, decrement `delta = -1`, add-and-get keeps it; the comparator is reverse order exactly when `delta < 0` |
| StrongCounter.CheckValues | extensions/counter/src/main/java/org/radargun/stages/StrongCounterTestStage.java:100-103 | the master's check of the collected lists passes exactly when their values are distinct, not empty and step by `delta` in the given order; a failure names the first repeat, else `NoSuchElement`, else the first gap |
| StrongCounter.StrongCounterTestStage.ProcessAckOnMaster | extensions/counter/src/main/java/org/radargun/stages/StrongCounterTestStage.java:97-107 | an error result of the parent is returned untouched; otherwise it succeeds exactly when the values are distinct, not empty and step by `delta` in comparator order. A failure names the first repeated value when there is one, else `NoSuchElement` for no values, else the first skipped value with the one expected |
| StrongCounter.PassedCheckMeansProgression | extensions/counter/src/main/java/org/radargun/stages/StrongCounterTestStage.java:97-135 | after `init`, values that pass both checks are exactly the progression `first + k * delta`, one term per value |
| StrongCounter.AssertNotEqual | extensions/counter/src/main/java/org/radargun/stages/StrongCounterTestStage.java:181-185 | passes exactly when the new value differs from the previous one, else fails naming the previous one |
| StrongCounter.StrongCounterLogic.constructor | extensions/counter/src/main/java/org/radargun/stages/StrongCounterTestStage.java:147-150 | the logic starts at `initialValue` with an empty value sequence |
| StrongCounter.StrongCounterLogic.Run | extensions/counter/src/main/java/org/radargun/stages/StrongCounterTestStage.java:160-179 | passes exactly for a counter operation whose reply differs from the previous value, which then becomes the previous value and is appended; any failure changes nothing. A non-counter operation throws `IllegalArgumentException`. Consecutive recorded values always differ. |
| StrongCounter.NewStatisticsAck | extensions/counter/src/main/java/org/radargun/stages/StrongCounterTestStage.java:87-94 | the acknowledgement is a counter ack whose values are the stressors' value sequences concatenated in stressor order, repeats included; a value is in it exactly when some stressor recorded it |
| StrongCounter.DuplicateInOneList | extensions/counter/src/main/java/org/radargun/stages/StrongCounterTestStage.java:88-93 | a value repeated inside one of the lists is repeated in their concatenation |
| StrongCounter.SharedValueIsDuplicate | extensions/counter/src/main/java/org/radargun/stages/StrongCounterTestStage.java:88-93 | a value found in two different lists is repeated in their concatenation |
| StrongCounter.CounterAckValuesHas | extensions/counter/src/main/java/org/radargun/stages/StrongCounterTestStage.java:101 | the values of every counter acknowledgement are among the lists the coordinator concatenates |
| StrongCounter.SharedValueIsRejected | extensions/counter/src/main/java/org/radargun/stages/StrongCounterTestStage.java:87-122 | two stressors that recorded the same value make the values the coordinator checks non-distinct, so `getSortedValues` and `processAckOnMaster` reject the run |
| StrongCounter.DuplicateRunExample | extensions/counter/src/main/java/org/radargun/stages/StrongCounterTestStage.java:97-122 | acks with 1, 2 and 2, 3 are rejected with the duplicate 2 |
| StrongCounter.ExampleInsertAll | extensions/counter/src/main/java/org/radargun/stages/StrongCounterTestStage.java:109-122 | adding 1, 3, 2, 4 to a naturally ordered set gives 1, 2, 3, 4 |
| StrongCounter.ConsistentRunExample | extensions/counter/src/main/java/org/radargun/stages/StrongCounterTestStage.java:97-135 | acks with 1, 3 and 2, 4 under increment-and-get are accepted |
| TimeCompletion.DeadlineIsElapsedTime | core/src/main/java/org/radargun/stages/test/TimeStressorCompletion.java:28-29 | with a positive duration whose deadline does not overflow, `moreToRun` holds exactly while less than `duration` has elapsed |
| TimeCompletion.DeadlineIsFinal | core/src/main/java/org/radargun/stages/test/TimeStressorCompletion.java:29 | once `moreToRun` is false it stays false for every later clock reading |
| TimeCompletion.ProgressAt | core/src/main/java/org/radargun/stages/test/TimeStressorCompletion.java:47-49 | the remaining time logged is never negative and is `max(0, deadline - now)` without overflow; the total is the duration |
| TimeCompletion.AsWrittenNeverLogs | core/src/main/java/org/radargun/stages/test/TimeStressorCompletion.java:16-45 | with the guard as written, no series of calls ever logs or moves `lastPrint` from -1 |
| TimeCompletion.IntendedLogsEveryTwentySeconds | core/src/main/java/org/radargun/stages/test/TimeStressorCompletion.java:37-51 | with the intended guard, on a clock whose readings are non-negative and do not go backwards: the first call logs; the last message is less than 20 s behind the latest call; a call logs exactly when 20 s have passed since the last message |
| TimeCompletion.LogStepEffect | core/src/main/java/org/radargun/stages/test/TimeStressorCompletion.java:40-49 | a call either leaves the state alone or logs one message and moves `lastPrint` to `now` |
| TimeCompletion.TimeStressorCompletion.constructor | core/src/main/java/org/radargun/stages/test/TimeStressorCompletion.java:16-25 | the argument is read as milliseconds and stored in nanoseconds, saturating; `lastPrint` starts at -1 |
| TimeCompletion.TimeStressorCompletion.MoreToRun | core/src/main/java/org/radargun/stages/test/TimeStressorCompletion.java:27-34 | the deadline test, always true for a zero duration; the completion handler runs on exactly the calls that return false |
| TimeCompletion.TimeStressorCompletion.LogProgressAsWritten | core/src/main/java/org/radargun/stages/test/TimeStressorCompletion.java:36-51 | one call with the guard as written; while `lastPrint` is negative nothing changes |
| TimeCompletion.TimeStressorCompletion.LogProgress | core/src/main/java/org/radargun/stages/test/TimeStressorCompletion.java:36-51 | one call with the intended guard; while `lastPrint` is negative the call logs and sets `lastPrint` to `now` |
| TimeCompletion.RunsForeverExample | core/src/main/java/org/radargun/stages/test/TimeStressorCompletion.java:23-34 | a zero duration keeps running and never calls the completion handler |
| TimelineReport.AssignIdsAppend | reporters/reporter-default/src/main/java/org/radargun/reporting/html/TimelineDocument.java:50-57 | assigning ids to two runs of categories is assigning to the first, then to the second |
| TimelineReport.PutIfAbsentDense | reporters/reporter-default/src/main/java/org/radargun/reporting/html/TimelineDocument.java:54-56 | `put(c, size())` when absent keeps the ids dense, and a new name gets the next id |
| TimelineReport.AssignIdsDense | reporters/reporter-default/src/main/java/org/radargun/reporting/html/TimelineDocument.java:53-62 | from an empty map the ids are exactly `0 .. size-1`, filed under exactly the names seen |
| TimelineReport.AssignIdsFirstKey | reporters/reporter-default/src/main/java/org/radargun/reporting/html/TimelineDocument.java:53-62 | each name's entry is the first category with that name, and its id is the number of different names seen before it; same-name categories of other types share it |
| TimelineReport.FirstSeenOrder | reporters/reporter-default/src/main/java/org/radargun/reporting/html/TimelineDocument.java:53-57 | names seen for the first time later get strictly larger ids |
| TimelineReport.NoCategories | reporters/reporter-default/src/main/java/org/radargun/reporting/html/TimelineDocument.java:82 | the id map is empty exactly when no category was met |
| TimelineReport.CategoriesOfType | reporters/reporter-default/src/main/java/org/radargun/reporting/html/TimelineDocument.java:221-234 | exactly the entries whose category type prints as the argument, with their ids |
| TimelineReport.ValueBoundsMeaning | reporters/reporter-default/src/main/java/org/radargun/reporting/html/TimelineDocument.java:64-73 | the running min and max enclose every value; `min <= max` holds exactly when there is a `ValueEvent`; with no value they stay at their seeds |
| TimelineReport.RecordBoundsAppend | reporters/reporter-default/src/main/java/org/radargun/reporting/html/TimelineDocument.java:59-79 | recording the bounds of two runs of visits is recording the first, then the second |
| TimelineReport.RecordBoundsKeys | reporters/reporter-default/src/main/java/org/radargun/reporting/html/TimelineDocument.java:73-78 | a category gets a min and a max exactly when one of its visits has a `ValueEvent` |
| TimelineReport.RecordBoundsLastVisit | reporters/reporter-default/src/main/java/org/radargun/reporting/html/TimelineDocument.java:73-78 | the stored bound is that of the category's last visit with values alone, because the previous-value lookup by name always misses |
| TimelineReport.InsertBySlaveMembers | reporters/reporter-default/src/main/java/org/radargun/reporting/html/TimelineDocument.java:45-46 | inserting a timeline adds it once and nothing else |
| TimelineReport.InsertBySlaveSorted | reporters/reporter-default/src/main/java/org/radargun/reporting/html/TimelineDocument.java:45-46 | inserting keeps the timelines sorted by worker index |
| TimelineReport.SortBySlaveIndex | reporters/reporter-default/src/main/java/org/radargun/reporting/html/TimelineDocument.java:45-46 | the copy is sorted by worker index and is a permutation of the input |
| TimelineReport.KeyOrder | reporters/reporter-default/src/main/java/org/radargun/reporting/html/TimelineDocument.java:53 | a key-set iteration lists every key once, in some order |
| TimelineReport.TimelineVisits | reporters/reporter-default/src/main/java/org/radargun/reporting/html/TimelineDocument.java:59-64 | one visit per category in iteration order, with that category's event list |
| TimelineReport.ValueBounds | reporters/reporter-default/src/main/java/org/radargun/reporting/html/TimelineDocument.java:65-72 | the loop computes the running min and max over the `ValueEvent`s |
| TimelineReport.RegisterCategories | reporters/reporter-default/src/main/java/org/radargun/reporting/html/TimelineDocument.java:53-57 | the loop gives each absent category the next id, in iteration order |
| TimelineReport.RecordValueCategories | reporters/reporter-default/src/main/java/org/radargun/reporting/html/TimelineDocument.java:59-79 | the loop registers value-category ids and records the bounds per visit, overwriting earlier ones |
| TimelineReport.WalkStep | reporters/reporter-default/src/main/java/org/radargun/reporting/html/TimelineDocument.java:50-80 | one more timeline widens the two folds by its bounds and appends its visits and its categories |
| TimelineReport.VisitTimeline | reporters/reporter-default/src/main/java/org/radargun/reporting/html/TimelineDocument.java:50-79 | one round of the outer loop: both bounds widened, both id maps extended over the same key order, the bounds recorded for its visits |
| TimelineReport.Walk | reporters/reporter-default/src/main/java/org/radargun/reporting/html/TimelineDocument.java:50-80 | the outer loop gives the min of the first timestamps, the max of the last ones, and equal first-seen event and value ids; the bounds come from all visits in order |
| TimelineReport.DefaultIdsDense | reporters/reporter-default/src/main/java/org/radargun/reporting/html/TimelineDocument.java:82-87 | the default value ids hold one category, with id 0, and are dense |
| TimelineReport.BuildDocument | reporters/reporter-default/src/main/java/org/radargun/reporting/html/TimelineDocument.java:38-88 | the constructor's work on values: sorted timelines that are a permutation of the input, the timestamp folds, first-seen ids, and the default category with bounds 0 exactly when no category was met |
| TimelineReport.TimelineDocument.ValidIsDense | reporters/reporter-default/src/main/java/org/radargun/reporting/html/TimelineDocument.java:53-87 | in a constructed document both id maps hold ids `0 .. size-1`, filed by name |
| TimelineReport.TimelineDocument.constructor | reporters/reporter-default/src/main/java/org/radargun/reporting/html/TimelineDocument.java:38-88 | sorted timelines; the timestamp folds from `Long.MAX_VALUE` and `Long.MIN_VALUE`; equal event and value ids unless no category exists, when the default `"&nbsp;"` gets id 0 and bounds 0; the id maps are the first-seen ones or the default (`Valid`), hence dense |
| TimelineReport.TimelineDocument.Range | reporters/reporter-default/src/main/java/org/radargun/reporting/html/TimelineDocument.java:95-104 | the category's min becomes at most 0 and the max at least 0, a missing one 0; nothing else changes, and `Valid` is kept; returns the range file name |
| TimelineReport.TimelineDocument.GetValueCategoriesOfType | reporters/reporter-default/src/main/java/org/radargun/reporting/html/TimelineDocument.java:221-225 | the value categories of the given type, with their ids |
| TimelineReport.TimelineDocument.GetEventCategoriesOfType | reporters/reporter-default/src/main/java/org/radargun/reporting/html/TimelineDocument.java:230-234 | the event categories of the given type, with their ids |
| TimelineReport.ClampedMin | reporters/reporter-default/src/main/java/org/radargun/reporting/html/TimelineDocument.java:96-97 | at most 0: the old min when it is at most 0, otherwise or when missing 0 |
| TimelineReport.ClampedMax | reporters/reporter-default/src/main/java/org/radargun/reporting/html/TimelineDocument.java:98-99 | at least 0: the old max when it is at least 0, otherwise or when missing 0 |
| TimelineReport.ChartSuffixInjective | reporters/reporter-default/src/main/java/org/radargun/reporting/html/TimelineDocument.java:106-108 | the `<id>_<worker>.png` part determines the category id and the worker index |
| TimelineReport.ChartFileShape | reporters/reporter-default/src/main/java/org/radargun/reporting/html/TimelineDocument.java:244-246 | value and event chart names are the prefix `timeline_<config>_`, `v` or `e`, and the shared suffix |
| TimelineReport.ValueAndEventChartsDiffer | reporters/reporter-default/src/main/java/org/radargun/reporting/html/TimelineDocument.java:106-108 | a value chart never shares a name with an event chart of the same configuration |
| TimelineReport.ValueChartFileInjective | reporters/reporter-default/src/main/java/org/radargun/reporting/html/TimelineDocument.java:106-108 | within one configuration a value chart name determines its category id and worker index |
| TimelineReport.EventChartFileInjective | reporters/reporter-default/src/main/java/org/radargun/reporting/html/TimelineDocument.java:244-246 | within one configuration an event chart name determines its category id and worker index |
| TimelineReport.RangeFileDistinct | reporters/reporter-default/src/main/java/org/radargun/reporting/html/TimelineDocument.java:103-108 | a range chart never shares a name with a value or event chart of the same configuration |
| TimelineReport.TimelineDocument.ValueChartFilesIdentify | reporters/reporter-default/src/main/java/org/radargun/reporting/html/TimelineDocument.java:106-108 | two `getValueChartFile` names of one document are equal exactly when their category ids and worker indexes are |
| TimelineReport.TimelineDocument.EventChartFilesIdentify | reporters/reporter-default/src/main/java/org/radargun/reporting/html/TimelineDocument.java:244-246 | two `generateEventChartFileName` names of one document are equal exactly when their category ids and worker indexes are |
| TimelineReport.TimelineDocument.ChartFilesDiffer | reporters/reporter-default/src/main/java/org/radargun/reporting/html/TimelineDocument.java:103-108 | a document's value chart names never equal its event chart names, and its `range` names equal neither |
| Docker.TrimLines | plugins/docker/src/main/java/org/radargun/service/DockerService.java:199-204 | the loop adds every line, trimmed, in order |
| Docker.EnvsConvert | plugins/docker/src/main/java/org/radargun/service/DockerService.java:198-205 | the `'\n'`-pieces of the text under Java's `split`, each trimmed |
| Docker.EnvsConvertToString | plugins/docker/src/main/java/org/radargun/service/DockerService.java:208-214 | every variable followed by `'\n'`, in order |
| Docker.EnvsAreClean | plugins/docker/src/main/java/org/radargun/service/DockerService.java:198-205 | every variable read is trimmed and has no line break |
| Docker.TrimAllClean | plugins/docker/src/main/java/org/radargun/service/DockerService.java:202 | trimming clean variables changes none of them |
| Docker.EnvsRoundTrip | plugins/docker/src/main/java/org/radargun/service/DockerService.java:198-214 | reading back what was written gives the list, when it is not empty, its variables are clean and the last is not empty |
| Docker.EmptyEnvsReadBackAsOneEmpty | plugins/docker/src/main/java/org/radargun/service/DockerService.java:198-214 | the empty list is written as `""`, which reads back as one empty variable |
| Docker.SplitDropsEmptyLast | plugins/docker/src/main/java/org/radargun/service/DockerService.java:200 | splitting the text of a list ending in an empty variable drops that variable |
| Docker.TrailingEmptyEnvIsLost | plugins/docker/src/main/java/org/radargun/service/DockerService.java:198-214 | an empty last variable does not survive writing and reading back |
| Docker.ParseProtocol | plugins/docker/src/main/java/org/radargun/service/DockerService.java:231 | TCP exactly when the text upper-cases to `TCP`, UDP likewise; anything else fails naming the text |
| Docker.ProtocolRoundTrip | plugins/docker/src/main/java/org/radargun/service/DockerService.java:231-241 | the protocol's printed name, in lower or upper case, parses back to it |
| Docker.ParsePortLine | plugins/docker/src/main/java/org/radargun/service/DockerService.java:228-232 | a line whose untrimmed `/`-split is not two pieces is a format error; otherwise it gives a port exactly when the trimmed line's first piece parses as an `int` and its second as a protocol, and each failure is the source's exception: no piece, a bad number, no second piece, an unknown protocol |
| Docker.CollectMeaning | plugins/docker/src/main/java/org/radargun/service/DockerService.java:225-234 | the lines give ports exactly when every line does, one per line in order; otherwise the error of the first bad line |
| Docker.CollectAllPorts | plugins/docker/src/main/java/org/radargun/service/DockerService.java:225-234 | lines that all give ports give exactly those ports |
| Docker.ConvertLine | plugins/docker/src/main/java/org/radargun/service/DockerService.java:228-232 | one line, checked in the source's order: count, port number, protocol piece, protocol name |
| Docker.PortsConvert | plugins/docker/src/main/java/org/radargun/service/DockerService.java:224-235 | the ports of the lines of the trimmed text, or the first line's exception |
| Docker.PortsTextStep | plugins/docker/src/main/java/org/radargun/service/DockerService.java:240-242 | one more round appends port, `/`, protocol and `'\n'` |
| Docker.PortsConvertToString | plugins/docker/src/main/java/org/radargun/service/DockerService.java:238-244 | `<port>/<protocol>` and `'\n'` per port, in order |
| Docker.DecimalLacks | plugins/docker/src/main/java/org/radargun/service/DockerService.java:241 | a printed port number holds only digits and a minus sign |
| Docker.SplitPair | plugins/docker/src/main/java/org/radargun/service/DockerService.java:228 | `a/b` splits into exactly `a` and `b` |
| Docker.PortLineIsClean | plugins/docker/src/main/java/org/radargun/service/DockerService.java:241 | a written port line is trimmed and has no line break |
| Docker.PortLineRoundTrip | plugins/docker/src/main/java/org/radargun/service/DockerService.java:224-244 | each written line parses back to its port |
| Docker.PortLinesAreClean | plugins/docker/src/main/java/org/radargun/service/DockerService.java:238-244 | the written lines have no line break, and the first and last are trimmed and not empty |
| Docker.PortsTextLines | plugins/docker/src/main/java/org/radargun/service/DockerService.java:224-244 | the text written for a non-empty list, trimmed and split, is its lines again |
| Docker.CollectPortLines | plugins/docker/src/main/java/org/radargun/service/DockerService.java:224-244 | the written lines give back the ports, one per line |
| Docker.PortsRoundTrip | plugins/docker/src/main/java/org/radargun/service/DockerService.java:224-244 | reading back what was written for a non-empty list gives the same ports |
| Docker.SplitDropsEmptyAfter | plugins/docker/src/main/java/org/radargun/service/DockerService.java:228 | `a/` splits into just `a` for a non-empty `a` without `/` |
| Docker.BlankProtocolIsOutOfBounds | plugins/docker/src/main/java/org/radargun/service/DockerService.java:228-231 | a port, `/` and blanks passes the untrimmed count but finds no protocol piece in the trimmed line |
| Docker.TrailingSlashIsAccepted | plugins/docker/src/main/java/org/radargun/service/DockerService.java:228-231 | a written port line with one more `/` still parses to its port |
| Docker.EmptyPortsDoNotRoundTrip | plugins/docker/src/main/java/org/radargun/service/DockerService.java:224-244 | the empty list is written as `""`, which reads back as a format error |
| Docker.DockerService.constructor | plugins/docker/src/main/java/org/radargun/service/DockerService.java:51-52 | `started` is false and no command was sent |
| Docker.DockerService.Start | plugins/docker/src/main/java/org/radargun/service/DockerService.java:145-150 | sends the start command for the container, then sets `started` |
| Docker.DockerService.Stop | plugins/docker/src/main/java/org/radargun/service/DockerService.java:185-189 | sends the stop command for the container, then clears `started` |
| Docker.DockerService.IsRunning | plugins/docker/src/main/java/org/radargun/service/DockerService.java:191-194 | returns `started`, which `start` sets and `stop` clears (see `LifecycleExample`) |
| Docker.LifecycleExample | plugins/docker/src/main/java/org/radargun/service/DockerService.java:145-194 | `isRunning` is false initially, true after `start` and false after `stop` |

## Where the code and its documentation differ

- The `TimeStressorCompletion` constructor's doc comment says the duration is in nanoseconds.
  The code converts it from milliseconds (`TimeUnit.MILLISECONDS.toNanos`). The model follows
  the code.
- The strong-counter check only requires that each value be its predecessor plus `delta`. It
  does not require that the first value follow `initialValue`, and the model does not add that.

## Left out

- Chart drawing in `createTestCharts`: a thread pool, file output and `TimelineChart`, which is
  not part of this model. `getTitle`, the plain getters, `getCheckboxColor` and the
  `System.out` printing are left out too.
- Docker client plumbing (`init`, `pullImage`, `stopAndRemoveContainer`, `printContainerLog`,
  `configureDockerClient`) is network and daemon I/O. `start` and `stop` record a command instead.
- Docker.ParseProtocol: `InternetProtocol` of docker-java is not part of this model. It is
  modelled with TCP and UDP only, so SCTP is not recognised.
- Docker.ParseProtocol: upper-casing is modelled on ASCII letters only. Unicode case mapping is
  not modelled.
- `allowedPattern` of both converters returns a constant pattern used by the configuration
  parser, which is not part of this model.
- `createOperationSelector`, `getLogic` and `StrongCounterLogic.init` need RadarGun's operation
  registry and stressors, which are not part of this model. The counter request is an input
  (`Reply`), and the inherited `processAckOnMaster` is a parameter with its `isError` flag.
- The logging in `StrongCounterTestStage` and `TimeStressorCompletion` is not modelled. The
  progress message is kept as its numbers (`ProgressLine`), not as formatted text.
- `AbstractCompletion` is not part of this model: `startTime` is an input. Calls of
  `runCompletionHandler` are counted, not run.
- Concurrency is modelled as sequential: the `synchronized` methods of `Timeline` and the
  double-checked lock on the volatile `lastPrint`.
- The clock is a `now` parameter.
- TimeCompletion.IntendedLogsEveryTwentySeconds: proved only for clock readings that are
  non-negative as well as non-decreasing. `System.nanoTime` may be negative, and then the
  corrected guard's `lastPrint < 0` test would log on every call.
- Docker.ParsePortLine: the port number accepts ASCII digits only (`JavaStrings.ParseInt`).
  `Integer.parseInt` takes any Unicode decimal digit through `Character.digit`, so a line such
  as `"١/tcp"` (ARABIC-INDIC DIGIT ONE) is a port in Java and a `NumberFormat` error here.
- Timelines.Category.CompareTo: `JavaStrings.CompareTo` compares Unicode scalar values, not UTF-16
  code units, so its sign can differ from Java's when a supplementary character meets one in
  U+E000 to U+FFFF. The zero case, the only one the core relies on, is the same.
- TimelineReport.TimelineDocument.constructor: the `double` min and max values are `real`.
- TimelineReport.TimelineDocument.constructor: the `HtmlDocument` it extends is not modelled, so neither are
  its file name `<categoryType>_timeline_<config>.html` and title `<title> Timeline`, nor the
  `categoryType`, `title`, `directory`, `configuration` and `cluster` parameters. `RangeFile`,
  `ValueChartFile` and `EventChartFile` always print ASCII digits, where `String.format`'s `%d`
  uses the digits of the default locale.
  `(double) Long.MAX_VALUE` is taken as 2^63, and precision loss in `doubleValue()` is not
  modelled. A `ValueEvent`'s number is a `real` value.
- TimelineReport.TimelineDocument.constructor: the iteration order of each timeline's `HashMap`
  key set is unspecified in Java. The model picks an arbitrary order per timeline (`KeyOrder`),
  the same for both inner loops, and states its result in terms of that order.
- TimelineReport.SortBySlaveIndex: proved sorted and a permutation, but not stable. The order of
  timelines with equal worker indexes, which `Collections.sort` keeps, is not stated.
- Timelines.Timeline.GetEvents: returns the list as a value. A caller sees a snapshot, where Java
  hands out the live `ArrayList`, so aliasing is not modelled.
- Timelines.Event.Ended: an interval end that overflows a `long` wraps around as in Java, but
  the contract states the end only when it fits.
- `TextEvent` and `IntervalEvent` carry their text as `string`. Their `toString` and the
  `ValueEvent` number type (`Number`) are not modelled.

## Findings

| source | as written | input that shows it | evidently intended | confidence | as-written member | corrected member |
|---|---|---|---|---|---|---|
| core/src/main/java/org/radargun/stages/test/TimeStressorCompletion.java:40 | `logProgress` returns at once when `lastPrint < 0`. `lastPrint` starts at -1 and is only assigned after that guard, so no progress is ever logged. | any series of calls, e.g. one call at `now = 30 s` on a fresh completion | log on the first call and then at most every 20 seconds (`lastPrint < 0 \|\| now - lastPrint >= 20 s` decides to log) | high, not executed | TimeCompletion.AsWrittenNeverLogs | TimeCompletion.IntendedLogsEveryTwentySeconds |
