# timeturner, modelled in Dafny

timeturner is a personal time tracker. Segments of work (a start, an
optional end, tags, a description, flags for passive and full-day time)
are kept in a small table. A new segment is reconciled with the
segments it overlaps, by tag priority. Each day's segments fold into a
daily summary: work time, break time including statutory minimum
breaks, overtime, and time per tag. Command-line time tokens ("14:30",
"-15m", "1d@9:00", "2024-03-01") are turned into timestamps. Hamster
text reports can be imported.

This project models that core and proves what it promises.

- A moment is an `int` count of microseconds since 0001-01-01 00:00, in
  one fixed zone. This is Python's `datetime` resolution.
  - `Calendar.Representable` is the range a `datetime` holds, years
    1 through 9999. `replace`, `end_of` and the day iteration fail as
    Python does when a result would leave it.
  - `Calendar.DayOf` is the day number, and that first day is a Monday,
    so the weekday is the day number modulo 7.
  - `Calendar.FromTimestamp` and `Calendar.ToTimestamp` convert to and
    from the civil record (year, month, day, hour, minute, second,
    microsecond). Their round trips are proved (`ToFromTimestamp`,
    `FromToTimestamp`). `datetime.replace`, `date()` and `weekday()`
    are built on them.
- The report settings are a value of their own (module `Settings`):
  - the per-tag settings;
  - the holiday tag;
  - the required work per weekday;
  - `is_work_day`, `get_tag` and `get_highest_priority_tag`, as
    function-valued fields.
- The segment store (module `Db`) is a class holding:
  - a map from primary key to record;
  - a map from primary key to the row's tag list;
  - the next primary key.
- Code that loops or mutates becomes methods with loops.
  `get_daily_summary`, `split_segment_params_per_weekday`,
  `split_segments_at_midnight`, `get_tag_prio`, `iter_over_days`,
  `start_of`, `parse_delta`, `extract_segments`, `import_text` and the
  store's operations are written this way. Each method's `ensures` ties
  its result, or the new state, to a specification function. The lemmas
  then state what the source promises about that function.
- Pure code becomes functions whose contracts, or the lemmas beside
  them, carry the properties. These are `split_segment_params`,
  `group_by_day`, the validators of `models.py`, `dt_add`, `dt_subtract`,
  `end_of` and the token parsers.
- `_add` is a recursive method over the store. It has a `fuel` bound.
- Errors the source raises are `Err` values of `Wrappers.Result`: its
  `ValueError`, `OverflowError`, `RuntimeError`, `AssertionError`,
  `IndexError`, and SQLite's `OperationalError`.

Module by module:

- `wrappers.dfy`: Option and Result.
- `settings.dfy`: report settings.
- `strings.dfy`: split, join, strip and integer text.
- `calendar.dfy`: days and the civil calendar.
- `models.dfy`: segment records and validators.
- `helper.dfy`: `timeturner/helper.py`.
- `db.dfy`: `timeturner/db.py`.
- `summary.dfy`: `get_daily_summary`.
- `timeturner.dfy`: the other helpers of `timeturner/timeturner.py`.
- `reconcile.dfy`: `_add`.
- `parser.dfy`: `timeturner/parser.py`.
- `legacy_parser.dfy`: `timetracker/parser.py`.
- `loader.dfy`: `timeturner/loader.py`.

## Model

| member | source | states |
|---|---|---|
| `Models.NewSegment` | timeturner/models.py:32-37 | a new `TimeSegment` is open, not passive, has no tags and no description |
| `Models.Params` | timeturner/models.py:87-92 | `NewSegmentParams` defaults: description "" and not passive; the added `fullDays` field defaults to false |
| `Models.EmptySummary` | timeturner/models.py:20-29 | a default `DailySummary` is a WORK day with zero work, break and overtime, no start, end or description, and an empty per-tag map |
| `Models.ParseStart` | timeturner/models.py:39-46 | a moment is kept as given; a text is accepted iff the ISO reader accepts it; the only failure is `ValueError` |
| `Models.ParseEnd` | timeturner/models.py:48-52 | None stays None; any other value succeeds or fails exactly as `parse_start` does |
| `Models.ParseTags` | timeturner/models.py:54-63 | every falsy value (None, "", []) gives []; a non-empty list is kept; a non-empty string gives comma-free parts that join back with "," to the string |
| `Models.ParseJoinedTags` | timeturner/models.py:59-60 | splitting the ","-join of comma-free tags gives those tags back |
| `Models.DurationSplits` | timeturner/models.py:65-72 | cutting a segment at any moment splits its duration into the durations of the two parts |
| `Helper.ParseUnit` | timeturner/helper.py:23 | a name denotes a `datetime` field iff it is that field's name |
| `Helper.ReplaceAt` | timeturner/helper.py:29 | `datetime.replace` fails, with `ValueError`, iff the replaced fields do not form a valid date and time or the year leaves 1..9999 |
| `Calendar.RepresentableYears` | timeturner/helper.py:29 | a moment lies in the range a `datetime` holds iff its year is in 1..9999 |
| `Calendar.RepresentableDate` | timeturner/helper.py:88 | midnight of a valid date is representable iff the year is in 1..9999 |
| `Calendar.LastDayOfYears` | timeturner/helper.py:81 | the last representable day is 9999-12-31 |
| `Helper.ResetReplace` | timeturner/helper.py:26-29 | resetting the units below a unit keeps the year and gives a valid date and time; the replacement fails with `ValueError` iff the moment is outside years 1..9999 |
| `Helper.ResetArgs` | timeturner/helper.py:24-27 | the loop over `units_with_values[index + 1:]` builds exactly the reset of every unit after `index` |
| `Helper.StartOf` | timeturner/helper.py:8-31 | the loop that resets every unit below `unit` gives the `start_of` result |
| `Helper.StartOfDay` | timeturner/helper.py:8-31 | `start_of(t, "day")` is the midnight that begins `t`'s day, and `ValueError` for a moment outside years 1..9999 |
| `Helper.StartOfWeek` | timeturner/helper.py:10-12 | `start_of(t, "week")` is the midnight of the Monday of `t`'s week, and `ValueError` for a moment outside years 1..9999 |
| `Helper.StartOfMonth` | timeturner/helper.py:8-31 | `start_of(t, "month")` is midnight of the first day of `t`'s month, and `ValueError` for a moment outside years 1..9999 |
| `Helper.StartOfYear` | timeturner/helper.py:8-31 | `start_of(t, "year")` is midnight of the first of January of `t`'s year, and `ValueError` for a moment outside years 1..9999 |
| `Helper.StartOfFails` | timeturner/helper.py:23-29 | an unknown unit other than "week" is an `AssertionError`; for a known unit, `start_of` fails iff the moment is outside years 1..9999, and then with `ValueError` |
| `Helper.DtAddWeeks` | timeturner/helper.py:34-38 | `dt_add` counts each week as 7 days on top of the days given, and moves by the whole delta |
| `Helper.SubtractMonthsCount` | timeturner/helper.py:41-63 | the new month is in 1..12 and `year*12 + month` drops by exactly `12*years + months`, negative months included |
| `Helper.ReplaceYearMonth` | timeturner/helper.py:57-63 | replacing year and month keeps day and time when the year is in 1..9999 and the day exists in the new month; otherwise `ValueError` |
| `Helper.DtSubtractCalendar` | timeturner/helper.py:41-63 | the new month is in 1..12 and `year*12 + month` drops by `12*years + months`; day and time of day are preserved when the new year is in 1..9999 and the day exists, and otherwise `ValueError` |
| `Helper.SubtractNoMonths` | timeturner/helper.py:49-63 | with no years and no months, `dt_subtract` only subtracts the timedelta; `ValueError` when the result is outside years 1..9999 |
| `Helper.DtSubtractMicrosecond` | timeturner/helper.py:68 | `dt_subtract(end, microseconds=1)` is one microsecond earlier, or `OverflowError` when that leaves year 1 |
| `Helper.EndOfDayNextMidnight` | timeturner/helper.py:96-98 | `end_of_day(t)` is the midnight that begins the next day, one day after `start_of(t, "day")` and later than `t` |
| `Helper.EndOfMonth` | timeturner/helper.py:89-92 | `end_of(t, "month")` is midnight of the first of the next month, December rolling into January; `OverflowError` in December 9999; `ValueError` for a moment outside years 1..9999 |
| `Helper.NextMonthFirst` | timeturner/helper.py:89-92 | the first day of a month plus the month's length is the first day of the next month |
| `Helper.AddMonthLength` | timeturner/helper.py:89-92 | adding the month's length in days to the first of the month lands on the first of the next month |
| `Helper.EndOfYear` | timeturner/helper.py:86-88 | `end_of(t, "year")` is the first of January of the next year iff the year is below 9999, and `ValueError` otherwise |
| `Helper.NextYear` | timeturner/helper.py:88 | replacing the year of a first of January by the next one succeeds iff that year is in 1..9999, and `ValueError` otherwise |
| `Helper.NextMonthRepresentable` | timeturner/helper.py:89-92 | the first of the next month is representable iff the month is not December 9999 |
| `Helper.EndOfDayIs` | timeturner/helper.py:84-98 | `end_of(t, "day")` is `end_of_day(t)`; `ValueError` for a moment outside years 1..9999, `OverflowError` on 9999-12-31 |
| `Helper.EndOfWeek` | timeturner/helper.py:93 | `end_of(t, "week")` is the midnight of the next week's Monday, `OverflowError` when that is past 9999-12-31, and `ValueError` for a moment outside years 1..9999 |
| `Helper.NextWeek` | timeturner/helper.py:93 | one week after a Monday midnight, or `OverflowError` past 9999-12-31 |
| `Helper.DayRange` | timeturner/helper.py:66-81 | the consecutive day numbers from `first` through `last`, empty when `last < first` |
| `Helper.IterOverDays` | timeturner/helper.py:66-81 | nothing when `end <= start`; else the days from `start`'s date through the date of `end - 1µs`; `RuntimeError` when more than 500 days would be yielded; `OverflowError` when `end - 1µs` leaves year 1, or when the last day is 9999-12-31 and the step past it overflows |
| `Helper.CollectDays` | timeturner/helper.py:73-81 | the counting loop yields the days from `start`'s through `last`'s, or `RuntimeError` past 500, or `OverflowError` when the last day is 9999-12-31 |
| `Db.SetColumns` | timeturner/db.py:348-372 | the SET list is empty iff no column of the update is given |
| `Db.Apply` | timeturner/db.py:350-368 | a field left at the sentinel is kept; a field given takes its value; passive and full_days given as None become false |
| `Db.NewTags` | timeturner/db.py:393 | the tags to link are the wanted ones not yet stored, each once |
| `Db.KeepTags` | timeturner/db.py:403 | the links kept are exactly those whose tag is wanted |
| `Db.RetagSet` | timeturner/db.py:386-411 | after the update, the row's tag set equals the wanted set |
| `Db.RetagKeepsOrder` | timeturner/db.py:386-411 | when no tag is new, the stored tags keep their order, less the unwanted ones |
| `Db.Relink` | timeturner/db.py:386-411 | the insert and delete loops leave exactly the retagged list |
| `Db.InsertByStart` | timeturner/db.py:597 | inserting a row keeps every row and adds just that one |
| `Db.InsertSorted` | timeturner/db.py:597 | insertion keeps rows ordered by start (`ORDER BY start`) |
| `Db.InsertDistinct` | timeturner/db.py:597 | insertion of a fresh key keeps primary keys distinct |
| `Db.Database.RowOf` | timeturner/db.py:505-525 | the row read for a key carries that key |
| `Db.Database.constructor` | timeturner/db.py:43-65 | a new store is empty and hands out key 1 first |
| `Db.Database.AddSegment` | timeturner/db.py:208-269 | the row is stored under a fresh key; None passive or full_days become false; None tags become []; no other row changes; the stored row is returned |
| `Db.Database.UpdateSegment` | timeturner/db.py:323-434 | with no column set, `OperationalError` and nothing changes; otherwise only row `pk` changes, per `Apply`, and its tags are replaced iff tags are given |
| `Db.Database.DeleteSegment` | timeturner/db.py:474-488 | exactly the row `pk` is removed; its tag links stay |
| `Db.Database.GetSegment` | timeturner/db.py:490-525 | a row is found iff its key is stored, with that row's start, end and tags |
| `Db.Database.GetLatestSegment` | timeturner/db.py:436-472 | None iff no row qualifies; otherwise a row with the greatest start, among open rows only when `filter_closed_segments` is set |
| `Db.Database.GetFullDaySegmentByDate` | timeturner/db.py:527-564 | None iff no full-day row starts at or before the day and ends open or at the day's end; otherwise such a row |
| `Db.Database.Matching` | timeturner/db.py:593-614 | exactly the rows that start at or before `end` and end after `start` or are open, minus full-day rows when excluded, each once, ordered by start |
| `Db.Database.GetSegmentsBetween` | timeturner/db.py:566-641 | with an end, the overlap query; with none, the overlap query at `start` followed by at most the first row starting after `start`, with no key repeated |
| `Db.Database.FirstAfter` | timeturner/db.py:616-640 | the earliest row starting strictly after `start`, if any |
| `Db.Database.GetAllSegments` | timeturner/db.py:643-670 | each stored row exactly once, as stored |
| `Summary.PassiveIff` | timeturner/timeturner.py:143-148 | a segment is passive iff one of its tags tracks passive work time |
| `Summary.PassiveLoop` | timeturner/timeturner.py:143-148 | the loop with `break` computes that passive flag |
| `Summary.AddTagsValue` | timeturner/timeturner.py:175-178 | each tag's total grows by the duration once per occurrence; the keys are the old keys plus the segment's tags |
| `Summary.AddTagsLoop` | timeturner/timeturner.py:175-178 | the per-tag loop computes that update |
| `Summary.TrackingOf` | timeturner/timeturner.py:129-140 | the straight-line code yields on/off/on tracking for work, break and overtime unless the highest-priority tag is a full-day tag, whose own three flags are then taken |
| `Summary.FirstStop` | timeturner/timeturner.py:150-165 | the first segment that is off the day or carries the holiday tag, if any |
| `Summary.FirstPassOutcome` | timeturner/timeturner.py:142-178 | the first loop yields `ValueError` or the holiday outcome, whichever the first stopping segment calls for, and runs through otherwise |
| `Summary.FirstPassTotals` | timeturner/timeturner.py:142-178 | after the first loop: active plus passive is the sum of the durations when work is tracked, passive is the passive durations, break is the durations when only breaks are tracked; the start is the first segment's time; each tag's total is the duration of its segments |
| `Summary.GapSplitOk` | timeturner/timeturner.py:182-186 | the gap loop succeeds iff every segment but the last has an end, and otherwise fails with `ValueError` |
| `Summary.GapSplitTiles` | timeturner/timeturner.py:182-192 | the gaps added to break and work, plus the durations of all segments but the last, span from the first start to the last start |
| `Summary.GapSplitBounds` | timeturner/timeturner.py:187-192 | gaps over one minute go to break, and the others to work, so work gains at most one minute per gap |
| `Summary.StatutoryBreak` | timeturner/timeturner.py:194-203 | work+break is unchanged and break never shrinks; past 6h15 of work break is at least 45m, and past 4h at least 15m; break changes iff it was below the required minimum, and then becomes exactly that minimum |
| `Summary.CapPassive` | timeturner/timeturner.py:205-213 | past 10 hours, passive time is ignored; otherwise work becomes `min(work + passive, 10h)` |
| `Summary.Overtime` | timeturner/timeturner.py:225-231 | overtime is work minus required; with a sick tag it is floored at zero |
| `Summary.HolidaySummary` | timeturner/timeturner.py:155-165 | a HOLIDAY summary has zero times, no start or end, an empty per-tag map and the description "Holiday" |
| `Summary.GetDailySummary` | timeturner/timeturner.py:102-242 | the imperative summary computes `SummaryOf`, the composition of the first loop, the gap loop, the statutory break, the passive cap and the overtime |
| `Summary.FirstLoop` | timeturner/timeturner.py:142-178 | the accumulating loop computes the first pass |
| `Summary.GapLoop` | timeturner/timeturner.py:182-192 | the pairwise loop adds exactly the gap split to the totals, or fails as it does |
| `Summary.SummaryOutcome` | timeturner/timeturner.py:150-186 | an off-day segment before any holiday segment gives `ValueError`; a holiday segment before any off-day one gives the holiday summary; otherwise the summary succeeds iff every segment but the last is closed, and is never a holiday |
| `Summary.SummaryHoliday` | timeturner/timeturner.py:154-165 | when all segments are on the day, any holiday segment makes the summary the holiday summary |
| `Summary.SummaryWrongDay` | timeturner/timeturner.py:150-153 | a segment off the day, with no holiday segment before it, gives `ValueError` |
| `Summary.SummaryFields` | timeturner/timeturner.py:215-242 | day type is WORK iff the weekday's required time is non-zero; overtime is work minus required (0 when overtime is not tracked) without a sick tag, and never negative with one; start, end and per-tag totals are as the loops build them |
| `Summary.SummaryTiling` | timeturner/timeturner.py:168-203 | with tracked, active, closed segments, work plus break spans from the first start to the last end |
| `TimeTurner.TagPrioIsMax` | timeturner/timeturner.py:347-354 | the priority is at least 0, bounds every configured tag's priority, and is attained by one of them unless it is 0 |
| `TimeTurner.TagPrioNoSettings` | timeturner/timeturner.py:347-354 | tags without settings give priority 0 |
| `TimeTurner.GetTagPrio` | timeturner/timeturner.py:347-354 | the running-maximum loop computes that priority |
| `TimeTurner.SplitSegmentParams` | timeturner/timeturner.py:357-396 | a part before the conflict exists iff the new segment starts earlier; a middle part iff both are closed and the new one lies inside; a part after iff the conflict is closed and the new one ends later or is open |
| `TimeTurner.SplitSegmentParamsCover` | timeturner/timeturner.py:357-396 | the before/after parts run from the new start to the conflict start and from the conflict end to the new end, copy tags, description and passive, and every moment of the new segment is in the conflict or in exactly one part outside it |
| `TimeTurner.SplitSegmentParamsPerWeekday` | timeturner/timeturner.py:399-442 | the loop computes the weekday split: `AssertionError` for an open segment, `RuntimeError` over 500 days |
| `TimeTurner.PerWeekdayOrdered` | timeturner/timeturner.py:399-442 | the pieces lie within the segment, are ordered and do not overlap, meet midnight at inner boundaries, and copy tags, description, passive and full_days |
| `TimeTurner.PerWeekdayCover` | timeturner/timeturner.py:399-442 | a moment of the segment is covered by a piece iff its day is a work day |
| `TimeTurner.PerWeekdayEmpty` | timeturner/timeturner.py:399-442 | the split is empty iff no day in the range is a work day |
| `TimeTurner.SplitSegmentsAtMidnight` | timeturner/timeturner.py:249-281 | the generator loop yields the per-row pieces, concatenated, or the first error |
| `TimeTurner.RowAtMidnight` | timeturner/timeturner.py:250-281 | the per-day loop for one row yields that row's pieces |
| `TimeTurner.MidnightErrorStays` | timeturner/timeturner.py:249-281 | once a row's split fails, the whole split fails with that error |
| `TimeTurner.MidnightUnsplit` | timeturner/timeturner.py:251-254 | an open row, or one ending on its start date, is yielded unchanged |
| `TimeTurner.MidnightSplitPieces` | timeturner/timeturner.py:256-281 | the pieces are contiguous, the first starts at the row's start and the last ends at its end, each lies within one day, and all keep key, tags, description and passive |
| `TimeTurner.MidnightSplitSameDay` | timeturner/timeturner.py:251-254 | a row ending on its start day is its own single piece |
| `TimeTurner.MidnightSplitShort` | timeturner/timeturner.py:256-267 | a row ending by the next midnight gives exactly one piece, up to that midnight, or `OverflowError` when its end minus 1µs leaves year 1 |
| `TimeTurner.MidnightSplitLong` | timeturner/timeturner.py:256-281 | a longer row gives the piece of its first day, then one piece per further day |
| `TimeTurner.Runs` | timeturner/timeturner.py:245-246 | the groups of a non-empty list start with its first element |
| `TimeTurner.RunsPartition` | timeturner/timeturner.py:245-246 | `groupby` runs are non-empty, share one key each, differ in key from their neighbours, and together are the list |
| `TimeTurner.WithKeyNone` | timeturner/timeturner.py:245-246 | no element with the key gives no elements |
| `TimeTurner.GroupByDaySorted` | timeturner/timeturner.py:245-246 | for rows sorted by start, `group_by_day` maps each start date to exactly the rows starting on it, in order, and has no other key |
| `Reconcile.ResolveCovered` | timeturner/timeturner.py:517-549 | a closed conflict that the new segment covers is deleted when its priority is at most the new one's; otherwise the new segment goes around it |
| `Reconcile.ResolveOpenEarlier` | timeturner/timeturner.py:555-559 | an open conflict that starts earlier is closed at the new start, whatever the priorities |
| `Reconcile.ResolveInside` | timeturner/timeturner.py:560-579 | a new segment strictly inside a closed conflict cuts it when it wins, and is discarded when it loses |
| `Reconcile.ResolveTies` | timeturner/timeturner.py:512-586 | the new segment gives way only to a strictly higher priority, so ties favour it |
| `Reconcile.ResolveSeparates` | timeturner/timeturner.py:505-586 | after an action that goes on, the new segment and the conflict no longer overlap, except an open new segment that starts by the conflict and no later than now |
| `Reconcile.ResolveApart` | timeturner/timeturner.py:505-586 | a conflict that does not overlap the new segment is left alone |
| `Reconcile.TagPassPlain` | timeturner/timeturner.py:459-469 | without a work-days-only tag, the segment goes ahead, as full-day iff a tag is a full-day tag |
| `Reconcile.TagPassFirstSplit` | timeturner/timeturner.py:463-484 | at the first work-days-only tag: the split's error is returned; an empty split gives nothing; several pieces are added one by one |
| `Reconcile.NoWorkDays` | timeturner/timeturner.py:468-469 | a work-days-only tag over a range with no work day adds nothing |
| `Reconcile.PrepareTags` | timeturner/timeturner.py:459-484 | the tag loop computes the tag pass |
| `Reconcile.FullDaysOnly` | timeturner/timeturner.py:485-492 | the filter keeps exactly the full-day rows |
| `Reconcile.Conflicts` | timeturner/timeturner.py:485-496 | with an end: for a full-day tag, exactly the overlapping full-day rows; otherwise, exactly the overlapping rows that are not full-day. With no end: the stored rows that are not full-day and cover the start, in start order, followed by the row with the earliest later start (none when no row starts later), as `get_segments_between` returns them; for a full-day tag, that same listing taken over all rows and then filtered to the full-day ones |
| `Reconcile.InsertParams` | timeturner/timeturner.py:588 | the new segment is stored under the next key as given, with its tags appended to that key's links; no other record or link changes; the stored row is returned |
| `Reconcile.Add` | timeturner/timeturner.py:445-588 | a tag-pass error, or an empty weekday split, returns with the store unchanged; every returned row is new; keys are never reused |
| `Reconcile.AddEach` | timeturner/timeturner.py:470-481 | adding the pieces one by one returns only new rows |
| `Reconcile.ResolveAll` | timeturner/timeturner.py:498-588 | the conflict loop either returns new rows, or leaves the segment to insert with only its start and end changed, the links unchanged and every row other than the conflicts kept |
| `Reconcile.ApplyAction` | timeturner/timeturner.py:513-586 | each action trims, closes or deletes just that conflict, or moves the new segment's bounds; the locals move except when only the parameters are closed (line 554) |
| `Reconcile.AroundConflictRows` | timeturner/timeturner.py:525-549 | the pieces around a stronger conflict are added recursively and only new rows are returned |
| `Reconcile.InsideConflictRows` | timeturner/timeturner.py:564-577 | the conflict now ends at the new start; the new segment and the conflict's tail from the new end are stored under the next two keys, each with its tags linked; no other record or link changes |
| `Parser.SplitArray` | timeturner/parser.py:43-48 | without the separator, `(array, [])`; otherwise the parts around its first occurrence, so `before + [sep] + after == array` |
| `Parser.GetComponentType` | timeturner/parser.py:51-60 | after a leading sign: DELTA_WITH_TIME with "@", else DELTA; otherwise TIME with ":", else DATE |
| `Parser.FindAllRender` | timeturner/parser.py:11 | the token scanner reads back every well-formed sequence of sign/value/unit tokens |
| `Parser.CollectAbsent` | timeturner/parser.py:93-104 | a unit is absent from the delta iff no match has that unit |
| `Parser.CollectLastWins` | timeturner/parser.py:93-104 | a later match for a unit overwrites an earlier one, negated for "-" |
| `Parser.ParseDelta` | timeturner/parser.py:91-106 | the loop over the matches computes the delta parse, including its `OverflowError` when the moved moment leaves years 1..9999 |
| `Parser.ParseDeltaRendered` | timeturner/parser.py:91-106 | the result is now plus the collected days, hours and minutes, or `OverflowError` when that sum lies outside years 1..9999 |
| `Parser.ParseDeltaNoMatch` | timeturner/parser.py:91-106 | text with no unit letter leaves now unchanged (`OverflowError` only for a now outside years 1..9999) |
| `Parser.MinutesBack` | timeturner/parser.py:91-106 | "-35m" is 35 minutes before now, or `OverflowError` when that is before year 1 |
| `Parser.DeltaWithoutUnit` | timeturner/parser.py:93-106 | "-4s" matches nothing and leaves now unchanged (`OverflowError` only for a now outside years 1..9999) |
| `Parser.Ints` | timeturner/parser.py:63-88 | the parts succeed iff each reads with `int()`, and then give one value per part, each `int()` of it; the only failure is `ValueError` |
| `Strings.ParseIntToString` | timeturner/parser.py:63-88 | `int(str(n)) == n` for every integer |
| `Strings.ParseIntGrouped` | timeturner/parser.py:63-88 | an underscore between two runs of digits is ignored |
| `Strings.ParseIntDoubleUnderscore` | timeturner/parser.py:63-88 | two underscores in a row are refused |
| `Strings.Digits` | timeturner/parser.py:63-88 | taking out the underscores of digits and underscores leaves only digits, and leaves digits alone |
| `Parser.NotSigned` | timeturner/parser.py:63-88 | a text whose first character is neither whitespace, a digit nor a sign is not a number |
| `Parser.ParseTime` | timeturner/parser.py:63-73 | the only failure is `ValueError` |
| `Parser.ParseDate` | timeturner/parser.py:76-88 | the only failure is `ValueError` |
| `Parser.ParseTimeText` | timeturner/parser.py:63-73 | "H:M" succeeds iff `now` is in years 1..9999, and then sets hour and minute and keeps the rest of now |
| `Parser.ParseDateText` | timeturner/parser.py:76-88 | "Y-M-D" of a valid date succeeds iff the year is in 1..9999, and then sets year, month and day and keeps the rest of now |
| `Parser.ParseDateDay` | timeturner/parser.py:84-86 | a single number that is a day of now's month succeeds iff now is in years 1..9999, and sets only the day |
| `Parser.ParseOtherShapes` | timeturner/parser.py:63-88 | a time of other than 2 or 3 parts, or a date of more than 3, leaves now unchanged |
| `Parser.TimeOfOnePart` | timeturner/parser.py:63-73 | "14" leaves now unchanged |
| `Parser.DateOfFourParts` | timeturner/parser.py:76-88 | "1-2-3-4" leaves now unchanged |
| `Parser.EmptyDate` | timeturner/parser.py:76-88 | an empty date is a `ValueError` |
| `Parser.DateNotNumber` | timeturner/parser.py:76-88 | a date part that is not a number is a `ValueError` |
| `Parser.ReplaceNothing` | timeturner/parser.py:63-88 | an empty replacement keeps the moment |
| `Parser.NumbersRead` | timeturner/parser.py:63-88 | numbers joined by a separator read back as those numbers |
| `Parser.ComponentOfNumbers` | timeturner/parser.py:51-60 | "a:b" classifies as TIME and "a-b" as DATE |
| `Parser.ComponentOfDelta` | timeturner/parser.py:51-60 | a signed delta token classifies as DELTA |
| `Parser.ParseDeltaWithTime` | timeturner/parser.py:109-113 | the only failures are `ValueError` and `OverflowError`; `OverflowError` only when the text has exactly one "@" and the delta before it overflows |
| `Parser.ParseDeltaWithTimeParts` | timeturner/parser.py:109-113 | "delta@time" sets the time on the moment the delta reaches, or is `OverflowError` when that moment is outside years 1..9999 |
| `Parser.ParseDeltaWithTimeShape` | timeturner/parser.py:109-113 | a text that is not two "@" parts is a `ValueError` |
| `Parser.Types` | timeturner/parser.py:124-126 | one component type per component |
| `Parser.Moved` | timeturner/parser.py:116-143 | the only failures are `ValueError` and the `OverflowError` of a delta |
| `Parser.SingleTimeParse` | timeturner/parser.py:116-144 | the only failures are `ValueError` and the `OverflowError` of a delta |
| `Parser.ClearSecondsIsSet` | timeturner/parser.py:144 | `set(second=0, microsecond=0)` gives the whole minute at or before the moment, and `ValueError` for a moment outside years 1..9999 |
| `Parser.SingleDelta` | timeturner/parser.py:116-144 | a lone DELTA is the delta parse, cut to the minute, or the delta's `OverflowError` |
| `Parser.SingleTimeShapes` | timeturner/parser.py:116-144 | shapes other than [], [TIME], [DATE], [DELTA], [DELTA_WITH_TIME] and [DATE, TIME] are a `ValueError`; every result is a whole minute; [] gives now cut to the minute, or `ValueError` for a now outside years 1..9999 |
| `Parser.Arrange` | timeturner/parser.py:188-200 | single time returns the start only; full days puts the start at midnight and defaults a missing end to the day's last microsecond |
| `Parser.ParseArgsEnd` | timeturner/parser.py:182-193 | the end is parsed from the tokens after "-", with now set to the parsed start; without "-" and full days there is no end |
| `Parser.ParseArgsFullDays` | timeturner/parser.py:196-199 | with full days, the start is a midnight and the end exists, and is that day's end when no "-" is given |
| `Parser.ParseArgsSingle` | timeturner/parser.py:194-195 | single time succeeds exactly when the two-sided parse does, and returns the start only |
| `LegacyParser.Update` | timetracker/parser.py:125-157 | updating the defaults dict with a field dict is replacing by the first and then by the second |
| `LegacyParser.ParseTime` | timetracker/parser.py:63-73 | hour and minute are set for 2 or 3 parts, second for 3 parts, and no field for any other shape; the only failure is `ValueError` |
| `LegacyParser.ParseDate` | timetracker/parser.py:76-88 | 3 parts set year, month and day, 2 set month and day, 1 sets day, and more set nothing |
| `LegacyParser.ShiftFields` | timetracker/parser.py:99-104 | a delta touches only day, hour and minute |
| `LegacyParser.ParseDelta` | timetracker/parser.py:91-106 | the loop computes `now.field + signed value` per unit, with no carry |
| `LegacyParser.ParseDeltaWithTime` | timetracker/parser.py:109-114 | the only failure is `ValueError` |
| `LegacyParser.Updated` | timetracker/parser.py:125-157 | the defaults start from now's fields with second 0; the only failure is `ValueError` |
| `LegacyParser.Build` | timetracker/parser.py:157 | building a `datetime` succeeds iff the fields are valid and the year is in 1..9999; the only failure is `ValueError` |
| `LegacyParser.BuildFields` | timetracker/parser.py:157 | a built moment has exactly the given fields |
| `LegacyParser.BuildValid` | timetracker/parser.py:157 | a valid record builds to its timestamp iff its year is in 1..9999, and `ValueError` otherwise |
| `LegacyParser.SingleTimeParseSpec` | timetracker/parser.py:117-157 | the only failure is `ValueError` |
| `LegacyParser.SingleTimeParse` | timetracker/parser.py:117-157 | the defaults-dict code computes that parse |
| `LegacyParser.ParseArgs` | timetracker/parser.py:185-202 | the method computes the argument parse |
| `LegacyParser.SingleTimeShapes` | timetracker/parser.py:155-156 | an unknown shape is a `ValueError`; [] gives now cut to the minute, or `ValueError` for a moment outside years 1..9999 |
| `LegacyParser.SingleTimeWholeSecond` | timetracker/parser.py:125-133 | every result has microsecond 0 |
| `LegacyParser.SingleTimeKeepsDate` | timetracker/parser.py:125-157 | time-only components keep now's date |
| `LegacyParser.TimeText` | timetracker/parser.py:140-141 | "H:M" succeeds iff now is in years 1..9999, and sets hour and minute on now's date, with second 0 |
| `LegacyParser.MinutesDelta` | timetracker/parser.py:91-106 | a signed minutes token is a DELTA that shifts only the minute |
| `LegacyParser.MinutesUnderflow` | timetracker/parser.py:99-104 | a minutes delta leaving the hour is a `ValueError` here, while the timeturner parser accepts it exactly when the moved moment lies in years 1..9999 |
| `LegacyParser.MinutesAgree` | timetracker/parser.py:91-157 | within the hour, both parsers give the same moment for a minutes delta |
| `LegacyParser.SingleDelta` | timetracker/parser.py:149-157 | a lone DELTA overrides the defaults with the shifted fields |
| `LegacyParser.ParseArgsFullDays` | timetracker/parser.py:198-201 | with full days, the start is a midnight and a missing end becomes that day's end |
| `Loader.Columns` | timeturner/loader.py:40-43 | a line has one column per field between bar characters |
| `Loader.ColumnStripped` | timeturner/loader.py:40-43 | each column is the field between bar characters at the same position, stripped |
| `Loader.HeaderSegment` | timeturner/loader.py:40-66 | reading a header fails only with `ValueError` or `IndexError` |
| `Loader.HeaderParses` | timeturner/loader.py:40-66 | a header reads iff it has at least 5 columns, a readable start, and an empty or readable end |
| `Loader.HeaderError` | timeturner/loader.py:46-47 | a header fails with `ValueError` iff a date is unreadable |
| `Loader.HeaderFields` | timeturner/loader.py:46-66 | the end is None iff column 1 is empty; description "category@activity"; passive iff the category is "travel"; no tags |
| `Loader.UnhashedAll` | timeturner/loader.py:27 | each item loses its first character |
| `Loader.TagsOfLine` | timeturner/loader.py:27 | one tag per ","-separated item |
| `Loader.NotedLines` | timeturner/loader.py:33-36 | each note adds exactly one line to the description, the note itself, after the lines already there |
| `Loader.Step` | timeturner/loader.py:19-37 | a header yields the current segment first; other lines yield nothing and need a current segment |
| `Loader.Finish` | timeturner/loader.py:68-69 | the last open segment is yielded at the end, unless an error stopped the scan |
| `Loader.ReadLine` | timeturner/loader.py:17-66 | one pass of the loop body is one step of the scan |
| `Loader.ExtractSegments` | timeturner/loader.py:14-69 | the loop computes the extraction |
| `Loader.ExtractCount` | timeturner/loader.py:19-22 | without an error, one segment is yielded per digit-led line |
| `Loader.ContinuationFirst` | timeturner/loader.py:25-32 | a continuation line with no segment yet is a `ValueError` |
| `Loader.BlankLine` | timeturner/loader.py:19 | a blank line raises `IndexError` after the segments before it |
| `Loader.ExtractReport` | timeturner/loader.py:14-69 | a written report of segments reads back as those segments |
| `Loader.ReportBody` | timeturner/loader.py:73-88 | the body holds no separator; a text without one is a `ValueError` |
| `Loader.ReportBodyFramed` | timeturner/loader.py:78-88 | exactly the lines strictly between the first two separators are kept |
| `Loader.ReportBodyUnclosed` | timeturner/loader.py:88 | a missing second separator is a `ValueError` |
| `Loader.ImportText` | timeturner/loader.py:72-91 | no separator means `ValueError` with nothing stored; otherwise the extracted segments are stored under consecutive fresh keys with their tags, every earlier row and link is kept, and an extraction error is reported after them |
| `Loader.StoreAll` | timeturner/loader.py:90-91 | each segment is stored under the next fresh key, with its tags appended to that key's links; the returned rows are those stored; earlier rows and links are kept |

## Left out

- `add_holidays`, `add`, `list_`, `end` and `import_json`, and the
  command-line entry points (`timeturner/run.py`, `timetracker/run.py`).
  These orchestrate commands and call the holiday library.
- The wall clock, `now_with_tz` and `local_tz`. `now` is a parameter
  and there is one fixed time zone.
- `print`, `rich_output.py` and the loading of `settings.py`. They are
  console output and configuration I/O. The report settings are an
  abstract parameter.
- The SQL DDL, migrations and garbage collection of the tag table
  (`timeturner/db.py:413-432`). They are SQLite plumbing and do not
  change what a row holds.
- The primary keys of the tag table (`insert_or_get_tag_pk`). A row's
  tags are kept as its list of names.
- pendulum's `parse`, `fromisoformat` and the loader's `parse`. These
  are foreign libraries, passed as function parameters.
- Generators, which are collected into lists or error values:
  - `IterOverDays`: the first 500 days yielded before the
    `RuntimeError` are not returned.
  - `ImportText`: rows stored before an extraction error are returned
    with the error.
- `Db.NewTags`: Python's set iteration order is modelled as order of
  first appearance.
- `Db.Database.GetLatestSegment` and
  `Db.Database.GetFullDaySegmentByDate`: when several rows tie, any one
  of them may be returned, as SQLite may return any.
- `Db.Database.GetAllSegments`: SQLite's row order is modelled as
  primary-key order.
- `Db.Database.GetSegment`: the None-to-false normalisation of legacy
  rows is not modelled, because the store only holds booleans.
- timetracker/db.py is not part of this model. It is a separate,
  single-statement SQLite wrapper.
- `Reconcile.Add`: the recursion is bounded by `fuel`, and a call
  without fuel returns `RecursionLimit`. The source has no bound.
  `_add` can recurse on degenerate rows, so termination is not proved.
- `Reconcile.Add`: its contract says when it changes nothing, and that
  it returns only new rows. It does not restate the whole loop; the
  per-conflict decisions are in the `Resolve` lemmas and
  `Reconcile.ApplyAction`.
- `LegacyParser.ParseTime`: the legacy `tzinfo` handling is not
  modelled.
- Time zones, daylight saving and floating-point durations
  (`_pretty_duration`).
- Moments outside years 1..9999 cannot exist in Python. The model's
  timestamps are unbounded integers. The range is checked wherever the
  source's own arithmetic or `replace` can leave it (`replace`,
  `parse_delta`'s `now + timedelta`, `end_of`), except in
  `Helper.DtAdd` and `Helper.EndOfDay` below, and is not rechecked on
  inputs.
- `Helper.DtAdd`: `datetime + timedelta` past 9999-12-31 or before
  year 1 raises `OverflowError`. The model returns the sum. Its callers
  in `end_of` check the range on the result (`Helper.EndOfWeek`,
  `Helper.EndOfMonth`, `Helper.EndOfDayIs`).
- `Helper.EndOfDay`: on 9999-12-31 `end_of_day` raises
  `OverflowError`. The model returns the next midnight. The midnight
  split calls it for every closed row whose end date differs from its
  start date, which includes rows that end on an EARLIER date
  (`timeturner/timeturner.py:251-259`). A row that starts on 9999-12-31
  and ends on an earlier date therefore raises `OverflowError` in the
  source, while the model's split does not fail for it.
  `get_full_day_segment_by_date` on that last day is not modelled as
  failing either.
- `Strings.ParseInt`: `int()` also reads non-ASCII decimal digits
  (Arabic-Indic, full-width and so on). The model reads ASCII digits
  only, so such a text is `None` here. The same holds for `\d` in the
  token pattern (`timeturner/parser.py:11`) and for `isdigit()` on a
  report line (`timeturner/loader.py:19`).
- `LegacyParser.MinutesAgree`: requires `now` to lie in years 1..9999,
  the only moments Python has. Outside that range the model's two
  parsers are not compared.
- `Db.Database.TagsOf`: `get_tags_for_segment` (`timeturner/db.py:312-321`)
  has no `ORDER BY`, so SQLite may return a segment's tags in any order.
  The model keeps them in the order they were linked, and the tag order
  stated by `Db.RetagKeepsOrder` and `Db.Database.GetSegment` rests on
  that choice.
- `Reconcile.AddEach` and `Reconcile.AroundConflictRows`: the store
  after the recursive `_add` calls is not restated. Their contracts say
  that the store stays valid, keys are never reused and every returned
  row is new.
- `Reconcile.ResolveAll`: when the loop ends by adding rows (around or
  inside a conflict), the store is stated by
  `Reconcile.AroundConflictRows` and `Reconcile.InsideConflictRows`,
  not restated in `ResolveAll`'s own contract.

## Notes on the code as modelled

- `get_segments_between` with no end appends the next row without the
  `exclude_full_days` filter (`timeturner/db.py:616-640`). The model
  does the same.
- With only tags given, `update_segment` builds `SET  WHERE`, which
  SQLite rejects. It is modelled as `OperationalError`, with nothing
  changed.
- Neither `PensiveRow` nor `NewSegmentParams`
  (`timeturner/models.py:75-92`) has a `full_days` field, but the store
  and `_add` read and write one. The model adds a `fullDays` field to
  both, and it defaults to false in `NewSegmentParams`.
  - Pieces split at midnight set it to false.
  - Pieces from `split_segment_params` set it to false.
  - The weekday pieces copy it.
- `parse_time("14")`, `parse_date("1-2-3-4")` and `parse_delta("-4s")`
  leave the moment unchanged rather than rejecting the input
  (`Parser.TimeOfOnePart`, `Parser.DateOfFourParts`,
  `Parser.DeltaWithoutUnit`).
- The legacy `parse_delta` adds to the minute field with no carry.
  "-35m" at 15:34 asks for minute -1, which is a `ValueError`
  (`LegacyParser.MinutesUnderflow`).
