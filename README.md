# Attendance processing core, modelled in Dafny

The system turns exported access-card swipes into one attendance record per
shift worked. An operator gets one row per shift instance with these columns:

- date
- ID
- name
- shift
- check-in and its status
- break time out
- break time in and its status
- check-out

This project models the core of that pipeline, as `processor.py` performs it:

1. **Filters.** Rows with a timestamp that does not parse are dropped. Then
   rows whose status is not the configured filter are dropped. Then rows of
   users outside the allow-list are dropped, and the remaining ones are mapped
   to their output name and ID.
2. **Bursts.** Each person's swipes are cut into bursts wherever the gap to
   the previous swipe exceeds the burst threshold. A burst keeps its earliest
   and its latest swipe.
3. **Shift instances.** Each person's bursts are walked in order:
   - A burst whose time of day first-matches a shift's check-in window opens
     an instance of that shift.
   - The instance absorbs the following bursts up to the end of its activity
     window. The window ends on the next day for the night shift "C", and on
     the same day otherwise.
   - Absorption stops early at a burst that would check in to a different
     shift, unless that burst lies in the current shift's check-out window.
   - A burst that opens nothing is an orphan and is dropped.
   - Instance numbers run on from one person to the next.
4. **Extraction.** For each instance:
   - check-in is the earliest start in the check-in window;
   - check-out is the latest end in the check-out window;
   - the break is found in two tiers. Tier 1 takes the qualifying gaps closest
     to the checkpoint and to the on-time cutoff. Tier 2 falls back on the
     midpoint.
   - both statuses are graded against the on-time cutoff and the late
     threshold.

The model also covers the time parsing and the derived fields of the rule
file in `config.py`, and the configuration cache of `performance.py`.

The model works on integers:

- A timestamp is a number of seconds.
- A time of day is the seconds since midnight, `0 .. 86399`.
- `date()` and `time()` are Euclidean division and remainder by 86400.
- A time window `[start, end]` with `start > end` wraps midnight.

The shift table is a sequence of (code, configuration) entries in the rule
file's order, which is the order of the Python dictionary. Each step is
either:

- a function, for what the source computes as an expression; or
- a method over sequences that is proved equal to such a function, for what
  the source does with loops and column writes. The methods are
  `Segmenter.DetectShiftInstances`, `Segmenter.Absorb`,
  `Extraction.PersonRecords` and `Breaks.DetectBreaks` with its tier 1 scan.

Modules: `Wrappers` (Option, Result), `Clock`, `Text` (the Python string
operations the parsers use), `Config`, `Filters`, `Bursts`, `Segmenter`,
`Breaks`, `Extraction`, `Performance`, and `Scenarios` (the repository's test
scenarios, stated as lemmas).

### Where the code and its documentation part ways

1. **The night-shift window is tied to the code, not to the shift.** The
   activity window reaches into the next day only for the code "C"
   (processor.py:204-213), whatever that shift's hours are. `Segmenter.WindowEnd`
   keeps the code test.
2. **"Case 4" can be reached.** The comment at processor.py:518 calls the
   final branch of `_detect_breaks` unreachable. It is reached when there are
   candidates but none lies wholly on one side of the midpoint: a single
   burst can start before the midpoint and end after it.
   `Breaks.StraddlingCandidate` proves that both break cells are then blank.
3. **A test expects break times the code does not give.**
   tests/test_processor.py:231-258 expects the swipes 09:50, 09:55, 10:25 and
   10:30 to give (09:50, 09:55). The tier 1 code picks the gaps closest to the
   checkpoint and to the cutoff, so it gives (09:55, 10:30).
   `Scenarios.SwipesAroundBreak` proves what the code does.
4. **The two tier 1 picks are independent.** Break Time In can come out
   earlier than Break Time Out (`Breaks.IndependentPicks`). The documentation
   describes one gap with a break-out before it and a break-in after it.

## Model

| member | source | states |
|---|---|---|
| `Clock.TimeInRangeIsArc` | processor.py:521-537 | A time is in a window exactly when, going clockwise from the window's start, it is reached no later than the window's end. This covers both the plain and the midnight-spanning branch. |
| `Clock.WrappingWindowComplement` | processor.py:535-537 | For a window that spans midnight, the times outside it are exactly those strictly between its end and its start. |
| `Clock.WindowEndsInside` | processor.py:532-537 | Both ends of a window belong to it: the comparisons are inclusive. |
| `Filters.DropInvalidTimestamps` | processor.py:79-83 | The kept rows are exactly the rows whose timestamp parsed, and no more rows than the input. |
| `Filters.FilterValidStatus` | processor.py:90-99 | A row is kept exactly when it is an input row whose status equals the filter. |
| `Filters.FilterValidUsers` | processor.py:101-121 | A mapped row is produced exactly for an input row whose user is allow-listed. It carries that user's output name and ID. |
| `Filters.FilterValidStatusAppend` | processor.py:93 | The status filter keeps row order: filtering a concatenation gives the concatenation of the filtered parts. |
| `Filters.FilterValidUsersAppend` | processor.py:107-119 | The user filter and mapping keep row order in the same way. |
| `Filters.FilterValidUsersRows` | processor.py:107-119 | Under the mapping lie exactly the input rows of known users, one for one and in order. |
| `Filters.Survivors` | processor.py:90-121 | After both filters, a row survives exactly when its status matches, its user is allow-listed, and it carries that user's mapping. |
| `Config.IsInCheckInRange` | config.py:31-37 | `is_in_check_in_range` is window membership on the check-in window, including a window that spans midnight. |
| `Config.GradeBlankBand` | config.py:51-55 | A recorded time is "On Time" exactly when it is at or before the cutoff. It is "Late" exactly when it is after the cutoff and at or after the threshold. It is blank exactly when it lies strictly between them. |
| `Config.GradeMonotone` | config.py:51-55 | Arriving later never improves the grade: a later on-time arrival means an earlier one is on time, and an earlier late arrival means a later one is late. |
| `Config.CheckInStatusCases` | config.py:39-55 | `determine_check_in_status` is blank for no time, and for a recorded time it follows the three cases against the check-in cutoff and threshold, each as an if-and-only-if. |
| `Config.BreakInStatusCases` | config.py:57-73 | The same for `determine_break_in_status`, against the break-in cutoff and threshold. |
| `Config.StatusTextValues` | config.py:46-55 | A status cell is "On Time", "Late" or empty, and it is empty exactly for the blank status. |
| `Config.TimeValue` | config.py:255-257 | `time(h, m, s)` succeeds exactly when 0 ≤ h < 24, 0 ≤ m < 60 and 0 ≤ s < 60, and then gives h·3600 + m·60 + s. Otherwise it raises. |
| `Config.ParseTimeNeedsTwoOrThreeParts` | config.py:251-259 | A text that, after stripping, holds neither one nor two colons makes `parse_time` raise ValueError. |
| `Config.ParseFormattedTime` | config.py:244-259 | `parse_time` reads back any time written as `HH:MM:SS`, also with white space around it. This is the round trip with `strftime`. |
| `Config.ParseHourMinute` | config.py:254-255 | `parse_time` on `HH:MM`, with white space around it, gives that hour and minute with zero seconds. |
| `Config.BurstThresholdReadsNumber` | config.py:106 | A burst definition of the form "… <= N minutes …" yields N, given no '<' before the marker and only white space around the number. |
| `Config.BurstThresholdWithoutMarker` | config.py:106 | A definition without "<=" raises IndexError on `split('<=')[1]`. |
| `Config.StatusFilterWord` | config.py:227 | The status filter is a prefix of the rule text and holds no space. |
| `Config.StatusFilterOfWord` | config.py:227 | A word followed by a space and anything else yields the word, and a lone word yields itself. |
| `Config.DefaultGraceAsWrittenLeavesNoGap` | config.py:140-141 | Where the default grace derivation as written succeeds, the threshold is one second after the cutoff, so no recorded time is left ungraded. |
| `Config.DefaultGraceAsWrittenFailsLateInTheHour` | config.py:140-141 | The derivation as written raises ValueError exactly for an anchor at minute 55 or later. |
| `Config.DefaultGraceAsWrittenCounterexample` | config.py:138-141 | A shift start of 05:55 cannot be loaded: `time(5, 60, 0)` raises ValueError. |
| `Config.DefaultGrace` | config.py:194-195 | The intended derivation: the cutoff is 4 min 59 s after the anchor's minute, carrying into the next hour and round midnight, and the threshold is one second later. |
| `Config.DefaultGraceAgrees` | config.py:140-141 | Wherever the derivation as written succeeds, the intended one gives the same two times. |
| `Config.DefaultGraceLeavesNoGap` | config.py:194-195 | Away from midnight, the intended derivation leaves no recorded time without a status. |
| `Bursts.Collapse` | processor.py:139-147 | Each run becomes one burst that spans the run's minimum and maximum timestamp. |
| `Bursts.DetectBursts` | processor.py:123-154 | There are no more bursts than swipes, and there are none exactly when there are no swipes. |
| `Bursts.RunsPartition` | processor.py:131-137 | The runs concatenate back to the swipes. Inside a run no gap exceeds the threshold, and between two runs the gap does. |
| `Bursts.BurstCount` | processor.py:134-137 | There is one burst per swipe that starts a burst: the first swipe, or one after a gap above the threshold. |
| `Bursts.CloseSwipesMerge` | processor.py:134-141 | When no gap exceeds the threshold, the swipes make exactly one burst, from their minimum to their maximum. |
| `Bursts.SortedBursts` | processor.py:139-141 | On sorted swipes each burst starts no later than it ends, and the next burst starts no earlier than the previous one ends. The first burst starts at the first swipe. |
| `Bursts.BurstsAscending` | processor.py:130-141 | Bursts of sorted swipes come out in ascending order of their starts. |
| `Segmenter.FirstCheckIn` | processor.py:191-195 | The shift found is the first in table order whose check-in window holds the time. None means no shift's window holds it. |
| `Segmenter.OpeningShift` | processor.py:191-197 | A burst opens the first-matching shift unless that shift's code is empty, and opens nothing when no window holds it. |
| `Segmenter.AbsorbEnd` | processor.py:218-253 | The absorption scan stops at the first burst it may not absorb. Everything before that burst is absorbed. |
| `Segmenter.ProgressFromWindows` | processor.py:218-256 | When no shift's check-in window wraps past midnight and each closes at or before that shift's window end (the check-out end, on the next day for code "C"), every time of day that opens a shift is at or before the window end. Every opening burst then absorbs at least itself, so the walk always advances. |
| `Segmenter.OpeningAbsorbed` | processor.py:224-250 | Under that condition, the burst that opens an instance is absorbed into it. |
| `Segmenter.StallWithoutProgress` | processor.py:218-256 | Without that condition, an opening burst past its own window end absorbs nothing, so `i = j` does not advance and the source loops forever. |
| `Segmenter.Walk` | processor.py:184-259 | The instances of one person lie inside the bursts, are non-empty and in increasing order, and refer to existing shifts. |
| `Segmenter.WalkOpenings` | processor.py:191-253 | Every instance was opened by its first burst's first-matching shift. Its date is that burst's date, and it extends exactly as far as absorption goes. |
| `Segmenter.WalkOrphans` | processor.py:257-259 | A burst inside no instance opens no shift. |
| `Segmenter.LabelOfCovered` | processor.py:247-249 | A burst inside instance k carries that instance's shift code, shift date and instance number, firstId + k. |
| `Segmenter.LabelOfUncovered` | processor.py:174-176 | A burst inside no instance keeps its empty labels. |
| `Segmenter.LabelIdRange` | processor.py:178-255 | The instance numbers of a walk run from firstId to just below firstId plus the number of instances. |
| `Segmenter.FindCheckInShift` | processor.py:191-195 | The loop over the shift table returns the first-matching shift, or the table size for none. |
| `Segmenter.WouldStartDifferentShift` | processor.py:235-240 | The loop is true exactly when some shift with another code checks in at that time. |
| `Segmenter.Absorb` | processor.py:218-253 | The loop stops where `AbsorbEnd` says. It labels exactly the bursts from i up to that point and leaves every other label unchanged. |
| `Segmenter.DetectShiftInstances` | processor.py:184-259 | One person's pass writes into every burst the label the walk gives it, and returns firstId plus the number of instances. |
| `Segmenter.UnlabelledAreOrphans` | processor.py:257-266 | A burst left without a label opens no shift: it is an orphan, and line 263 drops it. |
| `Segmenter.LabelledBelongs` | processor.py:197-253 | A labelled burst lies inside some instance k. Its label is that instance's code, date and number. The instance's first burst first-matched that shift, and the date is that first burst's date. |
| `Segmenter.FirstIdOfNext` | processor.py:178-255 | The next person's instance numbering starts right after the previous person's instances. |
| `Segmenter.InstanceIdsPerPerson` | processor.py:178-180 | The counter runs on across people: every instance number of an earlier person is below every instance number of a later person. |
| `Segmenter.DetectShiftInstancesAll` | processor.py:178-259 | Over all people, each burst gets the label of its person's walk, numbered from that person's first instance number. |
| `Extraction.FindCheckIn` | processor.py:321-337 | The result is None exactly when no start lies in the check-in window. Otherwise it is such a start, and no earlier qualifying start exists. |
| `Extraction.FindCheckOut` | processor.py:339-351 | The result is None exactly when no end lies in the check-out window. Otherwise it is such an end, and no later qualifying end exists. |
| `Extraction.CheckInOrderFree` | processor.py:332-335 | Check-in depends only on which bursts are in the group, not on their order. |
| `Extraction.CheckOutOrderFree` | processor.py:346-349 | Check-out depends only on which bursts are in the group, not on their order. |
| `Extraction.RecordFields` | processor.py:298-317 | A record carries the instance's date, the shift's display name and the mapped name and ID. Check-in is blank exactly when no start is in the window, and when present it lies in the window; likewise for check-out. A blank time has a blank status. |
| `Extraction.ShiftByCode` | processor.py:288 | The lookup `config.shifts[code]` finds an entry carrying the code. It finds none (the source's KeyError) exactly when no entry has that code. |
| `Extraction.LookupOwnCode` | processor.py:288 | In a table with distinct codes, looking up an entry's own code finds that entry. |
| `Extraction.InstanceGroup` | processor.py:285 | A burst has the same label as instance k's first burst exactly when it lies inside instance k, so grouping by instance number gives back the instance's bursts. |
| `Extraction.RecordOfInstance` | processor.py:286-310 | The k-th record of a person is dated with the first burst's date, names the display name of the shift that burst first-matched, and carries the person's mapping. |
| `Extraction.OneRecordPerInstance` | processor.py:285-317 | There is exactly one record per shift instance. |
| `Extraction.RunOfLabel` | processor.py:285 | The scan returns the end of the maximal run of labels equal to the one at i. |
| `Extraction.InstanceRecord` | processor.py:285-317 | One loop round builds the record of the group from the shift that the group's code names. |
| `Extraction.PersonRecords` | processor.py:285-317 | Scanning one person's labelled bursts gives the records of that person's instances, in walk order. |
| `Extraction.ExtractAttendanceEvents` | processor.py:270-319 | Over the labels the segmenter wrote, the result is every person's records, person after person. |
| `Extraction.ProcessPeople` | processor.py:156-319 | Segmenting and then extracting gives those records, one per instance over all people. |
| `Extraction.CellRoundTrip` | processor.py:334-337 | A time cell is blank exactly when no time was found, and a written time reads back through `parse_time`. |
| `Breaks.BreakCandidates` | processor.py:374-384 | A burst is a candidate exactly when it is in the group and its start or its end lies in the break search window. |
| `Breaks.CandidatesAscending` | processor.py:384 | Candidates of an ascending group stay ascending by start, so the re-sort changes nothing. |
| `Breaks.Distance` | processor.py:421-423 | The distance is the absolute difference of the two times in seconds. |
| `Breaks.ClosestIsFirstClosest` | processor.py:413-444 | Tier 1's pick is the first qualifying gap at the least distance. There is a pick exactly when some gap qualifies. |
| `Breaks.FirstClosestUnique` | processor.py:425-427 | The first closest qualifying gap is unique: the strict `<` keeps the earliest of equal distances. |
| `Breaks.FindClosestGap` | processor.py:413-444 | The tier 1 loop returns tier 1's pick. |
| `Breaks.ClosestTogether` | processor.py:447-455 | The two tier 1 picks exist together or not at all. |
| `Breaks.BeforeMidpoint` | processor.py:458 | The result is exactly the candidates that end at or before the midpoint. |
| `Breaks.AfterMidpoint` | processor.py:459 | The result is exactly the candidates that start after the midpoint. |
| `Breaks.FirstGap` | processor.py:479-488 | The result is the first qualifying gap from a position on, and None exactly when there is none. |
| `Breaks.DetectBreaks` | processor.py:353-519 | The method, with its two tier 1 loops, computes the break pair that the two-tier definition gives. |
| `Breaks.BreaksByGap` | processor.py:389-455 | With a qualifying gap, Break Time Out is the end before the first gap closest to the checkpoint. Break Time In is the start after the first gap closest to the cutoff. |
| `Breaks.BreaksByMidpoint` | processor.py:457-519 | Without a qualifying gap, the midpoint fallback decides. |
| `Breaks.NoCandidatesNoBreak` | processor.py:386-387 | With no candidate, both break cells are blank. |
| `Breaks.MidpointSeparates` | processor.py:461-465 | With candidates on both sides of the midpoint, Break Time Out is at or before it and Break Time In after it. |
| `Breaks.StraddlingCandidate` | processor.py:518-519 | A single candidate that straddles the midpoint is in neither half, and both cells are blank. The final branch is reachable. |
| `Breaks.IndependentPicks` | processor.py:402-455 | On 09:00, 10:30-10:31 and 10:50 with a wide search window, tier 1 gives break-out 10:31 and break-in 10:30: the two picks are independent. |
| `Performance.ConfigCache.constructor` | performance.py:10 | The cache starts empty. |
| `Performance.ConfigCache.Get` | performance.py:27-36 | The lookup gives the cached configuration exactly when the path was cached, and None otherwise. |
| `Performance.ConfigCache.Cache` | performance.py:13-24 | Storing puts the configuration under its path, returns it, and leaves every other path's lookup unchanged. |
| `Performance.ConfigCache.Clear` | performance.py:39-41 | After clearing, every lookup gives None. |
| `Scenarios.TableProgress` | processor.py:204-213 | The three-shift table rebuilt from the tests satisfies `Progress`. None of its check-in windows wraps, and each closes by its window end. |
| `Scenarios.NightShiftOneInstance` | tests/test_scenarios.py:145-199 | Night swipes 21:55:28 on 3 November, then 02:00:35, 02:44:51 and 06:03:14, make one night instance dated 3 November. |
| `Scenarios.NightBreakCandidates` | tests/test_scenarios.py:145-199 | The two swipes after midnight are the night shift's break candidates. |
| `Scenarios.NightBreaks` | tests/test_scenarios.py:145-199 | The night break is 02:00:35 to 02:44:51. |
| `Scenarios.NightCheckInOut` | tests/test_scenarios.py:145-199 | The night check-in is 21:55:28 and the check-out 06:03:14. |
| `Scenarios.NightRecordShift` | tests/test_scenarios.py:186-193 | The night scenario gives one record, dated 3 November, for the shift "Night", with the person's mapped name and ID. |
| `Scenarios.NightStatuses` | tests/test_scenarios.py:145-199 | Both the night check-in and the night break-in are "On Time". |
| `Scenarios.TimeInRangeExamples` | tests/test_processor.py:261-293 | On 09:50-10:35, 09:00 and 11:00 are outside, and 09:50, 10:00 and 10:30 are inside. On 21:30-06:35, 20:00 and 08:00 are outside, and 22:00, 23:30, 01:00 and 06:00 are inside. |
| `Scenarios.ShiftClassification` | tests/test_processor.py:81-109 | 06:00 opens the morning shift, 14:00 the afternoon shift and 22:00 the night shift. 12:00 opens nothing. |
| `Scenarios.FindCheckInEarliest` | tests/test_processor.py:112-131 | Out of 05:00, 06:00, 06:30 and 07:00, check-in is 06:00. |
| `Scenarios.FindCheckInBlank` | tests/test_processor.py:133-148 | With only 05:00 and 07:00, check-in is blank. |
| `Scenarios.NormalDayOneInstance` | tests/test_scenarios.py:22-58 | 05:55, 09:55, 10:25 and 14:05 make one morning instance. |
| `Scenarios.NormalDayFields` | tests/test_scenarios.py:22-58 | On that day, check-in is 05:55 "On Time", check-out is 14:05, and break-in is "On Time". |
| `Scenarios.NormalDayRecordShift` | tests/test_scenarios.py:50-54 | The normal day gives one record, dated 4 November, for the shift "Morning". |
| `Scenarios.NormalDayBreaks` | tests/test_scenarios.py:22-58 | On that day, the break is 09:55 to 10:25. |
| `Scenarios.BurstBeforeBreak` | tests/test_scenarios.py:62-104 | Burst 09:55-10:01 then 10:25: the gap runs from the burst's end, so break-out is 10:01 and break-in 10:25. |
| `Scenarios.ShortBreakLate` | tests/test_scenarios.py:108-141 | A 9-minute break 10:20 to 10:29, after the midpoint, is still found by tier 1. |
| `Scenarios.LoneSwipeBeforeMidpoint` | tests/test_scenarios.py:203-236 | One swipe at 10:08 gives break-out 10:08 and a blank break-in. |
| `Scenarios.LoneSwipeAfterMidpoint` | tests/test_processor.py:191-205 | One swipe at 10:20 gives a blank break-out and break-in 10:20. |
| `Scenarios.NoBreakSwipes` | tests/test_scenarios.py:240-273 | With no swipe in 09:50-10:35, both break cells are blank. |
| `Scenarios.AfternoonOverlap` | tests/test_scenarios.py:277-310 | 14:00 and then 22:00 make one afternoon instance, with check-out 22:00. The 22:00 swipe is absorbed although it lies in the night check-in window. |
| `Scenarios.MultipleBreaks` | tests/test_scenarios.py:314-349 | On swipes 09:55, 10:05, 10:15 and 10:25, the break is 09:55 to 10:25. Ties are broken by the earlier gap. |
| `Scenarios.TenMinuteBreakOut` | tests/test_scenarios.py:314-349 | On those swipes, the break-out pick is the first gap: 09:55 and 10:05 tie at five minutes from 10:00. |
| `Scenarios.TenMinuteBreakIn` | tests/test_scenarios.py:314-349 | On those swipes, the break-in pick is the gap before 10:25, the start closest to the cutoff. |
| `Scenarios.SpanningBurst` | tests/test_scenarios.py:353-388 | One burst 10:00-10:14 gives break-out 10:14 and a blank break-in. |
| `Scenarios.BurstConsolidation` | tests/test_processor.py:55-78 | With a 2-minute threshold, 06:00, 06:00:30, 06:01:45 and 06:10 make the bursts 06:00-06:01:45 and 06:10. |
| `Scenarios.SwipesAroundBreak` | tests/test_processor.py:231-258 | On 09:50, 09:55, 10:25 and 10:30, the code gives the break 09:55 to 10:30, not the (09:50, 09:55) the test expects. |
| `Scenarios.AroundBreakOut` | tests/test_processor.py:231-258 | On those swipes, the break-out pick is the gap after 09:55, the end closest to 10:00. |
| `Scenarios.AroundBreakIn` | tests/test_processor.py:231-258 | On those swipes, the break-in pick is the gap before 10:30, the start closest to 10:34:59. |

## Left out

- **Reading and writing files, and the interfaces.** Loading the input,
  the Excel and CSV readers, YAML loading, writing the output workbook,
  progress printing, the command-line and graphical front ends, and the
  Windows build scripts are not modelled. The model starts from parsed rows
  and ends at records.
- **`parse_datetime_optimized` and pandas parsing.** These are not part of
  this model. A row's timestamp arrives already parsed, or as "none" when it
  did not parse.
- **Sorting and grouping by name** (processor.py:86 and 171). People are given
  as a sequence, each with their bursts in row order. The sort by start is
  stated as the precondition `StartsAscending`, and no sort is modelled.
- **`strftime`.** Time cells hold times of day. `Extraction.Cell` gives the
  text form, and `Extraction.CellRoundTrip` ties it to `parse_time`.
- **Float arithmetic in gap minutes.** The gap in minutes is compared as
  whole seconds against minutes times 60. For whole-second timestamps this is
  the same comparison as the source's division by 60.
- **Dictionary keys.** Shift codes in the rule file are dictionary keys, so
  they are distinct. The model states this as `DistinctCodes` and assumes it
  where the extraction looks shifts up by code.
- **`Progress`.** The segmenter and the extraction require that every time
  of day that opens a shift is at or before that shift's window end. The window
  end is the check-out end, on the next day for code "C" and on the same day
  otherwise. `Segmenter.ProgressFromWindows` gives a sufficient condition: no
  check-in window wraps, and each closes by its window end. A start inside the
  window is not enough. A code "A" shift with check-in 21:30-22:35 and window
  end 22:00 is opened by a 22:20 burst that it does not absorb. Without
  `Progress` the source's loop does not terminate
  (`Segmenter.StallWithoutProgress`). The table rebuilt from the tests
  satisfies it (`Scenarios.TableProgress`). The repository's rule.yaml is not
  part of this model, so nothing is claimed about it.
- **Python `int()` subtleties.** `Text.ParseInt` accepts an optional sign and
  ASCII digits with surrounding white space. Underscores between digits and
  non-ASCII digits are not modelled.
- **`Performance.ConfigCache.Get`: a cached value is always found.** In the
  source, `load_from_yaml` treats a cached falsy value as a miss
  (config.py:99). Configurations are never falsy, so the model leaves this
  out. The cache is generic in its value and does not take part in loading.
- **The rule file's remaining parsing.** Parsing the v9.0 and v10.0 shift
  structure (config.py:109-224) is left out, apart from the derivations
  modelled above. The scenario configurations are rebuilt from the
  descriptions in the repository's tests, because rule.yaml is not part of
  this model.
- **The scenario lemmas state the fields the tests check one by one.** The
  display names and dates of the morning and night records are stated through
  `Scenarios.NormalDayRecordShift` and `Scenarios.NightRecordShift`; the times
  and statuses through the other scenario lemmas. No lemma states a whole
  record as one value. The `parse_time` examples of tests/test_config.py:8-24 are
  covered by the general lemmas `Config.ParseHourMinute` and
  `Config.ParseFormattedTime`, not as single literal cases.

## Findings

| source | as written | input that shows it | evidently intended | confidence | as-written member | corrected member |
|---|---|---|---|---|---|---|
| config.py:140-141 and config.py:194-195 | The default grace period is built as `time(h, m + 4, 59)` and `time(h, m + 5, 0)`. This raises ValueError once the minute reaches 60. | A v9.0 shift start or break end at 05:55. `time(5, 60, 0)` raises, so the rule file cannot be loaded. The same happens for any anchor at minute 55 or later. | Cutoff and threshold 4 min 59 s and 5 min after the anchor's minute, carrying into the next hour. | not executed | `Config.DefaultGraceAsWrittenCounterexample` | `Config.DefaultGrace` |
