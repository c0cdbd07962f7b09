/**
 * Worked examples on a three-shift rule set: morning A, afternoon B and
 * night C, with the windows and anchors the scenario descriptions of the
 * repository's tests give (tests/test_scenarios.py, tests/test_processor.py).
 */
module Scenarios {
  import opened Wrappers
  import opened Clock
  import opened Config
  import opened Bursts
  import opened Segmenter
  import opened Breaks
  import opened Extraction
  import opened Text

  /** Morning: check-in 05:30-06:35, check-out 13:30-14:35, break search 09:50-10:35, start 06:00, break end 10:30. */
  function Morning(): ShiftConfig
  {
    ShiftConfig("A", "Morning",
      5 * 3600 + 30 * 60, 6 * 3600 + 35 * 60, 13 * 3600 + 30 * 60, 14 * 3600 + 35 * 60,
      9 * 3600 + 50 * 60, 10 * 3600 + 35 * 60, 10 * 3600, 10 * 3600 + 15 * 60, 5,
      6 * 3600, 6 * 3600 + 4 * 60 + 59, 6 * 3600 + 5 * 60,
      10 * 3600 + 30 * 60, 10 * 3600 + 34 * 60 + 59, 10 * 3600 + 35 * 60)
  }

  /** Afternoon: check-in 13:30-14:35, check-out 21:30-22:35, break search 17:50-18:35, start 14:00, break end 18:30. */
  function Afternoon(): ShiftConfig
  {
    ShiftConfig("B", "Afternoon",
      13 * 3600 + 30 * 60, 14 * 3600 + 35 * 60, 21 * 3600 + 30 * 60, 22 * 3600 + 35 * 60,
      17 * 3600 + 50 * 60, 18 * 3600 + 35 * 60, 18 * 3600, 18 * 3600 + 15 * 60, 5,
      14 * 3600, 14 * 3600 + 4 * 60 + 59, 14 * 3600 + 5 * 60,
      18 * 3600 + 30 * 60, 18 * 3600 + 34 * 60 + 59, 18 * 3600 + 35 * 60)
  }

  /** Night: check-in 21:30-22:35, check-out 05:30-06:35 next day, break search 01:50-02:50, start 22:00, break end 02:45. */
  function Night(): ShiftConfig
  {
    ShiftConfig("C", "Night",
      21 * 3600 + 30 * 60, 22 * 3600 + 35 * 60, 5 * 3600 + 30 * 60, 6 * 3600 + 35 * 60,
      1 * 3600 + 50 * 60, 2 * 3600 + 50 * 60, 2 * 3600, 2 * 3600 + 22 * 60 + 30, 5,
      22 * 3600, 22 * 3600 + 4 * 60 + 59, 22 * 3600 + 5 * 60,
      2 * 3600 + 45 * 60, 2 * 3600 + 49 * 60 + 59, 2 * 3600 + 50 * 60)
  }

  /** The shift table in the rule file's order. */
  function Table(): seq<ShiftEntry>
  {
    [ShiftEntry("A", Morning()), ShiftEntry("B", Afternoon()), ShiftEntry("C", Night())]
  }

  /** No check-in window of this table wraps, and each closes by its window end, so the segmenter always moves on. */
  lemma TableProgress()
    ensures Progress(Table())
  {
    var t := Table();
    assert ChecksInBeforeWindowEnd(t[0]) && ChecksInBeforeWindowEnd(t[1]) && ChecksInBeforeWindowEnd(t[2]);
    ProgressFromWindows(t);
  }

  lemma TableCodesDistinct()
    ensures DistinctCodes(Table())
  {
    var t := Table();
    assert t[0].code == "A" && t[1].code == "B" && t[2].code == "C";
    assert "A"[0] != "B"[0] && "A"[0] != "C"[0] && "B"[0] != "C"[0];
  }

  /** 2025-11-03 and 2025-11-04, as days since 1970-01-01. */
  const Nov3: int := 20395
  const Nov4: int := 20396

  /** A burst of one swipe. */
  function Swipe(ts: Timestamp): Burst
  {
    Burst(ts, ts)
  }

  /** Scenario 4's swipes: 21:55:28 on 3 November, then 02:00:35, 02:44:51 and 06:03:14 on 4 November. */
  function NightBursts(): seq<Burst>
  {
    [Swipe(Combine(Nov3, 21 * 3600 + 55 * 60 + 28)), Swipe(Combine(Nov4, 2 * 3600 + 35)),
     Swipe(Combine(Nov4, 2 * 3600 + 44 * 60 + 51)), Swipe(Combine(Nov4, 6 * 3600 + 3 * 60 + 14))]
  }

  /**
   * Scenario 4: the night shift opened at 21:55:28 on 3 November absorbs the
   * swipes after midnight, the last one through its own check-out window
   * although it also lies in the morning check-in window: one instance,
   * dated 3 November.
   */
  lemma NightShiftOneInstance()
    ensures Progress(Table())
    ensures Walk(Table(), NightBursts(), 0) == [Instance(2, Nov3, 0, 4)]
  {
    var b := NightBursts();
    var shifts := Table();
    TableProgress();
    assert TimeOf(b[0].start) == 21 * 3600 + 55 * 60 + 28 && DayOf(b[0].start) == Nov3;
    assert FirstCheckIn(shifts, TimeOf(b[0].start)) == Some(2);
    var windowEnd := WindowEnd(shifts[2], Nov3);
    assert windowEnd == Combine(Nov4, 6 * 3600 + 35 * 60);
    assert TimeOf(b[1].start) == 2 * 3600 + 35 && TimeOf(b[2].start) == 2 * 3600 + 44 * 60 + 51;
    assert TimeOf(b[3].start) == 6 * 3600 + 3 * 60 + 14;
    assert !OtherShiftChecksIn(shifts, "C", TimeOf(b[1].start));
    assert !OtherShiftChecksIn(shifts, "C", TimeOf(b[2].start));
    assert AbsorbEnd(shifts, 2, b, 0, 4, windowEnd) == 4;
    assert AbsorbEnd(shifts, 2, b, 0, 0, windowEnd) == 4;
  }

  /** The night record is dated 3 November and names the night shift, whoever the person is. */
  lemma NightRecordShift(user: User)
    ensures var person := Person(user, NightBursts());
      var r := InstanceRecords(Table(), person, Walk(Table(), NightBursts(), 0));
      && |r| == 1 && r[0].date == Nov3 && r[0].shift == "Night"
      && r[0].name == user.outputName && r[0].id == user.outputId
  {
    NightShiftOneInstance();
    RecordOfInstance(Table(), Person(user, NightBursts()), 0);
  }

  /** The two swipes after midnight are the night shift's break candidates. */
  lemma NightBreakCandidates()
    ensures BreakCandidates(Night(), NightBursts()) == NightBursts()[1..3]
  {
    var b := NightBursts();
    assert TimeOf(b[0].start) == 21 * 3600 + 55 * 60 + 28;
    assert TimeOf(b[1].start) == 2 * 3600 + 35 && TimeOf(b[2].start) == 2 * 3600 + 44 * 60 + 51;
    assert TimeOf(b[3].start) == 6 * 3600 + 3 * 60 + 14;
    assert BreakCandidates(Night(), b[3..]) == [];
    assert b[2..][1..] == b[3..];
    assert BreakCandidates(Night(), b[2..]) == [b[2]];
    assert b[1..][1..] == b[2..];
    assert b[1..3] == [b[1], b[2]];
  }

  /** Tier 1 finds the 44-minute gap after midnight for both break events. */
  lemma NightBreaks()
    ensures Breaks.Breaks(Night(), NightBursts()) == BreakPair(Some(NightBursts()[1].end), Some(NightBursts()[2].start))
  {
    var b := NightBursts();
    NightBreakCandidates();
    var c := [b[1], b[2]];
    assert BreakCandidates(Night(), b) == c;
    assert GapQualifies(c, 0, Night().minimumBreakGapMinutes);
    assert ClosestFrom(Night(), c, false, 1, Some(0)) == Some(0);
    assert ClosestFrom(Night(), c, true, 1, Some(0)) == Some(0);
    assert Closest(Night(), c, false) == Some(0);
    assert Closest(Night(), c, true) == Some(0);
  }

  /** Check-in is the 21:55:28 swipe and check-out the 06:03:14 one. */
  lemma NightCheckInOut()
    ensures FindCheckIn(Night(), NightBursts()) == Some(NightBursts()[0].start)
    ensures FindCheckOut(Night(), NightBursts()) == Some(NightBursts()[3].end)
  {
    var b := NightBursts();
    assert TimeOf(b[0].start) == 21 * 3600 + 55 * 60 + 28;
    assert TimeOf(b[1].start) == 2 * 3600 + 35 && TimeOf(b[2].start) == 2 * 3600 + 44 * 60 + 51;
    assert TimeOf(b[3].start) == 6 * 3600 + 3 * 60 + 14;
    assert StartsInCheckIn(Night(), b[0]);
    assert EndsInCheckOut(Night(), b[3]);
    assert !StartsInCheckIn(Night(), b[1]) && !StartsInCheckIn(Night(), b[2]) && !StartsInCheckIn(Night(), b[3]);
    assert !EndsInCheckOut(Night(), b[0]) && !EndsInCheckOut(Night(), b[1]) && !EndsInCheckOut(Night(), b[2]);
  }

  /** Both the check-in at 21:55:28 and the break-in at 02:44:51 are on time. */
  lemma NightStatuses()
    ensures DetermineCheckInStatus(Night(), Some(TimeOf(NightBursts()[0].start))) == OnTime
    ensures DetermineBreakInStatus(Night(), Some(TimeOf(NightBursts()[2].start))) == OnTime
  {
  }

  /** A burst of one swipe at time of day `t` on 4 November. */
  function Nov4Swipe(t: TimeOfDay): Burst
  {
    Swipe(Combine(Nov4, t))
  }

  /** Window membership on the break search window 09:50-10:35 and on the wrapping window 21:30-06:35. */
  lemma TimeInRangeExamples()
    ensures !TimeInRange(9 * 3600, 9 * 3600 + 50 * 60, 10 * 3600 + 35 * 60)
    ensures TimeInRange(9 * 3600 + 50 * 60, 9 * 3600 + 50 * 60, 10 * 3600 + 35 * 60)
    ensures TimeInRange(10 * 3600, 9 * 3600 + 50 * 60, 10 * 3600 + 35 * 60)
    ensures TimeInRange(10 * 3600 + 30 * 60, 9 * 3600 + 50 * 60, 10 * 3600 + 35 * 60)
    ensures !TimeInRange(11 * 3600, 9 * 3600 + 50 * 60, 10 * 3600 + 35 * 60)
    ensures !TimeInRange(20 * 3600, 21 * 3600 + 30 * 60, 6 * 3600 + 35 * 60)
    ensures TimeInRange(22 * 3600, 21 * 3600 + 30 * 60, 6 * 3600 + 35 * 60)
    ensures TimeInRange(23 * 3600 + 30 * 60, 21 * 3600 + 30 * 60, 6 * 3600 + 35 * 60)
    ensures TimeInRange(1 * 3600, 21 * 3600 + 30 * 60, 6 * 3600 + 35 * 60)
    ensures TimeInRange(6 * 3600, 21 * 3600 + 30 * 60, 6 * 3600 + 35 * 60)
    ensures !TimeInRange(8 * 3600, 21 * 3600 + 30 * 60, 6 * 3600 + 35 * 60)
  {
  }

  /** A first swipe at 06:00 opens the morning shift, 14:00 the afternoon and 22:00 the night shift. */
  lemma ShiftClassification()
    ensures OpeningShift(Table(), 6 * 3600) == Some(0)
    ensures OpeningShift(Table(), 14 * 3600) == Some(1)
    ensures OpeningShift(Table(), 22 * 3600) == Some(2)
    ensures OpeningShift(Table(), 12 * 3600) == None
  {
  }

  /** Check-in picks the earliest start in 05:30-06:35 out of 05:00, 06:00, 06:30 and 07:00. */
  lemma FindCheckInEarliest()
    ensures FindCheckIn(Morning(), [Nov4Swipe(5 * 3600), Nov4Swipe(6 * 3600), Nov4Swipe(6 * 3600 + 30 * 60), Nov4Swipe(7 * 3600)])
         == Some(Combine(Nov4, 6 * 3600))
  {
    var g := [Nov4Swipe(5 * 3600), Nov4Swipe(6 * 3600), Nov4Swipe(6 * 3600 + 30 * 60), Nov4Swipe(7 * 3600)];
    assert TimeOf(g[0].start) == 5 * 3600 && TimeOf(g[1].start) == 6 * 3600;
    assert TimeOf(g[2].start) == 6 * 3600 + 30 * 60 && TimeOf(g[3].start) == 7 * 3600;
    assert FindCheckIn(Morning(), g[3..]) == None;
    assert g[2..][1..] == g[3..];
    assert FindCheckIn(Morning(), g[2..]) == Some(g[2].start);
    assert g[1..][1..] == g[2..];
    assert FindCheckIn(Morning(), g[1..]) == Some(g[1].start);
  }

  /** With swipes only at 05:00 and 07:00 no start falls in 05:30-06:35 and check-in is blank. */
  lemma FindCheckInBlank()
    ensures FindCheckIn(Morning(), [Nov4Swipe(5 * 3600), Nov4Swipe(7 * 3600)]) == None
  {
    var g := [Nov4Swipe(5 * 3600), Nov4Swipe(7 * 3600)];
    assert TimeOf(g[0].start) == 5 * 3600 && TimeOf(g[1].start) == 7 * 3600;
    assert !StartsInCheckIn(Morning(), g[0]) && !StartsInCheckIn(Morning(), g[1]);
  }

  /** Scenario 1's day: 05:55, 09:55, 10:25 and 14:05. */
  function DayBursts(): seq<Burst>
  {
    [Nov4Swipe(5 * 3600 + 55 * 60), Nov4Swipe(9 * 3600 + 55 * 60), Nov4Swipe(10 * 3600 + 25 * 60), Nov4Swipe(14 * 3600 + 5 * 60)]
  }

  /**
   * Scenario 1: one morning instance. The 14:05 swipe also lies in the
   * afternoon check-in window and is absorbed through the morning shift's own
   * check-out window.
   */
  lemma NormalDayOneInstance()
    ensures Progress(Table())
    ensures Walk(Table(), DayBursts(), 0) == [Instance(0, Nov4, 0, 4)]
  {
    var b := DayBursts();
    var shifts := Table();
    TableProgress();
    assert TimeOf(b[0].start) == 5 * 3600 + 55 * 60 && DayOf(b[0].start) == Nov4;
    assert FirstCheckIn(shifts, TimeOf(b[0].start)) == Some(0);
    var windowEnd := WindowEnd(shifts[0], Nov4);
    assert windowEnd == Combine(Nov4, 14 * 3600 + 35 * 60);
    assert TimeOf(b[1].start) == 9 * 3600 + 55 * 60 && TimeOf(b[2].start) == 10 * 3600 + 25 * 60;
    assert TimeOf(b[3].start) == 14 * 3600 + 5 * 60;
    assert !OtherShiftChecksIn(shifts, "A", TimeOf(b[1].start));
    assert !OtherShiftChecksIn(shifts, "A", TimeOf(b[2].start));
    assert AbsorbEnd(shifts, 0, b, 0, 4, windowEnd) == 4;
    assert AbsorbEnd(shifts, 0, b, 0, 0, windowEnd) == 4;
  }

  /** Scenario 1's record fields: check-in 05:55 on time, check-out 14:05, break 09:55 to 10:25 on time. */
  lemma NormalDayFields()
    ensures FindCheckIn(Morning(), DayBursts()) == Some(DayBursts()[0].start)
    ensures FindCheckOut(Morning(), DayBursts()) == Some(DayBursts()[3].end)
    ensures DetermineCheckInStatus(Morning(), Some(TimeOf(DayBursts()[0].start))) == OnTime
    ensures DetermineBreakInStatus(Morning(), Some(TimeOf(DayBursts()[2].start))) == OnTime
  {
    var b := DayBursts();
    assert TimeOf(b[0].start) == 5 * 3600 + 55 * 60 && TimeOf(b[1].start) == 9 * 3600 + 55 * 60;
    assert TimeOf(b[2].start) == 10 * 3600 + 25 * 60 && TimeOf(b[3].start) == 14 * 3600 + 5 * 60;
  }

  /** The normal day's record names the morning shift. */
  lemma NormalDayRecordShift(user: User)
    ensures var person := Person(user, DayBursts());
      var r := InstanceRecords(Table(), person, Walk(Table(), DayBursts(), 0));
      && |r| == 1 && r[0].date == Nov4 && r[0].shift == "Morning"
  {
    NormalDayOneInstance();
    RecordOfInstance(Table(), Person(user, DayBursts()), 0);
  }

  lemma NormalDayBreaks()
    ensures Breaks.Breaks(Morning(), DayBursts()) == BreakPair(Some(DayBursts()[1].end), Some(DayBursts()[2].start))
  {
    var b := DayBursts();
    assert TimeOf(b[0].start) == 5 * 3600 + 55 * 60 && TimeOf(b[1].start) == 9 * 3600 + 55 * 60;
    assert TimeOf(b[2].start) == 10 * 3600 + 25 * 60 && TimeOf(b[3].start) == 14 * 3600 + 5 * 60;
    var c := [b[1], b[2]];
    assert BreakCandidates(Morning(), b[3..]) == [];
    assert BreakCandidates(Morning(), b) == c by {
      assert b[1..][1..] == b[2..] && b[2..][1..] == b[3..];
    }
    assert GapQualifies(c, 0, Morning().minimumBreakGapMinutes);
    assert ClosestFrom(Morning(), c, false, 1, Some(0)) == Some(0);
    assert ClosestFrom(Morning(), c, true, 1, Some(0)) == Some(0);
  }

  /** Scenario 3: a break of 9 minutes, 10:20 to 10:29, both sides after the 10:15 midpoint. */
  lemma ShortBreakLate()
    ensures Breaks.Breaks(Morning(), [Nov4Swipe(6 * 3600), Nov4Swipe(10 * 3600 + 20 * 60), Nov4Swipe(10 * 3600 + 29 * 60), Nov4Swipe(14 * 3600)])
         == BreakPair(Some(Combine(Nov4, 10 * 3600 + 20 * 60)), Some(Combine(Nov4, 10 * 3600 + 29 * 60)))
  {
    var b := [Nov4Swipe(6 * 3600), Nov4Swipe(10 * 3600 + 20 * 60), Nov4Swipe(10 * 3600 + 29 * 60), Nov4Swipe(14 * 3600)];
    assert TimeOf(b[0].start) == 6 * 3600 && TimeOf(b[1].start) == 10 * 3600 + 20 * 60;
    assert TimeOf(b[2].start) == 10 * 3600 + 29 * 60 && TimeOf(b[3].start) == 14 * 3600;
    var c := [b[1], b[2]];
    assert BreakCandidates(Morning(), b[3..]) == [];
    assert BreakCandidates(Morning(), b) == c by {
      assert b[1..][1..] == b[2..] && b[2..][1..] == b[3..];
    }
    assert GapQualifies(c, 0, Morning().minimumBreakGapMinutes);
    assert ClosestFrom(Morning(), c, false, 1, Some(0)) == Some(0);
    assert ClosestFrom(Morning(), c, true, 1, Some(0)) == Some(0);
  }

  /** Scenario 5: one swipe at 10:08, before the midpoint, is a break-out with no break-in. */
  lemma LoneSwipeBeforeMidpoint()
    ensures Breaks.Breaks(Morning(), [Nov4Swipe(6 * 3600), Nov4Swipe(10 * 3600 + 8 * 60), Nov4Swipe(14 * 3600)])
         == BreakPair(Some(Combine(Nov4, 10 * 3600 + 8 * 60)), None)
  {
    var b := [Nov4Swipe(6 * 3600), Nov4Swipe(10 * 3600 + 8 * 60), Nov4Swipe(14 * 3600)];
    assert TimeOf(b[0].start) == 6 * 3600 && TimeOf(b[1].start) == 10 * 3600 + 8 * 60 && TimeOf(b[2].start) == 14 * 3600;
    var c := [b[1]];
    assert BreakCandidates(Morning(), b[2..]) == [];
    assert BreakCandidates(Morning(), b) == c by {
      assert b[1..][1..] == b[2..];
    }
    assert BeforeMidpoint(c, Morning().midpoint) == c;
    assert AfterMidpoint(c, Morning().midpoint) == [];
  }

  /** One swipe at 10:20, after the midpoint, is a break-in with no break-out. */
  lemma LoneSwipeAfterMidpoint()
    ensures Breaks.Breaks(Morning(), [Nov4Swipe(6 * 3600), Nov4Swipe(10 * 3600 + 20 * 60), Nov4Swipe(14 * 3600)])
         == BreakPair(None, Some(Combine(Nov4, 10 * 3600 + 20 * 60)))
  {
    var b := [Nov4Swipe(6 * 3600), Nov4Swipe(10 * 3600 + 20 * 60), Nov4Swipe(14 * 3600)];
    assert TimeOf(b[0].start) == 6 * 3600 && TimeOf(b[1].start) == 10 * 3600 + 20 * 60 && TimeOf(b[2].start) == 14 * 3600;
    var c := [b[1]];
    assert BreakCandidates(Morning(), b[2..]) == [];
    assert BreakCandidates(Morning(), b) == c by {
      assert b[1..][1..] == b[2..];
    }
    assert BeforeMidpoint(c, Morning().midpoint) == [];
    assert AfterMidpoint(c, Morning().midpoint) == c;
  }

  /** A single burst from 10:00 to 10:14 starts before the midpoint: its last swipe is the break-out. */
  lemma SpanningBurst()
    ensures Breaks.Breaks(Morning(), [Nov4Swipe(6 * 3600), Burst(Combine(Nov4, 10 * 3600), Combine(Nov4, 10 * 3600 + 14 * 60)), Nov4Swipe(14 * 3600)])
         == BreakPair(Some(Combine(Nov4, 10 * 3600 + 14 * 60)), None)
  {
    var b := [Nov4Swipe(6 * 3600), Burst(Combine(Nov4, 10 * 3600), Combine(Nov4, 10 * 3600 + 14 * 60)), Nov4Swipe(14 * 3600)];
    assert TimeOf(b[0].start) == 6 * 3600 && TimeOf(b[1].start) == 10 * 3600 && TimeOf(b[2].start) == 14 * 3600;
    var c := [b[1]];
    assert BreakCandidates(Morning(), b[2..]) == [];
    assert BreakCandidates(Morning(), b) == c by {
      assert b[1..][1..] == b[2..];
    }
    assert BeforeMidpoint(c, Morning().midpoint) == c;
    assert AfterMidpoint(c, Morning().midpoint) == [];
  }

  /** Scenario 6: with no swipe in 09:50-10:35 both break columns are blank. */
  lemma NoBreakSwipes()
    ensures Breaks.Breaks(Morning(), [Nov4Swipe(6 * 3600), Nov4Swipe(14 * 3600)]) == BreakPair(None, None)
  {
    var b := [Nov4Swipe(6 * 3600), Nov4Swipe(14 * 3600)];
    assert TimeOf(b[0].start) == 6 * 3600 && TimeOf(b[1].start) == 14 * 3600;
    assert !InBreakSearch(Morning(), b[0]) && !InBreakSearch(Morning(), b[1]);
  }

  /** Swipes at 09:50, 09:55, 10:25 and 10:30 on day `day`. */
  function AroundBreakSwipes(day: int): seq<Burst>
  {
    [Swipe(Combine(day, 9 * 3600 + 50 * 60)), Swipe(Combine(day, 9 * 3600 + 55 * 60)),
     Swipe(Combine(day, 10 * 3600 + 25 * 60)), Swipe(Combine(day, 10 * 3600 + 30 * 60))]
  }

  /** All four swipes are break candidates, and each of the three gaps is at least five minutes. */
  lemma AroundBreakGaps(day: int)
    ensures BreakCandidates(Morning(), AroundBreakSwipes(day)) == AroundBreakSwipes(day)
    ensures GapQualifies(AroundBreakSwipes(day), 0, 5) && GapQualifies(AroundBreakSwipes(day), 1, 5) && GapQualifies(AroundBreakSwipes(day), 2, 5)
  {
    SplitCombined(day, 9 * 3600 + 50 * 60);
    SplitCombined(day, 9 * 3600 + 55 * 60);
    SplitCombined(day, 10 * 3600 + 25 * 60);
    SplitCombined(day, 10 * 3600 + 30 * 60);
    AllCandidates(AroundBreakSwipes(day));
  }

  /** Of the ends before a gap, 09:55 is the closest to 10:00. */
  lemma AroundBreakOut(day: int)
    ensures Closest(Morning(), AroundBreakSwipes(day), false) == Some(1)
  {
    var b := AroundBreakSwipes(day);
    AroundBreakGaps(day);
    SplitCombined(day, 9 * 3600 + 50 * 60);
    SplitCombined(day, 9 * 3600 + 55 * 60);
    SplitCombined(day, 10 * 3600 + 25 * 60);
    assert Key(Morning(), b, 0, false) == 600 && Key(Morning(), b, 1, false) == 300 && Key(Morning(), b, 2, false) == 1500;
    assert ClosestFrom(Morning(), b, false, 2, Some(1)) == Some(1);
    assert ClosestFrom(Morning(), b, false, 1, Some(0)) == Some(1);
  }

  /** Of the starts after a gap, 10:30 is the closest to 10:34:59. */
  lemma AroundBreakIn(day: int)
    ensures Closest(Morning(), AroundBreakSwipes(day), true) == Some(2)
  {
    var b := AroundBreakSwipes(day);
    AroundBreakGaps(day);
    SplitCombined(day, 9 * 3600 + 55 * 60);
    SplitCombined(day, 10 * 3600 + 25 * 60);
    SplitCombined(day, 10 * 3600 + 30 * 60);
    assert Key(Morning(), b, 0, true) == 2399 && Key(Morning(), b, 1, true) == 599 && Key(Morning(), b, 2, true) == 299;
    assert ClosestFrom(Morning(), b, true, 2, Some(1)) == Some(2);
    assert ClosestFrom(Morning(), b, true, 1, Some(0)) == Some(2);
  }

  /**
   * Swipes at 09:50, 09:55, 10:25 and 10:30: every gap is at least five
   * minutes, so break-out is the end closest to 10:00 (09:55) and break-in
   * the start closest to 10:34:59 (10:30).
   */
  lemma SwipesAroundBreak(day: int)
    ensures Breaks.Breaks(Morning(), AroundBreakSwipes(day))
         == BreakPair(Some(Combine(day, 9 * 3600 + 55 * 60)), Some(Combine(day, 10 * 3600 + 30 * 60)))
  {
    AroundBreakGaps(day);
    AroundBreakOut(day);
    AroundBreakIn(day);
  }

  /**
   * The afternoon shift worked 14:00 to 22:00: the 22:00 swipe also opens
   * the night shift's check-in window, and is absorbed as the afternoon check-out.
   */
  lemma AfternoonOverlap()
    ensures Progress(Table())
    ensures Walk(Table(), [Nov4Swipe(14 * 3600), Nov4Swipe(22 * 3600)], 0) == [Instance(1, Nov4, 0, 2)]
    ensures FindCheckOut(Afternoon(), [Nov4Swipe(14 * 3600), Nov4Swipe(22 * 3600)]) == Some(Combine(Nov4, 22 * 3600))
  {
    var b := [Nov4Swipe(14 * 3600), Nov4Swipe(22 * 3600)];
    var shifts := Table();
    TableProgress();
    assert TimeOf(b[0].start) == 14 * 3600 && DayOf(b[0].start) == Nov4;
    assert TimeOf(b[1].start) == 22 * 3600 && TimeOf(b[1].end) == 22 * 3600;
    assert FirstCheckIn(shifts, TimeOf(b[0].start)) == Some(1);
    var windowEnd := WindowEnd(shifts[1], Nov4);
    assert windowEnd == Combine(Nov4, 22 * 3600 + 35 * 60);
    assert AbsorbEnd(shifts, 1, b, 0, 2, windowEnd) == 2;
    assert AbsorbEnd(shifts, 1, b, 0, 0, windowEnd) == 2;
  }

  /** Threshold 2 minutes: swipes at 06:00, 06:00:30, 06:01:45 and 06:10 make two bursts. */
  lemma BurstConsolidation()
    ensures DetectBursts([Combine(Nov4, 6 * 3600), Combine(Nov4, 6 * 3600 + 30), Combine(Nov4, 6 * 3600 + 105), Combine(Nov4, 6 * 3600 + 600)], 2)
         == [Burst(Combine(Nov4, 6 * 3600), Combine(Nov4, 6 * 3600 + 105)), Burst(Combine(Nov4, 6 * 3600 + 600), Combine(Nov4, 6 * 3600 + 600))]
  {
    var ts := [Combine(Nov4, 6 * 3600), Combine(Nov4, 6 * 3600 + 30), Combine(Nov4, 6 * 3600 + 105), Combine(Nov4, 6 * 3600 + 600)];
    assert !StartsBurst(ts, 2, 1) && !StartsBurst(ts, 2, 2) && StartsBurst(ts, 2, 3);
    assert RunEnd(ts, 2, 3) == 3;
    assert RunEnd(ts, 2, 1) == 3;
    var tail := ts[3..];
    assert tail == [ts[3]];
    assert RunEnd(tail, 2, 1) == 1;
    assert Runs(tail, 2) == [[ts[3]]] by {
      assert tail[..1] == tail && tail[1..] == [];
    }
    assert Runs(ts, 2) == [ts[..3], [ts[3]]];
    assert Min(ts[..3]) == ts[0] && Max(ts[..3]) == ts[2] by {
      SortedMinMax(ts[..3]);
    }
  }

  /** Scenario 2: the burst 09:55-10:01 and then 10:25; the gap runs from the burst's end, so break-out is 10:01. */
  lemma BurstBeforeBreak()
    ensures Breaks.Breaks(Morning(), [Nov4Swipe(5 * 3600 + 55 * 60), Burst(Combine(Nov4, 9 * 3600 + 55 * 60), Combine(Nov4, 10 * 3600 + 60)),
                                      Nov4Swipe(10 * 3600 + 25 * 60), Nov4Swipe(14 * 3600 + 5 * 60)])
         == BreakPair(Some(Combine(Nov4, 10 * 3600 + 60)), Some(Combine(Nov4, 10 * 3600 + 25 * 60)))
  {
    var b := [Nov4Swipe(5 * 3600 + 55 * 60), Burst(Combine(Nov4, 9 * 3600 + 55 * 60), Combine(Nov4, 10 * 3600 + 60)),
              Nov4Swipe(10 * 3600 + 25 * 60), Nov4Swipe(14 * 3600 + 5 * 60)];
    assert TimeOf(b[0].start) == 5 * 3600 + 55 * 60 && TimeOf(b[1].start) == 9 * 3600 + 55 * 60 && TimeOf(b[1].end) == 10 * 3600 + 60;
    assert TimeOf(b[2].start) == 10 * 3600 + 25 * 60 && TimeOf(b[3].start) == 14 * 3600 + 5 * 60 && TimeOf(b[3].end) == 14 * 3600 + 5 * 60;
    assert !InBreakSearch(Morning(), b[0]) && InBreakSearch(Morning(), b[1]) && InBreakSearch(Morning(), b[2]) && !InBreakSearch(Morning(), b[3]);
    var c := [b[1], b[2]];
    assert BreakCandidates(Morning(), b[3..]) == [];
    assert b[2..][1..] == b[3..] && b[2..][0] == b[2];
    assert BreakCandidates(Morning(), b[2..]) == [b[2]];
    assert b[1..][1..] == b[2..] && b[1..][0] == b[1];
    assert BreakCandidates(Morning(), b[1..]) == c;
    assert GapQualifies(c, 0, Morning().minimumBreakGapMinutes);
    assert ClosestFrom(Morning(), c, false, 1, Some(0)) == Some(0);
    assert ClosestFrom(Morning(), c, true, 1, Some(0)) == Some(0);
  }

  /** Swipes at 09:55, 10:05, 10:15 and 10:25 on day `day`, ten minutes apart. */
  function TenMinuteSwipes(day: int): seq<Burst>
  {
    [Swipe(Combine(day, 9 * 3600 + 55 * 60)), Swipe(Combine(day, 10 * 3600 + 5 * 60)),
     Swipe(Combine(day, 10 * 3600 + 15 * 60)), Swipe(Combine(day, 10 * 3600 + 25 * 60))]
  }

  /** All four swipes are break candidates, and every gap between them qualifies. */
  lemma TenMinuteGaps(day: int)
    ensures BreakCandidates(Morning(), TenMinuteSwipes(day)) == TenMinuteSwipes(day)
    ensures GapQualifies(TenMinuteSwipes(day), 0, 5) && GapQualifies(TenMinuteSwipes(day), 1, 5) && GapQualifies(TenMinuteSwipes(day), 2, 5)
  {
    SplitCombined(day, 9 * 3600 + 55 * 60);
    SplitCombined(day, 10 * 3600 + 5 * 60);
    SplitCombined(day, 10 * 3600 + 15 * 60);
    SplitCombined(day, 10 * 3600 + 25 * 60);
    AllCandidates(TenMinuteSwipes(day));
  }

  /** The ends 09:55 and 10:05 tie at five minutes from 10:00, and the earlier gap wins. */
  lemma TenMinuteBreakOut(day: int)
    ensures Closest(Morning(), TenMinuteSwipes(day), false) == Some(0)
  {
    var b := TenMinuteSwipes(day);
    TenMinuteGaps(day);
    SplitCombined(day, 9 * 3600 + 55 * 60);
    SplitCombined(day, 10 * 3600 + 5 * 60);
    SplitCombined(day, 10 * 3600 + 15 * 60);
    assert Key(Morning(), b, 0, false) == 300 && Key(Morning(), b, 1, false) == 300 && Key(Morning(), b, 2, false) == 900;
    assert ClosestFrom(Morning(), b, false, 2, Some(0)) == Some(0);
    assert ClosestFrom(Morning(), b, false, 1, Some(0)) == Some(0);
  }

  /** Of the starts after a gap, 10:25 is the closest to 10:34:59. */
  lemma TenMinuteBreakIn(day: int)
    ensures Closest(Morning(), TenMinuteSwipes(day), true) == Some(2)
  {
    var b := TenMinuteSwipes(day);
    TenMinuteGaps(day);
    SplitCombined(day, 10 * 3600 + 5 * 60);
    SplitCombined(day, 10 * 3600 + 15 * 60);
    SplitCombined(day, 10 * 3600 + 25 * 60);
    assert Key(Morning(), b, 0, true) == 1799 && Key(Morning(), b, 1, true) == 1199 && Key(Morning(), b, 2, true) == 599;
    assert ClosestFrom(Morning(), b, true, 2, Some(1)) == Some(2);
    assert ClosestFrom(Morning(), b, true, 1, Some(0)) == Some(2);
  }

  /**
   * Several qualifying gaps: break-out and break-in come from different
   * gaps, break-out at 09:55 and break-in at 10:25.
   */
  lemma MultipleBreaks(day: int)
    ensures Breaks.Breaks(Morning(), TenMinuteSwipes(day))
         == BreakPair(Some(Combine(day, 9 * 3600 + 55 * 60)), Some(Combine(day, 10 * 3600 + 25 * 60)))
  {
    TenMinuteGaps(day);
    TenMinuteBreakOut(day);
    TenMinuteBreakIn(day);
  }

  /** Four bursts that all touch 09:50-10:35 are all break candidates. */
  lemma AllCandidates(b: seq<Burst>)
    requires |b| == 4 && forall k :: 0 <= k < 4 ==> InBreakSearch(Morning(), b[k])
    ensures BreakCandidates(Morning(), b) == b
  {
    assert b[3..][1..] == [];
    assert BreakCandidates(Morning(), b[3..]) == b[3..];
    assert b[2..][1..] == b[3..] && b[2..] == [b[2]] + b[3..];
    assert BreakCandidates(Morning(), b[2..]) == b[2..];
    assert b[1..][1..] == b[2..] && b[1..] == [b[1]] + b[2..];
    assert BreakCandidates(Morning(), b[1..]) == b[1..];
    assert b == [b[0]] + b[1..];
  }
}
