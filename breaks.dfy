/**
 * Break detection for one shift instance (processor.py `_detect_breaks`):
 * the candidates are the bursts touching the break search window; a
 * qualifying gap between consecutive candidates decides the break (tier 1),
 * and otherwise the midpoint of the break window does (tier 2).
 */
module Breaks {
  import opened Wrappers
  import opened Clock
  import opened Config
  import opened Bursts

  /** Does a burst touch the break search window, by its start or by its end (processor.py:375-383)? */
  predicate InBreakSearch(cfg: ShiftConfig, b: Burst)
  {
    TimeInRange(TimeOf(b.start), cfg.breakSearchStart, cfg.breakSearchEnd) ||
    TimeInRange(TimeOf(b.end), cfg.breakSearchStart, cfg.breakSearchEnd)
  }

  /** The break candidates, in the instance's order (processor.py:384). */
  function BreakCandidates(cfg: ShiftConfig, group: seq<Burst>): (c: seq<Burst>)
    ensures |c| <= |group|
    ensures forall b :: b in c <==> b in group && InBreakSearch(cfg, b)
  {
    if group == [] then []
    else if InBreakSearch(cfg, group[0]) then [group[0]] + BreakCandidates(cfg, group[1..])
    else BreakCandidates(cfg, group[1..])
  }

  /** Candidates keep their relative order, so ascending starts stay ascending. */
  lemma {:induction false} CandidatesAscending(cfg: ShiftConfig, group: seq<Burst>)
    requires StartsAscending(group)
    ensures StartsAscending(BreakCandidates(cfg, group))
  {
    if group != [] {
      var rest := BreakCandidates(cfg, group[1..]);
      assert StartsAscending(group[1..]);
      CandidatesAscending(cfg, group[1..]);
      forall b | b in rest ensures group[0].start <= b.start {
        var k :| 0 <= k < |group[1..]| && group[1..][k] == b;
        assert group[k + 1] == b;
      }
    }
  }

  /**
   * Does the gap after candidate `q` qualify (processor.py:390-399)? There is
   * a next candidate, and from this one's end to the next one's start is at
   * least the minimum break gap.
   */
  predicate GapQualifies(c: seq<Burst>, q: nat, minGapMinutes: int)
  {
    q + 1 < |c| && c[q + 1].start - c[q].end >= minGapMinutes * 60
  }

  /** `abs(a - b)` on seconds since midnight (processor.py:421-423 and 438-440). */
  function Distance(a: TimeOfDay, b: TimeOfDay): (d: nat)
    ensures d == a - b || d == b - a
  {
    if a >= b then a - b else b - a
  }

  /**
   * The distance that ranks the gap after candidate `q`: for Break Time Out,
   * of the candidate's end to the break-out checkpoint (processor.py:413-427);
   * for Break Time In, of the next candidate's start to the break-in on-time
   * cutoff (processor.py:430-444).
   */
  function Key(cfg: ShiftConfig, c: seq<Burst>, q: nat, forIn: bool): nat
    requires q + 1 < |c|
  {
    if forIn then Distance(TimeOf(c[q + 1].start), cfg.breakInOnTimeCutoff)
    else Distance(TimeOf(c[q].end), cfg.breakOutCheckpoint)
  }

  /** The scan over gaps `q`, `q + 1`, ...: a qualifying gap replaces the best so far only when strictly closer. */
  function ClosestFrom(cfg: ShiftConfig, c: seq<Burst>, forIn: bool, q: nat, best: Option<nat>): (r: Option<nat>)
    requires best.Some? ==> best.value + 1 < |c|
    ensures r.Some? ==> r.value + 1 < |c|
    decreases |c| - q
  {
    if q + 1 >= |c| then best
    else if GapQualifies(c, q, cfg.minimumBreakGapMinutes) && (best.None? || Key(cfg, c, q, forIn) < Key(cfg, c, best.value, forIn)) then
      ClosestFrom(cfg, c, forIn, q + 1, Some(q))
    else ClosestFrom(cfg, c, forIn, q + 1, best)
  }

  /** The gap tier 1 picks for one of the two events. */
  function Closest(cfg: ShiftConfig, c: seq<Burst>, forIn: bool): (r: Option<nat>)
    ensures r.Some? ==> r.value + 1 < |c|
  {
    ClosestFrom(cfg, c, forIn, 0, None)
  }

  /** Gap `q` is the first of the qualifying gaps with the least distance. */
  predicate FirstClosest(cfg: ShiftConfig, c: seq<Burst>, forIn: bool, q: nat)
  {
    && GapQualifies(c, q, cfg.minimumBreakGapMinutes)
    && (forall r :: 0 <= r < |c| && GapQualifies(c, r, cfg.minimumBreakGapMinutes) ==> Key(cfg, c, q, forIn) <= Key(cfg, c, r, forIn))
    && (forall r :: 0 <= r < q && GapQualifies(c, r, cfg.minimumBreakGapMinutes) ==> Key(cfg, c, q, forIn) < Key(cfg, c, r, forIn))
  }

  /** Does any gap qualify? */
  predicate AnyGap(c: seq<Burst>, minGapMinutes: int)
  {
    exists r :: 0 <= r < |c| && GapQualifies(c, r, minGapMinutes)
  }

  /** What the scan knows once it has looked at the gaps before `q`. */
  predicate ScanState(cfg: ShiftConfig, c: seq<Burst>, forIn: bool, q: nat, best: Option<nat>)
  {
    match best
    case None => forall r :: 0 <= r < q && r < |c| ==> !GapQualifies(c, r, cfg.minimumBreakGapMinutes)
    case Some(b) =>
      && b < q && GapQualifies(c, b, cfg.minimumBreakGapMinutes)
      && (forall r :: 0 <= r < q && r < |c| && GapQualifies(c, r, cfg.minimumBreakGapMinutes) ==> Key(cfg, c, b, forIn) <= Key(cfg, c, r, forIn))
      && (forall r :: 0 <= r < b && GapQualifies(c, r, cfg.minimumBreakGapMinutes) ==> Key(cfg, c, b, forIn) < Key(cfg, c, r, forIn))
  }

  lemma {:induction false} ClosestFromCorrect(cfg: ShiftConfig, c: seq<Burst>, forIn: bool, q: nat, best: Option<nat>)
    requires best.Some? ==> best.value + 1 < |c|
    requires ScanState(cfg, c, forIn, q, best)
    ensures ScanState(cfg, c, forIn, if q < |c| then |c| else q, ClosestFrom(cfg, c, forIn, q, best))
    decreases |c| - q
  {
    if q + 1 < |c| {
      if GapQualifies(c, q, cfg.minimumBreakGapMinutes) && (best.None? || Key(cfg, c, q, forIn) < Key(cfg, c, best.value, forIn)) {
        ClosestFromCorrect(cfg, c, forIn, q + 1, Some(q));
      } else {
        ClosestFromCorrect(cfg, c, forIn, q + 1, best);
      }
    } else if q < |c| {
      assert !GapQualifies(c, q, cfg.minimumBreakGapMinutes);
    }
  }

  /** Tier 1's pick is the first closest qualifying gap, and there is a pick exactly when some gap qualifies. */
  lemma {:induction false} ClosestIsFirstClosest(cfg: ShiftConfig, c: seq<Burst>, forIn: bool)
    ensures Closest(cfg, c, forIn).Some? ==> FirstClosest(cfg, c, forIn, Closest(cfg, c, forIn).value)
    ensures Closest(cfg, c, forIn).None? <==> !AnyGap(c, cfg.minimumBreakGapMinutes)
  {
    ClosestFromCorrect(cfg, c, forIn, 0, None);
    if c == [] {
      assert Closest(cfg, c, forIn) == None;
    }
  }

  /** The first closest gap is unique. */
  lemma FirstClosestUnique(cfg: ShiftConfig, c: seq<Burst>, forIn: bool, q: nat, r: nat)
    requires FirstClosest(cfg, c, forIn, q) && FirstClosest(cfg, c, forIn, r)
    ensures q == r
  {
  }

  /** The tier 1 loop over the qualifying gaps for one event (processor.py:413-444). */
  method FindClosestGap(cfg: ShiftConfig, c: seq<Burst>, forIn: bool) returns (best: Option<nat>)
    ensures best == Closest(cfg, c, forIn)
  {
    best := None;
    var minDistance := 0;
    var q := 0;
    while q + 1 < |c|
      invariant best.Some? ==> best.value + 1 < |c| && minDistance == Key(cfg, c, best.value, forIn)
      invariant ClosestFrom(cfg, c, forIn, q, best) == Closest(cfg, c, forIn)
      decreases |c| - q
    {
      if c[q + 1].start - c[q].end >= cfg.minimumBreakGapMinutes * 60 {
        var distance := if forIn then Distance(TimeOf(c[q + 1].start), cfg.breakInOnTimeCutoff)
                        else Distance(TimeOf(c[q].end), cfg.breakOutCheckpoint);
        if best.None? || distance < minDistance {
          minDistance := distance;
          best := Some(q);
        }
      }
      q := q + 1;
    }
  }

  /** The gaps tier 1 picks for Break Time Out and Break Time In exist together: either both or neither. */
  lemma {:induction false} ClosestTogether(cfg: ShiftConfig, c: seq<Burst>)
    ensures Closest(cfg, c, false).Some? <==> Closest(cfg, c, true).Some?
  {
    ClosestIsFirstClosest(cfg, c, false);
    ClosestIsFirstClosest(cfg, c, true);
  }

  /** The result of break detection: the Break Time Out and Break Time In timestamps, absent when blank. */
  datatype BreakPair = BreakPair(breakOut: Option<Timestamp>, breakIn: Option<Timestamp>)

  /** The candidates that end at or before the midpoint (processor.py:458). */
  function BeforeMidpoint(c: seq<Burst>, midpoint: TimeOfDay): (r: seq<Burst>)
    ensures forall b :: b in r <==> b in c && TimeOf(b.end) <= midpoint
  {
    if c == [] then []
    else if TimeOf(c[0].end) <= midpoint then [c[0]] + BeforeMidpoint(c[1..], midpoint)
    else BeforeMidpoint(c[1..], midpoint)
  }

  /** The candidates that start after the midpoint (processor.py:459). */
  function AfterMidpoint(c: seq<Burst>, midpoint: TimeOfDay): (r: seq<Burst>)
    ensures forall b :: b in r <==> b in c && TimeOf(b.start) > midpoint
  {
    if c == [] then []
    else if TimeOf(c[0].start) > midpoint then [c[0]] + AfterMidpoint(c[1..], midpoint)
    else AfterMidpoint(c[1..], midpoint)
  }

  /** The latest end among some bursts. */
  function MaxEnd(s: seq<Burst>): (m: Timestamp)
    requires s != []
    ensures exists k :: 0 <= k < |s| && s[k].end == m
    ensures forall k :: 0 <= k < |s| ==> s[k].end <= m
  {
    if |s| == 1 then s[0].end
    else
      var rest := MaxEnd(s[1..]);
      assert forall k :: 1 <= k < |s| ==> s[k] == s[1..][k - 1];
      if s[0].end >= rest then s[0].end else rest
  }

  /** The earliest start among some bursts. */
  function MinStart(s: seq<Burst>): (m: Timestamp)
    requires s != []
    ensures exists k :: 0 <= k < |s| && s[k].start == m
    ensures forall k :: 0 <= k < |s| ==> m <= s[k].start
  {
    if |s| == 1 then s[0].start
    else
      var rest := MinStart(s[1..]);
      assert forall k :: 1 <= k < |s| ==> s[k] == s[1..][k - 1];
      if s[0].start <= rest then s[0].start else rest
  }

  /** The first qualifying gap (processor.py:479-488 and 503-512, `gap_found.index[0]`). */
  function FirstGap(s: seq<Burst>, minGapMinutes: int, q: nat): (r: Option<nat>)
    ensures r.Some? ==> q <= r.value && GapQualifies(s, r.value, minGapMinutes)
    ensures r.Some? ==> forall p :: q <= p < r.value ==> !GapQualifies(s, p, minGapMinutes)
    ensures r.None? ==> forall p :: q <= p ==> !GapQualifies(s, p, minGapMinutes)
    decreases |s| - q
  {
    if q + 1 >= |s| then None
    else if GapQualifies(s, q, minGapMinutes) then Some(q)
    else FirstGap(s, minGapMinutes, q + 1)
  }

  /** Tier 2, the midpoint fallback (processor.py:457-519). */
  function Tier2(cfg: ShiftConfig, c: seq<Burst>): BreakPair
  {
    var before := BeforeMidpoint(c, cfg.midpoint);
    var after := AfterMidpoint(c, cfg.midpoint);
    if before != [] && after != [] then
      BreakPair(Some(MaxEnd(before)), Some(MinStart(after)))
    else if before != [] then
      match FirstGap(before, cfg.minimumBreakGapMinutes, 0)
      case Some(q) => BreakPair(Some(before[q].end), Some(before[q + 1].start))
      case None => BreakPair(Some(MaxEnd(before)), None)
    else if after != [] then
      match FirstGap(after, cfg.minimumBreakGapMinutes, 0)
      case Some(q) => BreakPair(Some(after[q].end), Some(after[q + 1].start))
      case None => BreakPair(None, Some(MinStart(after)))
    else BreakPair(None, None)
  }

  /** `_detect_breaks` as a whole. */
  function Breaks(cfg: ShiftConfig, group: seq<Burst>): BreakPair
  {
    var c := BreakCandidates(cfg, group);
    if c == [] then BreakPair(None, None)
    else
      var out := Closest(cfg, c, false);
      var back := Closest(cfg, c, true);
      if |c| >= 2 && out.Some? && back.Some? then
        BreakPair(Some(c[out.value].end), Some(c[back.value + 1].start))
      else Tier2(cfg, c)
  }

  /** `_detect_breaks` (processor.py:353-519): tier 1's two scans, else the midpoint fallback. */
  method DetectBreaks(cfg: ShiftConfig, group: seq<Burst>) returns (r: BreakPair)
    // The candidates are re-sorted by start (processor.py:384); on this order that sort changes nothing.
    requires StartsAscending(group)
    ensures r == Breaks(cfg, group)
  {
    var c := BreakCandidates(cfg, group);
    if |c| == 0 {
      return BreakPair(None, None);
    }
    if |c| >= 2 {
      var bestOut := FindClosestGap(cfg, c, false);
      var bestIn := FindClosestGap(cfg, c, true);
      if bestOut.Some? && bestIn.Some? {
        return BreakPair(Some(c[bestOut.value].end), Some(c[bestIn.value + 1].start));
      }
    }
    r := Tier2(cfg, c);
  }

  /**
   * Tier 1 decides whenever a gap qualifies: Break Time Out is the end of the
   * candidate before the first gap closest to the checkpoint, Break Time In
   * the start of the candidate after the first gap closest to the cutoff.
   */
  lemma {:induction false} BreaksByGap(cfg: ShiftConfig, group: seq<Burst>)
    requires AnyGap(BreakCandidates(cfg, group), cfg.minimumBreakGapMinutes)
    ensures var c := BreakCandidates(cfg, group);
      && Closest(cfg, c, false).Some? && Closest(cfg, c, true).Some?
      && FirstClosest(cfg, c, false, Closest(cfg, c, false).value)
      && FirstClosest(cfg, c, true, Closest(cfg, c, true).value)
      && Breaks(cfg, group) == BreakPair(Some(c[Closest(cfg, c, false).value].end), Some(c[Closest(cfg, c, true).value + 1].start))
  {
    var c := BreakCandidates(cfg, group);
    ClosestIsFirstClosest(cfg, c, false);
    ClosestIsFirstClosest(cfg, c, true);
    assert |c| >= 2;
  }

  /** Without a qualifying gap the midpoint fallback decides. */
  lemma {:induction false} BreaksByMidpoint(cfg: ShiftConfig, group: seq<Burst>)
    requires !AnyGap(BreakCandidates(cfg, group), cfg.minimumBreakGapMinutes)
    ensures Breaks(cfg, group) == Tier2(cfg, BreakCandidates(cfg, group))
  {
    var c := BreakCandidates(cfg, group);
    ClosestIsFirstClosest(cfg, c, false);
    if c == [] {
      assert BeforeMidpoint(c, cfg.midpoint) == [] && AfterMidpoint(c, cfg.midpoint) == [];
    }
  }

  /** No candidate in the break search window: both break cells are blank (processor.py:386-387). */
  lemma NoCandidatesNoBreak(cfg: ShiftConfig, group: seq<Burst>)
    requires forall k :: 0 <= k < |group| ==> !InBreakSearch(cfg, group[k])
    ensures Breaks(cfg, group) == BreakPair(None, None)
  {
    NoCandidates(cfg, group);
  }

  lemma {:induction false} NoCandidates(cfg: ShiftConfig, group: seq<Burst>)
    requires forall k :: 0 <= k < |group| ==> !InBreakSearch(cfg, group[k])
    ensures BreakCandidates(cfg, group) == []
  {
    if group != [] {
      assert !InBreakSearch(cfg, group[0]);
      assert forall k :: 0 <= k < |group[1..]| ==> group[1..][k] == group[k + 1];
      NoCandidates(cfg, group[1..]);
    }
  }

  /**
   * When candidates lie on both sides of the midpoint, Break Time Out is at or
   * before the midpoint and Break Time In after it, by time of day.
   */
  lemma {:induction false} MidpointSeparates(cfg: ShiftConfig, c: seq<Burst>)
    requires BeforeMidpoint(c, cfg.midpoint) != [] && AfterMidpoint(c, cfg.midpoint) != []
    ensures Tier2(cfg, c).breakOut.Some? && Tier2(cfg, c).breakIn.Some?
    ensures TimeOf(Tier2(cfg, c).breakOut.value) <= cfg.midpoint < TimeOf(Tier2(cfg, c).breakIn.value)
  {
    var before := BeforeMidpoint(c, cfg.midpoint);
    var after := AfterMidpoint(c, cfg.midpoint);
    var k :| 0 <= k < |before| && before[k].end == MaxEnd(before);
    assert before[k] in before;
    var m :| 0 <= m < |after| && after[m].start == MinStart(after);
    assert after[m] in after;
  }

  /** A single candidate that straddles the midpoint is in neither half: both break cells are blank. */
  lemma StraddlingCandidate(cfg: ShiftConfig, b: Burst)
    requires TimeOf(b.start) <= cfg.midpoint < TimeOf(b.end)
    ensures Tier2(cfg, [b]) == BreakPair(None, None)
  {
    assert BeforeMidpoint([b], cfg.midpoint) == [];
    assert AfterMidpoint([b], cfg.midpoint) == [];
  }

  /**
   * The two tier 1 picks are made independently, so with a search window wide
   * enough Break Time Out can fall after Break Time In: candidates at 09:00,
   * 10:30-10:31 and 10:50 put the break-out at 10:31 (end of the candidate
   * before the later gap) and the break-in at 10:30 (start of the candidate
   * after the earlier gap).
   */
  lemma IndependentPicks()
    ensures Breaks(WideSearch(), [Burst(Hms(9, 0, 0), Hms(9, 0, 0)), Burst(Hms(10, 30, 0), Hms(10, 31, 0)), Burst(Hms(10, 50, 0), Hms(10, 50, 0))])
         == BreakPair(Some(Hms(10, 31, 0)), Some(Hms(10, 30, 0)))
  {
    var c := [Burst(Hms(9, 0, 0), Hms(9, 0, 0)), Burst(Hms(10, 30, 0), Hms(10, 31, 0)), Burst(Hms(10, 50, 0), Hms(10, 50, 0))];
    assert BreakCandidates(WideSearch(), c) == c;
    assert Closest(WideSearch(), c, false) == Some(1);
    assert Closest(WideSearch(), c, true) == Some(0);
  }

  /** A break window covering the whole day, with the morning shift's anchors: checkpoint 10:00, cutoff 10:34:59, gap 5 minutes. */
  function WideSearch(): ShiftConfig
  {
    ShiftConfig("", "", 0, 0, 0, 0, 0, 86399, Hms(10, 0, 0), Hms(10, 15, 0), 5, 0, 0, 0, 0, Hms(10, 34, 59), Hms(10, 35, 0))
  }
}
