/**
 * Burst consolidation (processor.py `_detect_bursts`): one person's swipes
 * are cut into runs wherever the gap to the previous swipe exceeds the
 * threshold, and each run collapses to its earliest and latest timestamp.
 */
module Bursts {
  import opened Clock

  /** A consolidated event: the earliest and latest swipe of one run. */
  datatype Burst = Burst(start: Timestamp, end: Timestamp)

  /** Does a new burst start at swipe `i` (processor.py:134)? At the first swipe, or after a gap above the threshold. */
  predicate StartsBurst(ts: seq<Timestamp>, thresholdMinutes: int, i: nat)
    requires i < |ts|
  {
    i == 0 || ts[i] - ts[i - 1] > thresholdMinutes * 60
  }

  /** The end of the run that begins before index `j`: the next swipe that starts a burst, or the end of the swipes. */
  function RunEnd(ts: seq<Timestamp>, thresholdMinutes: int, j: nat): (e: nat)
    requires 1 <= j <= |ts|
    ensures j <= e <= |ts|
    ensures forall i :: j <= i < e ==> !StartsBurst(ts, thresholdMinutes, i)
    ensures e < |ts| ==> StartsBurst(ts, thresholdMinutes, e)
    decreases |ts| - j
  {
    if j == |ts| || StartsBurst(ts, thresholdMinutes, j) then j else RunEnd(ts, thresholdMinutes, j + 1)
  }

  /** The cumulative-sum grouping: the swipes cut at every index that starts a burst. */
  function Runs(ts: seq<Timestamp>, thresholdMinutes: int): (runs: seq<seq<Timestamp>>)
    ensures |runs| <= |ts|
    ensures forall k :: 0 <= k < |runs| ==> runs[k] != []
    decreases |ts|
  {
    if ts == [] then []
    else
      var e := RunEnd(ts, thresholdMinutes, 1);
      [ts[..e]] + Runs(ts[e..], thresholdMinutes)
  }

  function Flatten(runs: seq<seq<Timestamp>>): seq<Timestamp>
  {
    if runs == [] then [] else runs[0] + Flatten(runs[1..])
  }

  function Min(s: seq<int>): (m: int)
    requires s != []
    ensures m in s && forall x :: x in s ==> m <= x
  {
    if |s| == 1 then s[0]
    else
      var r := Min(s[1..]);
      assert forall x :: x in s ==> x == s[0] || x in s[1..];
      if s[0] <= r then s[0] else r
  }

  function Max(s: seq<int>): (m: int)
    requires s != []
    ensures m in s && forall x :: x in s ==> x <= m
  {
    if |s| == 1 then s[0]
    else
      var r := Max(s[1..]);
      assert forall x :: x in s ==> x == s[0] || x in s[1..];
      if s[0] >= r then s[0] else r
  }

  function Collapse(runs: seq<seq<Timestamp>>): (bs: seq<Burst>)
    requires forall k :: 0 <= k < |runs| ==> runs[k] != []
    ensures |bs| == |runs|
    ensures forall k :: 0 <= k < |runs| ==> bs[k] == Burst(Min(runs[k]), Max(runs[k]))
  {
    if runs == [] then [] else [Burst(Min(runs[0]), Max(runs[0]))] + Collapse(runs[1..])
  }

  /** `_detect_bursts` for one person's swipes in row order: one (min, max) burst per run. */
  function DetectBursts(ts: seq<Timestamp>, thresholdMinutes: int): (bs: seq<Burst>)
    ensures |bs| <= |ts|
    ensures (bs == []) <==> (ts == [])
  {
    Collapse(Runs(ts, thresholdMinutes))
  }

  /**
   * The runs partition the swipes: concatenated they give back the swipes,
   * inside a run no gap exceeds the threshold, and between two runs the gap does.
   */
  lemma {:induction false} RunsPartition(ts: seq<Timestamp>, thresholdMinutes: int)
    ensures Flatten(Runs(ts, thresholdMinutes)) == ts
    ensures forall k, i :: 0 <= k < |Runs(ts, thresholdMinutes)| && 1 <= i < |Runs(ts, thresholdMinutes)[k]| ==>
      Runs(ts, thresholdMinutes)[k][i] - Runs(ts, thresholdMinutes)[k][i - 1] <= thresholdMinutes * 60
    ensures forall k :: 0 <= k < |Runs(ts, thresholdMinutes)| - 1 ==>
      Runs(ts, thresholdMinutes)[k + 1][0] - Last(Runs(ts, thresholdMinutes)[k]) > thresholdMinutes * 60
    decreases |ts|
  {
    RunsFlatten(ts, thresholdMinutes);
    RunsCohesive(ts, thresholdMinutes);
    RunsSeparated(ts, thresholdMinutes);
  }

  lemma {:induction false} RunsFlatten(ts: seq<Timestamp>, thresholdMinutes: int)
    ensures Flatten(Runs(ts, thresholdMinutes)) == ts
    decreases |ts|
  {
    if ts != [] {
      var runs := Runs(ts, thresholdMinutes);
      var e := RunEnd(ts, thresholdMinutes, 1);
      var rest := Runs(ts[e..], thresholdMinutes);
      assert runs == [ts[..e]] + rest;
      assert runs[1..] == rest;
      RunsFlatten(ts[e..], thresholdMinutes);
      assert ts == ts[..e] + ts[e..];
    }
  }

  lemma {:induction false} RunsCohesive(ts: seq<Timestamp>, thresholdMinutes: int)
    ensures forall k, i :: 0 <= k < |Runs(ts, thresholdMinutes)| && 1 <= i < |Runs(ts, thresholdMinutes)[k]| ==>
      Runs(ts, thresholdMinutes)[k][i] - Runs(ts, thresholdMinutes)[k][i - 1] <= thresholdMinutes * 60
    decreases |ts|
  {
    if ts != [] {
      var runs := Runs(ts, thresholdMinutes);
      var e := RunEnd(ts, thresholdMinutes, 1);
      var rest := Runs(ts[e..], thresholdMinutes);
      assert runs == [ts[..e]] + rest;
      RunsCohesive(ts[e..], thresholdMinutes);
      forall k, i | 0 <= k < |runs| && 1 <= i < |runs[k]|
        ensures runs[k][i] - runs[k][i - 1] <= thresholdMinutes * 60
      {
        if k == 0 {
          assert runs[0] == ts[..e];
          assert !StartsBurst(ts, thresholdMinutes, i);
        } else {
          assert runs[k] == rest[k - 1];
        }
      }
    }
  }

  lemma {:induction false} RunsSeparated(ts: seq<Timestamp>, thresholdMinutes: int)
    ensures forall k :: 0 <= k < |Runs(ts, thresholdMinutes)| - 1 ==>
      Runs(ts, thresholdMinutes)[k + 1][0] - Last(Runs(ts, thresholdMinutes)[k]) > thresholdMinutes * 60
    decreases |ts|
  {
    if ts != [] {
      var runs := Runs(ts, thresholdMinutes);
      var e := RunEnd(ts, thresholdMinutes, 1);
      var rest := Runs(ts[e..], thresholdMinutes);
      assert runs == [ts[..e]] + rest;
      RunsSeparated(ts[e..], thresholdMinutes);
      forall k | 0 <= k < |runs| - 1
        ensures runs[k + 1][0] - Last(runs[k]) > thresholdMinutes * 60
      {
        if k == 0 {
          assert runs[0] == ts[..e] && runs[1] == rest[0];
          assert rest[0][0] == ts[e];
          assert StartsBurst(ts, thresholdMinutes, e);
        } else {
          assert runs[k] == rest[k - 1] && runs[k + 1] == rest[k];
        }
      }
    }
  }

  function Last(s: seq<Timestamp>): Timestamp
    requires s != []
  {
    s[|s| - 1]
  }

  /** The number of bursts is one per swipe that starts a burst. */
  lemma {:induction false} BurstCount(ts: seq<Timestamp>, thresholdMinutes: int)
    ensures |DetectBursts(ts, thresholdMinutes)| == CountStarts(ts, thresholdMinutes, 0)
    decreases |ts|
  {
    if ts != [] {
      var e := RunEnd(ts, thresholdMinutes, 1);
      BurstCount(ts[e..], thresholdMinutes);
      CountStartsShift(ts, thresholdMinutes, e, 1);
    }
  }

  /** How many of the swipes from index `i` on start a burst. */
  function CountStarts(ts: seq<Timestamp>, thresholdMinutes: int, i: nat): nat
    requires i <= |ts|
    decreases |ts| - i
  {
    if i == |ts| then 0
    else (if StartsBurst(ts, thresholdMinutes, i) then 1 else 0) + CountStarts(ts, thresholdMinutes, i + 1)
  }

  /** Counting in `ts` from `e` on, where `e` starts a burst, equals counting in the tail `ts[e..]`; none between `j` and `e` start one. */
  lemma {:induction false} CountStartsShift(ts: seq<Timestamp>, thresholdMinutes: int, e: nat, j: nat)
    requires 1 <= j <= e <= |ts|
    requires e == RunEnd(ts, thresholdMinutes, j)
    ensures CountStarts(ts, thresholdMinutes, j) == CountStarts(ts[e..], thresholdMinutes, 0)
    decreases e - j
  {
    if j < e {
      CountStartsShift(ts, thresholdMinutes, e, j + 1);
    } else {
      CountStartsTail(ts, thresholdMinutes, e, 0);
    }
  }

  lemma {:induction false} CountStartsTail(ts: seq<Timestamp>, thresholdMinutes: int, e: nat, i: nat)
    requires e <= |ts| && i <= |ts| - e
    requires e < |ts| ==> StartsBurst(ts, thresholdMinutes, e)
    ensures CountStarts(ts, thresholdMinutes, e + i) == CountStarts(ts[e..], thresholdMinutes, i)
    decreases |ts| - e - i
  {
    if e + i < |ts| {
      CountStartsTail(ts, thresholdMinutes, e, i + 1);
      assert StartsBurst(ts, thresholdMinutes, e + i) == StartsBurst(ts[e..], thresholdMinutes, i);
    }
  }

  predicate Sorted(ts: seq<Timestamp>)
  {
    forall i, j :: 0 <= i < j < |ts| ==> ts[i] <= ts[j]
  }

  /** Every swipe of a run closer together than the threshold: the whole run is one burst spanning its min and max. */
  lemma {:induction false} CloseSwipesMerge(ts: seq<Timestamp>, thresholdMinutes: int)
    requires ts != []
    requires forall i :: 1 <= i < |ts| ==> ts[i] - ts[i - 1] <= thresholdMinutes * 60
    ensures DetectBursts(ts, thresholdMinutes) == [Burst(Min(ts), Max(ts))]
  {
    var e := RunEnd(ts, thresholdMinutes, 1);
    assert e == |ts|;
    assert ts[..e] == ts && ts[e..] == [];
  }

  /**
   * On chronologically sorted swipes each burst runs from the first to the
   * last swipe of its run, and bursts follow each other in time:
   * each starts no earlier than the previous one ended.
   */
  lemma {:induction false} SortedBursts(ts: seq<Timestamp>, thresholdMinutes: int)
    requires Sorted(ts)
    ensures forall k :: 0 <= k < |DetectBursts(ts, thresholdMinutes)| ==>
      DetectBursts(ts, thresholdMinutes)[k].start <= DetectBursts(ts, thresholdMinutes)[k].end
    ensures forall k :: 0 <= k < |DetectBursts(ts, thresholdMinutes)| - 1 ==>
      DetectBursts(ts, thresholdMinutes)[k].end <= DetectBursts(ts, thresholdMinutes)[k + 1].start
    ensures ts != [] ==> DetectBursts(ts, thresholdMinutes)[0].start == ts[0]
    decreases |ts|
  {
    var bs := DetectBursts(ts, thresholdMinutes);
    forall k | 0 <= k < |bs| ensures bs[k].start <= bs[k].end {
      assert bs[k] == Burst(Min(Runs(ts, thresholdMinutes)[k]), Max(Runs(ts, thresholdMinutes)[k]));
    }
    SortedBurstsChain(ts, thresholdMinutes);
    if ts != [] {
      SortedBurstsFirst(ts, thresholdMinutes);
    }
  }

  /** The first burst of sorted swipes starts at the first swipe. */
  lemma {:induction false} SortedBurstsFirst(ts: seq<Timestamp>, thresholdMinutes: int)
    requires Sorted(ts) && ts != []
    ensures DetectBursts(ts, thresholdMinutes)[0].start == ts[0]
  {
    var e := RunEnd(ts, thresholdMinutes, 1);
    assert Runs(ts, thresholdMinutes)[0] == ts[..e];
    SortedMinMax(ts[..e]);
  }

  lemma {:induction false} SortedBurstsChain(ts: seq<Timestamp>, thresholdMinutes: int)
    requires Sorted(ts)
    ensures forall k :: 0 <= k < |DetectBursts(ts, thresholdMinutes)| - 1 ==>
      DetectBursts(ts, thresholdMinutes)[k].end <= DetectBursts(ts, thresholdMinutes)[k + 1].start
    decreases |ts|
  {
    if ts != [] {
      var e := RunEnd(ts, thresholdMinutes, 1);
      var bs := DetectBursts(ts, thresholdMinutes);
      var tail := ts[e..];
      assert Runs(ts, thresholdMinutes) == [ts[..e]] + Runs(tail, thresholdMinutes);
      assert Sorted(tail);
      SortedBurstsChain(tail, thresholdMinutes);
      var rest := DetectBursts(tail, thresholdMinutes);
      assert bs == [Burst(Min(ts[..e]), Max(ts[..e]))] + rest;
      if rest != [] {
        SortedBurstsFirst(tail, thresholdMinutes);
        SortedPrefixMax(ts, e);
      }
      forall k | 0 <= k < |bs| - 1 ensures bs[k].end <= bs[k + 1].start {
        if k > 0 {
          assert bs[k] == rest[k - 1] && bs[k + 1] == rest[k];
        }
      }
    }
  }

  /** On sorted swipes no swipe before index `e` is later than the swipe at `e`. */
  lemma {:induction false} SortedPrefixMax(ts: seq<Timestamp>, e: nat)
    requires Sorted(ts) && 1 <= e < |ts|
    ensures Max(ts[..e]) <= ts[e]
  {
    assert Sorted(ts[..e]);
    SortedMinMax(ts[..e]);
    assert ts[..e][e - 1] == ts[e - 1];
  }

  lemma {:induction false} SortedMinMax(s: seq<Timestamp>)
    requires s != [] && Sorted(s)
    ensures Min(s) == s[0] && Max(s) == s[|s| - 1]
  {
    if |s| > 1 {
      assert Sorted(s[1..]);
      SortedMinMax(s[1..]);
      assert s[0] <= s[1] && s[0] <= s[|s| - 1];
    }
  }

  /** Bursts in ascending order of their starts. */
  predicate StartsAscending(bursts: seq<Burst>)
  {
    forall a, b :: 0 <= a < b < |bursts| ==> bursts[a].start <= bursts[b].start
  }

  /** Bursts of sorted swipes come out in ascending order of their starts. */
  lemma {:induction false} BurstsAscending(ts: seq<Timestamp>, thresholdMinutes: int)
    requires Sorted(ts)
    ensures StartsAscending(DetectBursts(ts, thresholdMinutes))
  {
    var bs := DetectBursts(ts, thresholdMinutes);
    SortedBursts(ts, thresholdMinutes);
    forall a, b | 0 <= a < b < |bs| ensures bs[a].start <= bs[b].start {
      ChainedStarts(bs, a, b);
    }
  }

  lemma {:induction false} ChainedStarts(bs: seq<Burst>, a: nat, b: nat)
    requires a <= b < |bs|
    requires forall k :: 0 <= k < |bs| ==> bs[k].start <= bs[k].end
    requires forall k :: 0 <= k < |bs| - 1 ==> bs[k].end <= bs[k + 1].start
    ensures bs[a].start <= bs[b].start
    decreases b - a
  {
    if a < b {
      ChainedStarts(bs, a + 1, b);
    }
  }
}
