/**
 * The shift-instance segmenter (processor.py `_detect_shift_instances`):
 * a cursor walk over one person's bursts that opens an instance at a
 * check-in, absorbs the bursts that follow while they belong to it, and
 * drops the bursts that can open nothing.
 */
module Segmenter {
  import opened Wrappers
  import opened Clock
  import opened Config
  import opened Bursts

  /** The first shift, in table order, whose check-in window contains `t` (processor.py:191-195). */
  function FirstCheckIn(shifts: seq<ShiftEntry>, t: TimeOfDay): (r: Option<nat>)
    ensures r.Some? ==> r.value < |shifts| && IsInCheckInRange(shifts[r.value].config, t)
    ensures r.Some? ==> forall q :: 0 <= q < r.value ==> !IsInCheckInRange(shifts[q].config, t)
    ensures r.None? ==> forall q :: 0 <= q < |shifts| ==> !IsInCheckInRange(shifts[q].config, t)
  {
    if shifts == [] then None
    else if IsInCheckInRange(shifts[0].config, t) then Some(0)
    else
      match FirstCheckIn(shifts[1..], t)
      case None => None
      case Some(k) => Some(k + 1)
  }

  /**
   * The shift a burst at `t` opens (processor.py:190-197): the first match,
   * unless its code is the empty string, which Python's `if shift_code:`
   * treats as no match.
   */
  function OpeningShift(shifts: seq<ShiftEntry>, t: TimeOfDay): (r: Option<nat>)
    ensures r.Some? ==> FirstCheckIn(shifts, t) == r && shifts[r.value].code != ""
    ensures r.None? ==> FirstCheckIn(shifts, t).None? || shifts[FirstCheckIn(shifts, t).value].code == ""
  {
    match FirstCheckIn(shifts, t)
    case None => None
    case Some(k) => if shifts[k].code != "" then Some(k) else None
  }

  /** The end of an instance's activity window: the check-out end, on the next day for code "C" only (processor.py:204-213). */
  function WindowEnd(entry: ShiftEntry, shiftDate: int): Timestamp
  {
    if entry.code == "C" then Combine(shiftDate + 1, entry.config.checkOutEnd)
    else Combine(shiftDate, entry.config.checkOutEnd)
  }

  /** Would a burst at time `t` start a shift other than `code` (processor.py:235-240)? */
  predicate OtherShiftChecksIn(shifts: seq<ShiftEntry>, code: string, t: TimeOfDay)
  {
    exists q :: 0 <= q < |shifts| && shifts[q].code != code && IsInCheckInRange(shifts[q].config, t)
  }

  /**
   * Is burst `j` absorbed into the instance of shift `k` opened at burst `i`
   * (processor.py:224-250)? It starts inside the activity window, and it is
   * the opening burst, or lies in the shift's own check-out window, or would
   * open no other shift.
   */
  predicate Absorbs(shifts: seq<ShiftEntry>, k: nat, bursts: seq<Burst>, i: nat, j: nat, windowEnd: Timestamp)
    requires k < |shifts| && j < |bursts|
  {
    var t := TimeOf(bursts[j].start);
    var cfg := shifts[k].config;
    bursts[j].start <= windowEnd &&
    (j == i || TimeInRange(t, cfg.checkOutStart, cfg.checkOutEnd) || !OtherShiftChecksIn(shifts, shifts[k].code, t))
  }

  /** Where the absorption scan that reached burst `j` stops: the first burst not absorbed, or the end. */
  function AbsorbEnd(shifts: seq<ShiftEntry>, k: nat, bursts: seq<Burst>, i: nat, j: nat, windowEnd: Timestamp): (e: nat)
    requires k < |shifts| && j <= |bursts|
    ensures j <= e <= |bursts|
    ensures forall p :: j <= p < e ==> Absorbs(shifts, k, bursts, i, p, windowEnd)
    ensures e < |bursts| ==> !Absorbs(shifts, k, bursts, i, e, windowEnd)
    ensures j < |bursts| && Absorbs(shifts, k, bursts, i, j, windowEnd) ==> e > j
    decreases |bursts| - j
  {
    if j < |bursts| && Absorbs(shifts, k, bursts, i, j, windowEnd) then AbsorbEnd(shifts, k, bursts, i, j + 1, windowEnd)
    else j
  }

  /**
   * An opening at time of day `t` is at or before the shift's window end: the
   * check-out end, on the next day for code "C" and on the same day otherwise.
   */
  predicate OpensWithinWindow(entry: ShiftEntry, t: TimeOfDay)
  {
    t <= (if entry.code == "C" then SecondsPerDay else 0) + entry.config.checkOutEnd
  }

  /**
   * The condition under which the walk terminates: every time of day that opens
   * a shift is at or before that shift's window end. Otherwise the opening
   * burst is not absorbed, the cursor stays put and processor.py:185 loops forever.
   */
  ghost predicate Progress(shifts: seq<ShiftEntry>)
  {
    forall t: TimeOfDay :: ProgressAt(shifts, t)
  }

  /** `Progress` at one time of day. */
  predicate ProgressAt(shifts: seq<ShiftEntry>, t: TimeOfDay)
  {
    OpeningShift(shifts, t).Some? ==> OpensWithinWindow(shifts[OpeningShift(shifts, t).value], t)
  }

  /** A check-in window that does not wrap and closes at or before the shift's window end. */
  predicate ChecksInBeforeWindowEnd(entry: ShiftEntry)
  {
    entry.config.checkInStart <= entry.config.checkInEnd && OpensWithinWindow(entry, entry.config.checkInEnd)
  }

  /** A table whose every check-in window does not wrap and closes by its window end makes the walk progress. */
  lemma {:induction false} ProgressFromWindows(shifts: seq<ShiftEntry>)
    requires forall k :: 0 <= k < |shifts| ==> ChecksInBeforeWindowEnd(shifts[k])
    ensures Progress(shifts)
  {
    forall t: TimeOfDay ensures ProgressAt(shifts, t) {
      var o := OpeningShift(shifts, t);
      if o.Some? {
        assert ChecksInBeforeWindowEnd(shifts[o.value]);
        assert IsInCheckInRange(shifts[o.value].config, t);
      }
    }
  }

  /** Under `Progress` the opening burst is always absorbed. */
  lemma {:induction false} OpeningAbsorbed(shifts: seq<ShiftEntry>, bursts: seq<Burst>, i: nat, k: nat)
    requires Progress(shifts) && i < |bursts|
    requires OpeningShift(shifts, TimeOf(bursts[i].start)) == Some(k)
    ensures Absorbs(shifts, k, bursts, i, i, WindowEnd(shifts[k], DayOf(bursts[i].start)))
  {
    var t := TimeOf(bursts[i].start);
    assert ProgressAt(shifts, t);
    CombineSplit(bursts[i].start);
  }

  /** Without `Progress` an opening outside its window is not absorbed: the scan ends where it began. */
  lemma {:induction false} StallWithoutProgress(shifts: seq<ShiftEntry>, bursts: seq<Burst>, i: nat, k: nat)
    requires i < |bursts|
    requires OpeningShift(shifts, TimeOf(bursts[i].start)) == Some(k)
    requires !OpensWithinWindow(shifts[k], TimeOf(bursts[i].start))
    ensures AbsorbEnd(shifts, k, bursts, i, i, WindowEnd(shifts[k], DayOf(bursts[i].start))) == i
  {
    CombineSplit(bursts[i].start);
    assert !Absorbs(shifts, k, bursts, i, i, WindowEnd(shifts[k], DayOf(bursts[i].start)));
  }

  /** One shift instance: its shift (an index into the table), its date, and the bursts `lo` up to `hi` (exclusive). */
  datatype Instance = Instance(shift: nat, date: int, lo: nat, hi: nat)

  /** The instances the walk emits from cursor `i` on. */
  function Walk(shifts: seq<ShiftEntry>, bursts: seq<Burst>, i: nat): (r: seq<Instance>)
    requires Progress(shifts) && i <= |bursts|
    ensures forall k :: 0 <= k < |r| ==> i <= r[k].lo < r[k].hi <= |bursts| && r[k].shift < |shifts|
    ensures forall k :: 0 <= k < |r| - 1 ==> r[k].hi <= r[k + 1].lo
    decreases |bursts| - i
  {
    if i == |bursts| then []
    else
      match OpeningShift(shifts, TimeOf(bursts[i].start))
      case None => Walk(shifts, bursts, i + 1)
      case Some(k) =>
        var date := DayOf(bursts[i].start);
        var e := AbsorbEnd(shifts, k, bursts, i, i, WindowEnd(shifts[k], date));
        OpeningAbsorbed(shifts, bursts, i, k);
        [Instance(k, date, i, e)] + Walk(shifts, bursts, e)
  }

  /**
   * How an instance was opened: its first burst's time of day first-matches
   * its shift, its date is that burst's date, and it extends exactly as far as
   * the absorption scan goes.
   */
  predicate OpenedAt(shifts: seq<ShiftEntry>, bursts: seq<Burst>, inst: Instance)
    requires inst.lo < |bursts| && inst.shift < |shifts|
  {
    && OpeningShift(shifts, TimeOf(bursts[inst.lo].start)) == Some(inst.shift)
    && inst.date == DayOf(bursts[inst.lo].start)
    && inst.hi == AbsorbEnd(shifts, inst.shift, bursts, inst.lo, inst.lo, WindowEnd(shifts[inst.shift], inst.date))
  }

  /** Every instance of the walk was opened by a check-in and absorbed as far as the rules allow. */
  lemma {:induction false} WalkOpenings(shifts: seq<ShiftEntry>, bursts: seq<Burst>, i: nat)
    requires Progress(shifts) && i <= |bursts|
    ensures forall k :: 0 <= k < |Walk(shifts, bursts, i)| ==> OpenedAt(shifts, bursts, Walk(shifts, bursts, i)[k])
    decreases |bursts| - i
  {
    if i < |bursts| {
      match OpeningShift(shifts, TimeOf(bursts[i].start))
      case None => WalkOpenings(shifts, bursts, i + 1);
      case Some(k) =>
        var date := DayOf(bursts[i].start);
        var e := AbsorbEnd(shifts, k, bursts, i, i, WindowEnd(shifts[k], date));
        OpeningAbsorbed(shifts, bursts, i, k);
        WalkOpenings(shifts, bursts, e);
    }
  }

  /** Is burst `p` inside one of the instances? */
  predicate Covered(inst: seq<Instance>, p: nat)
  {
    exists k :: 0 <= k < |inst| && inst[k].lo <= p < inst[k].hi
  }

  /** A burst that no instance claims is an orphan: its time opens no shift. */
  lemma {:induction false} WalkOrphans(shifts: seq<ShiftEntry>, bursts: seq<Burst>, i: nat, p: nat)
    requires Progress(shifts) && i <= p < |bursts|
    requires !Covered(Walk(shifts, bursts, i), p)
    ensures OpeningShift(shifts, TimeOf(bursts[p].start)).None?
    decreases |bursts| - i
  {
    match OpeningShift(shifts, TimeOf(bursts[i].start))
    case None =>
      if p > i {
        WalkOrphans(shifts, bursts, i + 1, p);
      }
    case Some(k) =>
      var date := DayOf(bursts[i].start);
      var e := AbsorbEnd(shifts, k, bursts, i, i, WindowEnd(shifts[k], date));
      OpeningAbsorbed(shifts, bursts, i, k);
      var w := Walk(shifts, bursts, i);
      assert w == [Instance(k, date, i, e)] + Walk(shifts, bursts, e);
      assert !(w[0].lo <= p < w[0].hi);
      forall m | 0 <= m < |Walk(shifts, bursts, e)| ensures !(Walk(shifts, bursts, e)[m].lo <= p < Walk(shifts, bursts, e)[m].hi) {
        assert w[m + 1] == Walk(shifts, bursts, e)[m];
      }
      WalkOrphans(shifts, bursts, e, p);
  }

  /** The label written into `shift_code`, `shift_date` and `shift_instance_id` of an assigned burst. */
  datatype Label = Label(code: string, date: int, instanceId: nat)

  /** The label of burst `p` when the instances are numbered from `id`; `None` when no instance claims it. */
  function LabelAt(shifts: seq<ShiftEntry>, inst: seq<Instance>, id: nat, p: nat): Option<Label>
    requires forall k :: 0 <= k < |inst| ==> inst[k].shift < |shifts|
  {
    if inst == [] then None
    else if inst[0].lo <= p < inst[0].hi then Some(Label(shifts[inst[0].shift].code, inst[0].date, id))
    else LabelAt(shifts, inst[1..], id + 1, p)
  }

  /** Instances increasing along the bursts: each non-empty and ending no later than the next begins. */
  predicate Ordered(inst: seq<Instance>)
  {
    (forall k :: 0 <= k < |inst| ==> inst[k].lo < inst[k].hi) &&
    (forall k :: 0 <= k < |inst| - 1 ==> inst[k].hi <= inst[k + 1].lo)
  }

  lemma {:induction false} OrderedApart(inst: seq<Instance>, a: nat, b: nat)
    requires Ordered(inst) && a < b < |inst|
    ensures inst[a].hi <= inst[b].lo
    decreases b - a
  {
    if a + 1 < b {
      OrderedApart(inst, a + 1, b);
    }
  }

  /** Burst `p` inside instance `k` carries instance `k`'s code, date and number. */
  lemma {:induction false} LabelOfCovered(shifts: seq<ShiftEntry>, inst: seq<Instance>, id: nat, p: nat, k: nat)
    requires forall m :: 0 <= m < |inst| ==> inst[m].shift < |shifts|
    requires Ordered(inst) && k < |inst| && inst[k].lo <= p < inst[k].hi
    ensures LabelAt(shifts, inst, id, p) == Some(Label(shifts[inst[k].shift].code, inst[k].date, id + k))
  {
    if k > 0 {
      OrderedApart(inst, 0, k);
      assert Ordered(inst[1..]);
      assert inst[1..][k - 1] == inst[k];
      LabelOfCovered(shifts, inst[1..], id + 1, p, k - 1);
    }
  }

  /** A burst inside no instance carries no label. */
  lemma {:induction false} LabelOfUncovered(shifts: seq<ShiftEntry>, inst: seq<Instance>, id: nat, p: nat)
    requires forall m :: 0 <= m < |inst| ==> inst[m].shift < |shifts|
    requires !Covered(inst, p)
    ensures LabelAt(shifts, inst, id, p) == None
  {
    if inst != [] {
      assert !(inst[0].lo <= p < inst[0].hi);
      forall m | 0 <= m < |inst[1..]| ensures !(inst[1..][m].lo <= p < inst[1..][m].hi) {
        assert inst[1..][m] == inst[m + 1];
      }
      LabelOfUncovered(shifts, inst[1..], id + 1, p);
    }
  }

  /** A burst without a label is inside no instance. */
  lemma {:induction false} UnlabelledUncovered(shifts: seq<ShiftEntry>, inst: seq<Instance>, id: nat, p: nat)
    requires forall m :: 0 <= m < |inst| ==> inst[m].shift < |shifts|
    requires LabelAt(shifts, inst, id, p) == None
    ensures !Covered(inst, p)
  {
    if inst != [] {
      UnlabelledUncovered(shifts, inst[1..], id + 1, p);
      forall m | 0 <= m < |inst| ensures !(inst[m].lo <= p < inst[m].hi) {
        if m > 0 {
          assert inst[1..][m - 1] == inst[m];
        }
      }
    }
  }

  /** A labelled burst carries the label of the first instance that claims it. */
  lemma {:induction false} LabelledCovered(shifts: seq<ShiftEntry>, inst: seq<Instance>, id: nat, p: nat)
    requires forall m :: 0 <= m < |inst| ==> inst[m].shift < |shifts|
    requires LabelAt(shifts, inst, id, p).Some?
    ensures exists k :: (0 <= k < |inst| && inst[k].lo <= p < inst[k].hi &&
                          LabelAt(shifts, inst, id, p) == Some(Label(shifts[inst[k].shift].code, inst[k].date, id + k)))
  {
    if !(inst[0].lo <= p < inst[0].hi) {
      LabelledCovered(shifts, inst[1..], id + 1, p);
      var k :| 0 <= k < |inst[1..]| && inst[1..][k].lo <= p < inst[1..][k].hi
        && LabelAt(shifts, inst[1..], id + 1, p) == Some(Label(shifts[inst[1..][k].shift].code, inst[1..][k].date, id + 1 + k));
      assert inst[k + 1] == inst[1..][k];
    } else {
      assert 0 < |inst| && inst[0].lo <= p < inst[0].hi;
    }
  }

  /** Instance numbers run from `id` up, one per instance. */
  lemma {:induction false} LabelIdRange(shifts: seq<ShiftEntry>, inst: seq<Instance>, id: nat, p: nat)
    requires forall m :: 0 <= m < |inst| ==> inst[m].shift < |shifts|
    ensures LabelAt(shifts, inst, id, p).Some? ==> id <= LabelAt(shifts, inst, id, p).value.instanceId < id + |inst|
  {
    if inst != [] && !(inst[0].lo <= p < inst[0].hi) {
      LabelIdRange(shifts, inst[1..], id + 1, p);
    }
  }

  /** Appending an instance after all earlier ones labels its own bursts and leaves the earlier labels alone. */
  lemma {:induction false} LabelAppend(shifts: seq<ShiftEntry>, done: seq<Instance>, last: Instance, id: nat, p: nat)
    requires forall m :: 0 <= m < |done| ==> done[m].shift < |shifts| && done[m].hi <= last.lo
    requires last.shift < |shifts|
    ensures p < last.lo ==> LabelAt(shifts, done + [last], id, p) == LabelAt(shifts, done, id, p)
    ensures last.lo <= p < last.hi ==>
      LabelAt(shifts, done + [last], id, p) == Some(Label(shifts[last.shift].code, last.date, id + |done|))
  {
    if done != [] {
      assert (done + [last])[1..] == done[1..] + [last];
      LabelAppend(shifts, done[1..], last, id + 1, p);
    }
  }

  /** The walk's step at a burst that opens nothing: the burst is skipped. */
  lemma {:induction false} WalkSkip(shifts: seq<ShiftEntry>, bursts: seq<Burst>, i: nat)
    requires Progress(shifts) && i < |bursts|
    requires OpeningShift(shifts, TimeOf(bursts[i].start)) == None
    ensures Walk(shifts, bursts, i) == Walk(shifts, bursts, i + 1)
  {
  }

  /** The walk's step at a check-in: one instance, then the walk from where absorption stopped. */
  lemma {:induction false} WalkOpen(shifts: seq<ShiftEntry>, bursts: seq<Burst>, i: nat, q: nat)
    requires Progress(shifts) && i < |bursts|
    requires OpeningShift(shifts, TimeOf(bursts[i].start)) == Some(q)
    ensures Walk(shifts, bursts, i) ==
      [Instance(q, DayOf(bursts[i].start), i, AbsorbEnd(shifts, q, bursts, i, i, WindowEnd(shifts[q], DayOf(bursts[i].start))))]
      + Walk(shifts, bursts, AbsorbEnd(shifts, q, bursts, i, i, WindowEnd(shifts[q], DayOf(bursts[i].start))))
  {
  }

  /** An opening at burst `i` adds one instance to the finished ones and moves the cursor past it. */
  lemma {:induction false} OpenStep(shifts: seq<ShiftEntry>, bursts: seq<Burst>, done: seq<Instance>, i: nat, q: nat, j: nat)
    requires Progress(shifts) && i < |bursts|
    requires OpeningShift(shifts, TimeOf(bursts[i].start)) == Some(q)
    requires j == AbsorbEnd(shifts, q, bursts, i, i, WindowEnd(shifts[q], DayOf(bursts[i].start)))
    requires done + Walk(shifts, bursts, i) == Walk(shifts, bursts, 0)
    requires forall m :: 0 <= m < |done| ==> done[m].shift < |shifts| && done[m].hi <= i
    ensures i < j <= |bursts| && q < |shifts|
    ensures var done' := done + [Instance(q, DayOf(bursts[i].start), i, j)];
      && done' + Walk(shifts, bursts, j) == Walk(shifts, bursts, 0)
      && (forall m :: 0 <= m < |done'| ==> done'[m].shift < |shifts| && done'[m].hi <= j)
  {
    OpeningAbsorbed(shifts, bursts, i, q);
    assert i < j;
    OpenStepWalk(shifts, bursts, done, i, q, j);
  }

  lemma {:induction false} OpenStepWalk(shifts: seq<ShiftEntry>, bursts: seq<Burst>, done: seq<Instance>, i: nat, q: nat, j: nat)
    requires Progress(shifts) && i < j <= |bursts|
    requires OpeningShift(shifts, TimeOf(bursts[i].start)) == Some(q)
    requires j == AbsorbEnd(shifts, q, bursts, i, i, WindowEnd(shifts[q], DayOf(bursts[i].start)))
    requires done + Walk(shifts, bursts, i) == Walk(shifts, bursts, 0)
    requires forall m :: 0 <= m < |done| ==> done[m].shift < |shifts| && done[m].hi <= i
    ensures var done' := done + [Instance(q, DayOf(bursts[i].start), i, j)];
      && done' + Walk(shifts, bursts, j) == Walk(shifts, bursts, 0)
      && (forall m :: 0 <= m < |done'| ==> done'[m].shift < |shifts| && done'[m].hi <= j)
  {
    var inst := Instance(q, DayOf(bursts[i].start), i, j);
    WalkOpen(shifts, bursts, i, q);
    Regroup(done, inst, Walk(shifts, bursts, j));
    FinishedExtend(shifts, done, inst);
  }

  lemma {:induction false} Regroup<T>(a: seq<T>, x: T, b: seq<T>)
    ensures a + ([x] + b) == (a + [x]) + b
  {
  }

  lemma {:induction false} FinishedExtend(shifts: seq<ShiftEntry>, done: seq<Instance>, inst: Instance)
    requires forall m :: 0 <= m < |done| ==> done[m].shift < |shifts| && done[m].hi <= inst.lo
    requires inst.shift < |shifts| && inst.lo <= inst.hi
    ensures forall m :: 0 <= m < |done + [inst]| ==> (done + [inst])[m].shift < |shifts| && (done + [inst])[m].hi <= inst.hi
  {
  }

  /** Labelling the bursts of one more instance extends the labels of the instances before it. */
  lemma {:induction false} LabelStep(shifts: seq<ShiftEntry>, done: seq<Instance>, inst: Instance, firstId: nat,
                  before: seq<Option<Label>>, after: seq<Option<Label>>, tag: Label)
    requires inst.shift < |shifts| && inst.lo < inst.hi <= |before| == |after|
    requires tag == Label(shifts[inst.shift].code, inst.date, firstId + |done|)
    requires forall m :: 0 <= m < |done| ==> done[m].shift < |shifts| && done[m].hi <= inst.lo
    requires forall p :: 0 <= p < inst.lo ==> before[p] == LabelAt(shifts, done, firstId, p)
    requires forall p :: inst.lo <= p < |before| ==> before[p] == None
    requires forall p :: 0 <= p < |before| ==>
      after[p] == (if inst.lo <= p < inst.hi then Some(tag) else before[p])
    ensures forall p :: 0 <= p < inst.hi ==> after[p] == LabelAt(shifts, done + [inst], firstId, p)
    ensures forall p :: inst.hi <= p < |after| ==> after[p] == None
  {
    forall p | 0 <= p < inst.hi
      ensures after[p] == LabelAt(shifts, done + [inst], firstId, p)
    {
      LabelAppend(shifts, done, inst, firstId, p);
    }
  }

  /** The invariant survives a burst that opens nothing: it stays unlabelled. */
  lemma {:induction false} SkipStep(shifts: seq<ShiftEntry>, bursts: seq<Burst>, firstId: nat, done: seq<Instance>, i: nat,
                 labels: seq<Option<Label>>)
    requires Progress(shifts) && i < |bursts| == |labels|
    requires OpeningShift(shifts, TimeOf(bursts[i].start)) == None
    requires done + Walk(shifts, bursts, i) == Walk(shifts, bursts, 0)
    requires forall m :: 0 <= m < |done| ==> done[m].shift < |shifts| && done[m].hi <= i
    requires forall p :: 0 <= p < i ==> labels[p] == LabelAt(shifts, done, firstId, p)
    requires forall p :: i <= p < |bursts| ==> labels[p] == None
    ensures done + Walk(shifts, bursts, i + 1) == Walk(shifts, bursts, 0)
    ensures forall p :: 0 <= p < i + 1 ==> labels[p] == LabelAt(shifts, done, firstId, p)
  {
    WalkSkip(shifts, bursts, i);
    LabelOfUncovered(shifts, done, firstId, i);
  }

  /** The scan for the shift a burst checks into (processor.py:191-195). */
  method FindCheckInShift(shifts: seq<ShiftEntry>, t: TimeOfDay) returns (q: nat)
    ensures q <= |shifts|
    ensures q < |shifts| ==> FirstCheckIn(shifts, t) == Some(q)
    ensures q == |shifts| ==> FirstCheckIn(shifts, t) == None
  {
    q := 0;
    while q < |shifts| && !IsInCheckInRange(shifts[q].config, t)
      invariant 0 <= q <= |shifts|
      invariant forall r :: 0 <= r < q ==> !IsInCheckInRange(shifts[r].config, t)
    {
      q := q + 1;
    }
  }

  /** The scan for another shift that a burst at `t` would start (processor.py:235-240). */
  method WouldStartDifferentShift(shifts: seq<ShiftEntry>, code: string, t: TimeOfDay) returns (b: bool)
    ensures b <==> OtherShiftChecksIn(shifts, code, t)
  {
    b := false;
    var r := 0;
    while r < |shifts|
      invariant 0 <= r <= |shifts|
      invariant forall r' :: 0 <= r' < r ==> !(shifts[r'].code != code && IsInCheckInRange(shifts[r'].config, t))
    {
      if shifts[r].code != code && IsInCheckInRange(shifts[r].config, t) {
        b := true;
        return;
      }
      r := r + 1;
    }
  }

  /**
   * The absorption loop (processor.py:218-253): labels bursts `i`, `i + 1`, ...
   * with `tag` while they belong to the instance of shift `q` and returns
   * where it stopped.
   */
  method Absorb(shifts: seq<ShiftEntry>, q: nat, bursts: seq<Burst>, i: nat, windowEnd: Timestamp,
                labels: seq<Option<Label>>, tag: Label)
    returns (newLabels: seq<Option<Label>>, j: nat)
    requires q < |shifts| && i <= |bursts| == |labels|
    ensures j == AbsorbEnd(shifts, q, bursts, i, i, windowEnd)
    ensures |newLabels| == |labels|
    ensures forall p :: 0 <= p < |labels| ==> newLabels[p] == (if i <= p < j then Some(tag) else labels[p])
  {
    var cfg := shifts[q].config;
    newLabels := labels;
    j := i;
    while j < |bursts|
      invariant i <= j <= |bursts| && |newLabels| == |labels|
      invariant AbsorbEnd(shifts, q, bursts, i, j, windowEnd) == AbsorbEnd(shifts, q, bursts, i, i, windowEnd)
      invariant forall p :: 0 <= p < |labels| ==> newLabels[p] == (if i <= p < j then Some(tag) else labels[p])
      decreases |bursts| - j
    {
      var currSwipe := bursts[j].start;
      if currSwipe <= windowEnd {
        var currTime := TimeOf(currSwipe);
        var inCurrentCheckout := TimeInRange(currTime, cfg.checkOutStart, cfg.checkOutEnd);
        var wouldStartDifferent := false;
        if !inCurrentCheckout && j > i {
          wouldStartDifferent := WouldStartDifferentShift(shifts, shifts[q].code, currTime);
        }
        if wouldStartDifferent {
          break;
        }
        newLabels := newLabels[j := Some(tag)];
        j := j + 1;
      } else {
        break;
      }
    }
  }

  /**
   * One person's pass of `_detect_shift_instances` (processor.py:179-268):
   * writes a label into every burst the walk assigns, numbering instances
   * from `firstId`, and returns the next free instance number.
   */
  method DetectShiftInstances(shifts: seq<ShiftEntry>, bursts: seq<Burst>, firstId: nat)
    returns (labels: seq<Option<Label>>, nextId: nat)
    requires Progress(shifts)
    // The source re-sorts by start first (processor.py:171); on this order that sort changes nothing.
    requires StartsAscending(bursts)
    ensures |labels| == |bursts|
    ensures nextId == firstId + |Walk(shifts, bursts, 0)|
    ensures forall p :: 0 <= p < |bursts| ==> labels[p] == LabelAt(shifts, Walk(shifts, bursts, 0), firstId, p)
  {
    labels := seq(|bursts|, _ => None);
    var instanceId := firstId;
    ghost var done: seq<Instance> := [];
    var i := 0;
    while i < |bursts|
      invariant 0 <= i <= |bursts| && |labels| == |bursts|
      invariant done + Walk(shifts, bursts, i) == Walk(shifts, bursts, 0)
      invariant instanceId == firstId + |done|
      invariant forall m :: 0 <= m < |done| ==> done[m].shift < |shifts| && done[m].hi <= i
      invariant forall p :: 0 <= p < i ==> labels[p] == LabelAt(shifts, done, firstId, p)
      invariant forall p :: i <= p < |bursts| ==> labels[p] == None
      decreases |bursts| - i
    {
      var q := FindCheckInShift(shifts, TimeOf(bursts[i].start));
      if q < |shifts| && shifts[q].code != "" {
        var code := shifts[q].code;
        var shiftDate := DayOf(bursts[i].start);
        var windowEnd := if code == "C" then Combine(shiftDate + 1, shifts[q].config.checkOutEnd)
                         else Combine(shiftDate, shifts[q].config.checkOutEnd);
        assert OpeningShift(shifts, TimeOf(bursts[i].start)) == Some(q);
        assert windowEnd == WindowEnd(shifts[q], shiftDate);
        var tag := Label(code, shiftDate, instanceId);
        ghost var before := labels;
        var j;
        labels, j := Absorb(shifts, q, bursts, i, windowEnd, labels, tag);
        OpenStep(shifts, bursts, done, i, q, j);
        LabelStep(shifts, done, Instance(q, shiftDate, i, j), firstId, before, labels, tag);
        done := done + [Instance(q, shiftDate, i, j)];
        instanceId := instanceId + 1;
        i := j;
      } else {
        SkipStep(shifts, bursts, firstId, done, i, labels);
        i := i + 1;
      }
    }
    assert done + Walk(shifts, bursts, i) == done;
    nextId := instanceId;
  }

  /** A burst left without a label is an orphan: its time of day opens no shift (processor.py:261-265 drops it). */
  lemma {:induction false} UnlabelledAreOrphans(shifts: seq<ShiftEntry>, bursts: seq<Burst>, firstId: nat, p: nat)
    requires Progress(shifts) && p < |bursts|
    requires LabelAt(shifts, Walk(shifts, bursts, 0), firstId, p) == None
    ensures OpeningShift(shifts, TimeOf(bursts[p].start)) == None
  {
    UnlabelledUncovered(shifts, Walk(shifts, bursts, 0), firstId, p);
    WalkOrphans(shifts, bursts, 0, p);
  }

  /**
   * A labelled burst belongs to the `k`-th instance of the walk: it carries
   * that instance's shift code, the date of the instance's first burst, and
   * the number `firstId + k`; the first burst opened the shift.
   */
  lemma {:induction false} LabelledBelongs(shifts: seq<ShiftEntry>, bursts: seq<Burst>, firstId: nat, p: nat)
    requires Progress(shifts) && p < |bursts|
    requires LabelAt(shifts, Walk(shifts, bursts, 0), firstId, p).Some?
    ensures var w := Walk(shifts, bursts, 0);
      var l := LabelAt(shifts, w, firstId, p).value;
      exists k :: 0 <= k < |w| && w[k].lo <= p < w[k].hi && l == Label(shifts[w[k].shift].code, w[k].date, firstId + k)
        && OpeningShift(shifts, TimeOf(bursts[w[k].lo].start)) == Some(w[k].shift)
        && l.date == DayOf(bursts[w[k].lo].start)
  {
    var w := Walk(shifts, bursts, 0);
    LabelledCovered(shifts, w, firstId, p);
    var k :| 0 <= k < |w| && w[k].lo <= p < w[k].hi && LabelAt(shifts, w, firstId, p) == Some(Label(shifts[w[k].shift].code, w[k].date, firstId + k));
    WalkOpenings(shifts, bursts, 0);
    assert OpenedAt(shifts, bursts, w[k]);
  }

  /** How many instances each person's walk yields. */
  ghost function InstanceCounts(shifts: seq<ShiftEntry>, people: seq<seq<Burst>>): (r: seq<nat>)
    requires Progress(shifts)
    ensures |r| == |people|
    ensures forall n :: 0 <= n < |people| ==> r[n] == |Walk(shifts, people[n], 0)|
  {
    seq(|people|, n requires 0 <= n < |people| => |Walk(shifts, people[n], 0)|)
  }

  /** The sum of a sequence of counts. */
  function Sum(counts: seq<nat>): nat
  {
    if counts == [] then 0 else Sum(counts[..|counts| - 1]) + counts[|counts| - 1]
  }

  lemma {:induction false} SumPrefixMonotone(counts: seq<nat>, a: nat, b: nat)
    requires a <= b <= |counts|
    ensures Sum(counts[..a]) <= Sum(counts[..b])
    decreases b - a
  {
    if a < b {
      SumPrefixMonotone(counts, a, b - 1);
      assert counts[..b][..b - 1] == counts[..b - 1];
    }
  }

  /** The first instance number of the `n`-th person: the counter runs on across people (processor.py:178). */
  ghost function FirstIdOf(shifts: seq<ShiftEntry>, people: seq<seq<Burst>>, n: nat): nat
    requires Progress(shifts) && n <= |people|
  {
    Sum(InstanceCounts(shifts, people)[..n])
  }

  /** The next person's numbers start where this person's end. */
  lemma {:induction false} FirstIdOfNext(shifts: seq<ShiftEntry>, people: seq<seq<Burst>>, n: nat)
    requires Progress(shifts) && n < |people|
    ensures FirstIdOf(shifts, people, n + 1) == FirstIdOf(shifts, people, n) + |Walk(shifts, people[n], 0)|
  {
    var c := InstanceCounts(shifts, people);
    assert c[..n + 1][..n] == c[..n];
  }

  /** Two people never share an instance number. */
  lemma {:induction false} InstanceIdsPerPerson(shifts: seq<ShiftEntry>, people: seq<seq<Burst>>, a: nat, pa: nat, b: nat, pb: nat)
    requires Progress(shifts) && a < b < |people| && pa < |people[a]| && pb < |people[b]|
    requires LabelAt(shifts, Walk(shifts, people[a], 0), FirstIdOf(shifts, people, a), pa).Some?
    requires LabelAt(shifts, Walk(shifts, people[b], 0), FirstIdOf(shifts, people, b), pb).Some?
    ensures LabelAt(shifts, Walk(shifts, people[a], 0), FirstIdOf(shifts, people, a), pa).value.instanceId
          < LabelAt(shifts, Walk(shifts, people[b], 0), FirstIdOf(shifts, people, b), pb).value.instanceId
  {
    LabelIdRange(shifts, Walk(shifts, people[a], 0), FirstIdOf(shifts, people, a), pa);
    LabelIdRange(shifts, Walk(shifts, people[b], 0), FirstIdOf(shifts, people, b), pb);
    FirstIdOfNext(shifts, people, a);
    SumPrefixMonotone(InstanceCounts(shifts, people), a + 1, b);
  }

  /**
   * `_detect_shift_instances` over every person (processor.py:156-268): each
   * person's bursts, in name order, labelled with one running instance counter.
   */
  method DetectShiftInstancesAll(shifts: seq<ShiftEntry>, people: seq<seq<Burst>>)
    returns (labels: seq<seq<Option<Label>>>)
    requires Progress(shifts)
    requires forall n :: 0 <= n < |people| ==> StartsAscending(people[n])
    ensures |labels| == |people|
    ensures forall n :: 0 <= n < |people| ==> |labels[n]| == |people[n]|
    ensures forall n, p :: 0 <= n < |people| && 0 <= p < |people[n]| ==>
      labels[n][p] == LabelAt(shifts, Walk(shifts, people[n], 0), FirstIdOf(shifts, people, n), p)
  {
    labels := [];
    var instanceId := 0;
    var n := 0;
    while n < |people|
      invariant 0 <= n <= |people| && |labels| == n
      invariant instanceId == FirstIdOf(shifts, people, n)
      invariant forall m :: 0 <= m < n ==> |labels[m]| == |people[m]|
      invariant forall m, p :: 0 <= m < n && 0 <= p < |people[m]| ==>
        labels[m][p] == LabelAt(shifts, Walk(shifts, people[m], 0), FirstIdOf(shifts, people, m), p)
    {
      var personLabels;
      personLabels, instanceId := DetectShiftInstances(shifts, people[n], instanceId);
      FirstIdOfNext(shifts, people, n);
      ghost var prev := labels;
      labels := labels + [personLabels];
      assert forall m :: 0 <= m < n ==> labels[m] == prev[m];
      assert labels[n] == personLabels;
      n := n + 1;
    }
  }
}
