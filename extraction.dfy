/**
 * Per-instance extraction (processor.py `_extract_attendance_events`,
 * `_find_check_in`, `_find_check_out`): every shift instance the segmenter
 * labelled becomes one attendance record.
 */
module Extraction {
  import opened Wrappers
  import opened Clock
  import opened Config
  import opened Bursts
  import opened Segmenter
  import opened Breaks

  /** Does the burst's start time lie in the check-in window (processor.py:327-331)? */
  predicate StartsInCheckIn(cfg: ShiftConfig, b: Burst)
  {
    TimeInRange(TimeOf(b.start), cfg.checkInStart, cfg.checkInEnd)
  }

  /** Does the burst's end time lie in the check-out window (processor.py:341-345)? */
  predicate EndsInCheckOut(cfg: ShiftConfig, b: Burst)
  {
    TimeInRange(TimeOf(b.end), cfg.checkOutStart, cfg.checkOutEnd)
  }

  /** `_find_check_in`: the earliest start among the bursts whose start time is in the check-in window. */
  function FindCheckIn(cfg: ShiftConfig, group: seq<Burst>): (r: Option<Timestamp>)
    ensures r.None? <==> forall k :: 0 <= k < |group| ==> !StartsInCheckIn(cfg, group[k])
    ensures r.Some? ==> exists k :: 0 <= k < |group| && StartsInCheckIn(cfg, group[k]) && group[k].start == r.value
    ensures r.Some? ==> forall k :: 0 <= k < |group| && StartsInCheckIn(cfg, group[k]) ==> r.value <= group[k].start
  {
    if group == [] then None
    else
      var rest := FindCheckIn(cfg, group[1..]);
      assert forall k :: 1 <= k < |group| ==> group[1..][k - 1] == group[k];
      if !StartsInCheckIn(cfg, group[0]) then rest
      else if rest.Some? && rest.value < group[0].start then rest
      else Some(group[0].start)
  }

  /** `_find_check_out`: the latest end among the bursts whose end time is in the check-out window. */
  function FindCheckOut(cfg: ShiftConfig, group: seq<Burst>): (r: Option<Timestamp>)
    ensures r.None? <==> forall k :: 0 <= k < |group| ==> !EndsInCheckOut(cfg, group[k])
    ensures r.Some? ==> exists k :: 0 <= k < |group| && EndsInCheckOut(cfg, group[k]) && group[k].end == r.value
    ensures r.Some? ==> forall k :: 0 <= k < |group| && EndsInCheckOut(cfg, group[k]) ==> group[k].end <= r.value
  {
    if group == [] then None
    else
      var rest := FindCheckOut(cfg, group[1..]);
      assert forall k :: 1 <= k < |group| ==> group[1..][k - 1] == group[k];
      if !EndsInCheckOut(cfg, group[0]) then rest
      else if rest.Some? && rest.value > group[0].end then rest
      else Some(group[0].end)
  }

  /** Check-in looks at the bursts as a set: their order in the group does not matter. */
  lemma {:induction false} CheckInOrderFree(cfg: ShiftConfig, g: seq<Burst>, h: seq<Burst>)
    requires forall b :: b in g <==> b in h
    ensures FindCheckIn(cfg, g) == FindCheckIn(cfg, h)
  {
    CheckInWithin(cfg, g, h);
    CheckInWithin(cfg, h, g);
  }

  /** Every burst of `g` also in `h`: `h` finds a check-in too, and no later one. */
  lemma {:induction false} CheckInWithin(cfg: ShiftConfig, g: seq<Burst>, h: seq<Burst>)
    requires forall b :: b in g ==> b in h
    ensures FindCheckIn(cfg, g).Some? ==> FindCheckIn(cfg, h).Some? && FindCheckIn(cfg, h).value <= FindCheckIn(cfg, g).value
  {
    var a := FindCheckIn(cfg, g);
    if a.Some? {
      var ka :| 0 <= ka < |g| && StartsInCheckIn(cfg, g[ka]) && g[ka].start == a.value;
      assert g[ka] in h;
      var j :| 0 <= j < |h| && h[j] == g[ka];
      assert StartsInCheckIn(cfg, h[j]);
    }
  }

  /** Check-out looks at the bursts as a set: their order in the group does not matter. */
  lemma {:induction false} CheckOutOrderFree(cfg: ShiftConfig, g: seq<Burst>, h: seq<Burst>)
    requires forall b :: b in g <==> b in h
    ensures FindCheckOut(cfg, g) == FindCheckOut(cfg, h)
  {
    CheckOutWithin(cfg, g, h);
    CheckOutWithin(cfg, h, g);
  }

  /** Every burst of `g` also in `h`: `h` finds a check-out too, and no earlier one. */
  lemma {:induction false} CheckOutWithin(cfg: ShiftConfig, g: seq<Burst>, h: seq<Burst>)
    requires forall b :: b in g ==> b in h
    ensures FindCheckOut(cfg, g).Some? ==> FindCheckOut(cfg, h).Some? && FindCheckOut(cfg, g).value <= FindCheckOut(cfg, h).value
  {
    var c := FindCheckOut(cfg, g);
    if c.Some? {
      var kc :| 0 <= kc < |g| && EndsInCheckOut(cfg, g[kc]) && g[kc].end == c.value;
      assert g[kc] in h;
      var j :| 0 <= j < |h| && h[j] == g[kc];
      assert EndsInCheckOut(cfg, h[j]);
    }
  }

  /** One output row (processor.py:306-317); a time cell holds `None` where the source writes "". */
  datatype Record = Record(
    date: int,
    id: string,
    name: string,
    shift: string,
    checkIn: Option<TimeOfDay>,
    checkInStatus: Status,
    breakOut: Option<TimeOfDay>,
    breakIn: Option<TimeOfDay>,
    breakInStatus: Status,
    checkOut: Option<TimeOfDay>)

  /** `ts.time()` of a found timestamp. */
  function TimeOfOpt(t: Option<Timestamp>): Option<TimeOfDay>
  {
    match t
    case None => None
    case Some(v) => Some(TimeOf(v))
  }

  /**
   * The record of one instance: its shift's configuration, its shift date,
   * its person's mapped name and id, and the bursts of the group. A status is
   * graded only for a time that was found (processor.py:303-304).
   */
  function RecordFor(cfg: ShiftConfig, date: int, user: User, group: seq<Burst>): Record
  {
    var checkIn := TimeOfOpt(FindCheckIn(cfg, group));
    var br := Breaks.Breaks(cfg, group);
    var breakIn := TimeOfOpt(br.breakIn);
    Record(date, user.outputId, user.outputName, cfg.displayName,
      checkIn, DetermineCheckInStatus(cfg, checkIn),
      TimeOfOpt(br.breakOut), breakIn, DetermineBreakInStatus(cfg, breakIn),
      TimeOfOpt(FindCheckOut(cfg, group)))
  }

  /** What every record promises about its fields, whatever the swipes. */
  lemma RecordFields(cfg: ShiftConfig, date: int, user: User, group: seq<Burst>)
    ensures var r := RecordFor(cfg, date, user, group);
      && r.date == date && r.shift == cfg.displayName && r.name == user.outputName && r.id == user.outputId
      && (r.checkIn.None? <==> forall k :: 0 <= k < |group| ==> !StartsInCheckIn(cfg, group[k]))
      && (r.checkIn.Some? ==> TimeInRange(r.checkIn.value, cfg.checkInStart, cfg.checkInEnd))
      && (r.checkOut.None? <==> forall k :: 0 <= k < |group| ==> !EndsInCheckOut(cfg, group[k]))
      && (r.checkOut.Some? ==> TimeInRange(r.checkOut.value, cfg.checkOutStart, cfg.checkOutEnd))
      && (r.checkIn.None? ==> r.checkInStatus == NoStatus)
      && (r.breakIn.None? ==> r.breakInStatus == NoStatus)
  {
    var ci := FindCheckIn(cfg, group);
    if ci.Some? {
      var k :| 0 <= k < |group| && StartsInCheckIn(cfg, group[k]) && group[k].start == ci.value;
    }
    var co := FindCheckOut(cfg, group);
    if co.Some? {
      var k :| 0 <= k < |group| && EndsInCheckOut(cfg, group[k]) && group[k].end == co.value;
    }
  }

  /** A person of the filtered log: their mapped identity and their bursts in time order. */
  datatype Person = Person(user: User, bursts: seq<Burst>)

  function BurstsOf(people: seq<Person>): (r: seq<seq<Burst>>)
    ensures |r| == |people| && forall n :: 0 <= n < |people| ==> r[n] == people[n].bursts
  {
    seq(|people|, n requires 0 <= n < |people| => people[n].bursts)
  }

  /** A shift table read from a dictionary has pairwise distinct codes. */
  predicate DistinctCodes(shifts: seq<ShiftEntry>)
  {
    forall a, b :: 0 <= a < b < |shifts| ==> shifts[a].code != shifts[b].code
  }

  /** `config.shifts[code]`: the entry carrying the code; `None` where Python raises KeyError. */
  function ShiftByCode(shifts: seq<ShiftEntry>, code: string): (r: Option<nat>)
    ensures r.Some? ==> r.value < |shifts| && shifts[r.value].code == code
    ensures r.None? <==> forall k :: 0 <= k < |shifts| ==> shifts[k].code != code
  {
    if shifts == [] then None
    else if shifts[0].code == code then Some(0)
    else
      match ShiftByCode(shifts[1..], code)
      case None => None
      case Some(k) => Some(k + 1)
  }

  /** In a table with distinct codes the lookup by an entry's own code finds that entry. */
  lemma LookupOwnCode(shifts: seq<ShiftEntry>, k: nat)
    requires DistinctCodes(shifts) && k < |shifts|
    ensures ShiftByCode(shifts, shifts[k].code) == Some(k)
  {
    var r := ShiftByCode(shifts, shifts[k].code);
    assert r.Some?;
  }

  /** The records of a person's instances, in instance order. */
  function InstanceRecords(shifts: seq<ShiftEntry>, person: Person, inst: seq<Instance>): seq<Record>
    requires forall k :: 0 <= k < |inst| ==> inst[k].shift < |shifts| && inst[k].lo <= inst[k].hi <= |person.bursts|
  {
    seq(|inst|, k requires 0 <= k < |inst| =>
      RecordFor(shifts[inst[k].shift].config, inst[k].date, person.user, person.bursts[inst[k].lo..inst[k].hi]))
  }

  /** Every person's records, person after person. */
  function AllRecords(shifts: seq<ShiftEntry>, people: seq<Person>): seq<Record>
    requires Progress(shifts)
  {
    if people == [] then []
    else
      var last := people[|people| - 1];
      AllRecords(shifts, people[..|people| - 1]) + InstanceRecords(shifts, last, Walk(shifts, last.bursts, 0))
  }

  /** There is exactly one record per shift instance. */
  lemma {:induction false} OneRecordPerInstance(shifts: seq<ShiftEntry>, people: seq<Person>)
    requires Progress(shifts)
    ensures |AllRecords(shifts, people)| == FirstIdOf(shifts, BurstsOf(people), |people|)
    decreases |people|
  {
    if people != [] {
      var n := |people| - 1;
      var init := people[..n];
      OneRecordPerInstance(shifts, init);
      FirstIdOfNext(shifts, BurstsOf(people), n);
      FirstIdPrefix(shifts, people, n);
    }
  }

  /** The instance numbering of a prefix of the people agrees with that of all of them. */
  lemma {:induction false} FirstIdPrefix(shifts: seq<ShiftEntry>, people: seq<Person>, n: nat)
    requires Progress(shifts) && n <= |people|
    ensures FirstIdOf(shifts, BurstsOf(people[..n]), n) == FirstIdOf(shifts, BurstsOf(people), n)
  {
    var a := InstanceCounts(shifts, BurstsOf(people[..n]));
    var b := InstanceCounts(shifts, BurstsOf(people));
    assert a == b[..n];
    assert a[..n] == a;
  }

  /**
   * The record of instance `k` of a person carries the date of the burst that
   * opened the instance, even where later bursts fall on the next day, and the
   * display name of the shift that burst first-matched.
   */
  lemma {:induction false} RecordOfInstance(shifts: seq<ShiftEntry>, person: Person, k: nat)
    requires Progress(shifts) && k < |Walk(shifts, person.bursts, 0)|
    ensures var w := Walk(shifts, person.bursts, 0);
      var r := InstanceRecords(shifts, person, w)[k];
      && r.date == DayOf(person.bursts[w[k].lo].start)
      && OpeningShift(shifts, TimeOf(person.bursts[w[k].lo].start)) == Some(w[k].shift)
      && r.shift == shifts[w[k].shift].config.displayName
      && r.name == person.user.outputName && r.id == person.user.outputId
  {
    var w := Walk(shifts, person.bursts, 0);
    WalkOpenings(shifts, person.bursts, 0);
    assert OpenedAt(shifts, person.bursts, w[k]);
  }

  /**
   * The bursts that share the label of instance `k`'s first burst are exactly
   * the instance's run: grouping by `shift_instance_id` gives back the slice.
   */
  lemma {:induction false} InstanceGroup(shifts: seq<ShiftEntry>, inst: seq<Instance>, id: nat, k: nat, p: nat)
    requires forall m :: 0 <= m < |inst| ==> inst[m].shift < |shifts|
    requires Ordered(inst) && k < |inst|
    ensures LabelAt(shifts, inst, id, p) == LabelAt(shifts, inst, id, inst[k].lo) <==> inst[k].lo <= p < inst[k].hi
  {
    LabelOfCovered(shifts, inst, id, inst[k].lo, k);
    if inst[k].lo <= p < inst[k].hi {
      LabelOfCovered(shifts, inst, id, p, k);
    } else if Covered(inst, p) {
      var m :| 0 <= m < |inst| && inst[m].lo <= p < inst[m].hi;
      LabelOfCovered(shifts, inst, id, p, m);
    } else {
      LabelOfUncovered(shifts, inst, id, p);
    }
  }

  /** A burst before instance `k` and after every earlier instance is unlabelled. */
  lemma {:induction false} Between(shifts: seq<ShiftEntry>, inst: seq<Instance>, id: nat, k: nat, p: nat)
    requires forall m :: 0 <= m < |inst| ==> inst[m].shift < |shifts|
    requires Ordered(inst) && k <= |inst|
    requires forall m :: 0 <= m < k ==> inst[m].hi <= p
    requires k < |inst| ==> p < inst[k].lo
    ensures LabelAt(shifts, inst, id, p) == None
  {
    forall m | 0 <= m < |inst| ensures !(inst[m].lo <= p < inst[m].hi) {
      if m > k {
        OrderedApart(inst, k, m);
      }
    }
    LabelOfUncovered(shifts, inst, id, p);
  }

  lemma {:induction false} SliceAscending(bursts: seq<Burst>, lo: nat, hi: nat)
    requires StartsAscending(bursts) && lo <= hi <= |bursts|
    ensures StartsAscending(bursts[lo..hi])
  {
    forall a, b | 0 <= a < b < hi - lo ensures bursts[lo..hi][a].start <= bursts[lo..hi][b].start {
      assert bursts[lo..hi][a] == bursts[lo + a] && bursts[lo..hi][b] == bursts[lo + b];
    }
  }

  /** The cursor state of the grouping scan over one person's labels. */
  predicate Scanned(inst: seq<Instance>, k: nat, i: nat)
  {
    && k <= |inst|
    && (forall m :: 0 <= m < k ==> inst[m].hi <= i)
    && (k < |inst| ==> i <= inst[k].lo)
  }

  /** Labels as the segmenter wrote them for a person's bursts. */
  predicate LabelsOf(shifts: seq<ShiftEntry>, inst: seq<Instance>, id: nat, labels: seq<Option<Label>>)
    requires forall m :: 0 <= m < |inst| ==> inst[m].shift < |shifts|
  {
    forall p :: 0 <= p < |labels| ==> labels[p] == LabelAt(shifts, inst, id, p)
  }

  /** Past an unlabelled burst the scan is still before the next instance. */
  lemma {:induction false} SkipUnlabelled(shifts: seq<ShiftEntry>, inst: seq<Instance>, id: nat, labels: seq<Option<Label>>, k: nat, i: nat)
    requires forall m :: 0 <= m < |inst| ==> inst[m].shift < |shifts|
    requires Ordered(inst) && LabelsOf(shifts, inst, id, labels)
    requires i < |labels| && Scanned(inst, k, i) && labels[i].None?
    ensures Scanned(inst, k, i + 1)
  {
    if k < |inst| && i == inst[k].lo {
      LabelOfCovered(shifts, inst, id, i, k);
    }
  }

  /** A labelled burst met by the scan is the first burst of the next instance. */
  lemma {:induction false} AtOpening(shifts: seq<ShiftEntry>, inst: seq<Instance>, id: nat, labels: seq<Option<Label>>, k: nat, i: nat)
    requires forall m :: 0 <= m < |inst| ==> inst[m].shift < |shifts|
    requires Ordered(inst) && LabelsOf(shifts, inst, id, labels)
    requires i < |labels| && Scanned(inst, k, i) && labels[i].Some?
    ensures k < |inst| && i == inst[k].lo
    ensures labels[i] == Some(Label(shifts[inst[k].shift].code, inst[k].date, id + k))
  {
    if k == |inst| || i < inst[k].lo {
      Between(shifts, inst, id, k, i);
    }
    LabelOfCovered(shifts, inst, id, i, k);
  }

  /** The run of labels equal to the opening burst's ends where the instance ends. */
  lemma {:induction false} GroupEnd(shifts: seq<ShiftEntry>, inst: seq<Instance>, id: nat, labels: seq<Option<Label>>, k: nat, j: nat)
    requires forall m :: 0 <= m < |inst| ==> inst[m].shift < |shifts| && inst[m].hi <= |labels|
    requires Ordered(inst) && LabelsOf(shifts, inst, id, labels) && k < |inst|
    requires inst[k].lo < j <= |labels|
    requires forall p :: inst[k].lo <= p < j ==> labels[p] == labels[inst[k].lo]
    requires j < |labels| ==> labels[j] != labels[inst[k].lo]
    ensures j == inst[k].hi
  {
    if j < inst[k].hi {
      InstanceGroup(shifts, inst, id, k, j);
    } else if j > inst[k].hi {
      InstanceGroup(shifts, inst, id, k, inst[k].hi);
    }
  }

  /** Extending a person's records by the next instance's record. */
  lemma {:induction false} RecordsStep(shifts: seq<ShiftEntry>, person: Person, inst: seq<Instance>, k: nat)
    requires forall m :: 0 <= m < |inst| ==> inst[m].shift < |shifts| && inst[m].lo <= inst[m].hi <= |person.bursts|
    requires k < |inst|
    ensures InstanceRecords(shifts, person, inst[..k + 1]) == InstanceRecords(shifts, person, inst[..k]) +
      [RecordFor(shifts[inst[k].shift].config, inst[k].date, person.user, person.bursts[inst[k].lo..inst[k].hi])]
  {
    var longer := InstanceRecords(shifts, person, inst[..k + 1]);
    var shorter := InstanceRecords(shifts, person, inst[..k]);
    var r := RecordFor(shifts[inst[k].shift].config, inst[k].date, person.user, person.bursts[inst[k].lo..inst[k].hi]);
    assert |longer| == |shorter| + 1;
    forall m | 0 <= m < k ensures longer[m] == shorter[m] {
      assert inst[..k + 1][m] == inst[m] == inst[..k][m];
    }
    assert longer[k] == r by {
      assert inst[..k + 1][k] == inst[k];
    }
    assert longer == shorter + [r];
  }

  /** The end of the run of labels equal to `labels[i]`: one `groupby` group. */
  method RunOfLabel(labels: seq<Option<Label>>, i: nat) returns (j: nat)
    requires i < |labels|
    ensures i < j <= |labels|
    ensures forall p :: i <= p < j ==> labels[p] == labels[i]
    ensures j < |labels| ==> labels[j] != labels[i]
  {
    j := i + 1;
    while j < |labels| && labels[j] == labels[i]
      invariant i < j <= |labels|
      invariant forall p :: i <= p < j ==> labels[p] == labels[i]
      decreases |labels| - j
    {
      j := j + 1;
    }
  }

  /** One loop round of `_extract_attendance_events` (processor.py:285-317): the record of one labelled group. */
  method InstanceRecord(shifts: seq<ShiftEntry>, tag: Label, user: User, group: seq<Burst>) returns (record: Record)
    requires ShiftByCode(shifts, tag.code).Some? && StartsAscending(group)
    ensures record == RecordFor(shifts[ShiftByCode(shifts, tag.code).value].config, tag.date, user, group)
  {
    var cfg := shifts[ShiftByCode(shifts, tag.code).value].config;
    var br := DetectBreaks(cfg, group);
    var checkIn := TimeOfOpt(FindCheckIn(cfg, group));
    var breakIn := TimeOfOpt(br.breakIn);
    record := Record(tag.date, user.outputId, user.outputName, cfg.displayName,
      checkIn, DetermineCheckInStatus(cfg, checkIn),
      TimeOfOpt(br.breakOut), breakIn, DetermineBreakInStatus(cfg, breakIn),
      TimeOfOpt(FindCheckOut(cfg, group)));
  }

  /**
   * The records of one person's labelled bursts, in instance order: each
   * maximal run of equal labels is one `groupby('shift_instance_id')` group,
   * and unlabelled bursts belong to none.
   */
  method PersonRecords(shifts: seq<ShiftEntry>, person: Person, labels: seq<Option<Label>>, ghost firstId: nat)
    returns (records: seq<Record>)
    requires Progress(shifts) && DistinctCodes(shifts) && StartsAscending(person.bursts)
    requires |labels| == |person.bursts|
    requires LabelsOf(shifts, Walk(shifts, person.bursts, 0), firstId, labels)
    ensures records == InstanceRecords(shifts, person, Walk(shifts, person.bursts, 0))
  {
    ghost var w := Walk(shifts, person.bursts, 0);
    records := [];
    ghost var k := 0;
    var i := 0;
    while i < |labels|
      invariant i <= |labels| && Scanned(w, k, i)
      invariant records == InstanceRecords(shifts, person, w[..k])
      decreases |labels| - i
    {
      if labels[i].None? {
        SkipUnlabelled(shifts, w, firstId, labels, k, i);
        i := i + 1;
      } else {
        AtOpening(shifts, w, firstId, labels, k, i);
        var tag := labels[i].value;
        var j := RunOfLabel(labels, i);
        GroupEnd(shifts, w, firstId, labels, k, j);
        LookupOwnCode(shifts, w[k].shift);
        SliceAscending(person.bursts, i, j);
        var record := InstanceRecord(shifts, tag, person.user, person.bursts[i..j]);
        RecordsStep(shifts, person, w, k);
        records := records + [record];
        k := k + 1;
        i := j;
      }
    }
    assert w[..k] == w;
  }

  /**
   * `_extract_attendance_events` (processor.py:270-319) over the labels the
   * segmenter wrote. Instance numbers run on from person to person, so the
   * groups in ascending instance order are person after person, each person's
   * in walk order.
   */
  method ExtractAttendanceEvents(shifts: seq<ShiftEntry>, people: seq<Person>, labels: seq<seq<Option<Label>>>)
    returns (records: seq<Record>)
    requires Progress(shifts) && DistinctCodes(shifts)
    requires forall n :: 0 <= n < |people| ==> StartsAscending(people[n].bursts)
    requires |labels| == |people|
    requires forall n :: 0 <= n < |people| ==> |labels[n]| == |people[n].bursts|
    requires forall n, p :: 0 <= n < |people| && 0 <= p < |people[n].bursts| ==>
      labels[n][p] == LabelAt(shifts, Walk(shifts, people[n].bursts, 0), FirstIdOf(shifts, BurstsOf(people), n), p)
    ensures records == AllRecords(shifts, people)
  {
    records := [];
    var n := 0;
    while n < |people|
      invariant n <= |people|
      invariant records == AllRecords(shifts, people[..n])
    {
      var personRecords := PersonRecords(shifts, people[n], labels[n], FirstIdOf(shifts, BurstsOf(people), n));
      assert people[..n + 1][..n] == people[..n];
      records := records + personRecords;
      n := n + 1;
    }
    assert people[..n] == people;
  }

  /** The pipeline from bursts to records: segment every person, then extract every instance. */
  method ProcessPeople(shifts: seq<ShiftEntry>, people: seq<Person>) returns (records: seq<Record>)
    requires Progress(shifts) && DistinctCodes(shifts)
    requires forall n :: 0 <= n < |people| ==> StartsAscending(people[n].bursts)
    ensures records == AllRecords(shifts, people)
    ensures |records| == FirstIdOf(shifts, BurstsOf(people), |people|)
  {
    var labels := DetectShiftInstancesAll(shifts, BurstsOf(people));
    records := ExtractAttendanceEvents(shifts, people, labels);
    OneRecordPerInstance(shifts, people);
  }

  /** A time cell as the output sheet writes it: `strftime('%H:%M:%S')`, or "" when none was found. */
  function Cell(t: Option<TimeOfDay>): string
  {
    match t
    case None => ""
    case Some(v) => FormatTime(v)
  }

  /** A cell is blank exactly when no time was found, and a filled cell reads back as its time. */
  lemma CellRoundTrip(t: Option<TimeOfDay>)
    ensures Cell(t) == "" <==> t.None?
    ensures t.Some? ==> ParseTime(Cell(t)) == Ok(t.value)
  {
    if t.Some? {
      ParseFormattedTime([], t.value, []);
      var f := FormatTime(t.value);
      assert [] + f == f;
      assert f + [] == f;
    }
  }
}
