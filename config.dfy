/**
 * The rule set (config.py): the per-shift windows and anchors, the
 * lateness rules, `parse_time`, and the string derivations that
 * `load_from_yaml` applies to the rule file's text.
 */
module Config {
  import opened Wrappers
  import opened Clock
  import opened Text

  /** One shift's windows, anchors and thresholds (config.py `ShiftConfig`). */
  datatype ShiftConfig = ShiftConfig(
    name: string,
    displayName: string,
    checkInStart: TimeOfDay,
    checkInEnd: TimeOfDay,
    checkOutStart: TimeOfDay,
    checkOutEnd: TimeOfDay,
    breakSearchStart: TimeOfDay,
    breakSearchEnd: TimeOfDay,
    breakOutCheckpoint: TimeOfDay,
    midpoint: TimeOfDay,
    minimumBreakGapMinutes: int,
    shiftStart: TimeOfDay,
    checkInOnTimeCutoff: TimeOfDay,
    checkInLateThreshold: TimeOfDay,
    breakEndTime: TimeOfDay,
    breakInOnTimeCutoff: TimeOfDay,
    breakInLateThreshold: TimeOfDay)

  /** A shift code with its configuration; a table of these keeps the rule file's order A, B, C. */
  datatype ShiftEntry = ShiftEntry(code: string, config: ShiftConfig)

  /** The display identity an allow-listed user name maps to. */
  datatype User = User(outputName: string, outputId: string)

  /** The whole parsed rule set (config.py `RuleConfig`). */
  datatype RuleConfig = RuleConfig(
    burstThresholdMinutes: int,
    validUsers: map<string, User>,
    shifts: seq<ShiftEntry>,
    statusFilter: string)

  /** `ShiftConfig.is_in_check_in_range`: the check-in window, which may wrap midnight. */
  predicate IsInCheckInRange(cfg: ShiftConfig, t: TimeOfDay)
    ensures IsInCheckInRange(cfg, t) <==> TimeInRange(t, cfg.checkInStart, cfg.checkInEnd)
  {
    if cfg.checkInStart <= cfg.checkInEnd then cfg.checkInStart <= t <= cfg.checkInEnd
    else t >= cfg.checkInStart || t <= cfg.checkInEnd
  }

  /** A lateness status: "On Time", "Late", or the empty cell. */
  datatype Status = OnTime | Late | NoStatus

  /** The text written in the status column. */
  function StatusText(s: Status): string
  {
    match s
    case OnTime => "On Time"
    case Late => "Late"
    case NoStatus => ""
  }

  /** The rule shared by both lateness columns: no time gives no status. */
  function Grade(t: Option<TimeOfDay>, cutoff: TimeOfDay, threshold: TimeOfDay): Status
  {
    match t
    case None => NoStatus
    case Some(v) =>
      if v <= cutoff then OnTime
      else if v >= threshold then Late
      else NoStatus
  }

  /** `ShiftConfig.determine_check_in_status`. */
  function DetermineCheckInStatus(cfg: ShiftConfig, t: Option<TimeOfDay>): Status
  {
    Grade(t, cfg.checkInOnTimeCutoff, cfg.checkInLateThreshold)
  }

  /** `ShiftConfig.determine_break_in_status`. */
  function DetermineBreakInStatus(cfg: ShiftConfig, t: Option<TimeOfDay>): Status
  {
    Grade(t, cfg.breakInOnTimeCutoff, cfg.breakInLateThreshold)
  }

  /** For a recorded time the status is empty exactly when it lies strictly between cutoff and threshold. */
  lemma GradeBlankBand(v: TimeOfDay, cutoff: TimeOfDay, threshold: TimeOfDay)
    ensures Grade(Some(v), cutoff, threshold) == NoStatus <==> cutoff < v < threshold
    ensures Grade(Some(v), cutoff, threshold) == OnTime <==> v <= cutoff
    ensures Grade(Some(v), cutoff, threshold) == Late <==> cutoff < v && threshold <= v
  {
  }

  /** Arriving later never improves the status. */
  lemma GradeMonotone(v: TimeOfDay, w: TimeOfDay, cutoff: TimeOfDay, threshold: TimeOfDay)
    requires v <= w
    ensures Grade(Some(w), cutoff, threshold) == OnTime ==> Grade(Some(v), cutoff, threshold) == OnTime
    ensures Grade(Some(v), cutoff, threshold) == Late ==> Grade(Some(w), cutoff, threshold) == Late
  {
  }

  /** The check-in status of a recorded time, case by case, and of a blank check-in. */
  lemma CheckInStatusCases(cfg: ShiftConfig, v: TimeOfDay)
    ensures DetermineCheckInStatus(cfg, None) == NoStatus
    ensures DetermineCheckInStatus(cfg, Some(v)) == OnTime <==> v <= cfg.checkInOnTimeCutoff
    ensures DetermineCheckInStatus(cfg, Some(v)) == Late <==> cfg.checkInOnTimeCutoff < v && cfg.checkInLateThreshold <= v
    ensures DetermineCheckInStatus(cfg, Some(v)) == NoStatus <==> cfg.checkInOnTimeCutoff < v < cfg.checkInLateThreshold
  {
    GradeBlankBand(v, cfg.checkInOnTimeCutoff, cfg.checkInLateThreshold);
  }

  /** The break-in status of a recorded time, case by case, and of a blank break-in. */
  lemma BreakInStatusCases(cfg: ShiftConfig, v: TimeOfDay)
    ensures DetermineBreakInStatus(cfg, None) == NoStatus
    ensures DetermineBreakInStatus(cfg, Some(v)) == OnTime <==> v <= cfg.breakInOnTimeCutoff
    ensures DetermineBreakInStatus(cfg, Some(v)) == Late <==> cfg.breakInOnTimeCutoff < v && cfg.breakInLateThreshold <= v
    ensures DetermineBreakInStatus(cfg, Some(v)) == NoStatus <==> cfg.breakInOnTimeCutoff < v < cfg.breakInLateThreshold
  {
    GradeBlankBand(v, cfg.breakInOnTimeCutoff, cfg.breakInLateThreshold);
  }

  /** Every status is one of the three column values. */
  lemma StatusTextValues(s: Status)
    ensures StatusText(s) in {"On Time", "Late", ""}
    ensures StatusText(s) == "" <==> s == NoStatus
  {
  }

  /** The Python exceptions that abort loading the rules. */
  datatype ConfigError = ValueError | IndexError

  /** `datetime.time(h, m, s)`, which raises ValueError outside the clock's ranges. */
  function TimeValue(h: int, m: int, s: int): (r: Result<TimeOfDay, ConfigError>)
    ensures r.Ok? <==> 0 <= h < 24 && 0 <= m < 60 && 0 <= s < 60
    ensures r.Ok? ==> r.value == h * 3600 + m * 60 + s
  {
    if 0 <= h < 24 && 0 <= m < 60 && 0 <= s < 60 then Ok(Hms(h, m, s)) else Err(ValueError)
  }

  /** `parse_time`: "H:M" or "H:M:S" after stripping surrounding white space. */
  function ParseTime(s: string): Result<TimeOfDay, ConfigError>
  {
    var parts := Split(Strip(s), ":");
    if |parts| == 2 then
      match (ParseInt(parts[0]), ParseInt(parts[1]))
      case (Ok(h), Ok(m)) => TimeValue(h, m, 0)
      case _ => Err(ValueError)
    else if |parts| == 3 then
      match (ParseInt(parts[0]), ParseInt(parts[1]), ParseInt(parts[2]))
      case (Ok(h), Ok(m), Ok(sec)) => TimeValue(h, m, sec)
      case _ => Err(ValueError)
    else Err(ValueError)
  }

  /** `t.strftime('%H:%M:%S')`. */
  function FormatTime(t: TimeOfDay): string
  {
    Pad2(t / 3600) + ":" + Pad2(t % 3600 / 60) + ":" + Pad2(t % 60)
  }

  /** A text other than one or two colons (after stripping) always raises ValueError. */
  lemma ParseTimeNeedsTwoOrThreeParts(s: string)
    requires Count(Strip(s), ':') != 1 && Count(Strip(s), ':') != 2
    ensures ParseTime(s) == Err(ValueError)
  {
    SplitCount(Strip(s), ':');
  }

  lemma ParsePad2(n: nat)
    requires n < 100
    ensures ParseInt(Pad2(n)) == Ok(n)
  {
    ParseIntOfDigitRun(Pad2(n));
    Pad2Value(n);
  }

  /** `parse_time` reads back what `strftime('%H:%M:%S')` writes, also inside white space. */
  lemma {:induction false} ParseFormattedTime(pre: string, t: TimeOfDay, post: string)
    requires AllSpace(pre) && AllSpace(post)
    ensures ParseTime(pre + FormatTime(t) + post) == Ok(t)
  {
    var h, m, sec := t / 3600, t % 3600 / 60, t % 60;
    var a, b, c := Pad2(h), Pad2(m), Pad2(sec);
    var s := pre + FormatTime(t) + post;
    StripFormatted(pre, t, post);
    SplitFormatted(t);
    var parts := Split(Strip(s), ":");
    assert parts == [a, b, c];
    ParsePad2(h);
    ParsePad2(m);
    ParsePad2(sec);
    assert ParseTime(s) == TimeValue(h, m, sec);
    HmsOfParts(t);
  }

  lemma HmsOfParts(t: TimeOfDay)
    ensures TimeValue(t / 3600, t % 3600 / 60, t % 60) == Ok(t)
  {
  }

  lemma StripFormatted(pre: string, t: TimeOfDay, post: string)
    requires AllSpace(pre) && AllSpace(post)
    ensures Strip(pre + FormatTime(t) + post) == FormatTime(t)
  {
    var f := FormatTime(t);
    assert !IsSpace(f[0]) && !IsSpace(f[|f| - 1]);
    StripPadded(pre, f, post);
  }

  lemma SplitFormatted(t: TimeOfDay)
    ensures Split(FormatTime(t), ":") == [Pad2(t / 3600), Pad2(t % 3600 / 60), Pad2(t % 60)]
  {
    var a, b, c := Pad2(t / 3600), Pad2(t % 3600 / 60), Pad2(t % 60);
    SplitAtFirst(a, ":", b + ":" + c);
    SplitAtFirst(b, ":", c);
    SplitNone(c, ":");
    assert FormatTime(t) == a + ":" + (b + ":" + c);
  }

  /** `parse_time` on "HH:MM" gives that minute with zero seconds, also inside white space. */
  lemma {:induction false} ParseHourMinute(pre: string, h: nat, m: nat, post: string)
    requires h < 24 && m < 60 && AllSpace(pre) && AllSpace(post)
    ensures ParseTime(pre + Pad2(h) + ":" + Pad2(m) + post) == Ok(Hms(h, m, 0))
  {
    var f := Pad2(h) + ":" + Pad2(m);
    assert !IsSpace(f[0]) && !IsSpace(f[|f| - 1]);
    assert pre + Pad2(h) + ":" + Pad2(m) + post == pre + f + post;
    StripPadded(pre, f, post);
    SplitAtFirst(Pad2(h), ":", Pad2(m));
    SplitNone(Pad2(m), ":");
    ParsePad2(h);
    ParsePad2(m);
  }

  /**
   * The burst threshold of the rule text (config.py:106): the integer
   * between the first "<=" and the next "minutes". A text without "<="
   * raises IndexError; a non-integer there raises ValueError.
   */
  function BurstThresholdMinutes(definition: string): Result<int, ConfigError>
  {
    var parts := Split(definition, "<=");
    if |parts| < 2 then Err(IndexError)
    else
      match ParseInt(Strip(Split(parts[1], "minutes")[0]))
      case Ok(n) => Ok(n)
      case Err(_) => Err(ValueError)
  }

  /** A definition "... <= N minutes ..." yields N. */
  lemma {:induction false} BurstThresholdReadsNumber(p: string, pre: string, n: nat, post: string, q: string)
    requires '<' !in p && AllSpace(pre) && AllSpace(post)
    ensures BurstThresholdMinutes(p + "<=" + pre + NatToString(n) + post + "minutes" + q) == Ok(n)
  {
    var ds := NatToString(n);
    var tail := Split(q, "<=")[0];
    AfterMarker(p, pre, ds, post, q);
    BeforeMinutes(pre, ds, post, tail);
    ParseIntOfDigits(n);
    ThresholdOfPiece(p + "<=" + pre + ds + post + "minutes" + q, pre + ds + post + "minutes" + tail, ds, n);
  }

  /** The piece after the first "<=" runs up to the next "<=" of the trailing text. */
  lemma AfterMarker(p: string, pre: string, ds: string, post: string, q: string)
    requires '<' !in p && AllSpace(pre) && AllDigits(ds) && AllSpace(post)
    ensures var d := p + "<=" + pre + ds + post + "minutes" + q;
      |Split(d, "<=")| >= 2 && Split(d, "<=")[1] == pre + ds + post + "minutes" + Split(q, "<=")[0]
  {
    var x := pre + ds + post + "minutes";
    NumberTextAvoidsMarkers(pre, ds, post);
    assert p + "<=" + pre + ds + post + "minutes" + q == p + "<=" + (x + q);
    SecondPiece(p, x, q);
  }

  /** The text before "minutes" in that piece, stripped, is the number's digits. */
  lemma BeforeMinutes(pre: string, ds: string, post: string, tail: string)
    requires AllSpace(pre) && AllDigits(ds) && ds != [] && AllSpace(post)
    ensures Strip(Split(pre + ds + post + "minutes" + tail, "minutes")[0]) == ds
  {
    NumberTextAvoidsMarkers(pre, ds, post);
    SplitAtFirst(pre + ds + post, "minutes", tail);
    assert !IsSpace(ds[0]) && !IsSpace(ds[|ds| - 1]);
    StripPadded(pre, ds, post);
  }

  /** The threshold is read from the piece after "<=": its text before "minutes", stripped, parsed. */
  lemma ThresholdOfPiece(d: string, piece: string, ds: string, n: int)
    requires |Split(d, "<=")| >= 2 && Split(d, "<=")[1] == piece
    requires Strip(Split(piece, "minutes")[0]) == ds && ParseInt(ds) == Ok(n)
    ensures BurstThresholdMinutes(d) == Ok(n)
  {
  }

  /** Digits padded with white space hold neither '<' nor 'm', nor does the text after them end in '<'. */
  lemma NumberTextAvoidsMarkers(pre: string, ds: string, post: string)
    requires AllSpace(pre) && AllDigits(ds) && AllSpace(post)
    ensures 'm' !in pre + ds + post
    ensures '<' !in pre + ds + post + "minutes"
  {
    var body := pre + ds + post;
    forall i | 0 <= i < |body| ensures body[i] != '<' && body[i] != 'm' {
      if i < |pre| { assert body[i] == pre[i]; }
      else if i < |pre| + |ds| { assert body[i] == ds[i - |pre|]; }
      else { assert body[i] == post[i - |pre| - |ds|]; }
    }
    var x := body + "minutes";
    forall i | 0 <= i < |x| ensures x[i] != '<' {
      if i < |body| { assert x[i] == body[i]; }
    }
  }

  /** The piece after the first "<=" when neither the text before it nor `x` holds a '<'. */
  lemma SecondPiece(p: string, x: string, q: string)
    requires '<' !in p && '<' !in x
    ensures |Split(p + "<=" + (x + q), "<=")| >= 2
    ensures Split(p + "<=" + (x + q), "<=")[1] == x + Split(q, "<=")[0]
  {
    SplitAtFirst(p, "<=", x + q);
    SplitPrefix(x, q, "<=");
  }

  /** Without any "<=" the definition lookup `split('<=')[1]` raises IndexError. */
  lemma BurstThresholdWithoutMarker(definition: string)
    requires forall i: nat :: !OccursAt(definition, "<=", i)
    ensures BurstThresholdMinutes(definition) == Err(IndexError)
  {
    SplitNoOccurrence(definition, "<=");
  }

  /** The status filter of the rule text (config.py:227): its first space-separated word. */
  function StatusFilterWord(text: string): (w: string)
    ensures ' ' !in w
    ensures w <= text
  {
    SplitFirstPiece(text, ' ');
    Split(text, " ")[0]
  }

  /** A word followed by a space and anything else gives that word; a lone word gives itself. */
  lemma {:induction false} StatusFilterOfWord(w: string, rest: string)
    requires ' ' !in w
    ensures StatusFilterWord(w + " " + rest) == w
    ensures StatusFilterWord(w) == w
  {
    SplitAtFirst(w, " ", rest);
    SplitNone(w, " ");
  }

  /**
   * The default grace times of a rule without explicit cutoffs
   * (config.py:140-141 and 194-195), exactly as written:
   * `time(h, m + 4, 59)` and `time(h, m + 5, 0)` of the anchor time.
   */
  function DefaultGraceAsWritten(anchor: TimeOfDay): Result<(TimeOfDay, TimeOfDay), ConfigError>
  {
    var h, m := anchor / 3600, anchor % 3600 / 60;
    match TimeValue(h, m + 4, 59)
    case Err(e) => Err(e)
    case Ok(cutoff) =>
      match TimeValue(h, m + 5, 0)
      case Err(e) => Err(e)
      case Ok(threshold) => Ok((cutoff, threshold))
  }

  /** When the written derivation succeeds, the threshold is one second after the cutoff, so no recorded time is left without a status. */
  lemma DefaultGraceAsWrittenLeavesNoGap(anchor: TimeOfDay, v: TimeOfDay)
    requires DefaultGraceAsWritten(anchor).Ok?
    ensures DefaultGraceAsWritten(anchor).value.1 == DefaultGraceAsWritten(anchor).value.0 + 1
    ensures Grade(Some(v), DefaultGraceAsWritten(anchor).value.0, DefaultGraceAsWritten(anchor).value.1) != NoStatus
  {
  }

  /** The written derivation raises ValueError for every anchor at minute 55 or later. */
  lemma DefaultGraceAsWrittenFailsLateInTheHour(anchor: TimeOfDay)
    ensures DefaultGraceAsWritten(anchor).Err? <==> anchor % 3600 / 60 >= 55
  {
  }

  /** A shift starting at 05:55 cannot be loaded: `time(5, 60, 0)` raises ValueError. */
  lemma DefaultGraceAsWrittenCounterexample()
    ensures DefaultGraceAsWritten(Hms(5, 55, 0)) == Err(ValueError)
  {
  }

  /**
   * The default grace times as intended: the cutoff 4 minutes 59 seconds and the
   * threshold 5 minutes after the anchor's minute, carrying into the next hour
   * (and round midnight) instead of raising.
   */
  function DefaultGrace(anchor: TimeOfDay): (r: (TimeOfDay, TimeOfDay))
    ensures r.1 == (r.0 + 1) % SecondsPerDay
    ensures ClockwiseOffset(anchor - anchor % 60, r.0) == 4 * 60 + 59
  {
    var minuteStart := anchor - anchor % 60;
    ((minuteStart + 4 * 60 + 59) % SecondsPerDay, (minuteStart + 5 * 60) % SecondsPerDay)
  }

  /** Where the written derivation succeeds, the intended one gives the same times. */
  lemma DefaultGraceAgrees(anchor: TimeOfDay)
    requires DefaultGraceAsWritten(anchor).Ok?
    ensures DefaultGrace(anchor) == DefaultGraceAsWritten(anchor).value
  {
  }

  /** Away from midnight, the intended derivation leaves no recorded time without a status. */
  lemma DefaultGraceLeavesNoGap(anchor: TimeOfDay, v: TimeOfDay)
    requires anchor - anchor % 60 + 5 * 60 < SecondsPerDay
    ensures Grade(Some(v), DefaultGrace(anchor).0, DefaultGrace(anchor).1) != NoStatus
  {
  }
}
