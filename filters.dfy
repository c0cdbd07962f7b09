/**
 * The record filters in front of the pipeline (processor.py
 * `_filter_valid_status`, `_filter_valid_users`, and the dropping of rows
 * whose timestamp did not parse).
 */
module Filters {
  import opened Wrappers
  import opened Clock
  import opened Config

  /** A loaded swipe before timestamp validation: NaT is `None`. */
  datatype RawSwipe = RawSwipe(name: string, timestamp: Option<Timestamp>, status: string)

  /** One swipe of the access log. */
  datatype Swipe = Swipe(name: string, timestamp: Timestamp, status: string)

  /** A swipe of an allow-listed user with the display identity it maps to. */
  datatype MappedSwipe = MappedSwipe(swipe: Swipe, outputName: string, outputId: string)

  /** Rows whose timestamp parsed, in their order (processor.py:79-83). */
  function DropInvalidTimestamps(rows: seq<RawSwipe>): (r: seq<Swipe>)
    ensures |r| <= |rows|
    ensures forall x :: x in r <==> RawSwipe(x.name, Some(x.timestamp), x.status) in rows
  {
    if rows == [] then []
    else
      var rest := DropInvalidTimestamps(rows[1..]);
      assert forall x :: x in rows <==> x == rows[0] || x in rows[1..];
      match rows[0].timestamp
      case None => rest
      case Some(ts) => [Swipe(rows[0].name, ts, rows[0].status)] + rest
  }

  /** Rows whose status equals the configured filter, in their order (processor.py:93). */
  function FilterValidStatus(rows: seq<Swipe>, statusFilter: string): (r: seq<Swipe>)
    ensures |r| <= |rows|
    ensures forall x :: x in r <==> x in rows && x.status == statusFilter
  {
    if rows == [] then []
    else
      var rest := FilterValidStatus(rows[1..], statusFilter);
      assert forall x :: x in rows <==> x == rows[0] || x in rows[1..];
      if rows[0].status == statusFilter then [rows[0]] + rest else rest
  }

  /** Rows of allow-listed users, in their order, with their mapped name and id (processor.py:103-119). */
  function FilterValidUsers(rows: seq<Swipe>, users: map<string, User>): (r: seq<MappedSwipe>)
    ensures |r| <= |rows|
    ensures forall m :: m in r <==>
      m.swipe in rows && m.swipe.name in users && users[m.swipe.name] == User(m.outputName, m.outputId)
  {
    if rows == [] then []
    else
      var rest := FilterValidUsers(rows[1..], users);
      assert forall x :: x in rows <==> x == rows[0] || x in rows[1..];
      var name := rows[0].name;
      if name in users then [MappedSwipe(rows[0], users[name].outputName, users[name].outputId)] + rest
      else rest
  }

  /** Filtering by status keeps order: it distributes over concatenation. */
  lemma {:induction false} FilterValidStatusAppend(a: seq<Swipe>, b: seq<Swipe>, statusFilter: string)
    ensures FilterValidStatus(a + b, statusFilter) == FilterValidStatus(a, statusFilter) + FilterValidStatus(b, statusFilter)
  {
    if a != [] {
      assert (a + b)[1..] == a[1..] + b;
      FilterValidStatusAppend(a[1..], b, statusFilter);
    } else {
      assert a + b == b;
    }
  }

  /** Filtering by user keeps order: it distributes over concatenation. */
  lemma {:induction false} FilterValidUsersAppend(a: seq<Swipe>, b: seq<Swipe>, users: map<string, User>)
    ensures FilterValidUsers(a + b, users) == FilterValidUsers(a, users) + FilterValidUsers(b, users)
  {
    if a != [] {
      assert (a + b)[1..] == a[1..] + b;
      FilterValidUsersAppend(a[1..], b, users);
    } else {
      assert a + b == b;
    }
  }

  /** The mapped rows are the input rows that pass, one for one and in order. */
  lemma {:induction false} FilterValidUsersRows(rows: seq<Swipe>, users: map<string, User>)
    ensures Unmapped(FilterValidUsers(rows, users)) == KnownUsers(rows, users)
  {
    if rows != [] {
      FilterValidUsersRows(rows[1..], users);
    }
  }

  /** The swipes underneath a run of mapped rows. */
  function Unmapped(ms: seq<MappedSwipe>): (r: seq<Swipe>)
    ensures |r| == |ms|
  {
    if ms == [] then [] else [ms[0].swipe] + Unmapped(ms[1..])
  }

  /** The rows whose user name is a key of `users`, in order. */
  function KnownUsers(rows: seq<Swipe>, users: map<string, User>): seq<Swipe>
  {
    if rows == [] then []
    else (if rows[0].name in users then [rows[0]] else []) + KnownUsers(rows[1..], users)
  }

  /** A row survives both filters exactly when its status is the filter and its user is allow-listed; it carries that user's mapping. */
  lemma Survivors(rows: seq<Swipe>, cfg: RuleConfig, m: MappedSwipe)
    ensures m in FilterValidUsers(FilterValidStatus(rows, cfg.statusFilter), cfg.validUsers) <==>
      m.swipe in rows && m.swipe.status == cfg.statusFilter && m.swipe.name in cfg.validUsers &&
      cfg.validUsers[m.swipe.name] == User(m.outputName, m.outputId)
  {
  }
}
