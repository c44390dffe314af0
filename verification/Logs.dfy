/**
 `logstore.py` and `logbuffer.py`: a bounded queue of exceptional events that a task drains
 into documents, and a bounded ring of recent events that the console tails.
 */
module Logs {
  import opened Wrappers

  /** An event as queued, its long values trimmed and its rendering keys dropped. */
  datatype Event = Event(level: string, name: string, logger: string, timestamp: string, text: string)

  // -------------------------------------------------------------------- collapse

  datatype Key = Key(level: string, name: string, logger: string)

  function KeyOf(e: Event): Key {
    Key(e.level, e.name, e.logger)
  }

  /** A stored document: the first event of its kind, when it came, how many there were, and the last. */
  datatype Row = Row(first: Event, at: string, occurrences: nat, lastAt: Option<string>)

  /** `iso_now()` at each event, for those that carry no timestamp. */
  type Clock = nat -> string

  function Stamp(e: Event, now: string): string {
    if e.timestamp != "" then e.timestamp else now
  }

  /** One event more into the groups, which keep the order they were first seen in. */
  function Fold(rows: seq<Row>, e: Event, now: string): seq<Row> {
    if rows == [] then [Row(e, Stamp(e, now), 1, None)]
    else if KeyOf(rows[0].first) == KeyOf(e) then
      [rows[0].(occurrences := rows[0].occurrences + 1, lastAt := Some(Stamp(e, now)))] + rows[1..]
    else [rows[0]] + Fold(rows[1..], e, now)
  }

  function Collapse(batch: seq<Event>, clock: Clock): seq<Row>
    decreases |batch|
  {
    if batch == [] then []
    else
      var n := |batch| - 1;
      Fold(Collapse(batch[..n], clock), batch[n], clock(n))
  }

  function Count(batch: seq<Event>, key: Key): nat
    decreases |batch|
  {
    if batch == [] then 0
    else Count(batch[..|batch| - 1], key) + if KeyOf(batch[|batch| - 1]) == key then 1 else 0
  }

  function Total(rows: seq<Row>): nat {
    if rows == [] then 0 else rows[0].occurrences + Total(rows[1..])
  }

  function Keys(rows: seq<Row>): seq<Key> {
    if rows == [] then [] else [KeyOf(rows[0].first)] + Keys(rows[1..])
  }

  /** The distinct keys of a batch, in order of first appearance. */
  function FirstSeen(batch: seq<Event>): seq<Key>
    decreases |batch|
  {
    if batch == [] then []
    else
      var before, key := FirstSeen(batch[..|batch| - 1]), KeyOf(batch[|batch| - 1]);
      if key in before then before else before + [key]
  }

  lemma {:induction false} KeysAt(rows: seq<Row>)
    ensures |Keys(rows)| == |rows| && forall i | 0 <= i < |rows| :: Keys(rows)[i] == KeyOf(rows[i].first)
  {
    if rows != [] { KeysAt(rows[1..]); }
  }

  lemma {:induction false} FoldKeys(rows: seq<Row>, e: Event, now: string)
    ensures Keys(Fold(rows, e, now)) == if KeyOf(e) in Keys(rows) then Keys(rows) else Keys(rows) + [KeyOf(e)]
    ensures Total(Fold(rows, e, now)) == Total(rows) + 1
  {
    var after := Fold(rows, e, now);
    if rows == [] {
      assert after[1..] == [];
    } else {
      assert after[0] == after[0] && after == [after[0]] + after[1..];
      if KeyOf(rows[0].first) == KeyOf(e) {
        assert after[1..] == rows[1..];
      } else {
        FoldKeys(rows[1..], e, now);
        assert after[1..] == Fold(rows[1..], e, now);
      }
    }
  }

  lemma {:induction false} FoldRows(rows: seq<Row>, e: Event, now: string)
    requires forall i, j | 0 <= i < j < |rows| :: KeyOf(rows[i].first) != KeyOf(rows[j].first)
    ensures var after := Fold(rows, e, now);
      && |rows| <= |after| <= |rows| + 1
      && (forall i | 0 <= i < |rows| ::
            after[i] == if KeyOf(rows[i].first) == KeyOf(e)
                        then rows[i].(occurrences := rows[i].occurrences + 1, lastAt := Some(Stamp(e, now))) else rows[i])
      && (|after| > |rows| ==> after[|rows|] == Row(e, Stamp(e, now), 1, None))
      && (|after| > |rows| <==> forall i | 0 <= i < |rows| :: KeyOf(rows[i].first) != KeyOf(e))
  {
    if rows != [] && KeyOf(rows[0].first) != KeyOf(e) { FoldRows(rows[1..], e, now); }
  }

  /** Where a key first stands, and where it last does. */
  predicate IsFirst(batch: seq<Event>, i: nat) {
    i < |batch| && forall j | 0 <= j < i :: KeyOf(batch[j]) != KeyOf(batch[i])
  }

  predicate IsLast(batch: seq<Event>, i: nat) {
    i < |batch| && forall j | i < j < |batch| :: KeyOf(batch[j]) != KeyOf(batch[i])
  }

  /** The first event of the row's kind, and its time. */
  predicate Begins(batch: seq<Event>, clock: Clock, row: Row, i: nat) {
    IsFirst(batch, i) && batch[i] == row.first && row.at == (if batch[i].timestamp == "" then clock(i) else batch[i].timestamp)
  }

  /** The time of the last event of the row's kind. */
  predicate Ends(batch: seq<Event>, clock: Clock, row: Row, i: nat) {
    && IsLast(batch, i) && KeyOf(batch[i]) == KeyOf(row.first)
    && row.lastAt == Some(if batch[i].timestamp == "" then clock(i) else batch[i].timestamp)
  }

  /** What one row says about the batch. */
  predicate Tells(batch: seq<Event>, clock: Clock, row: Row) {
    && row.occurrences == Count(batch, KeyOf(row.first)) > 0
    && (exists i: nat :: i < |batch| && Begins(batch, clock, row, i))
    && (row.lastAt == None <==> row.occurrences == 1)
    && (row.lastAt.Some? ==> exists i: nat :: i < |batch| && Ends(batch, clock, row, i))
  }

  lemma {:induction false} CollapseKeys(batch: seq<Event>, clock: Clock)
    ensures Keys(Collapse(batch, clock)) == FirstSeen(batch)
    ensures Total(Collapse(batch, clock)) == |batch|
    decreases |batch|
  {
    if batch != [] {
      var n := |batch| - 1;
      CollapseKeys(batch[..n], clock);
      FoldKeys(Collapse(batch[..n], clock), batch[n], clock(n));
    }
  }

  lemma {:induction false} FirstSeenIs(batch: seq<Event>)
    ensures forall i, j | 0 <= i < j < |FirstSeen(batch)| :: FirstSeen(batch)[i] != FirstSeen(batch)[j]
    ensures forall key :: key in FirstSeen(batch) <==> Count(batch, key) > 0
    decreases |batch|
  {
    if batch != [] { FirstSeenIs(batch[..|batch| - 1]); }
  }

  lemma {:induction false} CountZero(batch: seq<Event>, key: Key)
    ensures Count(batch, key) == 0 <==> forall i | 0 <= i < |batch| :: KeyOf(batch[i]) != key
    decreases |batch|
  {
    if batch != [] {
      CountZero(batch[..|batch| - 1], key);
      assert forall i | 0 <= i < |batch| - 1 :: batch[..|batch| - 1][i] == batch[i];
    }
  }

  lemma BeginsStill(batch: seq<Event>, clock: Clock, row: Row, i: nat)
    requires batch != [] && Begins(batch[..|batch| - 1], clock, row, i)
    ensures Begins(batch, clock, row, i)
  {
  }

  lemma EndsStill(batch: seq<Event>, clock: Clock, row: Row, i: nat)
    requires batch != [] && Ends(batch[..|batch| - 1], clock, row, i)
    requires KeyOf(batch[|batch| - 1]) != KeyOf(row.first)
    ensures Ends(batch, clock, row, i)
  {
  }

  lemma TellsStill(batch: seq<Event>, clock: Clock, row: Row)
    requires batch != [] && Tells(batch[..|batch| - 1], clock, row)
    requires KeyOf(batch[|batch| - 1]) != KeyOf(row.first)
    ensures Tells(batch, clock, row)
  {
    hide Begins, Ends;
    var n := |batch| - 1;
    var i: nat :| i < n && Begins(batch[..n], clock, row, i);
    BeginsStill(batch, clock, row, i);
    if row.lastAt.Some? {
      var k: nat :| k < n && Ends(batch[..n], clock, row, k);
      EndsStill(batch, clock, row, k);
    }
  }

  lemma TellsOneMore(batch: seq<Event>, clock: Clock, row: Row)
    requires batch != [] && Tells(batch[..|batch| - 1], clock, row)
    requires KeyOf(batch[|batch| - 1]) == KeyOf(row.first)
    ensures Tells(batch, clock, row.(occurrences := row.occurrences + 1, lastAt := Some(Stamp(batch[|batch| - 1], clock(|batch| - 1)))))
  {
    var n := |batch| - 1;
    var after := row.(occurrences := row.occurrences + 1, lastAt := Some(Stamp(batch[n], clock(n))));
    var i: nat :| i < n && Begins(batch[..n], clock, row, i);
    BeginsStill(batch, clock, row, i);
    assert Begins(batch, clock, after, i);
    assert Ends(batch, clock, after, n);
  }

  lemma TellsNew(batch: seq<Event>, clock: Clock)
    requires batch != [] && Count(batch[..|batch| - 1], KeyOf(batch[|batch| - 1])) == 0
    ensures Tells(batch, clock, Row(batch[|batch| - 1], Stamp(batch[|batch| - 1], clock(|batch| - 1)), 1, None))
  {
    var n := |batch| - 1;
    CountZero(batch[..n], KeyOf(batch[n]));
    assert forall i | 0 <= i < n :: batch[..n][i] == batch[i];
    assert Begins(batch, clock, Row(batch[n], Stamp(batch[n], clock(n)), 1, None), n);
  }

  /**
   One row per kind of event, in the order the kinds were first seen. Each row counts its
   kind in the batch and carries its first event and the time of its last, and the counts
   add up to the batch.
   */
  lemma {:induction false} CollapseIsExact(batch: seq<Event>, clock: Clock)
    ensures Keys(Collapse(batch, clock)) == FirstSeen(batch)
    ensures Total(Collapse(batch, clock)) == |batch|
    ensures forall row | row in Collapse(batch, clock) :: Tells(batch, clock, row)
    decreases |batch|
  {
    CollapseKeys(batch, clock);
    hide Count, Tells, FirstSeen, Total, Fold;
    if batch != [] {
      var n := |batch| - 1;
      var before := Collapse(batch[..n], clock);
      CollapseIsExact(batch[..n], clock);
      FirstSeenIs(batch[..n]);
      KeysAt(before);
      FoldRows(before, batch[n], clock(n));
      var after := Fold(before, batch[n], clock(n));
      forall i | 0 <= i < |after| ensures Tells(batch, clock, after[i]) {
        if i < |before| {
          assert before[i] in before;
          if KeyOf(before[i].first) == KeyOf(batch[n]) {
            TellsOneMore(batch, clock, before[i]);
          } else {
            TellsStill(batch, clock, before[i]);
          }
        } else {
          assert KeyOf(batch[n]) !in Keys(before);
          TellsNew(batch, clock);
        }
      }
    }
  }

  method CollapseLoop(batch: seq<Event>, clock: Clock) returns (rows: seq<Row>)
    ensures rows == Collapse(batch, clock)
  {
    rows := [];
    for n := 0 to |batch|
      invariant rows == Collapse(batch[..n], clock)
    {
      hide Fold;
      assert batch[..n + 1][..n] == batch[..n];
      rows := Fold(rows, batch[n], clock(n));
    }
    assert batch[..|batch|] == batch;
  }

  // ------------------------------------------------------------------------ queue

  const KEEP_LEVELS := {"warning", "warn", "error", "critical", "exception"}
  const DRAIN_BATCH := 100

  /** The positions in `offered` that `taken` came from, in order, all before `end`. */
  ghost predicate Drawn(offered: seq<Event>, taken: seq<Event>, at: seq<nat>, end: nat) {
    && |at| == |taken| && end <= |offered|
    && (forall i | 0 <= i < |at| :: at[i] < end && offered[at[i]] == taken[i])
    && (forall i, j | 0 <= i < j < |at| :: at[i] < at[j])
  }

  function From(first: nat, n: nat): (r: seq<nat>)
    ensures |r| == n && forall i | 0 <= i < n :: r[i] == first + i
  {
    seq(n, i requires 0 <= i < n => first + i)
  }

  lemma DrawnMore(offered: seq<Event>, taken: seq<Event>, at: seq<nat>, first: nat, n: nat)
    requires Drawn(offered, taken, at, first) && first + n <= |offered|
    ensures Drawn(offered, taken + offered[first..][..n], at + From(first, n), first + n)
  {
    var more := offered[first..][..n];
    assert forall i | 0 <= i < n :: more[i] == offered[first + i];
  }

  /** `LogStore`: `offered`, `popped` and the position each popped event had are what the proof remembers. */
  class LogStore {
    const capacity: nat
    var queue: seq<Event>
    var dropped: nat
    ghost var offered: seq<Event>
    ghost var popped: seq<Event>
    ghost var at: seq<nat>

    /**
     Nothing is lost track of: what was offered and kept is popped, queued or counted as
     dropped; the queue is the newest stretch of it; and events are popped in order.
     */
    ghost predicate Valid()
      reads this
    {
      && |queue| <= capacity
      && |offered| == |popped| + dropped + |queue|
      && offered[|offered| - |queue|..] == queue
      && Drawn(offered, popped, at, |offered| - |queue|)
    }

    constructor (capacity: nat)
      ensures Valid() && this.capacity == capacity && offered == [] && popped == [] && dropped == 0
    {
      this.capacity := capacity;
      queue, dropped, offered, popped, at := [], 0, [], [], [];
    }

    /** `level` is the event's level in lower case. */
    method Offer(e: Event, level: string)
      requires Valid()
      modifies this
      ensures Valid() && popped == old(popped)
      ensures offered == if level in KEEP_LEVELS then old(offered) + [e] else old(offered)
      ensures level !in KEEP_LEVELS ==> queue == old(queue) && dropped == old(dropped)
      ensures level in KEEP_LEVELS ==>
        if |old(queue)| < capacity then queue == old(queue) + [e] && dropped == old(dropped)
        else |queue| == capacity && dropped == old(dropped) + 1
    {
      if level !in KEEP_LEVELS {
        return;
      }
      if |queue| == capacity {
        dropped := dropped + 1;
      }
      queue := Newest(queue + [e], capacity);
      offered := offered + [e];
      assert forall i | 0 <= i < |at| :: offered[at[i]] == old(offered)[at[i]];
    }

    /** `flush` up to the writing: the oldest 100 events, folded into rows. */
    method Flush(connected: bool, clock: Clock) returns (rows: seq<Row>)
      requires Valid()
      modifies this
      ensures Valid() && offered == old(offered) && dropped == old(dropped)
      ensures var n := if !connected then 0 else if |old(queue)| < 100 then |old(queue)| else 100;
        && queue == old(queue)[n..] && popped == old(popped) + old(queue)[..n]
        && rows == Collapse(old(queue)[..n], clock)
    {
      if !connected || queue == [] {
        assert popped + queue[..0] == popped;
        return [];
      }
      var n := if |queue| < DRAIN_BATCH then |queue| else DRAIN_BATCH;
      var batch := queue[..n];
      ghost var first := |offered| - |queue|;
      DrawnMore(offered, popped, at, first, n);
      hide Drawn;
      assert offered[first..][..n] == batch && offered[first..][n..] == queue[n..];
      queue := queue[n..];
      popped := popped + batch;
      at := at + From(first, n);
      rows := CollapseLoop(batch, clock);
    }
  }

  /** What `deque(maxlen=n)` keeps. */
  function Newest<T>(s: seq<T>, n: nat): seq<T> {
    if |s| > n then s[|s| - n..] else s
  }

  lemma NewestOfMore<T>(all: seq<T>, held: seq<T>, x: T, n: nat)
    requires |held| <= |all| && held == all[|all| - |held|..] && |held| <= n
    ensures var kept := Newest(held + [x], n);
      |kept| <= |all| + 1 && kept == (all + [x])[|all| + 1 - |kept|..] && |kept| == if |held| < n then |held| + 1 else n
  {
    var kept := Newest(held + [x], n);
    assert held + [x] == (all + [x])[|all| - |held|..];
    if |held| == n {
      assert kept == (held + [x])[1..];
    }
  }

  // ------------------------------------------------------------------------- ring

  /** A buffered event: its sequence number, which the event's own `seq` overrides, and its fields. */
  datatype Entry = Entry(number: int, event: Event)

  datatype Query = Query(limit: int, floor: nat, needle: string, logger: string, since: Option<int>)

  function Severity(level: string): nat {
    if level == "debug" then 10
    else if level == "info" then 20
    else if level == "warning" || level == "warn" then 30
    else if level == "error" || level == "exception" then 40
    else if level == "critical" then 50
    else 0
  }

  predicate Contains(hay: string, needle: string) {
    exists i :: 0 <= i <= |hay| && needle <= hay[i..]
  }

  predicate Passes(q: Query, e: Event) {
    && (q.floor == 0 || Severity(e.level) >= q.floor)
    && (q.logger == "" || Contains(e.logger, q.logger))
    && (q.needle == "" || Contains(e.text, q.needle))
  }

  predicate Newer(q: Query, x: Entry) {
    q.since.None? || x.number > q.since.value
  }

  /** Newest first, everything that matches. */
  function Matching(entries: seq<Entry>, q: Query): seq<Entry>
    decreases |entries|
  {
    if entries == [] then []
    else
      var n := |entries| - 1;
      (if Newer(q, entries[n]) && Passes(q, entries[n].event) then [entries[n]] else []) + Matching(entries[..n], q)
  }

  function Take<T>(s: seq<T>, n: nat): seq<T> {
    if |s| > n then s[..n] else s
  }

  /** The limit `tail` applies: it looks only after taking an event, so it takes at least one. */
  function Limit(q: Query): nat {
    if q.limit < 1 then 1 else q.limit
  }

  /** The loop of `tail` with `taken` events selected: it stops at the first entry that is not newer. */
  function Scan(entries: seq<Entry>, q: Query, taken: nat): seq<Entry>
    decreases |entries|
  {
    if entries == [] then []
    else
      var n := |entries| - 1;
      if !Newer(q, entries[n]) then []
      else if !Passes(q, entries[n].event) then Scan(entries[..n], q, taken)
      else if taken + 1 >= q.limit then [entries[n]]
      else [entries[n]] + Scan(entries[..n], q, taken + 1)
  }

  /** No entry that is newer than the mark stands behind one that is not. */
  predicate Separated(entries: seq<Entry>, mark: int) {
    forall i, j :: 0 <= i < j < |entries| && entries[j].number <= mark ==> entries[i].number <= mark
  }

  lemma {:induction false} NothingNewer(entries: seq<Entry>, q: Query)
    requires q.since.Some? && forall i | 0 <= i < |entries| :: entries[i].number <= q.since.value
    ensures Matching(entries, q) == []
    decreases |entries|
  {
    if entries != [] { NothingNewer(entries[..|entries| - 1], q); }
  }

  lemma FrontIsSeparated(entries: seq<Entry>, mark: int)
    requires entries != [] && Separated(entries, mark)
    ensures Separated(entries[..|entries| - 1], mark)
    ensures entries[|entries| - 1].number <= mark ==> forall i | 0 <= i < |entries| - 1 :: entries[i].number <= mark
  {
  }

  lemma MatchingMore(entries: seq<Entry>, q: Query)
    requires entries != []
    ensures var n := |entries| - 1;
      Matching(entries, q) == (if Newer(q, entries[n]) && Passes(q, entries[n].event) then [entries[n]] else []) + Matching(entries[..n], q)
  {
    hide Passes, Newer;
  }

  lemma {:induction false} ScanIsFilter(entries: seq<Entry>, q: Query, taken: nat)
    requires q.since.Some? ==> Separated(entries, q.since.value)
    requires taken < Limit(q)
    ensures Scan(entries, q, taken) == Take(Matching(entries, q), Limit(q) - taken)
    decreases |entries|
  {
    hide Passes, Contains;
    if entries != [] {
      var n := |entries| - 1;
      if q.since.Some? { FrontIsSeparated(entries, q.since.value); }
      MatchingMore(entries, q);
      hide Separated, Matching;
      if !Newer(q, entries[n]) {
        NothingNewer(entries[..n], q);
      } else if !Passes(q, entries[n].event) {
        ScanIsFilter(entries[..n], q, taken);
      } else if taken + 1 < q.limit {
        ScanIsFilter(entries[..n], q, taken + 1);
      }
    }
  }

  /** What `tail` looks for: newer than the mark, at or above the level, from the logger and with the text asked for. */
  ghost predicate Sought(q: Query, x: Entry) {
    && (q.since.Some? ==> x.number > q.since.value)
    && (q.floor > 0 ==> Severity(x.event.level) >= q.floor)
    && (exists before, after :: x.event.logger == before + q.logger + after)
    && (exists before, after :: x.event.text == before + q.needle + after)
  }

  lemma ContainsMeans(hay: string, needle: string)
    ensures Contains(hay, needle) <==> exists before, after :: hay == before + needle + after
  {
    if Contains(hay, needle) {
      var i :| 0 <= i <= |hay| && needle <= hay[i..];
      assert hay == hay[..i] + needle + hay[i..][|needle|..];
    }
    if before, after :| hay == before + needle + after {
      assert hay[|before|..] == needle + after;
    }
  }

  /** The filter finds exactly what is sought, each entry as often as it is in the snapshot. */
  lemma {:induction false} MatchingIsSought(entries: seq<Entry>, q: Query, x: Entry)
    ensures multiset(Matching(entries, q))[x] == if Sought(q, x) then multiset(entries)[x] else 0
    decreases |entries|
  {
    if entries != [] {
      var n := |entries| - 1;
      assert entries == entries[..n] + [entries[n]];
      MatchingIsSought(entries[..n], q, x);
      ContainsMeans(x.event.logger, q.logger);
      ContainsMeans(x.event.text, q.needle);
      assert x.event.logger == x.event.logger + "" + "" && x.event.text == x.event.text + "" + "";
    }
  }

  /** Asking for a level gives it and everything worse, under either of its names; a name nobody knows is below all. */
  lemma LevelsNest(level: string)
    ensures Severity("debug") > 0 && (Severity(level) >= Severity("debug") <==> level in {"debug", "info", "warning", "warn", "error", "exception", "critical"})
    ensures Severity(level) >= Severity("info") <==> level in {"info", "warning", "warn", "error", "exception", "critical"}
    ensures Severity("warn") == Severity("warning") && Severity("exception") == Severity("error")
    ensures Severity(level) >= Severity("warning") <==> level in {"warning", "warn", "error", "exception", "critical"}
    ensures Severity(level) >= Severity("error") <==> level in {"error", "exception", "critical"}
    ensures Severity(level) >= Severity("critical") <==> level == "critical"
  {
  }

  /** Filters nothing but by the mark. */
  function Everything(mark: int, limit: int): Query {
    Query(limit, 0, "", "", Some(mark))
  }

  lemma {:induction false} ScanStops(entries: seq<Entry>, mark: int, limit: int, taken: nat, j: nat)
    requires j < |entries| && entries[j].number <= mark
    ensures |Scan(entries, Everything(mark, limit), taken)| <= |Matching(entries[j..], Everything(mark, limit))|
    decreases |entries|
  {
    var q, n := Everything(mark, limit), |entries| - 1;
    if j < n && Newer(q, entries[n]) {
      ScanStops(entries[..n], mark, limit, taken, j);
      ScanStops(entries[..n], mark, limit, taken + 1, j);
      assert entries[j..][..|entries[j..]| - 1] == entries[..n][j..];
    }
  }

  lemma BackIs<T>(s: seq<T>, j: nat)
    requires j < |s|
    ensures var n := |s| - 1;
      s[..n][..j] == s[..j] && s[j..][..n - j] == s[..n][j..] && s[j..][n - j] == s[n] && |s[j..]| - 1 == n - j
  {
  }

  lemma {:induction false} MatchingSplits(entries: seq<Entry>, q: Query, j: nat)
    requires j <= |entries|
    ensures Matching(entries, q) == Matching(entries[j..], q) + Matching(entries[..j], q)
    decreases |entries|
  {
    if j == |entries| {
      assert entries[..j] == entries && Matching(entries[j..], q) == [];
    } else {
      var n := |entries| - 1;
      hide *;
      BackIs(entries, j);
      MatchingSplits(entries[..n], q, j);
      MatchingMore(entries, q);
      MatchingMore(entries[j..], q);
    }
  }

  lemma {:induction false} SomethingNewer(entries: seq<Entry>, q: Query, i: nat)
    requires i < |entries| && Newer(q, entries[i]) && Passes(q, entries[i].event)
    ensures Matching(entries, q) != []
    decreases |entries|
  {
    if i < |entries| - 1 { SomethingNewer(entries[..|entries| - 1], q, i); }
  }

  ghost predicate BreakIsHarmless(entries: seq<Entry>, mark: int) {
    forall q: Query | q.since == Some(mark) :: Scan(entries, q, 0) == Take(Matching(entries, q), Limit(q))
  }

  /** Stopping early gives what filtering the whole snapshot gives, for every query, if and only if the mark separates old from new. */
  lemma EarlyBreakIffSeparated(entries: seq<Entry>, mark: int)
    ensures BreakIsHarmless(entries, mark) <==> Separated(entries, mark)
  {
    if Separated(entries, mark) {
      forall q: Query | q.since == Some(mark) ensures Scan(entries, q, 0) == Take(Matching(entries, q), Limit(q)) {
        ScanIsFilter(entries, q, 0);
      }
    } else {
      var i, j :| 0 <= i < j < |entries| && entries[j].number <= mark && entries[i].number > mark;
      var q := Everything(mark, |Matching(entries, Everything(mark, 0))| + 1);
      LimitIsNoFilter(entries, mark, 0, q.limit);
      ScanStops(entries, mark, q.limit, 0, j);
      MatchingSplits(entries, q, j);
      assert entries[..j][i] == entries[i];
      SomethingNewer(entries[..j], q, i);
      assert q.since == Some(mark) && Scan(entries, q, 0) != Take(Matching(entries, q), Limit(q));
    }
  }

  /** It fails: an event that brought a low number of its own hides a newer-numbered one behind it. */
  lemma OwnNumberHidesAnother(e: Event)
    ensures var entries, q := [Entry(5, e), Entry(1, e)], Everything(2, 10);
      !Separated(entries, 2) && Scan(entries, q, 0) == [] && Take(Matching(entries, q), Limit(q)) == [Entry(5, e)]
  {
    var entries, q := [Entry(5, e), Entry(1, e)], Everything(2, 10);
    assert entries[0].number > 2 >= entries[1].number;
    assert entries[..1] == [Entry(5, e)] && entries[..1][..0] == [];
    assert Passes(q, e);
    assert Matching(entries[..1], q) == [Entry(5, e)] + Matching(entries[..1][..0], q) == [Entry(5, e)];
    assert Matching(entries, q) == [] + Matching(entries[..1], q);
  }

  lemma {:induction false} LimitIsNoFilter(entries: seq<Entry>, mark: int, a: int, b: int)
    ensures Matching(entries, Everything(mark, a)) == Matching(entries, Everything(mark, b))
    decreases |entries|
  {
    if entries != [] { LimitIsNoFilter(entries[..|entries| - 1], mark, a, b); }
  }

  /** One turn of the loop of `tail`, from the newest entry not yet looked at. */
  lemma ScanOneLess(entries: seq<Entry>, i: nat, q: Query, selected: seq<Entry>)
    requires i < |entries|
    ensures selected + Scan(entries[..i + 1], q, |selected|) ==
      if !Newer(q, entries[i]) then selected
      else if !Passes(q, entries[i].event) then selected + Scan(entries[..i], q, |selected|)
      else if |selected| + 1 >= q.limit then selected + [entries[i]]
      else (selected + [entries[i]]) + Scan(entries[..i], q, |selected| + 1)
  {
    hide Passes, Newer;
    assert entries[..i + 1][..i] == entries[..i];
    assert selected + [] == selected;
  }

  /** Every number is the position it was added at. */
  predicate Numbered(added: seq<Entry>) {
    forall i | 0 <= i < |added| :: added[i].number == i + 1
  }

  lemma NumberedMore(added: seq<Entry>, x: Entry)
    requires Numbered(added)
    ensures x.number == |added| + 1 ==> Numbered(added + [x])
  {
  }

  /** `LogBuffer`; `added` is everything ever added, as it was numbered. */
  class LogBuffer {
    const capacity: nat
    var entries: seq<Entry>
    var number: nat
    ghost var added: seq<Entry>
    ghost var plain: bool

    /** The ring holds the newest stretch; numbers ascend unless some event brought its own. */
    ghost predicate Valid()
      reads this
    {
      && |entries| <= capacity && |entries| <= |added|
      && entries == added[|added| - |entries|..]
      && |added| == number
      && (plain ==> Numbered(added))
    }

    constructor (capacity: nat)
      ensures Valid() && this.capacity == capacity && added == [] && plain
    {
      this.capacity := capacity;
      entries, number, added, plain := [], 0, [], true;
    }

    /** `own` is the event's own `seq` field, if it has one. */
    method Add(e: Event, own: Option<int>)
      requires Valid()
      modifies this
      ensures Valid() && plain == (old(plain) && (own.None? || own == Some(old(number) + 1)))
      ensures added == old(added) + [Entry(if own.Some? then own.value else old(number) + 1, e)]
      ensures |entries| == if |old(entries)| < capacity then |old(entries)| + 1 else capacity
    {
      number := number + 1;
      var entry := Entry(if own.Some? then own.value else number, e);
      NewestOfMore(added, entries, entry, capacity);
      if plain { NumberedMore(added, entry); }
      hide Newest, Numbered;
      entries := Newest(entries + [entry], capacity);
      added := added + [entry];
      plain := plain && entry.number == number;
    }

    method Clear()
      requires Valid()
      modifies this
      ensures Valid() && entries == [] && number == old(number) && plain == old(plain)
    {
      entries := [];
    }

    /** `tail`; whatever was added, on events without a `seq` of their own it is filter and truncate. */
    method Tail(q: Query) returns (selected: seq<Entry>)
      requires Valid()
      ensures selected == Scan(entries, q, 0)
      ensures plain || q.since.None? ==> selected == Take(Matching(entries, q), Limit(q))
    {
      if plain || q.since.None? {
        ScanIsFilter(entries, q, 0);
      }
      selected := [];
      var i := |entries|;
      assert entries[..i] == entries;
      while i > 0
        invariant 0 <= i <= |entries|
        invariant |selected| == 0 || |selected| < q.limit
        invariant Scan(entries, q, 0) == selected + Scan(entries[..i], q, |selected|)
      {
        hide Passes, Newer, Matching, Scan;
        i := i - 1;
        ScanOneLess(entries, i, q, selected);
        if !Newer(q, entries[i]) {
          assert selected + [] == selected;
          break;
        }
        if !Passes(q, entries[i].event) {
          continue;
        }
        selected := selected + [entries[i]];
        if |selected| >= q.limit {
          break;
        }
      }
    }
  }
}
