/** The walk as the ingestor runs it: on month keys compared as strings and entries dated by instants. */
module BackfillIngestors {
  import opened Wrappers
  import opened Months
  import opened Strings
  import opened ArchiveWalk

  type When = t: Instant | OnCalendar(t) witness Instant(0, 1, 1, 0)

  datatype FeedEntry = FeedEntry(published: Option<When>, id: Option<string>)

  function MonthOf(t: When): nat {
    12 * t.year + t.month - 1
  }

  function Dated(feed: seq<FeedEntry>): (entries: seq<Entry>)
    ensures |entries| == |feed|
  {
    seq(|feed|, i requires 0 <= i < |feed| =>
      Entry(if feed[i].published.Some? then Some(MonthOf(feed[i].published.value)) else None, feed[i].id))
  }

  predicate IsKey(key: string) {
    Parse(key).Some?
  }

  lemma WithinBoundsIsTheMonth(key: string, t: When)
    requires IsKey(key)
    ensures (!Before(t, Bounds(key).0) && Before(t, Bounds(key).1)) <==> MonthOf(t) == Ordinal(key).value
  {
    BoundsHoldExactlyTheirMonth(key, t);
    ParseFormat(t.year, t.month);
  }

  lemma KeysCompareAsMonths(a: string, b: string)
    requires IsKey(a) && IsKey(b)
    ensures Less(a, b) <==> Ordinal(a).value < Ordinal(b).value
  {
    MonthHasOneKey(a);
    MonthHasOneKey(b);
    StringOrderIsCalendarOrder(Ordinal(a).value, Ordinal(b).value);
  }

  lemma WalkStops(show: Show, cursor: int, floor: int, limit: nat, budget: nat, entries: seq<Entry>)
    requires limit == 0 || cursor < floor || budget == 0
    ensures WalkMonths(show, cursor, floor, limit, budget, entries) == (show, cursor, budget)
  {
  }

  class BackfillIngestor {
    var cursor: Option<string>
    var anchor: Option<string>
    var complete: bool
    var episodes: set<string>
    ghost var visits: seq<Visit>

    predicate Valid()
      reads this
    {
      (cursor.Some? ==> IsKey(cursor.value)) && (anchor.Some? ==> IsKey(anchor.value))
    }

    ghost function State(): Show
      reads this
      requires Valid()
    {
      Show(if cursor.Some? then Some(Ordinal(cursor.value).value) else None,
           if anchor.Some? then Some(Ordinal(anchor.value).value) else None,
           complete, episodes, visits)
    }

    method IngestMonth(feed: seq<FeedEntry>, key: string, budget: nat) returns (created: nat)
      requires IsKey(key)
      modifies this`episodes
      ensures (episodes, created) == ArchiveWalk.IngestMonth(Dated(feed), Ordinal(key).value, old(episodes), budget)
    {
      created := 0;
      var (start, end) := Bounds(key);
      ghost var month, entries := Ordinal(key).value, Dated(feed);
      for i := 0 to |feed|
        invariant created <= budget
        invariant var (after, more) := ArchiveWalk.IngestMonth(entries[i..], month, episodes, budget - created);
          ArchiveWalk.IngestMonth(entries, month, old(episodes), budget) == (after, more + created)
      {
        var entry := feed[i];
        assert entries[i..][1..] == entries[i + 1..];
        if entry.published.Some? {
          WithinBoundsIsTheMonth(key, entry.published.value);
        }
        if entry.published.None? || !(!Before(entry.published.value, start) && Before(entry.published.value, end)) {
          continue;
        }
        if created >= budget {
          break;
        }
        if entry.id.None? || entry.id.value in episodes {
          continue;
        }
        episodes := episodes + {entry.id.value};
        created := created + 1;
      }
    }

    /** Month after month from `start` down to the floor, at most `limit` of them, while budget is left. */
    method WalkBack(start: string, floor: string, limit: nat, budget: nat, feed: seq<FeedEntry>) returns (at: string, left: nat)
      requires Valid() && IsKey(start) && IsKey(floor) && Ordinal(floor).value > 0
      modifies this`episodes, this`visits
      ensures IsKey(at)
      ensures (State(), Ordinal(at).value, left) ==
              WalkMonths(old(State()), Ordinal(start).value, Ordinal(floor).value, limit, budget, Dated(feed))
    {
      hide Parse, Less, PreviousMonth, Ordinal, Ids, Fits, ArchiveWalk.IngestMonth, WalkMonths, Dated;
      at, left := start, budget;
      KeysCompareAsMonths(at, floor);
      ghost var bottom := Ordinal(floor).value;
      for done := 0 to limit
        invariant IsKey(at) && (Less(at, floor) <==> Ordinal(at).value < bottom)
        invariant WalkMonths(old(State()), Ordinal(start).value, bottom, limit, budget, Dated(feed)) ==
                  WalkMonths(State(), Ordinal(at).value, bottom, limit - done, left, Dated(feed))
      {
        if Less(at, floor) || left == 0 {
          WalkStops(State(), Ordinal(at).value, bottom, limit - done, left, Dated(feed));
          return;
        }
        ghost var month := Ordinal(at).value;
        ghost var next, rest := WalkUnfolds(State(), month, bottom, limit - done, left, Dated(feed));
        visits := visits + [Visit(month, Dated(feed), Fits(Dated(feed), month, episodes, left))];
        IngestCountsGrowth(Dated(feed), month, episodes, left);
        var created := IngestMonth(feed, at, left);
        left := left - created;
        assert State() == next && left == rest;
        at := OneBack(at, floor);
      }
      WalkStops(State(), Ordinal(at).value, bottom, 0, left, Dated(feed));
    }

    method OneBack(at: string, floor: string) returns (back: string)
      requires IsKey(at) && IsKey(floor) && Ordinal(at).value > 0
      ensures IsKey(back) && Ordinal(back).value == Ordinal(at).value - 1
      ensures Less(back, floor) <==> Ordinal(back).value < Ordinal(floor).value
    {
      PreviousMonthIsOneBack(at);
      back := PreviousMonth(at);
      KeysCompareAsMonths(back, floor);
    }

    /** Where this show's walk is measured from, and where it resumes. */
    method Position(now: string, months: nat) returns (from: string, floor: string, at: string)
      requires Valid() && IsKey(now)
      requires months < Ordinal(if anchor.Some? then anchor.value else now).value
      ensures IsKey(from) && IsKey(floor) && IsKey(at) && Ordinal(floor).value > 0
      ensures Ordinal(from).value == AnchorOf(State(), Ordinal(now).value)
      ensures Ordinal(floor).value == AnchorOf(State(), Ordinal(now).value) - months
      ensures Ordinal(at).value == CursorOf(State(), Ordinal(now).value)
      ensures Less(at, floor) <==> Ordinal(at).value < Ordinal(floor).value
      ensures from == if anchor.Some? then anchor.value else now
      ensures cursor.Some? ==> at == cursor.value
    {
      from := if anchor.Some? then anchor.value else now;
      floor := FloorFromAnchor(from, months);
      PreviousMonthIsOneBack(from);
      at := if cursor.Some? then cursor.value else PreviousMonth(from);
      KeysCompareAsMonths(at, floor);
    }

    /** One show's turn. `fate` says how far the process gets. */
    method BackfillShow(now: string, months: nat, perRun: nat, budget: nat, feed: seq<FeedEntry>, fate: Fate)
      requires Valid() && IsKey(now)
      requires months < Ordinal(if anchor.Some? then anchor.value else now).value
      modifies this
      ensures Valid()
      ensures State() == ArchiveWalk.BackfillShow(old(State()), Ordinal(now).value, months, perRun, budget, Dated(feed), fate)
    {
      hide Parse, Less, PreviousMonth, Ordinal, Key, Ids, Fits, ArchiveWalk.IngestMonth, WalkMonths;
      var from, floor, start := Position(now, months);
      if Less(start, floor) {
        if !complete {
          cursor, anchor, complete := Some(start), Some(from), true;
        }
        return;
      }
      if anchor.None? {
        cursor, anchor, complete := Some(start), Some(from), false;
      }
      if fate.FetchFails? {
        return;
      }
      var limit := if fate.Dies? && fate.months < perRun then fate.months else perRun;
      var at, left := WalkBack(start, floor, limit, budget, feed);
      KeysCompareAsMonths(at, floor);
      if fate.Dies? {
        if !Less(at, floor) && fate.entries <= |feed| {
          assert Dated(feed[..fate.entries]) == Dated(feed)[..fate.entries];
          var _ := IngestMonth(feed[..fate.entries], at, left);
        }
        return;
      }
      if at != start {
        MonthHasOneKey(at);
        MonthHasOneKey(start);
        cursor, anchor, complete := Some(at), Some(from), Less(at, floor);
      }
    }
  }
}
