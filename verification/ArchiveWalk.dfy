/**
 The archive walk of `backfill/ingest.py`: a cursor that moves back one month at a time
 from a pinned anchor to a floor derived from it. Months are ordinals here; `Months`
 shows that the keys the code keeps, compares and steps through behave the same way,
 and `BackfillIngestor` runs the walk on those keys.
 */
module ArchiveWalk {
  import opened Wrappers

  /** A feed entry by month of publication. `id` is missing when it has no guid or enclosure, or its host is refused. */
  datatype Entry = Entry(month: Option<int>, id: Option<string>)

  /** What this feed has to offer for a month. */
  function Ids(entries: seq<Entry>, month: int): set<string> {
    set entry | entry in entries && entry.month == Some(month) && entry.id.Some? :: entry.id.value
  }

  /** One pass over the feed for one month: the episodes afterwards, and how many were created. */
  function IngestMonth(entries: seq<Entry>, month: int, episodes: set<string>, budget: nat): (set<string>, nat)
    decreases |entries|
  {
    if entries == [] then (episodes, 0)
    else if entries[0].month != Some(month) then IngestMonth(entries[1..], month, episodes, budget)
    else if budget == 0 then (episodes, 0)
    else if entries[0].id.None? || entries[0].id.value in episodes then IngestMonth(entries[1..], month, episodes, budget)
    else
      var (after, created) := IngestMonth(entries[1..], month, episodes + {entries[0].id.value}, budget - 1);
      (after, created + 1)
  }

  lemma IdsOfCons(entries: seq<Entry>, month: int)
    requires entries != []
    ensures Ids(entries, month) == Ids(entries[1..], month)
              + (if entries[0].month == Some(month) && entries[0].id.Some? then {entries[0].id.value} else {})
  {
    assert entries == [entries[0]] + entries[1..];
  }

  /** Nothing is left behind exactly when what is new fits the budget. */
  predicate Fits(entries: seq<Entry>, month: int, episodes: set<string>, budget: nat) {
    |Ids(entries, month) - episodes| <= budget
  }

  /** Ingestion only adds, only what the feed offers for the month, and each episode once: the count is the growth. */
  lemma {:induction false} IngestCountsGrowth(entries: seq<Entry>, month: int, episodes: set<string>, budget: nat)
    ensures var (after, created) := IngestMonth(entries, month, episodes, budget);
      && episodes <= after <= episodes + Ids(entries, month)
      && created == |after| - |episodes| && created <= budget
    decreases |entries|
  {
    if entries != [] {
      IdsOfCons(entries, month);
      if entries[0].month == Some(month) && budget > 0 && entries[0].id.Some? && entries[0].id.value !in episodes {
        IngestCountsGrowth(entries[1..], month, episodes + {entries[0].id.value}, budget - 1);
      } else if entries[0].month != Some(month) || budget > 0 {
        IngestCountsGrowth(entries[1..], month, episodes, budget);
      }
    }
  }

  lemma {:induction false} IngestStopsOnlyForBudget(entries: seq<Entry>, month: int, episodes: set<string>, budget: nat)
    ensures var (after, created) := IngestMonth(entries, month, episodes, budget);
      created == budget || Ids(entries, month) <= after
    decreases |entries|
  {
    if entries != [] {
      IdsOfCons(entries, month);
      if entries[0].month == Some(month) && budget > 0 && entries[0].id.Some? && entries[0].id.value !in episodes {
        IngestStopsOnlyForBudget(entries[1..], month, episodes + {entries[0].id.value}, budget - 1);
        IngestCountsGrowth(entries[1..], month, episodes + {entries[0].id.value}, budget - 1);
      } else if entries[0].month != Some(month) || budget > 0 {
        IngestStopsOnlyForBudget(entries[1..], month, episodes, budget);
        IngestCountsGrowth(entries[1..], month, episodes, budget);
      }
    }
  }

  /**
   A month is taken whole exactly when its new entries fit the budget; otherwise the
   budget is spent to the last and the rest is left behind.
   */
  lemma IngestIsExact(entries: seq<Entry>, month: int, episodes: set<string>, budget: nat)
    ensures var (after, created) := IngestMonth(entries, month, episodes, budget);
      && (Ids(entries, month) <= after <==> Fits(entries, month, episodes, budget))
      && created == (if Fits(entries, month, episodes, budget) then |Ids(entries, month) - episodes| else budget)
  {
    IngestCountsGrowth(entries, month, episodes, budget);
    IngestStopsOnlyForBudget(entries, month, episodes, budget);
    var after := IngestMonth(entries, month, episodes, budget).0;
    var offered := Ids(entries, month);
    assert after - episodes <= offered - episodes;
    assert after == episodes + (after - episodes);
    if offered <= after {
      assert after - episodes == offered - episodes;
    } else {
      SmallerIfMissing(after - episodes, offered - episodes);
    }
  }

  lemma SmallerIfMissing(a: set<string>, b: set<string>)
    requires a <= b && a != b
    ensures |a| < |b|
  {
    assert b == a + (b - a);
  }

  // ----------------------------------------------------------------- the walk

  /** One month ingested whole: what the feed held, and whether its new entries fitted the budget. */
  datatype Visit = Visit(month: int, entries: seq<Entry>, fits: bool)

  /** A show's document and episodes, with the log of the months ingested whole since the walk (re)started. */
  datatype Show = Show(cursor: Option<int>, anchor: Option<int>, complete: bool, episodes: set<string>, visits: seq<Visit>)

  /** How a run ends: the feed cannot be fetched, the process dies after some months and part of another, or it lives. */
  datatype Fate = FetchFails | Dies(months: nat, entries: nat) | Lives

  function AnchorOf(show: Show, now: int): int {
    if show.anchor.Some? then show.anchor.value else now
  }

  function CursorOf(show: Show, now: int): int {
    if show.cursor.Some? then show.cursor.value else AnchorOf(show, now) - 1
  }

  function VisitMonth(show: Show, month: int, budget: nat, entries: seq<Entry>): Show {
    show.(episodes := IngestMonth(entries, month, show.episodes, budget).0,
          visits := show.visits + [Visit(month, entries, Fits(entries, month, show.episodes, budget))])
  }

  /** At most `limit` months, from `cursor` down, while the floor is not passed and budget is left. */
  function WalkMonths(show: Show, cursor: int, floor: int, limit: nat, budget: nat, entries: seq<Entry>): (Show, int, nat)
    decreases limit
  {
    if limit == 0 || cursor < floor || budget == 0 then (show, cursor, budget)
    else
      IngestCountsGrowth(entries, cursor, show.episodes, budget);
      WalkMonths(VisitMonth(show, cursor, budget, entries), cursor - 1, floor, limit - 1,
                 budget - IngestMonth(entries, cursor, show.episodes, budget).1, entries)
  }

  /** The anchor is pinned before anything is fetched. */
  function Pin(show: Show, now: int): Show {
    if show.anchor.Some? then show
    else show.(cursor := Some(CursorOf(show, now)), anchor := Some(now), complete := false)
  }

  function Min(a: nat, b: nat): nat {
    if a < b then a else b
  }

  /** `_backfill_show` at month `now`, for a window of `months`. */
  function BackfillShow(show: Show, now: int, months: nat, perRun: nat, budget: nat, entries: seq<Entry>, fate: Fate): Show {
    var floor := AnchorOf(show, now) - months;
    var cursor := CursorOf(show, now);
    if cursor < floor then
      if show.complete then show else show.(cursor := Some(cursor), anchor := Some(AnchorOf(show, now)), complete := true)
    else
      match fate
      case FetchFails => Pin(show, now)
      case Dies(whole, part) =>
        var (walked, reached, left) := WalkMonths(Pin(show, now), cursor, floor, Min(whole, perRun), budget, entries);
        if reached < floor || part > |entries| then walked
        else walked.(episodes := IngestMonth(entries[..part], reached, walked.episodes, left).0)
      case Lives =>
        var (walked, reached, _) := WalkMonths(Pin(show, now), cursor, floor, perRun, budget, entries);
        if reached == cursor then walked
        else walked.(cursor := Some(reached), anchor := Some(AnchorOf(show, now)), complete := reached < floor)
  }

  /** `rewind_cursors`: the anchor stays, and so does every episode. */
  function Rewind(show: Show): Show {
    if show.cursor.None? && !show.complete then show
    else show.(cursor := None, complete := false, visits := [])
  }

  predicate Visited(visits: seq<Visit>, month: int) {
    visits != [] && (visits[|visits| - 1].month == month || Visited(visits[..|visits| - 1], month))
  }

  lemma {:induction false} VisitOf(visits: seq<Visit>, month: int) returns (visit: Visit)
    requires Visited(visits, month)
    ensures visit in visits && visit.month == month
    decreases |visits|
  {
    var n := |visits| - 1;
    if visits[n].month == month {
      visit := visits[n];
    } else {
      visit := VisitOf(visits[..n], month);
    }
  }

  /** Every month visited lies in the window, and was reached from the one after it. */
  predicate Descends(visits: seq<Visit>, anchor: int, months: nat) {
    visits == [] ||
    var earlier, last := visits[..|visits| - 1], visits[|visits| - 1];
    && Descends(earlier, anchor, months)
    && anchor - months <= last.month < anchor
    && (last.month == anchor - 1 || Visited(earlier, last.month + 1))
  }

  ghost predicate Kept(show: Show) {
    forall visit :: visit in show.visits && visit.fits ==> Ids(visit.entries, visit.month) <= show.episodes
  }

  /** Where the walk stands: everything above the cursor has been visited. */
  ghost predicate Stands(show: Show, anchor: int, cursor: int, months: nat) {
    && anchor - months - 1 <= cursor < anchor
    && Descends(show.visits, anchor, months)
    && (forall m :: cursor < m < anchor ==> Visited(show.visits, m))
    && Kept(show)
  }

  ghost predicate Inv(show: Show, months: nat) {
    match show.anchor
    case None => show.cursor.None? && !show.complete && show.visits == []
    case Some(anchor) =>
      && Stands(show, anchor, CursorOf(show, anchor), months)
      && (show.complete ==> show.cursor == Some(anchor - months - 1))
  }

  lemma VisitKeepsPlace(show: Show, anchor: int, cursor: int, months: nat, budget: nat, entries: seq<Entry>)
    requires Stands(show, anchor, cursor, months) && cursor >= anchor - months
    ensures Stands(VisitMonth(show, cursor, budget, entries), anchor, cursor - 1, months)
    ensures show.episodes <= VisitMonth(show, cursor, budget, entries).episodes
  {
    IngestCountsGrowth(entries, cursor, show.episodes, budget);
    IngestIsExact(entries, cursor, show.episodes, budget);
    var show' := VisitMonth(show, cursor, budget, entries);
    var last := show'.visits[|show.visits|];
    assert show'.visits[..|show'.visits| - 1] == show.visits;
    forall m | cursor - 1 < m < anchor ensures Visited(show'.visits, m) {
      assert m > cursor ==> Visited(show.visits, m);
    }
  }

  lemma WalkUnfolds(show: Show, cursor: int, floor: int, limit: nat, budget: nat, entries: seq<Entry>) returns (next: Show, left: nat)
    requires limit > 0 && cursor >= floor && budget > 0
    ensures next == VisitMonth(show, cursor, budget, entries)
    ensures left == budget - IngestMonth(entries, cursor, show.episodes, budget).1
    ensures WalkMonths(show, cursor, floor, limit, budget, entries) == WalkMonths(next, cursor - 1, floor, limit - 1, left, entries)
  {
    IngestCountsGrowth(entries, cursor, show.episodes, budget);
    next, left := VisitMonth(show, cursor, budget, entries), budget - IngestMonth(entries, cursor, show.episodes, budget).1;
  }

  lemma {:induction false} WalkKeepsPlace(show: Show, anchor: int, cursor: int, months: nat, limit: nat, budget: nat, entries: seq<Entry>)
    requires Stands(show, anchor, cursor, months)
    ensures var (walked, reached, _) := WalkMonths(show, cursor, anchor - months, limit, budget, entries);
      Stands(walked, anchor, reached, months)
    decreases limit
  {
    hide Descends, Visited, Kept, Fits, Ids, IngestMonth, VisitMonth;
    if !(limit == 0 || cursor < anchor - months || budget == 0) {
      var next, left := WalkUnfolds(show, cursor, anchor - months, limit, budget, entries);
      VisitKeepsPlace(show, anchor, cursor, months, budget, entries);
      WalkKeepsPlace(next, anchor, cursor - 1, months, limit - 1, left, entries);
    }
  }

  lemma {:induction false} WalkMovesBack(show: Show, cursor: int, floor: int, limit: nat, budget: nat, entries: seq<Entry>)
    ensures var (walked, reached, _) := WalkMonths(show, cursor, floor, limit, budget, entries);
      && walked.cursor == show.cursor && walked.anchor == show.anchor && walked.complete == show.complete
      && reached <= cursor && (limit > 0 && budget > 0 && cursor >= floor ==> reached < cursor)
    decreases limit
  {
    if !(limit == 0 || cursor < floor || budget == 0) {
      var next, left := WalkUnfolds(show, cursor, floor, limit, budget, entries);
      WalkMovesBack(next, cursor - 1, floor, limit - 1, left, entries);
    }
  }

  /** More episodes, an older position: what has been visited still covers it. */
  lemma PlaceIsTheVisits(show: Show, show': Show, anchor: int, reached: int, cursor: int, months: nat)
    requires Stands(show, anchor, reached, months) && reached <= cursor < anchor
    requires show'.visits == show.visits && show.episodes <= show'.episodes
    ensures Stands(show', anchor, cursor, months)
  {
  }

  /** A process that dies has saved nothing but the pinned anchor; what it recorded stays recorded. */
  lemma DyingKeepsInv(show: Show, now: int, months: nat, perRun: nat, budget: nat, entries: seq<Entry>, whole: nat, part: nat)
    requires Inv(show, months) && CursorOf(show, now) >= AnchorOf(show, now) - months
    ensures var after := BackfillShow(show, now, months, perRun, budget, entries, Dies(whole, part));
      && Inv(after, months)
      && after.anchor == Some(AnchorOf(show, now)) && after.cursor == Pin(show, now).cursor
  {
    var anchor, cursor := AnchorOf(show, now), CursorOf(show, now);
    var floor, limit := anchor - months, Min(whole, perRun);
    WalkKeepsPlace(Pin(show, now), anchor, cursor, months, limit, budget, entries);
    WalkMovesBack(Pin(show, now), cursor, floor, limit, budget, entries);
    var (walked, reached, left) := WalkMonths(Pin(show, now), cursor, floor, limit, budget, entries);
    if !(reached < floor || part > |entries|) {
      IngestCountsGrowth(entries[..part], reached, walked.episodes, left);
    }
    PlaceIsTheVisits(walked, BackfillShow(show, now, months, perRun, budget, entries, Dies(whole, part)), anchor, reached, cursor, months);
  }

  /**
   One run, whatever its fate. The anchor is pinned once and for all; the cursor never
   moves forward, though `now` and `later` may be any clock readings; and a run that
   gets through with months left moves it strictly back.
   */
  lemma RunKeepsInv(show: Show, now: int, months: nat, perRun: nat, budget: nat, entries: seq<Entry>, fate: Fate, later: int)
    requires Inv(show, months)
    ensures var after := BackfillShow(show, now, months, perRun, budget, entries, fate);
      && Inv(after, months)
      && after.anchor == Some(AnchorOf(show, now))
      && CursorOf(after, later) <= CursorOf(show, now)
      && (fate.Lives? && perRun > 0 && budget > 0 && CursorOf(show, now) >= AnchorOf(show, now) - months ==>
            CursorOf(after, later) < CursorOf(show, now))
  {
    var anchor, cursor := AnchorOf(show, now), CursorOf(show, now);
    if cursor >= anchor - months {
      match fate
      case FetchFails =>
      case Dies(whole, part) => DyingKeepsInv(show, now, months, perRun, budget, entries, whole, part);
      case Lives =>
        WalkKeepsPlace(Pin(show, now), anchor, cursor, months, perRun, budget, entries);
        WalkMovesBack(Pin(show, now), cursor, anchor - months, perRun, budget, entries);
    }
  }

  datatype Event = Run(now: int, perRun: nat, budget: nat, entries: seq<Entry>, fate: Fate) | Rewound

  function After(show: Show, event: Event, months: nat): Show {
    match event
    case Run(now, perRun, budget, entries, fate) => BackfillShow(show, now, months, perRun, budget, entries, fate)
    case Rewound => Rewind(show)
  }

  /** Any sequence of runs and rewinds, with any clock readings, feeds, failures and deaths. */
  function Story(show: Show, events: seq<Event>, months: nat): Show
    decreases |events|
  {
    if events == [] then show else Story(After(show, events[0], months), events[1..], months)
  }

  lemma {:induction false} StoryKeepsInv(show: Show, events: seq<Event>, months: nat)
    requires Inv(show, months)
    ensures Inv(Story(show, events, months), months)
    decreases |events|
  {
    if events != [] {
      match events[0] {
        case Run(now, perRun, budget, entries, fate) => RunKeepsInv(show, now, months, perRun, budget, entries, fate, now);
        case Rewound =>
      }
      StoryKeepsInv(After(show, events[0], months), events[1..], months);
    }
  }

  // ----------------------------------------------------------------- it does end

  /** A run that lives and may do something ends complete if and only if it has walked past the window's last month. */
  lemma LivingRunCompletesIff(show: Show, now: int, months: nat, perRun: nat, budget: nat, entries: seq<Entry>)
    requires Inv(show, months) && perRun > 0 && budget > 0
    ensures var after := BackfillShow(show, now, months, perRun, budget, entries, Lives);
      after.anchor.Some? && after.cursor.Some? && (after.complete <==> after.cursor.value < after.anchor.value - months)
  {
    hide Stands, IngestMonth, VisitMonth;
    var anchor, cursor := AnchorOf(show, now), CursorOf(show, now);
    WalkMovesBack(Pin(show, now), cursor, anchor - months, perRun, budget, entries);
    if cursor < anchor - months {
      assert show.complete ==> show.cursor == Some(anchor - months - 1);
    }
  }

  /** A run that finds the window walked says so, and does nothing else, whatever becomes of it. */
  lemma WalkedShowIsComplete(show: Show, now: int, months: nat, perRun: nat, budget: nat, entries: seq<Entry>, fate: Fate)
    requires Inv(show, months) && CursorOf(show, now) < AnchorOf(show, now) - months
    ensures BackfillShow(show, now, months, perRun, budget, entries, fate) ==
            show.(cursor := Some(CursorOf(show, now)), anchor := Some(AnchorOf(show, now)), complete := true)
  {
  }

  /** What a run recorded before it died stays recorded: what fitted its budget of the entries it got to, in its first month. */
  lemma DeathKeepsWhatWasRecorded(show: Show, now: int, months: nat, perRun: nat, budget: nat, entries: seq<Entry>, part: nat)
    requires CursorOf(show, now) >= AnchorOf(show, now) - months && part <= |entries|
    requires |Ids(entries[..part], CursorOf(show, now)) - show.episodes| <= budget
    ensures var after := BackfillShow(show, now, months, perRun, budget, entries, Dies(0, part));
      after.episodes == show.episodes + Ids(entries[..part], CursorOf(show, now))
  {
    IngestIsExact(entries[..part], CursorOf(show, now), show.episodes, budget);
    IngestCountsGrowth(entries[..part], CursorOf(show, now), show.episodes, budget);
  }

  /** Months a show still has to walk. */
  function Left(show: Show, months: nat): int {
    match show.anchor
    case None => months
    case Some(anchor) => CursorOf(show, anchor) - (anchor - months) + 1
  }

  /** The process lives, and is allowed at least one month and one episode. */
  predicate Moves(event: Event) {
    event.Run? && event.fate.Lives? && event.perRun > 0 && event.budget > 0
  }

  function MovesIn(events: seq<Event>): nat {
    if events == [] then 0 else (if Moves(events[0]) then 1 else 0) + MovesIn(events[1..])
  }

  /** No run adds to what is left to walk, each that moves takes a month off or completes, and completion stays. */
  lemma RunLeavesLess(show: Show, now: int, months: nat, perRun: nat, budget: nat, entries: seq<Entry>, fate: Fate)
    requires Inv(show, months)
    ensures var after := BackfillShow(show, now, months, perRun, budget, entries, fate);
      && 0 <= Left(after, months) <= Left(show, months)
      && (show.complete ==> after.complete)
      && (Moves(Run(now, perRun, budget, entries, fate)) ==> after.complete || 0 < Left(after, months) < Left(show, months))
      && (months == 0 ==> after.complete)
  {
    RunKeepsInv(show, now, months, perRun, budget, entries, fate, now);
    hide Stands, IngestMonth, VisitMonth, WalkMonths;
    var anchor, cursor := AnchorOf(show, now), CursorOf(show, now);
    if cursor < anchor - months {
      WalkedShowIsComplete(show, now, months, perRun, budget, entries, fate);
    } else {
      match fate
      case FetchFails =>
      case Dies(whole, part) => DyingKeepsInv(show, now, months, perRun, budget, entries, whole, part);
      case Lives =>
        WalkMovesBack(Pin(show, now), cursor, anchor - months, perRun, budget, entries);
        if perRun > 0 && budget > 0 { LivingRunCompletesIff(show, now, months, perRun, budget, entries); }
    }
  }

  /**
   The walk ends: from any point of any story, as many living runs as there are months
   left, and at least one, complete the show, whatever fails or dies in between.
   */
  lemma {:induction false} EnoughRunsComplete(show: Show, events: seq<Event>, months: nat)
    requires Inv(show, months) && forall i :: 0 <= i < |events| ==> events[i].Run?
    requires show.complete || (MovesIn(events) >= Left(show, months) && MovesIn(events) >= 1)
    ensures Story(show, events, months).complete
    decreases |events|
  {
    hide Inv, BackfillShow;
    if events != [] {
      var Run(now, perRun, budget, entries, fate) := events[0];
      RunLeavesLess(show, now, months, perRun, budget, entries, fate);
      RunKeepsInv(show, now, months, perRun, budget, entries, fate, now);
      EnoughRunsComplete(After(show, events[0], months), events[1..], months);
    }
  }

  /** In particular a show never walked needs at most as many living runs as its window has months. */
  lemma NewShowCompletes(events: seq<Event>, months: nat)
    requires forall i :: 0 <= i < |events| ==> events[i].Run?
    requires MovesIn(events) >= months && MovesIn(events) >= 1
    ensures Story(UNSEEN, events, months).complete
  {
    EnoughRunsComplete(UNSEEN, events, months);
  }

  /** Rewinding, at any point, starts the walk again below the same anchor and keeps every episode; the whole window is left to walk. */
  lemma RewindStartsAgain(show: Show, months: nat, now: int)
    requires Inv(show, months)
    ensures var again := Rewind(show);
      && again.anchor == show.anchor && again.episodes == show.episodes && !again.complete
      && CursorOf(again, now) == AnchorOf(show, now) - 1 && Left(again, months) == months
  {
  }

  lemma {:induction false} DescentStaysInWindow(visits: seq<Visit>, anchor: int, months: nat, month: int)
    requires Descends(visits, anchor, months) && Visited(visits, month)
    ensures anchor - months <= month < anchor
    decreases |visits|
  {
    var earlier, last := visits[..|visits| - 1], visits[|visits| - 1];
    if last.month != month {
      DescentStaysInWindow(earlier, anchor, months, month);
    }
  }

  const UNSEEN := Show(None, None, false, {}, [])

  /**
   A show is declared complete only when the window's months, from the one before the
   anchor down to the floor, have all been visited, each reached from the one after it,
   and no other. Whatever the feed offered at a visit that fitted its budget has been
   recorded; so if all did and read the same feed, all it offers for the window has been.
   */
  lemma CompleteMeansCovered(events: seq<Event>, months: nat, feed: seq<Entry>)
    requires Story(UNSEEN, events, months).complete
    ensures var show := Story(UNSEEN, events, months);
      && show.anchor.Some? && Descends(show.visits, show.anchor.value, months)
      && (forall m :: show.anchor.value - months <= m < show.anchor.value <==> Visited(show.visits, m))
      && (forall visit :: visit in show.visits && visit.fits ==> Ids(visit.entries, visit.month) <= show.episodes)
      && ((forall visit :: visit in show.visits ==> visit.fits && visit.entries == feed) ==>
            forall m :: show.anchor.value - months <= m < show.anchor.value ==> Ids(feed, m) <= show.episodes)
  {
    StoryKeepsInv(UNSEEN, events, months);
    var show := Story(UNSEEN, events, months);
    var anchor := show.anchor.value;
    assert Stands(show, anchor, anchor - months - 1, months);
    forall m | Visited(show.visits, m) ensures anchor - months <= m < anchor {
      DescentStaysInWindow(show.visits, anchor, months, m);
    }
    if forall visit :: visit in show.visits ==> visit.fits && visit.entries == feed {
      forall m | anchor - months <= m < anchor ensures Ids(feed, m) <= show.episodes {
        var visit := VisitOf(show.visits, m);
      }
    }
  }
}
