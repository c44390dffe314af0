/**
 `digest/archive.py`: one file per show and month of archive material, written once every
 episode found for the month is through the pipeline. The order of writes is that of the
 weekly digest, but an interrupted month is finished by claiming whoever is unclaimed by
 then, not whom the document records. As there, a claim that raises is logged and passed over.
 */
module ArchiveDigest {
  import opened Wrappers
  import opened Episodes

  datatype Record = Record(ids: seq<string>, complete: bool)

  /** The files of one month, each as the ids it shows, and the document `archive:<slug>:<month>`. */
  datatype Month = Month(files: seq<seq<string>>, record: Option<Record>)

  datatype World = World(months: map<string, Month>, episodes: map<string, Episode>)

  datatype Action =
    | WriteFile(key: string, shown: seq<string>)
    | PutRecord(key: string, ids: seq<string>)
    | ClaimOne(key: string, id: string, raises: bool)
    | Complete(key: string)

  const NOTHING := Month([], None)

  function ArchiveId(key: string): string {
    "archive:" + key
  }

  function Of(w: World, key: string): Month {
    if key in w.months then w.months[key] else NOTHING
  }

  predicate Pending(status: Status) {
    status in {NEW, TRIAGED, AWAITING_TRANSCRIPT, TRANSCRIBED, SUMMARIZED}
  }

  /** In one of the three sections of the file: summarised, listed, or set aside. */
  predicate Shown(status: Status) {
    status in {READY_FOR_DIGEST, DIGEST_DIRECT, SCORED_LOW, DROPPED, TRANSCRIPT_FAILED, ERROR}
  }

  function ShownOf(episodes: map<string, Episode>, members: seq<string>): seq<string> {
    if members == [] then []
    else (if members[0] in episodes && Shown(episodes[members[0]].status) then [members[0]] else []) + ShownOf(episodes, members[1..])
  }

  function ClaimFor(e: Episode, key: string): Episode {
    match Effect(Claim(0, ArchiveId(key)), e, e) case None => e case Some(claimed) => claimed
  }

  function Do(w: World, action: Action): World {
    match action
    case WriteFile(key, shown) => w.(months := w.months[key := Of(w, key).(files := Of(w, key).files + [shown])])
    case PutRecord(key, ids) => w.(months := w.months[key := Of(w, key).(record := Some(Record(ids, false)))])
    case ClaimOne(key, id, raises) =>
      if id in w.episodes && !raises then w.(episodes := w.episodes[id := ClaimFor(w.episodes[id], key)]) else w
    case Complete(key) =>
      match Of(w, key).record
      case None => w
      case Some(record) => w.(months := w.months[key := Of(w, key).(record := Some(record.(complete := true)))])
  }

  function DoAll(w: World, actions: seq<Action>): World
    decreases |actions|
  {
    if actions == [] then w else DoAll(Do(w, actions[0]), actions[1..])
  }

  /** One claim per member, those of `failing` raising, then the flag, whatever was raised. */
  function Marking(key: string, members: seq<string>, failing: set<string>): seq<Action> {
    if members == [] then [Complete(key)] else [ClaimOne(key, members[0], members[0] in failing)] + Marking(key, members[1..], failing)
  }

  predicate Interrupted(w: World, key: string) {
    Of(w, key).record.Some? && !Of(w, key).record.value.complete
  }

  /** The writes for one month whose unclaimed episodes are `members`. */
  function Plan(w: World, key: string, members: seq<string>, failing: set<string>): seq<Action> {
    if AnyPending(w, members) then []
    else if Interrupted(w, key) then Marking(key, members, failing)
    else [WriteFile(key, ShownOf(w.episodes, members)), PutRecord(key, members)] + Marking(key, members, failing)
  }

  /** One month's turn in `generate`, by a process that lives to make `stop` writes. */
  function Generate(w: World, key: string, members: seq<string>, failing: set<string>, stop: nat): World {
    var plan := Plan(w, key, members, failing);
    DoAll(w, if stop < |plan| then plan[..stop] else plan)
  }

  // ------------------------------------------------------- claimed means shown

  predicate InSome(files: seq<seq<string>>, id: string) {
    exists i :: 0 <= i < |files| && id in files[i]
  }

  /** Every episode an archive document claims is shown in one of its files. */
  ghost predicate ClaimedAreShown(w: World) {
    forall key, id | id in w.episodes && w.episodes[id].digestId == Some(ArchiveId(key)) :: InSome(Of(w, key).files, id)
  }

  /** What `find` returned: unclaimed episodes of the store. */
  predicate Unclaimed(w: World, members: seq<string>) {
    forall i :: 0 <= i < |members| ==> members[i] in w.episodes && w.episodes[members[i]].digestId.None?
  }

  /** Every member whose claim does not raise is in a file already, or will be in the one this turn writes. */
  predicate WillBeShown(w: World, key: string, members: seq<string>, failing: set<string>) {
    forall i :: 0 <= i < |members| && members[i] !in failing ==>
      InSome(Of(w, key).files, members[i])
      || (!Interrupted(w, key) && members[i] in w.episodes && Shown(w.episodes[members[i]].status))
  }

  /** A month is left alone as long as any of its episodes is still on its way; otherwise a turn that lives records it. */
  lemma MonthWaitsForItsEpisodes(w: World, key: string, members: seq<string>, failing: set<string>, stop: nat)
    requires Unclaimed(w, members)
    ensures var after := Generate(w, key, members, failing, stop);
      if exists i | 0 <= i < |members| :: w.episodes[members[i]].status in {NEW, TRIAGED, AWAITING_TRANSCRIPT, TRANSCRIBED, SUMMARIZED}
      then after == w
      else
        stop > 0 && !Interrupted(w, key) ==>
          && |Of(after, key).files| == |Of(w, key).files| + 1
          && forall id :: id in Of(after, key).files[|Of(w, key).files|] <==> id in members && w.episodes[id].status != PUBLISHED
  {
    if i :| 0 <= i < |members| && Pending(w.episodes[members[i]].status) {
      assert members[i] in members;
      assert AnyPending(w, members);
    } else {
      assert !AnyPending(w, members);
      TurnFiles(w, key, members, failing, stop);
      ShownOfIs(w.episodes, members);
    }
  }

  lemma ClaimTakes(e: Episode, key: string)
    ensures e.digestId.None? ==> ClaimFor(e, key).digestId == Some(ArchiveId(key))
    ensures e.digestId.Some? ==> ClaimFor(e, key) == e
  {
  }

  lemma IdsDiffer(key: string, other: string)
    ensures ArchiveId(key) == ArchiveId(other) ==> key == other
  {
    assert ArchiveId(key)[8..] == key && ArchiveId(other)[8..] == other;
  }

  lemma {:induction false} ShownOfIs(episodes: map<string, Episode>, members: seq<string>)
    ensures forall id :: id in ShownOf(episodes, members) <==> id in members && id in episodes && Shown(episodes[id].status)
  {
    if members != [] { ShownOfIs(episodes, members[1..]); }
  }

  lemma {:induction false} MarkingLeavesFiles(w: World, key: string, members: seq<string>, failing: set<string>, stop: nat)
    requires stop <= |Marking(key, members, failing)|
    ensures forall other :: Of(DoAll(w, Marking(key, members, failing)[..stop]), other).files == Of(w, other).files
    decreases |members|
  {
    hide ClaimFor;
    var actions := Marking(key, members, failing)[..stop];
    if stop > 0 && members != [] {
      assert actions[0] == ClaimOne(key, members[0], members[0] in failing) && actions[1..] == Marking(key, members[1..], failing)[..stop - 1];
      MarkingLeavesFiles(Do(w, ClaimOne(key, members[0], members[0] in failing)), key, members[1..], failing, stop - 1);
    } else if stop > 0 {
      assert actions == [Complete(key)] && actions[1..] == [];
    }
  }

  lemma MarkingTurn(w: World, key: string, members: seq<string>, failing: set<string>, stop: nat)
    requires 0 < stop <= |members| + 1 && members != []
    ensures |Marking(key, members, failing)| == |members| + 1 && |Marking(key, members[1..], failing)| == |members|
    ensures DoAll(w, Marking(key, members, failing)[..stop]) == DoAll(Do(w, ClaimOne(key, members[0], members[0] in failing)), Marking(key, members[1..], failing)[..stop - 1])
  {
    var first := ClaimOne(key, members[0], members[0] in failing);
    MarkingLength(key, members, failing);
    MarkingLength(key, members[1..], failing);
    assert Marking(key, members, failing) == [first] + Marking(key, members[1..], failing);
    hide Do, Marking, DoAll;
    DoneFirst(w, first, Marking(key, members[1..], failing), stop);
  }

  lemma DoneFirst(w: World, first: Action, rest: seq<Action>, stop: nat)
    requires 0 < stop <= |rest| + 1
    ensures DoAll(w, ([first] + rest)[..stop]) == DoAll(Do(w, first), rest[..stop - 1])
  {
    hide Do;
    var actions := ([first] + rest)[..stop];
    assert actions[0] == first && actions[1..] == rest[..stop - 1];
  }

  function First(members: seq<string>, n: nat): seq<string> {
    if n < |members| then members[..n] else members
  }

  /** The episode is there after as before, and newly claimed if and only if it was unclaimed, among `claimed`, and its claim does not raise. */
  predicate ClaimedIfAmong(w: World, w': World, key: string, claimed: seq<string>, failing: set<string>, id: string) {
    && (id in w'.episodes <==> id in w.episodes)
    && (id in w.episodes ==>
          w'.episodes[id].digestId ==
          (if w.episodes[id].digestId.None? && id in claimed && id !in failing then Some(ArchiveId(key)) else w.episodes[id].digestId))
  }

  /** Claiming, cut off anywhere: whoever is newly claimed is one of the first `stop` members. */
  lemma {:induction false} MarkingClaims(w: World, key: string, members: seq<string>, failing: set<string>, stop: nat, id: string)
    requires stop <= |members| + 1 == |Marking(key, members, failing)|
    ensures ClaimedIfAmong(w, DoAll(w, Marking(key, members, failing)[..stop]), key, First(members, stop), failing, id)
    decreases |members|
  {
    hide ClaimFor, Of;
    if stop > 0 && members != [] {
      var next := Do(w, ClaimOne(key, members[0], members[0] in failing));
      assert First(members, stop) == [members[0]] + First(members[1..], stop - 1);
      if members[0] in w.episodes { ClaimTakes(w.episodes[members[0]], key); }
      MarkingTurn(w, key, members, failing, stop);
      hide Marking, DoAll;
      MarkingClaims(next, key, members[1..], failing, stop - 1, id);
    } else if stop > 0 {
      assert Marking(key, members, failing)[..stop] == [Complete(key)] && [Complete(key)][1..] == [];
    }
  }

  lemma {:induction false} MarkingLength(key: string, members: seq<string>, failing: set<string>)
    ensures |Marking(key, members, failing)| == |members| + 1
  {
    if members != [] { MarkingLength(key, members[1..], failing); }
  }

  /** The first two writes of a month: the file, then the document. */
  function Begun(w: World, key: string, members: seq<string>): World {
    Do(Do(w, WriteFile(key, ShownOf(w.episodes, members))), PutRecord(key, members))
  }

  lemma BegunIs(w: World, key: string, members: seq<string>)
    ensures var shown := ShownOf(w.episodes, members);
      && Begun(w, key, members).episodes == w.episodes
      && Of(Begun(w, key, members), key).files == Of(w, key).files + [shown]
      && Of(Do(w, WriteFile(key, shown)), key).files == Of(w, key).files + [shown]
      && Of(Begun(w, key, members), key).record == Some(Record(members, false))
      && Of(Do(w, WriteFile(key, shown)), key).record == Of(w, key).record
      && forall other | other != key :: Of(Begun(w, key, members), other) == Of(w, other)
                                       && Of(Do(w, WriteFile(key, shown)), other) == Of(w, other)
  {
  }

  /** A turn cut into what it writes first and whom it claims. */
  lemma TurnIs(w: World, key: string, members: seq<string>, failing: set<string>, stop: nat)
    requires !AnyPending(w, members)
    ensures var claims, marking := Claims(w, key, stop), Marking(key, members, failing);
      Generate(w, key, members, failing, stop) ==
      DoAll(StartOf(w, key, members, stop), if claims < |marking| then marking[..claims] else marking)
  {
    hide Effect, ShownOf, Marking, Do;
    var plan, marking := Plan(w, key, members, failing), Marking(key, members, failing);
    if !Interrupted(w, key) {
      var shown := ShownOf(w.episodes, members);
      assert plan == [WriteFile(key, shown)] + ([PutRecord(key, members)] + marking);
      var done := if stop < |plan| then plan[..stop] else plan;
      if stop == 1 {
        assert done == [WriteFile(key, shown)] && done[1..] == [];
      } else if stop >= 2 {
        var rest := if stop - 2 < |marking| then marking[..stop - 2] else marking;
        assert done == [WriteFile(key, shown)] + ([PutRecord(key, members)] + rest);
        assert done[1..] == [PutRecord(key, members)] + rest && done[1..][1..] == rest;
        assert DoAll(w, done) == DoAll(Do(w, WriteFile(key, shown)), done[1..]);
        assert DoAll(Do(w, WriteFile(key, shown)), done[1..]) == DoAll(Begun(w, key, members), rest);
      }
    }
  }

  /** How many claims a turn gets to make. */
  function Claims(w: World, key: string, stop: nat): nat {
    if Interrupted(w, key) then stop else if stop < 2 then 0 else stop - 2
  }

  function StartOf(w: World, key: string, members: seq<string>, stop: nat): World {
    if Interrupted(w, key) || stop == 0 then w
    else if stop == 1 then Do(w, WriteFile(key, ShownOf(w.episodes, members)))
    else Begun(w, key, members)
  }

  predicate AnyPending(w: World, members: seq<string>) {
    exists id :: id in members && id in w.episodes && Pending(w.episodes[id].status)
  }

  /** Whom a turn claims, wherever it is cut: a stretch of the episodes found, from the first on. */
  lemma TurnClaims(w: World, key: string, members: seq<string>, failing: set<string>, stop: nat, id: string)
    requires Unclaimed(w, members) && !AnyPending(w, members)
    ensures ClaimedIfAmong(w, Generate(w, key, members, failing, stop), key, First(members, Claims(w, key, stop)), failing, id)
  {
    TurnIs(w, key, members, failing, stop);
    BegunIs(w, key, members);
    MarkingLength(key, members, failing);
    FileWriteClaimsNobody(w, key, ShownOf(w.episodes, members));
    hide Effect, ShownOf, Marking, Do, DoAll, Generate, Begun, Of;
    var n := if Claims(w, key, stop) < |members| + 1 then Claims(w, key, stop) else |members| + 1;
    assert Marking(key, members, failing)[..|members| + 1] == Marking(key, members, failing);
    MarkingClaims(StartOf(w, key, members, stop), key, members, failing, n, id);
  }

  /** Which files it leaves: one more if the month was not interrupted. */
  lemma TurnFiles(w: World, key: string, members: seq<string>, failing: set<string>, stop: nat)
    requires !AnyPending(w, members)
    ensures var after := Generate(w, key, members, failing, stop);
      && (forall other | other != key :: Of(after, other).files == Of(w, other).files)
      && Of(after, key).files ==
           if Interrupted(w, key) || stop == 0 then Of(w, key).files else Of(w, key).files + [ShownOf(w.episodes, members)]
  {
    TurnIs(w, key, members, failing, stop);
    BegunIs(w, key, members);
    MarkingLength(key, members, failing);
    hide Effect, ShownOf, Marking, Do, DoAll, Generate, Begun, Of;
    var n := if Claims(w, key, stop) < |members| + 1 then Claims(w, key, stop) else |members| + 1;
    assert Marking(key, members, failing)[..|members| + 1] == Marking(key, members, failing);
    MarkingLeavesFiles(StartOf(w, key, members, stop), key, members, failing, n);
  }

  lemma {:induction false} MarkingCompletes(w: World, key: string, members: seq<string>, failing: set<string>, stop: nat)
    requires stop <= |members| + 1 && |Marking(key, members, failing)| == |members| + 1
    ensures Of(DoAll(w, Marking(key, members, failing)[..stop]), key).record ==
      match Of(w, key).record
      case None => None
      case Some(record) => Some(Record(record.ids, record.complete || stop == |members| + 1))
    decreases |members|
  {
    hide ClaimFor;
    if stop > 0 && members != [] {
      MarkingTurn(w, key, members, failing, stop);
      hide Marking, DoAll;
      MarkingCompletes(Do(w, ClaimOne(key, members[0], members[0] in failing)), key, members[1..], failing, stop - 1);
    } else if stop > 0 {
      assert Marking(key, members, failing)[..stop] == [Complete(key)] && [Complete(key)][1..] == [];
    }
  }

  /**
   What a month's document says after a turn cut anywhere: the episodes it was first written
   for, and that it is complete exactly if the turn lived to make its last claim and set the flag.
   */
  lemma TurnCompletesIffItLives(w: World, key: string, members: seq<string>, failing: set<string>, stop: nat)
    requires !AnyPending(w, members)
    ensures Of(Generate(w, key, members, failing, stop), key).record ==
      if Interrupted(w, key) then Some(Record(Of(w, key).record.value.ids, stop > |members|))
      else if stop < 2 then Of(w, key).record
      else Some(Record(members, stop - 2 > |members|))
  {
    TurnIs(w, key, members, failing, stop);
    BegunIs(w, key, members);
    MarkingLength(key, members, failing);
    hide Effect, ShownOf, Marking, Do, DoAll, Generate, Begun, Of;
    var n := if Claims(w, key, stop) < |members| + 1 then Claims(w, key, stop) else |members| + 1;
    assert Marking(key, members, failing)[..|members| + 1] == Marking(key, members, failing);
    MarkingCompletes(StartOf(w, key, members, stop), key, members, failing, n);
  }

  lemma FileWriteClaimsNobody(w: World, key: string, shown: seq<string>)
    ensures Do(w, WriteFile(key, shown)).episodes == w.episodes
  {
  }

  lemma InMore(files: seq<seq<string>>, shown: seq<string>, id: string)
    ensures InSome(files + [shown], id) <==> InSome(files, id) || id in shown
  {
    var more := files + [shown];
    if InSome(files, id) {
      var i :| 0 <= i < |files| && id in files[i];
      assert id in more[i];
    }
    if id in shown { assert id in more[|files|]; }
  }

  lemma FirstAreMembers(members: seq<string>, n: nat, id: string)
    requires id in First(members, n)
    ensures id in members && n > 0
  {
  }

  /** Nothing is written, or everyone the turn gets to claim is in a file already or in the one it writes. */
  predicate ShowsItsClaims(w: World, key: string, members: seq<string>, failing: set<string>, stop: nat) {
    AnyPending(w, members) || WillBeShown(w, key, First(members, Claims(w, key, stop)), failing)
  }

  lemma ShownIfFoundAreShown(w: World, key: string, members: seq<string>, failing: set<string>, stop: nat)
    requires ClaimedAreShown(w) && Unclaimed(w, members) && !AnyPending(w, members)
    requires WillBeShown(w, key, First(members, Claims(w, key, stop)), failing)
    ensures ClaimedAreShown(Generate(w, key, members, failing, stop))
  {
    TurnFiles(w, key, members, failing, stop);
    ShownOfIs(w.episodes, members);
    hide Generate, ShownOf, Shown, InSome, AnyPending, Interrupted, ArchiveId, Of;
    var after := Generate(w, key, members, failing, stop);
    forall k, id | id in after.episodes && after.episodes[id].digestId == Some(ArchiveId(k)) ensures InSome(Of(after, k).files, id) {
      TurnClaims(w, key, members, failing, stop, id);
      InMore(Of(w, key).files, ShownOf(w.episodes, members), id);
      IdsDiffer(key, k);
      if id in First(members, Claims(w, key, stop)) { FirstAreMembers(members, Claims(w, key, stop), id); }
    }
  }

  /**
   Cut anywhere, a turn leaves every claimed episode shown in a file if and only if
   everyone it gets to claim is in one: in the file being written, so not PUBLISHED, or,
   when a month is finished after an interruption, in a file already there.
   */
  lemma ShownIffFoundAreShown(w: World, key: string, members: seq<string>, failing: set<string>, stop: nat)
    requires ClaimedAreShown(w) && Unclaimed(w, members)
    ensures ClaimedAreShown(Generate(w, key, members, failing, stop)) <==> ShowsItsClaims(w, key, members, failing, stop)
  {
    var claimed := First(members, Claims(w, key, stop));
    if !AnyPending(w, members) {
      if WillBeShown(w, key, claimed, failing) {
        ShownIfFoundAreShown(w, key, members, failing, stop);
      } else {
        var i :| 0 <= i < |claimed| && claimed[i] !in failing && !InSome(Of(w, key).files, claimed[i])
                 && (Interrupted(w, key) || !Shown(w.episodes[claimed[i]].status));
        TurnClaims(w, key, members, failing, stop, claimed[i]);
        TurnFiles(w, key, members, failing, stop);
        ShownOfIs(w.episodes, members);
        InMore(Of(w, key).files, ShownOf(w.episodes, members), claimed[i]);
        hide Generate, ShownOf, Shown, InSome;
        assert claimed[i] in claimed;
        assert Generate(w, key, members, failing, stop).episodes[claimed[i]].digestId == Some(ArchiveId(key));
      }
    }
  }

  // ---------------------------------------------------------------- many turns

  datatype Event = Turn(key: string, members: seq<string>, failing: set<string>, stop: nat) | Meanwhile(episodes: map<string, Episode>)

  function After(w: World, event: Event): World {
    match event
    case Turn(key, members, failing, stop) => Generate(w, key, members, failing, stop)
    case Meanwhile(episodes) => w.(episodes := episodes)
  }

  /** It fails: a month dies before its claims, another episode of it is finished, and the next turn claims both. */
  lemma NewcomerIsNotShown(a: Episode, b: Episode, key: string, ida: string, idb: string)
    requires ida != idb && a.status == b.status == READY_FOR_DIGEST && a.digestId.None? && b.digestId.None?
    ensures
      var crashed := After(World(map[], map[ida := a]), Turn(key, [ida], {}, 2));
      var joined := After(crashed, Meanwhile(map[ida := a, idb := b]));
      && crashed.episodes == map[ida := a] && ClaimedAreShown(joined)
      && !ClaimedAreShown(After(joined, Turn(key, [ida, idb], {}, 3)))
  {
    var w := World(map[], map[ida := a]);
    assert [ida][1..] == [] && ShownOf(w.episodes, [ida][1..]) == [];
    assert ShownOf(w.episodes, [ida]) == [ida];
    assert NOTHING.files + [[ida]] == [[ida]];
    assert !AnyPending(w, [ida]);
    TurnIs(w, key, [ida], {}, 2);
    MarkingLength(key, [ida], {});
    assert Begun(w, key, [ida]) == World(map[key := Month([[ida]], Some(Record([ida], false)))], w.episodes);
    hide Effect, Generate, Begun, ShownOf;
    var crashed := Generate(w, key, [ida], {}, 2);
    assert crashed == World(map[key := Month([[ida]], Some(Record([ida], false)))], w.episodes);
    var joined := crashed.(episodes := map[ida := a, idb := b]);
    assert First([ida, idb], 3)[1] == idb;
    ShownIffFoundAreShown(joined, key, [ida, idb], {}, 3);
  }

  /** Claims may be cleared between turns, and episodes may come and go, but nobody else claims for an archive. */
  ghost predicate NoClaims(w: World, episodes: map<string, Episode>) {
    forall key, id | id in episodes && episodes[id].digestId == Some(ArchiveId(key)) ::
      id in w.episodes && w.episodes[id].digestId == Some(ArchiveId(key))
  }

  ghost predicate Plausible(w: World, events: seq<Event>)
    decreases |events|
  {
    events != [] ==>
      && (match events[0]
          case Turn(key, members, failing, _) => Unclaimed(w, members)
          case Meanwhile(episodes) => NoClaims(w, episodes))
      && Plausible(After(w, events[0]), events[1..])
  }

  /** Every turn shows whom it claims. */
  ghost predicate Steady(w: World, events: seq<Event>)
    decreases |events|
  {
    events != [] ==>
      && (events[0].Turn? ==> ShowsItsClaims(w, events[0].key, events[0].members, events[0].failing, events[0].stop))
      && Steady(After(w, events[0]), events[1..])
  }

  /** At no point does an archive claim an episode it does not show. */
  ghost predicate AlwaysShown(w: World, events: seq<Event>)
    decreases |events|
  {
    ClaimedAreShown(w) && (events != [] ==> AlwaysShown(After(w, events[0]), events[1..]))
  }

  /** Over any number of turns, cut anywhere, archives always show all they claim if and only if every turn does. */
  lemma {:induction false} SteadyMonthsShowAll(w: World, events: seq<Event>)
    requires ClaimedAreShown(w) && Plausible(w, events)
    ensures AlwaysShown(w, events) <==> Steady(w, events)
    decreases |events|
  {
    hide Generate, ShowsItsClaims, InSome;
    if events != [] {
      if events[0].Turn? {
        ShownIffFoundAreShown(w, events[0].key, events[0].members, events[0].failing, events[0].stop);
        if ShowsItsClaims(w, events[0].key, events[0].members, events[0].failing, events[0].stop) {
          SteadyMonthsShowAll(After(w, events[0]), events[1..]);
        } else {
          assert !AlwaysShown(After(w, events[0]), events[1..]);
        }
      } else {
        SteadyMonthsShowAll(After(w, events[0]), events[1..]);
      }
    }
  }

  // -------------------------------------------------------------------- in place

  lemma {:induction false} DoAllSplits(w: World, first: seq<Action>, second: seq<Action>)
    ensures DoAll(w, first + second) == DoAll(DoAll(w, first), second)
    decreases |first|
  {
    hide Do;
    if first == [] {
      assert first + second == second;
    } else {
      assert (first + second)[1..] == first[1..] + second;
      DoAllSplits(Do(w, first[0]), first[1..], second);
    }
  }

  lemma DoOne(w: World, action: Action)
    ensures DoAll(w, [action]) == Do(w, action) && DoAll(w, []) == w
  {
    assert [action][1..] == [];
  }

  /** The generator as the object that makes the writes, one at a time, until it is done or dies. */
  class ArchiveGenerator {
    var months: map<string, Month>
    var episodes: map<string, Episode>
    var lives: nat

    ghost function State(): World
      reads this
    {
      World(months, episodes)
    }

    constructor (months: map<string, Month>, episodes: map<string, Episode>, lives: nat)
      ensures State() == World(months, episodes) && this.lives == lives
    {
      this.months, this.episodes, this.lives := months, episodes, lives;
    }

    /** One write, if the process lives to make it. */
    method Write(action: Action) returns (alive: bool)
      modifies this
      ensures alive == (old(lives) > 0)
      ensures State() == if alive then Do(old(State()), action) else old(State())
      ensures lives == if alive then old(lives) - 1 else 0
    {
      if lives == 0 {
        return false;
      }
      lives := lives - 1;
      match action {
        case WriteFile(key, shown) =>
          var month := if key in months then months[key] else NOTHING;
          months := months[key := month.(files := month.files + [shown])];
        case PutRecord(key, ids) =>
          var month := if key in months then months[key] else NOTHING;
          months := months[key := month.(record := Some(Record(ids, false)))];
        case ClaimOne(key, id, raises) =>
          if id in episodes && !raises {
            episodes := episodes[id := ClaimFor(episodes[id], key)];
          }
        case Complete(key) =>
          if key in months && months[key].record.Some? {
            months := months[key := months[key].(record := Some(months[key].record.value.(complete := true)))];
          }
      }
      alive := true;
    }

    /** Claims every member in turn, then sets the flag. */
    method Mark(key: string, members: seq<string>, failing: set<string>)
      modifies this
      ensures var marking := Marking(key, members, failing);
        State() == DoAll(old(State()), if old(lives) < |marking| then marking[..old(lives)] else marking)
    {
      hide Do, DoAll;
      MarkingLength(key, members, failing);
      ghost var marking := Marking(key, members, failing);
      DoOne(State(), Complete(key));
      for i := 0 to |members|
        invariant i + lives == old(lives)
        invariant State() == DoAll(old(State()), marking[..i])
      {
        MarkingAt(key, members, failing, i);
        DoAllSplits(old(State()), marking[..i], [ClaimOne(key, members[i], members[i] in failing)]);
        DoOne(State(), ClaimOne(key, members[i], members[i] in failing));
        assert marking[..i + 1] == marking[..i] + [ClaimOne(key, members[i], members[i] in failing)];
        var alive := Write(ClaimOne(key, members[i], members[i] in failing));
        if !alive {
          return;
        }
      }
      MarkingAt(key, members, failing, |members|);
      DoAllSplits(old(State()), marking[..|members|], [Complete(key)]);
      DoOne(State(), Complete(key));
      assert marking == marking[..|members|] + [Complete(key)];
      var _ := Write(Complete(key));
    }

    /** `_write_month`, after the check that the month is through the queue. */
    method WriteMonth(key: string, members: seq<string>, failing: set<string>)
      modifies this
      ensures State() == Generate(old(State()), key, members, failing, old(lives))
    {
      hide Do, DoAll, ShownOf, Marking;
      for i := 0 to |members|
        invariant State() == old(State()) && lives == old(lives)
        invariant forall j | 0 <= j < i :: members[j] in episodes ==> !Pending(episodes[members[j]].status)
      {
        if members[i] in episodes && Pending(episodes[members[i]].status) {
          DoOne(State(), Complete(key));
          return;
        }
      }
      TurnIs(State(), key, members, failing, lives);
      MarkingLength(key, members, failing);
      DoOne(State(), Complete(key));
      if key in months && months[key].record.Some? && !months[key].record.value.complete {
        Mark(key, members, failing);
        return;
      }
      var alive := Write(WriteFile(key, ShownOf(episodes, members)));
      if !alive {
        assert Marking(key, members, failing)[..0] == [];
        return;
      }
      DoOne(State(), Complete(key));
      alive := Write(PutRecord(key, members));
      if !alive {
        assert Marking(key, members, failing)[..0] == [];
        return;
      }
      Mark(key, members, failing);
    }
  }

  lemma {:induction false} MarkingAt(key: string, members: seq<string>, failing: set<string>, i: nat)
    requires i <= |members|
    ensures |Marking(key, members, failing)| == |members| + 1
    ensures Marking(key, members, failing)[i] == if i < |members| then ClaimOne(key, members[i], members[i] in failing) else Complete(key)
  {
    MarkingLength(key, members, failing);
    if members != [] && i > 0 {
      MarkingLength(key, members[1..], failing);
      MarkingAt(key, members[1..], failing, i - 1);
    }
  }
}
