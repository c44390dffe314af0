/**
 The digest claim protocol of `digest/generate.py`: the file first, then the document
 that records it, then one claim per episode, then the completion flag. A process may
 die between any two of these steps; `stop` says how many of them it lived to take. A
 claim may raise, for whatever reason: the code logs it and goes on to the flag. A flag that
 raises is a death before it.
 */
module Digests {
  import opened Wrappers
  import opened Episodes

  /** `podcast-digest-<week>.md` for revision 1, `...-r<revision>.md` from 2 on. */
  datatype Path = Path(week: string, revision: nat)

  datatype Run = Run(file: Path, ids: seq<string>)
  datatype Digest = Digest(file: Path, ids: seq<string>, runs: seq<Run>, complete: bool)

  /** `loose` are listed episodes whose claim raised (`digest.mark_failed`), or was cleared, moved or taken by another since. */
  datatype World = World(files: set<Path>, digests: map<string, Digest>, episodes: map<string, Episode>, loose: set<string>)

  datatype Action =
    | WriteFile(path: Path)
    | PutDigest(week: string, digest: Digest)
    | ClaimOne(week: string, id: string, raises: bool)
    | Complete(week: string)

  const LAST_REVISION := 49

  function DigestId(week: string): string {
    "digest:" + week
  }

  /** The first revision from `revision` on whose file does not exist; past the last one the write is refused. */
  function FreePath(files: set<Path>, week: string, revision: nat): Option<Path>
    decreases LAST_REVISION + 1 - revision
  {
    if revision > LAST_REVISION then None
    else if Path(week, revision) in files then FreePath(files, week, revision + 1)
    else Some(Path(week, revision))
  }

  lemma {:induction false} FreePathIsFirstFree(files: set<Path>, week: string, revision: nat)
    requires revision >= 1
    ensures match FreePath(files, week, revision)
      case None => forall k :: revision <= k <= 49 ==> Path(week, k) in files
      case Some(path) =>
        && path !in files && path.week == week && revision <= path.revision <= 49
        && forall k :: revision <= k < path.revision ==> Path(week, k) in files
    decreases LAST_REVISION + 1 - revision
  {
    if revision <= LAST_REVISION && Path(week, revision) in files {
      FreePathIsFirstFree(files, week, revision + 1);
    }
  }

  function ClaimEpisode(e: Episode, week: string): Episode {
    if e.digestId.Some? then e
    else match Effect(Claim(0, DigestId(week)), e, e) case None => e case Some(claimed) => claimed
  }

  function Do(w: World, action: Action): World {
    match action
    case WriteFile(path) => w.(files := w.files + {path})
    case PutDigest(week, digest) => w.(digests := w.digests[week := digest])
    case ClaimOne(week, id, raises) =>
      if id !in w.episodes || w.episodes[id].digestId.Some? then w
      else if raises then w.(loose := w.loose + {id})
      else w.(episodes := w.episodes[id := ClaimEpisode(w.episodes[id], week)])
    case Complete(week) =>
      if week in w.digests then w.(digests := w.digests[week := w.digests[week].(complete := true)]) else w
  }

  function DoAll(w: World, actions: seq<Action>): World {
    if actions == [] then w else Do(DoAll(w, actions[..|actions| - 1]), actions[|actions| - 1])
  }

  /** One claim per id, those of `failing` raising, then the flag, whatever was raised. */
  function Marking(week: string, ids: seq<string>, failing: set<string>): seq<Action> {
    seq(|ids|, i requires 0 <= i < |ids| => ClaimOne(week, ids[i], ids[i] in failing)) + [Complete(week)]
  }

  /** A digest of this week was interrupted: finish it instead of writing another. */
  predicate Interrupted(w: World, week: string) {
    week in w.digests && !w.digests[week].complete
  }

  function RunsOf(w: World, week: string): seq<Run> {
    if week in w.digests then w.digests[week].runs else []
  }

  function Recorded(w: World, week: string, picked: seq<string>, path: Path): Digest {
    Digest(path, picked, RunsOf(w, week) + [Run(path, picked)], false)
  }

  /** The steps one call of `generate` takes, in order, if it lives. `picked` is what `_collect` returned. */
  function Plan(w: World, week: string, picked: seq<string>, failing: set<string>): seq<Action> {
    if Interrupted(w, week) then Marking(week, w.digests[week].ids, failing)
    else
      match FreePath(w.files, week, 1)
      case None => []
      case Some(path) => [WriteFile(path), PutDigest(week, Recorded(w, week, picked, path))] + Marking(week, picked, failing)
  }

  function Generate(w: World, week: string, picked: seq<string>, failing: set<string>, stop: nat): World {
    var plan := Plan(w, week, picked, failing);
    DoAll(w, if stop < |plan| then plan[..stop] else plan)
  }

  // ------------------------------------------------------------------ marking

  /** The episodes after claiming those of `ids` that were still unclaimed and whose claim does not raise. */
  function ClaimedFor(episodes: map<string, Episode>, week: string, ids: seq<string>, failing: set<string>): map<string, Episode> {
    map id | id in episodes :: if id in ids && id !in failing then ClaimEpisode(episodes[id], week) else episodes[id]
  }

  /** The ids whose claim is attempted and raises. */
  function Dropped(episodes: map<string, Episode>, ids: seq<string>, failing: set<string>): set<string> {
    set id | id in ids && id in failing && id in episodes && episodes[id].digestId.None?
  }

  function Marked(w: World, week: string, ids: seq<string>, failing: set<string>): World {
    w.(episodes := ClaimedFor(w.episodes, week, ids, failing), loose := w.loose + Dropped(w.episodes, ids, failing))
  }

  /**
   A claim decided on an unclaimed document raises if and only if it is to publish, and the
   document has meanwhile reached a status that cannot be published.
   */
  lemma ClaimRaisesIff(seen: Episode, e: Episode, k: nat, digest: string)
    requires seen.digestId.None?
    ensures Effect(Claim(k, digest), seen, e) == None <==>
            seen.status in {READY_FOR_DIGEST, DIGEST_DIRECT} && e.status !in {PUBLISHED, READY_FOR_DIGEST, DIGEST_DIRECT, SCORED_LOW}
  {
  }

  /** It happens: a rescore fails between the read and the write of a claim. */
  lemma FailedRescoreRaisesTheClaim(e: Episode, k: nat, digest: string)
    requires e.status == READY_FOR_DIGEST && e.digestId.None?
    ensures Effect(Claim(k, digest), e, MarkError(e, "rescore")) == None
    ensures MarkError(e, "rescore").status == ERROR && MarkError(e, "rescore").digestId.None?
  {
  }

  lemma ClaimTakes(e: Episode, week: string)
    ensures e.digestId.None? ==> ClaimEpisode(e, week).digestId == Some(DigestId(week))
    ensures e.digestId.Some? ==> ClaimEpisode(e, week) == e
    ensures e.digestId.None? && e.status in {READY_FOR_DIGEST, DIGEST_DIRECT} ==> ClaimEpisode(e, week).status == PUBLISHED
    ensures e.digestId.Some? || e.status !in {READY_FOR_DIGEST, DIGEST_DIRECT} ==> ClaimEpisode(e, week).status == e.status
    ensures ClaimEpisode(ClaimEpisode(e, week), week) == ClaimEpisode(e, week)
  {
  }

  lemma MarkedOneMore(w: World, week: string, ids: seq<string>, failing: set<string>, id: string)
    ensures Do(Marked(w, week, ids, failing), ClaimOne(week, id, id in failing)) == Marked(w, week, ids + [id], failing)
  {
    hide ClaimEpisode;
    if id in w.episodes { ClaimTakes(w.episodes[id], week); }
    var done, more := Marked(w, week, ids, failing), Marked(w, week, ids + [id], failing);
    assert Do(done, ClaimOne(week, id, id in failing)).episodes == more.episodes;
    assert Do(done, ClaimOne(week, id, id in failing)).loose == more.loose;
  }

  lemma {:induction false} ClaimsSoFar(w: World, week: string, ids: seq<string>, failing: set<string>, k: nat)
    requires k <= |ids|
    ensures DoAll(w, Marking(week, ids, failing)[..k]) == Marked(w, week, ids[..k], failing)
    decreases k
  {
    hide Do, Marked;
    var actions := Marking(week, ids, failing)[..k];
    if k == 0 {
      NothingMarked(w, week, failing);
    } else {
      ClaimsSoFar(w, week, ids, failing, k - 1);
      assert actions[..k - 1] == Marking(week, ids, failing)[..k - 1];
      assert ids[..k] == ids[..k - 1] + [ids[k - 1]];
      MarkedOneMore(w, week, ids[..k - 1], failing, ids[k - 1]);
    }
  }

  lemma NothingMarked(w: World, week: string, failing: set<string>)
    ensures Marked(w, week, [], failing) == w
  {
    assert ClaimedFor(w.episodes, week, [], failing) == w.episodes;
    assert Dropped(w.episodes, [], failing) == {};
  }

  lemma MarkingFinishes(w: World, week: string, ids: seq<string>, failing: set<string>)
    ensures DoAll(w, Marking(week, ids, failing)) == Do(Marked(w, week, ids, failing), Complete(week))
  {
    hide Do, Marked;
    var marking := Marking(week, ids, failing);
    ClaimsSoFar(w, week, ids, failing, |ids|);
    assert marking[..|ids|] == marking[..|marking| - 1];
    assert ids[..|ids|] == ids;
  }

  lemma {:induction false} DoAllSplits(w: World, first: seq<Action>, second: seq<Action>)
    ensures DoAll(w, first + second) == DoAll(DoAll(w, first), second)
    decreases |second|
  {
    if second == [] {
      assert first + second == first;
    } else {
      var n := |second| - 1;
      assert (first + second)[..|first + second| - 1] == first + second[..n];
      DoAllSplits(w, first, second[..n]);
    }
  }

  // ----------------------------------------------------------- finished, not repeated

  lemma HeadRecords(w: World, week: string, picked: seq<string>, path: Path)
    ensures DoAll(w, [WriteFile(path), PutDigest(week, Recorded(w, week, picked, path))]) == Begun(w, week, picked, path)
    ensures DoAll(w, [WriteFile(path)]) == w.(files := w.files + {path})
  {
    var head := [WriteFile(path), PutDigest(week, Recorded(w, week, picked, path))];
    assert head[..1] == [WriteFile(path)];
    assert DoAll(w, head[..1][..0]) == w;
    assert DoAll(w, [WriteFile(path)]) == Do(DoAll(w, []), WriteFile(path));
  }

  /** The file is written and the document put; nothing is claimed. */
  function Begun(w: World, week: string, picked: seq<string>, path: Path): World {
    World(w.files + {path}, w.digests[week := Recorded(w, week, picked, path)], w.episodes, w.loose)
  }

  /** A run that dies after its document was put has recorded what it picked, and claimed some of it. */
  lemma CrashAfterPut(w: World, week: string, picked: seq<string>, failing: set<string>, stop: nat)
    requires !Interrupted(w, week) && FreePath(w.files, week, 1).Some?
    requires 2 <= stop < |Plan(w, week, picked, failing)|
    ensures var path := FreePath(w.files, week, 1).value;
      Generate(w, week, picked, failing, stop) == Marked(Begun(w, week, picked, path), week, picked[..stop - 2], failing)
  {
    hide Do, Marked;
    var path := FreePath(w.files, week, 1).value;
    var head := [WriteFile(path), PutDigest(week, Recorded(w, week, picked, path))];
    assert Plan(w, week, picked, failing)[..stop] == head + Marking(week, picked, failing)[..stop - 2];
    HeadRecords(w, week, picked, path);
    DoAllSplits(w, head, Marking(week, picked, failing)[..stop - 2]);
    ClaimsSoFar(DoAll(w, head), week, picked, failing, stop - 2);
  }

  /** A run that lives records what it picked under a file of its own, claims what does not raise, and is complete. */
  lemma LivingRunRecordsAndClaims(w: World, week: string, picked: seq<string>, failing: set<string>, stop: nat)
    requires !Interrupted(w, week) && FreePath(w.files, week, 1).Some?
    requires stop >= |Plan(w, week, picked, failing)|
    ensures var path := FreePath(w.files, week, 1).value;
      Generate(w, week, picked, failing, stop) ==
        World(w.files + {path}, w.digests[week := Recorded(w, week, picked, path).(complete := true)],
              ClaimedFor(w.episodes, week, picked, failing), w.loose + Dropped(w.episodes, picked, failing))
  {
    hide ClaimedFor, Dropped;
    var path := FreePath(w.files, week, 1).value;
    var head := [WriteFile(path), PutDigest(week, Recorded(w, week, picked, path))];
    HeadRecords(w, week, picked, path);
    DoAllSplits(w, head, Marking(week, picked, failing));
    MarkingFinishes(DoAll(w, head), week, picked, failing);
  }

  lemma ReconcileFinishes(w: World, week: string, picked: seq<string>, failing: set<string>, lives: nat)
    requires Interrupted(w, week) && lives > |w.digests[week].ids|
    ensures Generate(w, week, picked, failing, lives) ==
      World(w.files, w.digests[week := w.digests[week].(complete := true)],
            ClaimedFor(w.episodes, week, w.digests[week].ids, failing), w.loose + Dropped(w.episodes, w.digests[week].ids, failing))
  {
    hide ClaimedFor, Dropped;
    MarkingFinishes(w, week, w.digests[week].ids, failing);
  }

  /** The ids this week's run puts on record, or finishes the record of. */
  function OnRecord(w: World, week: string, picked: seq<string>): seq<string> {
    if Interrupted(w, week) then w.digests[week].ids else picked
  }

  /**
   A run that lives is complete and leaves unclaimed, of the episodes on its record that
   were unclaimed, exactly those whose claim raised; all others keep the claim they had.
   */
  lemma LivingRunLeavesExactlyTheFailed(w: World, week: string, picked: seq<string>, failing: set<string>, stop: nat)
    requires Interrupted(w, week) || FreePath(w.files, week, 1).Some?
    requires stop >= |Plan(w, week, picked, failing)|
    ensures var after := Generate(w, week, picked, failing, stop);
      && week in after.digests && after.digests[week].complete && after.digests[week].ids == OnRecord(w, week, picked)
      && after.episodes.Keys == w.episodes.Keys
      && forall id | id in w.episodes ::
           after.episodes[id].digestId ==
           if w.episodes[id].digestId.None? && id in OnRecord(w, week, picked) && id !in failing then Some(DigestId(week))
           else w.episodes[id].digestId
  {
    if Interrupted(w, week) {
      ReconcileFinishes(w, week, picked, failing, stop);
    } else {
      LivingRunRecordsAndClaims(w, week, picked, failing, stop);
    }
    var after := Generate(w, week, picked, failing, stop);
    hide Generate, ClaimEpisode;
    forall id | id in w.episodes
      ensures after.episodes[id].digestId ==
        if w.episodes[id].digestId.None? && id in OnRecord(w, week, picked) && id !in failing then Some(DigestId(week))
        else w.episodes[id].digestId
    {
      ClaimTakes(w.episodes[id], week);
    }
  }

  /**
   From every crash after the document was put, and whatever happened to the episodes
   since, the next run of that week writes no file, claims exactly the recorded ids still
   unclaimed whose claim does not raise, touches no other episode, and ends with the
   document complete.
   */
  lemma InterruptedDigestIsFinished(w: World, week: string, picked: seq<string>, failing: set<string>, stop: nat,
                                    since: map<string, Episode>, pickedNow: seq<string>, failingNow: set<string>, lives: nat)
    requires !Interrupted(w, week) && FreePath(w.files, week, 1).Some?
    requires 2 <= stop < |Plan(w, week, picked, failing)| <= lives
    ensures
      var path := FreePath(w.files, week, 1).value;
      var crashed := Generate(w, week, picked, failing, stop).(episodes := since);
      && Interrupted(crashed, week)
      && Generate(crashed, week, pickedNow, failingNow, lives) ==
           World(w.files + {path},
                 w.digests[week := Recorded(w, week, picked, path).(complete := true)],
                 ClaimedFor(since, week, picked, failingNow),
                 w.loose + Dropped(w.episodes, picked[..stop - 2], failing) + Dropped(since, picked, failingNow))
  {
    hide ClaimedFor, Dropped;
    CrashAfterPut(w, week, picked, failing, stop);
    ReconcileFinishes(Generate(w, week, picked, failing, stop).(episodes := since), week, pickedNow, failingNow, lives);
  }

  // ------------------------------------------------------------------ listed once

  /** Every id of run `i` belongs to this digest, or went loose, or is not claimed yet, the run being the last of an interrupted week. */
  ghost predicate RunClaimed(w: World, week: string, i: nat)
    requires week in w.digests && i < |w.digests[week].runs|
  {
    var d := w.digests[week];
    forall id :: id in d.runs[i].ids ==>
      && id in w.episodes
      && (w.episodes[id].digestId == Some(DigestId(week))
          || id in w.loose
          || (w.episodes[id].digestId.None? && !d.complete && i == |d.runs| - 1))
  }

  ghost predicate DigestOk(w: World, week: string)
    requires week in w.digests
  {
    var d := w.digests[week];
    && d.runs != [] && d.runs[|d.runs| - 1] == Run(d.file, d.ids)
    && forall i: nat :: i < |d.runs| ==> d.runs[i].file in w.files && RunClaimed(w, week, i)
  }

  predicate Apart(a: Run, b: Run) {
    a.file != b.file && forall id :: id in a.ids ==> id !in b.ids
  }

  /** No episode is listed by two recorded runs, and no two share a file. */
  ghost predicate RunsApart(w: World) {
    forall week, week', i: nat, j: nat ::
      week in w.digests && week' in w.digests && i < |w.digests[week].runs| && j < |w.digests[week'].runs|
      && (week != week' || i != j) ==>
        Apart(w.digests[week].runs[i], w.digests[week'].runs[j])
  }

  /** Some recorded run lists the episode. */
  ghost predicate Listed(w: World, id: string) {
    exists week, i: nat :: week in w.digests && i < |w.digests[week].runs| && id in w.digests[week].runs[i].ids
  }

  ghost predicate LooseAreListed(w: World) {
    forall id :: id in w.loose ==> Listed(w, id)
  }

  ghost predicate Inv(w: World) {
    && (forall week :: week in w.digests ==> DigestOk(w, week))
    && RunsApart(w) && LooseAreListed(w)
  }

  /** The listed episodes whose claim differs in `episodes`: an escalation cleared it, or an archive took it. */
  function Released(w: World, episodes: map<string, Episode>): set<string> {
    set week, i, id | week in w.digests && 0 <= i < |w.digests[week].runs| && id in w.digests[week].runs[i].ids
                      && id in w.episodes && id in episodes && w.episodes[id].digestId != episodes[id].digestId :: id
  }

  /** What lies between two runs: anything may happen to episodes, and any come, but none leave the store and no file does. */
  ghost predicate Elsewhere(w: World, episodes: map<string, Episode>, files: set<Path>) {
    files >= w.files && episodes.Keys >= w.episodes.Keys
  }

  function Meantime(w: World, episodes: map<string, Episode>, files: set<Path>): World {
    World(files, w.digests, episodes, w.loose + Released(w, episodes))
  }

  lemma SameRunsListTheSame(w: World, w': World)
    requires w'.digests.Keys == w.digests.Keys
    requires forall week :: week in w.digests ==> w'.digests[week].runs == w.digests[week].runs
    ensures RunsApart(w) <==> RunsApart(w')
    ensures forall id :: Listed(w, id) <==> Listed(w', id)
  {
    forall id ensures Listed(w, id) <==> Listed(w', id) {
      if Listed(w, id) {
        var week, i: nat :| week in w.digests && i < |w.digests[week].runs| && id in w.digests[week].runs[i].ids;
        assert week in w'.digests && id in w'.digests[week].runs[i].ids;
      }
      if Listed(w', id) {
        var week, i: nat :| week in w'.digests && i < |w'.digests[week].runs| && id in w'.digests[week].runs[i].ids;
        assert week in w.digests && id in w.digests[week].runs[i].ids;
      }
    }
  }

  lemma RunStaysClaimed(w: World, w': World, week: string, i: nat)
    requires week in w.digests && week in w'.digests && w'.digests[week] == w.digests[week]
    requires i < |w.digests[week].runs| && RunClaimed(w, week, i) && w'.loose >= w.loose
    requires forall id | id in w.digests[week].runs[i].ids && id in w.episodes ::
               id in w'.episodes && (w'.episodes[id].digestId == w.episodes[id].digestId
                                     || w'.episodes[id].digestId == Some(DigestId(week)) || id in w'.loose)
    ensures RunClaimed(w', week, i)
  {
  }

  lemma ElsewhereKeepsInv(w: World, episodes: map<string, Episode>, files: set<Path>)
    requires Inv(w) && Elsewhere(w, episodes, files)
    ensures Inv(Meantime(w, episodes, files))
  {
    var w' := Meantime(w, episodes, files);
    hide RunClaimed, RunsApart, Listed;
    SameRunsListTheSame(w, w');
    forall id | id in w'.loose ensures Listed(w', id) {
      ReleasedAreListed(w, episodes, id);
    }
    forall week | week in w'.digests ensures DigestOk(w', week) {
      assert DigestOk(w, week);
      forall i: nat | i < |w'.digests[week].runs| ensures RunClaimed(w', week, i) {
        forall id | id in w.digests[week].runs[i].ids && id in w.episodes
          ensures id in episodes && (episodes[id].digestId == w.episodes[id].digestId || id in w'.loose)
        {
          if episodes[id].digestId != w.episodes[id].digestId { assert id in Released(w, episodes); }
        }
        RunStaysClaimed(w, w', week, i);
      }
    }
  }

  lemma ReleasedAreListed(w: World, episodes: map<string, Episode>, id: string)
    ensures id in Released(w, episodes) ==> Listed(w, id)
  {
  }

  lemma ListedInOneRun(w: World, week: string, i: nat, week': string, j: nat, id: string)
    requires RunsApart(w) && week in w.digests && week' in w.digests
    requires i < |w.digests[week].runs| && j < |w.digests[week'].runs|
    requires id in w.digests[week].runs[i].ids && id in w.digests[week'].runs[j].ids
    ensures week == week' && i == j
  {
  }

  /** Claiming ids of an interrupted week, some of them raising. */
  lemma ClaimingKeepsInv(w: World, week: string, ids: seq<string>, failing: set<string>)
    requires Inv(w) && Interrupted(w, week)
    requires forall id :: id in ids ==> id in w.digests[week].ids
    ensures Inv(Marked(w, week, ids, failing))
  {
    hide ClaimEpisode, RunClaimed, Listed, RunsApart;
    var w' := Marked(w, week, ids, failing);
    var last := |w.digests[week].runs| - 1;
    assert DigestOk(w, week);
    SameRunsListTheSame(w, w');
    forall id | id in w'.loose ensures Listed(w', id) {
      if id !in w.loose { InRunIsListed(w, week, last, id); }
    }
    forall other | other in w'.digests ensures DigestOk(w', other) {
      assert DigestOk(w, other);
      forall i: nat | i < |w'.digests[other].runs| ensures RunClaimed(w', other, i) {
        forall id | id in w.digests[other].runs[i].ids && id in w.episodes
          ensures id in w'.episodes && (w'.episodes[id].digestId == w.episodes[id].digestId
                    || w'.episodes[id].digestId == Some(DigestId(other)))
        {
          if id in ids {
            ListedInOneRun(w, other, i, week, last, id);
            ClaimTakes(w.episodes[id], week);
          }
        }
        RunStaysClaimed(w, w', other, i);
      }
    }
  }

  lemma InRunIsListed(w: World, week: string, i: nat, id: string)
    requires week in w.digests && i < |w.digests[week].runs| && id in w.digests[week].runs[i].ids
    ensures Listed(w, id)
  {
  }

  lemma CompletingKeepsInv(w: World, week: string)
    requires Inv(w) && Interrupted(w, week)
    requires forall id :: id in w.digests[week].ids ==> id in w.episodes && (w.episodes[id].digestId.Some? || id in w.loose)
    ensures Inv(Do(w, Complete(week)))
  {
    hide Apart, RunsApart, Listed;
    var w' := Do(w, Complete(week));
    SameRunsListTheSame(w, w');
    forall other | other in w'.digests ensures DigestOk(w', other) {
      assert DigestOk(w, other);
      forall i: nat | i < |w'.digests[other].runs| ensures RunClaimed(w', other, i) {
        assert RunClaimed(w, other, i);
      }
    }
  }

  /** A run may start: what it picked is in the store and unclaimed. */
  ghost predicate MayStart(w: World, picked: seq<string>) {
    forall id :: id in picked ==> id in w.episodes && w.episodes[id].digestId.None?
  }

  /** Listed already: it went loose, or an interrupted digest has it on record. */
  ghost predicate Repeats(w: World, id: string) {
    id in w.loose || exists week :: Interrupted(w, week) && id in w.digests[week].ids
  }

  /** An unclaimed episode has been listed if and only if it went loose or is on record in an interrupted digest. */
  lemma UnclaimedIsListedIff(w: World, id: string)
    requires Inv(w) && id in w.episodes && w.episodes[id].digestId.None?
    ensures Listed(w, id) <==> Repeats(w, id)
  {
    hide RunsApart, DigestOk, RunClaimed;
    if Listed(w, id) {
      var week, i: nat :| week in w.digests && i < |w.digests[week].runs| && id in w.digests[week].runs[i].ids;
      ListedUnclaimed(w, week, i, id);
    }
    if week :| Interrupted(w, week) && id in w.digests[week].ids {
      LastRunIs(w, week);
      InRunIsListed(w, week, |w.digests[week].runs| - 1, id);
    }
  }

  lemma ListedUnclaimed(w: World, week: string, i: nat, id: string)
    requires week in w.digests && DigestOk(w, week) && i < |w.digests[week].runs| && id in w.digests[week].runs[i].ids
    requires id in w.episodes && w.episodes[id].digestId.None?
    ensures Repeats(w, id)
  {
    assert RunClaimed(w, week, i);
    if id !in w.loose { assert Interrupted(w, week) && id in w.digests[week].ids; }
  }

  lemma LastRunIs(w: World, week: string)
    requires week in w.digests && DigestOk(w, week)
    ensures var d := w.digests[week]; d.runs != [] && d.runs[|d.runs| - 1] == Run(d.file, d.ids)
  {
  }

  lemma RecordedIsOk(w: World, week: string, picked: seq<string>, path: Path, other: string)
    requires Inv(w) && MayStart(w, picked) && !Interrupted(w, week)
    requires other == week || other in w.digests
    ensures DigestOk(Begun(w, week, picked, path), other)
  {
    var w' := Begun(w, week, picked, path);
    if other in w.digests { assert DigestOk(w, other); }
    forall i: nat | i < |w'.digests[other].runs| ensures w'.digests[other].runs[i].file in w'.files && RunClaimed(w', other, i) {
      if other in w.digests && i < |w.digests[other].runs| { assert RunClaimed(w, other, i); }
    }
  }

  lemma AddedRunStaysApart(w: World, week: string, run: Run, digest: Digest)
    requires RunsApart(w) && digest.runs == RunsOf(w, week) + [run]
    requires forall other, i: nat :: other in w.digests && i < |w.digests[other].runs| ==>
               Apart(w.digests[other].runs[i], run) && Apart(run, w.digests[other].runs[i])
    ensures RunsApart(w.(digests := w.digests[week := digest]))
  {
    var w' := w.(digests := w.digests[week := digest]);
    forall a, b, i: nat, j: nat | a in w'.digests && b in w'.digests && i < |w'.digests[a].runs| && j < |w'.digests[b].runs|
        && (a != b || i != j)
      ensures Apart(w'.digests[a].runs[i], w'.digests[b].runs[j])
    {
      var newA, newB := a == week && i == |RunsOf(w, week)|, b == week && j == |RunsOf(w, week)|;
      assert !newA ==> a in w.digests && i < |w.digests[a].runs| && w'.digests[a].runs[i] == w.digests[a].runs[i];
      assert !newB ==> b in w.digests && j < |w.digests[b].runs| && w'.digests[b].runs[j] == w.digests[b].runs[j];
      assert newA ==> w'.digests[a].runs[i] == run;
      assert newB ==> w'.digests[b].runs[j] == run;
    }
  }

  /** Runs are only ever added: each of `w` stands where it stood. */
  ghost predicate RunsGrow(w: World, w': World) {
    forall week :: week in w.digests ==> week in w'.digests && w.digests[week].runs <= w'.digests[week].runs
  }

  lemma BegunLists(w: World, week: string, picked: seq<string>, path: Path)
    ensures var w' := Begun(w, week, picked, path);
      && RunsGrow(w, w')
      && forall id :: Listed(w', id) <==> Listed(w, id) || id in picked
  {
    var w' := Begun(w, week, picked, path);
    var last := |w'.digests[week].runs| - 1;
    forall id ensures Listed(w', id) <==> Listed(w, id) || id in picked {
      if Listed(w', id) {
        var other, i: nat :| other in w'.digests && i < |w'.digests[other].runs| && id in w'.digests[other].runs[i].ids;
        if other in w.digests && i < |w.digests[other].runs| { InRunIsListed(w, other, i, id); }
      }
      if Listed(w, id) {
        var other, i: nat :| other in w.digests && i < |w.digests[other].runs| && id in w.digests[other].runs[i].ids;
        assert w'.digests[other].runs[i] == w.digests[other].runs[i];
        InRunIsListed(w', other, i, id);
      }
      if id in picked { InRunIsListed(w', week, last, id); }
    }
  }

  /** Recording a run keeps runs apart if and only if nothing it picked is listed already. */
  lemma RecordingKeepsApartIff(w: World, week: string, picked: seq<string>, path: Path)
    requires Inv(w) && path !in w.files
    ensures RunsApart(Begun(w, week, picked, path)) <==> forall id :: id in picked ==> !Listed(w, id)
  {
    var w' := Begun(w, week, picked, path);
    var run := Run(path, picked);
    if forall id :: id in picked ==> !Listed(w, id) {
      forall other, i: nat | other in w.digests && i < |w.digests[other].runs|
        ensures Apart(w.digests[other].runs[i], run) && Apart(run, w.digests[other].runs[i])
      {
        assert DigestOk(w, other);
        forall id | id in w.digests[other].runs[i].ids ensures id !in picked { InRunIsListed(w, other, i, id); }
      }
      AddedRunStaysApart(w, week, run, Recorded(w, week, picked, path));
      SameRunsListTheSame(w.(digests := w.digests[week := Recorded(w, week, picked, path)]), w');
    } else {
      var id :| id in picked && Listed(w, id);
      var other, i: nat :| other in w.digests && i < |w.digests[other].runs| && id in w.digests[other].runs[i].ids;
      var last := |RunsOf(w, week)|;
      assert w'.digests[other].runs[i] == w.digests[other].runs[i] && w'.digests[week].runs[last] == run;
      assert !Apart(w'.digests[other].runs[i], w'.digests[week].runs[last]);
    }
  }

  lemma RecordingKeepsInv(w: World, week: string, picked: seq<string>, path: Path)
    requires Inv(w) && MayStart(w, picked) && !Interrupted(w, week) && path !in w.files
    requires forall id :: id in picked ==> !Repeats(w, id)
    ensures Inv(Begun(w, week, picked, path))
  {
    hide DigestOk, Listed, RunsApart, Repeats;
    var w' := Begun(w, week, picked, path);
    forall id | id in picked ensures !Listed(w, id) { UnclaimedIsListedIff(w, id); }
    RecordingKeepsApartIff(w, week, picked, path);
    BegunLists(w, week, picked, path);
    forall other | other in w'.digests ensures DigestOk(w', other) { RecordedIsOk(w, week, picked, path, other); }
  }

  lemma MarkingKeepsInv(w: World, week: string, failing: set<string>, k: nat)
    requires Inv(w) && Interrupted(w, week) && k <= |w.digests[week].ids| + 1
    ensures Inv(DoAll(w, Marking(week, w.digests[week].ids, failing)[..k]))
  {
    hide RunsApart, LooseAreListed, ClaimEpisode, DoAll;
    var ids := w.digests[week].ids;
    if k <= |ids| {
      ClaimsSoFar(w, week, ids, failing, k);
      ClaimingKeepsInv(w, week, ids[..k], failing);
    } else {
      assert Marking(week, ids, failing)[..k] == Marking(week, ids, failing);
      MarkingFinishes(w, week, ids, failing);
      ClaimingKeepsInv(w, week, ids, failing);
      var w' := Marked(w, week, ids, failing);
      assert DigestOk(w, week) && RunClaimed(w, week, |w.digests[week].runs| - 1);
      forall id | id in ids ensures id in w'.episodes && (w'.episodes[id].digestId.Some? || id in w'.loose) {
        ClaimTakes(w.episodes[id], week);
      }
      CompletingKeepsInv(w', week);
    }
  }

  // -------------------------------------------------- the exact condition, run by run

  /** The call gets as far as putting a document of its own. */
  predicate Records(w: World, week: string, stop: nat) {
    !Interrupted(w, week) && FreePath(w.files, week, 1).Some? && stop >= 2
  }

  /** What a call does, cut off anywhere. */
  lemma GenerateIs(w: World, week: string, picked: seq<string>, failing: set<string>, stop: nat) returns (begun: World, k: nat)
    ensures if Interrupted(w, week) then
        begun == w && k <= |w.digests[week].ids| + 1
        && Generate(w, week, picked, failing, stop) == DoAll(w, Marking(week, w.digests[week].ids, failing)[..k])
      else if Records(w, week, stop) then
        && FreePath(w.files, week, 1).value !in w.files
        && begun == Begun(w, week, picked, FreePath(w.files, week, 1).value) && k <= |picked| + 1
        && Generate(w, week, picked, failing, stop) == DoAll(begun, Marking(week, picked, failing)[..k])
      else begun.digests == w.digests && begun.files >= w.files && begun.episodes == w.episodes && begun.loose == w.loose
           && Generate(w, week, picked, failing, stop) == begun
  {
    hide Do, DoAll, Marked;
    var plan := Plan(w, week, picked, failing);
    var done := if stop < |plan| then plan[..stop] else plan;
    begun, k := w, 0;
    if Interrupted(w, week) {
      k := |done|;
      assert done == Marking(week, w.digests[week].ids, failing)[..k];
    } else if FreePath(w.files, week, 1).Some? {
      FreePathIsFirstFree(w.files, week, 1);
      var path := FreePath(w.files, week, 1).value;
      var head := [WriteFile(path), PutDigest(week, Recorded(w, week, picked, path))];
      HeadRecords(w, week, picked, path);
      if stop < 2 {
        assert done == [] || done == [WriteFile(path)];
        NothingDone(w);
        begun := DoAll(w, done);
      } else {
        k := |done| - 2;
        begun := Begun(w, week, picked, path);
        assert done == head + Marking(week, picked, failing)[..k];
        DoAllSplits(w, head, Marking(week, picked, failing)[..k]);
      }
    } else {
      NothingDone(w);
    }
  }

  lemma NothingDone(w: World)
    ensures DoAll(w, []) == w
  {
  }

  lemma MarkingLeavesRuns(w: World, week: string, ids: seq<string>, failing: set<string>, k: nat)
    requires k <= |ids| + 1
    ensures var w' := DoAll(w, Marking(week, ids, failing)[..k]);
      w'.digests.Keys == w.digests.Keys && forall other :: other in w.digests ==> w'.digests[other].runs == w.digests[other].runs
  {
    hide ClaimedFor, Dropped, DoAll;
    if k <= |ids| {
      ClaimsSoFar(w, week, ids, failing, k);
    } else {
      assert Marking(week, ids, failing)[..k] == Marking(week, ids, failing);
      MarkingFinishes(w, week, ids, failing);
    }
  }

  /**
   Wherever a call is cut and whatever raises: it keeps every episode in at most one
   recorded run if and only if it puts no document of its own, or nothing it picked went
   loose or is on record in an interrupted digest of another week.
   */
  lemma ListedOnceIff(w: World, week: string, picked: seq<string>, failing: set<string>, stop: nat)
    requires Inv(w) && MayStart(w, picked)
    ensures RunsApart(Generate(w, week, picked, failing, stop)) <==>
            (Records(w, week, stop) ==> forall id :: id in picked ==> !Repeats(w, id))
  {
    hide Generate, RunsApart, DigestOk, Repeats, Listed, DoAll;
    var begun, k := GenerateIs(w, week, picked, failing, stop);
    var after := Generate(w, week, picked, failing, stop);
    if Interrupted(w, week) {
      MarkingLeavesRuns(w, week, w.digests[week].ids, failing, k);
      SameRunsListTheSame(w, after);
    } else if Records(w, week, stop) {
      MarkingLeavesRuns(begun, week, picked, failing, k);
      SameRunsListTheSame(begun, after);
      RecordingKeepsApartIff(w, week, picked, FreePath(w.files, week, 1).value);
      forall id | id in picked ensures Listed(w, id) <==> Repeats(w, id) { UnclaimedIsListedIff(w, id); }
    } else {
      SameRunsListTheSame(w, after);
    }
  }

  /** ... and then everything else about the runs and their claims is kept as well. */
  lemma GenerateKeepsInv(w: World, week: string, picked: seq<string>, failing: set<string>, stop: nat)
    requires Inv(w) && MayStart(w, picked)
    requires Records(w, week, stop) ==> forall id :: id in picked ==> !Repeats(w, id)
    ensures Inv(Generate(w, week, picked, failing, stop))
  {
    hide Generate, RunsApart, DigestOk, Repeats, Listed, DoAll, Inv;
    var begun, k := GenerateIs(w, week, picked, failing, stop);
    if Interrupted(w, week) {
      MarkingKeepsInv(w, week, failing, k);
    } else if Records(w, week, stop) {
      RecordingKeepsInv(w, week, picked, FreePath(w.files, week, 1).value);
      MarkingKeepsInv(begun, week, failing, k);
    } else {
      MoreFilesKeepInv(w, begun);
    }
  }

  lemma MoreFilesKeepInv(w: World, w': World)
    requires Inv(w) && w'.digests == w.digests && w'.files >= w.files && w'.episodes == w.episodes && w'.loose == w.loose
    ensures Inv(w')
  {
    hide RunsApart, Listed, RunClaimed;
    SameRunsListTheSame(w, w');
    forall week | week in w'.digests ensures DigestOk(w', week) {
      assert DigestOk(w, week);
      forall i: nat | i < |w'.digests[week].runs| ensures RunClaimed(w', week, i) { RunStaysClaimed(w, w', week, i); }
    }
  }

  // -------------------------------------------------------------- over any history

  datatype Event =
    | Digesting(week: string, picked: seq<string>, failing: set<string>, stop: nat)
    | Meanwhile(episodes: map<string, Episode>, files: set<Path>)

  function After(w: World, event: Event): World {
    match event
    case Digesting(week, picked, failing, stop) => Generate(w, week, picked, failing, stop)
    case Meanwhile(episodes, files) => Meantime(w, episodes, files)
  }

  function AfterAll(w: World, events: seq<Event>): World
    decreases |events|
  {
    if events == [] then w else AfterAll(After(w, events[0]), events[1..])
  }

  /** Runs pick unclaimed episodes; between runs no episode and no file is removed. */
  ghost predicate Plausible(w: World, events: seq<Event>)
    decreases |events|
  {
    events != [] ==>
      && (match events[0]
          case Digesting(_, picked, _, _) => MayStart(w, picked)
          case Meanwhile(episodes, files) => Elsewhere(w, episodes, files))
      && Plausible(After(w, events[0]), events[1..])
  }

  /** No run that puts a document picked an episode gone loose or on record in an interrupted digest. */
  ghost predicate NothingRepeated(w: World, events: seq<Event>)
    decreases |events|
  {
    events != [] ==>
      && (events[0].Digesting? && Records(w, events[0].week, events[0].stop) ==>
            forall id :: id in events[0].picked ==> !Repeats(w, id))
      && NothingRepeated(After(w, events[0]), events[1..])
  }

  lemma GrownStaysBroken(w: World, w': World)
    requires RunsGrow(w, w') && !RunsApart(w)
    ensures !RunsApart(w')
  {
    var week, week', i: nat, j: nat :|
      && week in w.digests && week' in w.digests && i < |w.digests[week].runs| && j < |w.digests[week'].runs|
      && (week != week' || i != j)
      && !Apart(w.digests[week].runs[i], w.digests[week'].runs[j]);
    assert w'.digests[week].runs[i] == w.digests[week].runs[i] && w'.digests[week'].runs[j] == w.digests[week'].runs[j];
  }

  lemma EventGrowsRuns(w: World, event: Event)
    ensures RunsGrow(w, After(w, event))
  {
    if event.Digesting? {
      hide Generate, DoAll, Records, Begun, Repeats;
      var Digesting(week, picked, failing, stop) := event;
      var begun, k := GenerateIs(w, week, picked, failing, stop);
      if Interrupted(w, week) {
        MarkingLeavesRuns(w, week, w.digests[week].ids, failing, k);
      } else if Records(w, week, stop) {
        BegunLists(w, week, picked, FreePath(w.files, week, 1).value);
        MarkingLeavesRuns(begun, week, picked, failing, k);
      }
    }
  }

  lemma {:induction false} BrokenStaysBroken(w: World, events: seq<Event>)
    requires !RunsApart(w)
    ensures !RunsApart(AfterAll(w, events))
    decreases |events|
  {
    hide After, RunsApart, RunsGrow;
    if events != [] {
      EventGrowsRuns(w, events[0]);
      GrownStaysBroken(w, After(w, events[0]));
      BrokenStaysBroken(After(w, events[0]), events[1..]);
    }
  }

  /**
   Over any number of runs, cut off anywhere, with claims that raise, and whatever happens
   to the episodes between runs: no episode is listed by two recorded runs and no two runs
   share a file, if and only if no run picked an episode that had gone loose or that an
   interrupted digest had on record.
   */
  lemma {:induction false} ListedOnce(w: World, events: seq<Event>)
    requires Inv(w) && Plausible(w, events)
    ensures RunsApart(AfterAll(w, events)) <==> NothingRepeated(w, events)
    ensures NothingRepeated(w, events) ==> Inv(AfterAll(w, events))
    decreases |events|
  {
    hide After, RunsApart, DigestOk, LooseAreListed, Repeats, Records, MayStart, Elsewhere;
    if events != [] {
      var next := After(w, events[0]);
      match events[0] {
        case Digesting(week, picked, failing, stop) =>
          AfterDigesting(w, week, picked, failing, stop);
          ListedOnceIff(w, week, picked, failing, stop);
          if Records(w, week, stop) && exists id :: id in picked && Repeats(w, id) {
            BrokenStaysBroken(next, events[1..]);
          } else {
            GenerateKeepsInv(w, week, picked, failing, stop);
            ListedOnce(next, events[1..]);
          }
        case Meanwhile(episodes, files) =>
          AfterMeanwhile(w, episodes, files);
          ElsewhereKeepsInv(w, episodes, files);
          ListedOnce(next, events[1..]);
      }
    }
  }

  lemma AfterDigesting(w: World, week: string, picked: seq<string>, failing: set<string>, stop: nat)
    ensures After(w, Digesting(week, picked, failing, stop)) == Generate(w, week, picked, failing, stop)
  {
  }

  lemma AfterMeanwhile(w: World, episodes: map<string, Episode>, files: set<Path>)
    ensures After(w, Meanwhile(episodes, files)) == Meantime(w, episodes, files)
  {
  }

  // ----------------------------------------------------- the two ways it goes wrong

  lemma OneEpisodeIsFine(e: Episode, id: string)
    requires e.digestId.None?
    ensures Inv(World({}, map[], map[id := e], {})) && MayStart(World({}, map[], map[id := e], {}), [id])
  {
  }

  /** Interrupt one week, begin another that picks the same episode. */
  lemma SkippingAnInterruptedWeekListsTwice(e: Episode, id: string, week: string, other: string)
    requires e.digestId.None? && week != other
    ensures
      var w := World({}, map[], map[id := e], {});
      var crashed := Generate(w, week, [id], {}, 2);
      Inv(w) && Inv(crashed) && MayStart(crashed, [id]) && !RunsApart(Generate(crashed, other, [id], {}, 4))
  {
    hide Effect, DoAll, Inv, RunsApart, Generate;
    var w := World({}, map[], map[id := e], {});
    OneEpisodeIsFine(e, id);
    CrashAfterPut(w, week, [id], {}, 2);
    NothingMarked(Begun(w, week, [id], Path(week, 1)), week, {});
    assert [id][..0] == [];
    GenerateKeepsInv(w, week, [id], {}, 2);
    var crashed := Generate(w, week, [id], {}, 2);
    assert Interrupted(crashed, week) && id in crashed.digests[week].ids;
    ListedOnceIff(crashed, other, [id], {}, 4);
  }

  /** Or let a claim raise: the run completes all the same, and the next week lists the episode again. */
  lemma FailedClaimListsTwice(e: Episode, id: string, week: string, other: string)
    requires e.digestId.None? && week != other
    ensures
      var w := World({}, map[], map[id := e], {});
      var done := Generate(w, week, [id], {id}, 4);
      Inv(w) && week in done.digests && done.digests[week].complete && MayStart(done, [id]) && !RunsApart(Generate(done, other, [id], {}, 4))
  {
    hide Effect, DoAll, Inv, RunsApart, Generate;
    var w := World({}, map[], map[id := e], {});
    OneEpisodeIsFine(e, id);
    LivingRunRecordsAndClaims(w, week, [id], {id}, 4);
    GenerateKeepsInv(w, week, [id], {id}, 4);
    var done := Generate(w, week, [id], {id}, 4);
    assert id in Dropped(w.episodes, [id], {id});
    ListedOnceIff(done, other, [id], {}, 4);
  }
}
