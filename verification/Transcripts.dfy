/**
 Crash accounting in `transcripts/stage.py`: the in-flight marker goes down before the
 dangerous work and is taken back on every clean exit, so what is left of it counts deaths.
 */
module Transcripts {
  import opened Wrappers
  import opened DocStore
  import opened MemoryStore
  import opened Episodes
  import UpdateDoc

  const CRASH_BUDGET := 3
  const UPDATE_RETRIES := 5

  /** How one call of `process` ends. `Raises` is an exception nobody foresaw, which the caller turns into ERROR. */
  datatype Fate =
    | DiesFirst | DiesInFlight | Raises | Outage
    | Unavailable(retryable: bool) | Obtains

  function Max(a: int, b: int): int {
    if a < b then b else a
  }

  /** `process` on a queued episode nobody else is writing, up to its last write. */
  function Process(e: Episode, fate: Fate, maxRetries: nat): Episode
    requires e.status == AWAITING_TRANSCRIPT
  {
    if fate.DiesFirst? then e
    else if e.crashes >= CRASH_BUDGET then Effect(GiveUp, e, e).value
    else
      var inFlight := Effect(ClaimAcquisition, e, e).value;
      match fate
      case DiesInFlight => inFlight
      case Raises => MarkError(inFlight, "transcript")
      case Outage => Effect(ReleaseAcquisition(0), e, inFlight).value
      case Unavailable(retryable) => Effect(ReportFailure(0, retryable, maxRetries), e, inFlight).value
      case Obtains => Effect(StoreTranscript(0), e, inFlight).value
      case _ => e
  }

  /** Calls one after the other, for as long as the episode is queued. */
  function ProcessAll(e: Episode, fates: seq<Fate>, maxRetries: nat): Episode
    decreases |fates|
  {
    if fates == [] || e.status != AWAITING_TRANSCRIPT then e
    else ProcessAll(Process(e, fates[0], maxRetries), fates[1..], maxRetries)
  }

  /** The call touches the audio: it is neither over before it began nor a mere retirement. */
  predicate Acquires(e: Episode, fate: Fate) {
    e.crashes < CRASH_BUDGET && !fate.DiesFirst?
  }

  /** Acquisitions among `fates` that end the way `which` says. */
  function Count(e: Episode, fates: seq<Fate>, maxRetries: nat, which: Fate -> bool): nat
    decreases |fates|
  {
    if fates == [] || e.status != AWAITING_TRANSCRIPT then 0
    else (if Acquires(e, fates[0]) && which(fates[0]) then 1 else 0)
         + Count(Process(e, fates[0], maxRetries), fates[1..], maxRetries, which)
  }

  const UNCLEAN: Fate -> bool := (f: Fate) => f.DiesInFlight? || f.Raises?
  const REPORTED: Fate -> bool := (f: Fate) => f.Unavailable? || f.Obtains?
  const ANY_BUT_OUTAGE: Fate -> bool := (f: Fate) => !f.Outage?

  /** One call: an unclean exit goes on one counter, a reported attempt on the other, an outage on neither. */
  lemma ProcessCounts(e: Episode, fate: Fate, maxRetries: nat)
    requires e.status == AWAITING_TRANSCRIPT
    ensures var next := Process(e, fate, maxRetries);
      && next.crashes == e.crashes + (if Acquires(e, fate) && (fate.DiesInFlight? || fate.Raises?) then 1 else 0)
      && next.attempts == e.attempts + (if Acquires(e, fate) && (fate.Unavailable? || fate.Obtains?) then 1 else 0)
  {
  }

  /** The two counters tell the truth: unclean exits on one, reported attempts on the other, outages on neither. */
  lemma {:induction false} CountersTellTheTruth(e: Episode, fates: seq<Fate>, maxRetries: nat)
    ensures var after := ProcessAll(e, fates, maxRetries);
      && after.crashes == e.crashes + Count(e, fates, maxRetries, UNCLEAN)
      && after.attempts == e.attempts + Count(e, fates, maxRetries, REPORTED)
    decreases |fates|
  {
    hide Process, Effect;
    if fates != [] && e.status == AWAITING_TRANSCRIPT {
      ProcessCounts(e, fates[0], maxRetries);
      CountersTellTheTruth(Process(e, fates[0], maxRetries), fates[1..], maxRetries);
    }
  }

  /**
   However the process dies, fails and recovers, an episode is put through at most
   `(CRASH_BUDGET - crashes) + max(1, maxRetries - attempts)` acquisitions that are not
   backend outages before it leaves the queue: unclean ones are bounded by the first
   term, reported ones by the second.
   */
  lemma {:induction false} AcquisitionsAreBounded(e: Episode, fates: seq<Fate>, maxRetries: nat)
    requires e.crashes <= CRASH_BUDGET
    ensures Count(e, fates, maxRetries, UNCLEAN) <= CRASH_BUDGET - e.crashes
    ensures Count(e, fates, maxRetries, REPORTED) <= Max(1, maxRetries - e.attempts)
    ensures Count(e, fates, maxRetries, ANY_BUT_OUTAGE) ==
            Count(e, fates, maxRetries, UNCLEAN) + Count(e, fates, maxRetries, REPORTED)
    decreases |fates|
  {
    hide Process, Effect;
    if fates != [] && e.status == AWAITING_TRANSCRIPT {
      var next := Process(e, fates[0], maxRetries);
      ProcessCounts(e, fates[0], maxRetries);
      ProcessStays(e, fates[0], maxRetries);
      AcquisitionsAreBounded(next, fates[1..], maxRetries);
      if next.status != AWAITING_TRANSCRIPT {
        LeftIsLeft(next, fates[1..], maxRetries, UNCLEAN);
        LeftIsLeft(next, fates[1..], maxRetries, REPORTED);
      }
    }
  }

  /** The crash budget is never overdrawn, and a reported attempt that leaves the episode queued was not its last. */
  lemma ProcessStays(e: Episode, fate: Fate, maxRetries: nat)
    requires e.status == AWAITING_TRANSCRIPT && e.crashes <= CRASH_BUDGET
    ensures var next := Process(e, fate, maxRetries);
      && next.crashes <= CRASH_BUDGET
      && (Acquires(e, fate) && (fate.Unavailable? || fate.Obtains?) && next.status == AWAITING_TRANSCRIPT ==> e.attempts + 1 < maxRetries)
  {
  }

  lemma LeftIsLeft(e: Episode, fates: seq<Fate>, maxRetries: nat, which: Fate -> bool)
    requires e.status != AWAITING_TRANSCRIPT
    ensures Count(e, fates, maxRetries, which) == 0
  {
  }

  /**
   How a call on a queued episode within its crash budget ends: still queued exactly after
   a death, an outage, or a retryable failure that leaves an attempt; transcribed exactly
   when a transcript was obtained; retired exactly by any other failure.
   */
  lemma CallEnds(e: Episode, fate: Fate, maxRetries: nat)
    requires e.status == AWAITING_TRANSCRIPT && e.crashes < 3
    ensures var next := Process(e, fate, maxRetries);
      && (next.status == AWAITING_TRANSCRIPT <==>
            fate in {DiesFirst, DiesInFlight, Outage} || (fate == Unavailable(true) && e.attempts + 1 < maxRetries))
      && (next.status == TRANSCRIBED <==> fate == Obtains)
      && (next.status == TRANSCRIPT_FAILED <==> fate == Unavailable(false) || (fate == Unavailable(true) && e.attempts + 1 >= maxRetries))
      && (next.status == ERROR <==> fate == Raises)
  {
  }

  /** What it leaves: a transcript if one was obtained, the status to come back to if it raised, all else as it was. */
  lemma CallLeaves(e: Episode, fate: Fate, maxRetries: nat)
    requires e.status == AWAITING_TRANSCRIPT && e.crashes < 3
    ensures var next := Process(e, fate, maxRetries);
      && next.transcriptAt == (e.transcriptAt || fate == Obtains)
      && next.lastError == (match fate
           case Raises => Some(LastError("transcript", Some(AWAITING_TRANSCRIPT)))
           case Unavailable(_) => Some(LastError("transcript", None))
           case _ => e.lastError)
      && next.tier0 == e.tier0 && next.tier1 == e.tier1 && next.digestId == e.digestId
  {
  }

  /**
   With the crash budget spent, any call that lives to write retires it, and acquires nothing.
   A retry by the owner puts it back into the queue with both its budgets whole.
   */
  lemma SpentBudgetRetires(e: Episode, fate: Fate, maxRetries: nat)
    requires e.status == AWAITING_TRANSCRIPT && e.crashes >= 3
    ensures Process(e, fate, maxRetries).status == (if fate == DiesFirst then AWAITING_TRANSCRIPT else TRANSCRIPT_FAILED)
    ensures Process(e, fate, maxRetries).transcriptAt == e.transcriptAt && !Acquires(e, fate)
    ensures fate != DiesFirst ==>
      var retired := Process(e, fate, maxRetries);
      Effect(Retry(0), retired, retired) == Some(e.(attempts := 0, crashes := 0, lastError := None))
  {
  }

  /** The bound is met: an episode that kills the process every time is acquired to the last of its budget, then retired. */
  lemma {:induction false} FatalEpisodeIsRetired(e: Episode, fates: seq<Fate>, maxRetries: nat)
    requires e.status == AWAITING_TRANSCRIPT && e.crashes <= CRASH_BUDGET
    requires |fates| == CRASH_BUDGET - e.crashes + 1
    requires forall i :: 0 <= i < |fates| ==> fates[i] == DiesInFlight
    ensures Count(e, fates, maxRetries, UNCLEAN) == CRASH_BUDGET - e.crashes
    ensures ProcessAll(e, fates, maxRetries).status == TRANSCRIPT_FAILED
    ensures forall k :: 0 <= k < |fates| ==> ProcessAll(e, fates[..k], maxRetries).status == AWAITING_TRANSCRIPT
    decreases |fates|
  {
    var next := Process(e, fates[0], maxRetries);
    if e.crashes < CRASH_BUDGET {
      FatalEpisodeIsRetired(next, fates[1..], maxRetries);
    } else {
      assert ProcessAll(e, fates, maxRetries) == ProcessAll(next, fates[1..], maxRetries) == next;
    }
    forall k | 0 < k < |fates| ensures ProcessAll(e, fates[..k], maxRetries).status == AWAITING_TRANSCRIPT {
      assert fates[..k][1..] == fates[1..][..k - 1];
    }
  }

  /**
   So is the other: an episode whose every acquisition fails and may be retried is
   acquired `max(1, maxRetries - attempts)` times, and retired by the last and no earlier.
   */
  lemma {:induction false} FailingEpisodeIsRetried(e: Episode, fates: seq<Fate>, maxRetries: nat)
    requires e.status == AWAITING_TRANSCRIPT && e.crashes < CRASH_BUDGET
    requires |fates| == Max(1, maxRetries - e.attempts)
    requires forall i :: 0 <= i < |fates| ==> fates[i] == Unavailable(true)
    ensures Count(e, fates, maxRetries, REPORTED) == |fates|
    ensures ProcessAll(e, fates, maxRetries).status == TRANSCRIPT_FAILED
    ensures forall k :: 0 <= k < |fates| ==> ProcessAll(e, fates[..k], maxRetries).status == AWAITING_TRANSCRIPT
    decreases |fates|
  {
    hide Process, Effect;
    var next := Process(e, fates[0], maxRetries);
    CallEnds(e, fates[0], maxRetries);
    ProcessCounts(e, fates[0], maxRetries);
    if e.attempts + 1 < maxRetries {
      FailingEpisodeIsRetried(next, fates[1..], maxRetries);
    } else {
      assert fates[1..] == [];
    }
    forall k | 0 < k < |fates| ensures ProcessAll(e, fates[..k], maxRetries).status == AWAITING_TRANSCRIPT {
      assert fates[..k][1..] == fates[1..][..k - 1];
    }
  }

  // --------------------------------------------------------------- against the store

  /** With nobody else writing, `update_doc` is the mutator applied once. */
  lemma UndisturbedUpdate(db: Db<Episode>, id: string, mutator: Episode -> Option<Episode>)
    requires id in db.docs
    ensures UpdateDoc.UpdateRun(db, id, mutator, seq(UPDATE_RETRIES, _ => [])) ==
      match mutator(db.docs[id].body)
      case None => (db, UpdateDoc.Raised)
      case Some(body) => (Db(db.docs[id := Stored(db.nextRev, body)], db.nextRev + 1), UpdateDoc.Updated)
  {
    assert ApplyAll(db, []) == db;
  }

  class TranscriptStage {
    const store: MemoryStore<Episode>
    const maxRetries: nat

    constructor (store: MemoryStore<Episode>, maxRetries: nat)
      ensures this.store == store && this.maxRetries == maxRetries
    {
      this.store, this.maxRetries := store, maxRetries;
    }

    /** `transition`, on behalf of a stage that decided on `seen`. */
    method Write(id: string, write: Write, seen: Episode) returns (written: bool)
      requires id in store.docs
      modifies store
      ensures written == Effect(write, seen, old(store.docs)[id].body).Some?
      ensures id in store.docs
      ensures store.docs == if written
        then old(store.docs)[id := Stored(old(store.nextRev), Effect(write, seen, old(store.docs)[id].body).value)]
        else old(store.docs)
    {
      UndisturbedUpdate(store.State(), id, Mutator(write, seen));
      var outcome := UpdateDoc.Update(store, id, Mutator(write, seen), UPDATE_RETRIES, seq(UPDATE_RETRIES, _ => []));
      written := outcome == UpdateDoc.Updated;
    }

    /** One call: the document ends as `Process` says, no other document is touched. */
    method Run(id: string, fate: Fate)
      requires id in store.docs && store.docs[id].body.status == AWAITING_TRANSCRIPT
      modifies store
      ensures id in store.docs && store.docs[id].body == Process(old(store.docs)[id].body, fate, maxRetries)
      ensures store.docs - {id} == old(store.docs) - {id}
    {
      var episode := store.docs[id].body;
      if fate.DiesFirst? {
        return;
      }
      if episode.crashes >= CRASH_BUDGET {
        var _ := Write(id, GiveUp, episode);
        return;
      }
      var _ := Write(id, ClaimAcquisition, episode);
      match fate {
        case DiesFirst =>
        case DiesInFlight =>
        case Raises => var _ := Write(id, RecordError("transcript"), episode);
        case Outage => var _ := Write(id, ReleaseAcquisition(0), episode);
        case Unavailable(retryable) => var _ := Write(id, ReportFailure(0, retryable, maxRetries), episode);
        case Obtains =>
          var _ := store.Attach(id);
          var _ := Write(id, StoreTranscript(0), episode);
      }
    }
  }
}
