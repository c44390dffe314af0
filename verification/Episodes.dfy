/**
 The episode document, the status table of `state.py`, and every write the system makes
 to an episode: the stages, the archive runner, the digests and the owner's overrides.
 Writes go through `update_doc`, so (see `UpdateDoc`) each one is applied to the current
 document; what a write was *decided* on may be any document read earlier.
 */
module Episodes {
  import opened Wrappers
  import UpdateDoc

  datatype Status =
    | NEW | TRIAGED | AWAITING_TRANSCRIPT | TRANSCRIBED | TRANSCRIPT_FAILED | SUMMARIZED
    | READY_FOR_DIGEST | DIGEST_DIRECT | SCORED_LOW | DROPPED | PUBLISHED | ERROR

  datatype Route = DROP | DIRECT | ESCALATE

  /** `failedAt` is `status_when_failed`, which only `mark_error` records. */
  datatype LastError = LastError(stage: string, failedAt: Option<Status>)

  datatype Episode = Episode(
    status: Status,
    tier0: Option<Route>,
    transcriptAt: bool,
    tier1: bool,
    digestId: Option<string>,
    lastError: Option<LastError>,
    relisted: bool,     // summary_after_listing
    attempts: nat,      // attempts.transcript
    crashes: nat)       // attempts.transcript_crash

  const FRESH := Episode(NEW, None, false, false, None, None, false, 0, 0)

  function Allowed(current: Status): set<Status> {
    match current
    case NEW => {TRIAGED, ERROR}
    case TRIAGED => {AWAITING_TRANSCRIPT, DIGEST_DIRECT, DROPPED, ERROR}
    case AWAITING_TRANSCRIPT => {AWAITING_TRANSCRIPT, TRANSCRIBED, TRANSCRIPT_FAILED, ERROR}
    case TRANSCRIBED => {SUMMARIZED, ERROR}
    case TRANSCRIPT_FAILED => {SUMMARIZED, AWAITING_TRANSCRIPT, ERROR}
    case SUMMARIZED => {READY_FOR_DIGEST, SCORED_LOW, ERROR}
    case READY_FOR_DIGEST => {PUBLISHED, SCORED_LOW, AWAITING_TRANSCRIPT, ERROR}
    case DIGEST_DIRECT => {PUBLISHED, AWAITING_TRANSCRIPT, ERROR}
    case SCORED_LOW => {AWAITING_TRANSCRIPT, READY_FOR_DIGEST, PUBLISHED, ERROR}
    case DROPPED => {AWAITING_TRANSCRIPT}
    case PUBLISHED => {AWAITING_TRANSCRIPT}
    case ERROR => {NEW, AWAITING_TRANSCRIPT, TRANSCRIBED, TRANSCRIPT_FAILED}
  }

  /**
   `transition`, with `paid` the document after the payload mutator. Replaying a status
   already reached applies the payload only; a forbidden edge raises.
   */
  function Transition(e: Episode, target: Status, paid: Episode): Option<Episode> {
    if e.status == target && target != AWAITING_TRANSCRIPT then Some(paid.(status := e.status))
    else if target !in Allowed(e.status) then None
    else Some(paid.(status := target))
  }

  /** `mark_error`: where ERROR cannot be reached the failure is recorded and the status kept. */
  function MarkError(e: Episode, stage: string): Episode {
    e.(lastError := Some(LastError(stage, Some(e.status))),
       status := if ERROR in Allowed(e.status) then ERROR else e.status)
  }

  function RetryTarget(current: Status): Status {
    match current
    case ERROR => AWAITING_TRANSCRIPT
    case TRANSCRIPT_FAILED => AWAITING_TRANSCRIPT
    case _ => current
  }

  function ResumePoint(e: Episode): Option<Status> {
    if e.lastError.None? then None
    else if e.lastError.value.failedAt in {Some(ERROR), Some(PUBLISHED)} then None
    else e.lastError.value.failedAt
  }

  function TargetOf(route: Route): Status {
    match route
    case DROP => DROPPED
    case DIRECT => DIGEST_DIRECT
    case ESCALATE => AWAITING_TRANSCRIPT
  }

  /** The archive never escalates a show it only indexes, nor one with no transcript to be had. */
  function ArchiveRoute(e: Episode, tier0Only: bool, asrEnabled: bool, published: bool): Route {
    var route := if e.tier0.Some? then e.tier0.value else DROP;
    if route == ESCALATE && (tier0Only || (!asrEnabled && !published)) then DIRECT else route
  }

  /** Every write to an episode. `seen` is the position in the history of the document it was decided on. */
  datatype Write =
    | Triage(route: Route)
    | Dispatch(seen: nat)
    | ArchiveDispatch(seen: nat, tier0Only: bool, asrEnabled: bool, published: bool)
    | ClaimAcquisition
    | ReleaseAcquisition(seen: nat)
    | ReportFailure(seen: nat, retryable: bool, maxRetries: nat)
    | StoreTranscript(seen: nat)
    | GiveUp
    | StoreSummary
    | Classify(high: bool)
    | Rescore(high: bool)
    | RecordError(stage: string)
    | Claim(seen: nat, digest: string)
    | Retry(seen: nat)
    | Escalate
    | QueueSummary(seen: nat)
    | SettleForDescription
    | Relist(seen: nat)

  /** A summary is not made again of an episode listed with one, unless that one was itself made after the listing. */
  predicate Refused(e: Episode) {
    e.status == PUBLISHED && e.tier1 && !e.relisted
  }

  function Verdict(high: bool): Status {
    if high then READY_FOR_DIGEST else SCORED_LOW
  }

  /** The document `write` produces, given the one it was decided on and the one it lands on; `None` if it raises. */
  function Effect(write: Write, seen: Episode, e: Episode): Option<Episode> {
    match write
    case Triage(route) => Transition(e, TRIAGED, e.(tier0 := Some(route)))
    case Dispatch(_) =>
      if seen.tier0.None? then None else Transition(e, TargetOf(seen.tier0.value), e)
    case ArchiveDispatch(_, tier0Only, asrEnabled, published) =>
      Transition(e, TargetOf(ArchiveRoute(seen, tier0Only, asrEnabled, published)), e)
    case ClaimAcquisition => Transition(e, AWAITING_TRANSCRIPT, e.(crashes := e.crashes + 1))
    case ReleaseAcquisition(_) => Transition(e, AWAITING_TRANSCRIPT, e.(crashes := seen.crashes))
    case ReportFailure(_, retryable, maxRetries) =>
      var exhausted := !retryable || seen.attempts + 1 >= maxRetries;
      Transition(e, if exhausted then TRANSCRIPT_FAILED else AWAITING_TRANSCRIPT,
        e.(crashes := seen.crashes, attempts := e.attempts + 1, lastError := Some(LastError("transcript", None))))
    case StoreTranscript(_) =>
      Transition(e, TRANSCRIBED, e.(crashes := seen.crashes, attempts := e.attempts + 1, transcriptAt := true))
    case GiveUp => Transition(e, TRANSCRIPT_FAILED, e.(lastError := Some(LastError("transcript", None))))
    case StoreSummary => Transition(e, SUMMARIZED, e.(tier1 := true))
    case Classify(high) => Transition(e, Verdict(high), e)
    case Rescore(high) => Transition(e, Verdict(high), e.(tier1 := true))
    case RecordError(stage) => Some(MarkError(e, stage))
    case Claim(_, digest) =>
      if seen.digestId.Some? then None
      else if seen.status in {READY_FOR_DIGEST, DIGEST_DIRECT} then
        Transition(e, PUBLISHED, e.(digestId := Some(digest)))
      else Some(e.(digestId := Some(digest)))
    case Retry(_) =>
      var target := if ResumePoint(seen).Some? then ResumePoint(seen).value else RetryTarget(seen.status);
      if target == seen.status && target != AWAITING_TRANSCRIPT then None
      else Transition(e, target, e.(attempts := 0, crashes := 0, lastError := None))
    case Escalate =>
      Transition(e, AWAITING_TRANSCRIPT, e.(attempts := 0, crashes := 0, lastError := None, digestId := None))
    case QueueSummary(_) => if Refused(seen) then None else Transition(e, AWAITING_TRANSCRIPT, e)
    case SettleForDescription => Transition(e, TRANSCRIPT_FAILED, e)
    case Relist(_) =>
      // Only a summary requested for an episode found published and claimed is put back.
      if seen.status == PUBLISHED && seen.digestId.Some? && !Refused(seen) then Transition(e, PUBLISHED, e.(relisted := true))
      else None
  }

  function SeenBy(write: Write): nat {
    match write
    case Dispatch(k) => k
    case ArchiveDispatch(k, _, _, _) => k
    case ReleaseAcquisition(k) => k
    case ReportFailure(k, _, _) => k
    case StoreTranscript(k) => k
    case Claim(k, _) => k
    case Retry(k) => k
    case QueueSummary(k) => k
    case Relist(k) => k
    case _ => 0
  }

  /** One committed write, decided on any document the episode has ever been. */
  function Commit(history: seq<Episode>, write: Write): (r: seq<Episode>)
    requires history != []
    ensures history <= r && |history| <= |r| <= |history| + 1
  {
    if SeenBy(write) >= |history| then history
    else
      match Effect(write, history[SeenBy(write)], history[|history| - 1])
      case None => history
      case Some(e) => history + [e]
  }

  function Lifetime(writes: seq<Write>): (r: seq<Episode>)
    ensures r != [] && r[0] == FRESH
  {
    if writes == [] then [FRESH] else Commit(Lifetime(writes[..|writes| - 1]), writes[|writes| - 1])
  }

  // ------------------------------------------------------------ what a write leads to

  /** Statuses from which an episode can be put back into the transcript queue. */
  lemma QueueableIff(e: Episode)
    ensures Effect(Escalate, e, e).Some? <==> e.status !in {NEW, TRANSCRIBED, SUMMARIZED}
  {
  }

  /** A triaged episode goes where its route says; the archive lists instead of queueing what it cannot or may not transcribe. */
  lemma RoutesLead(e: Episode, route: Route, tier0Only: bool, asrEnabled: bool, published: bool)
    requires e.status == NEW
    ensures var triaged := Effect(Triage(route), e, e);
      && triaged.Some? && triaged.value == e.(status := TRIAGED, tier0 := Some(route))
      && var dispatched := Effect(Dispatch(0), triaged.value, triaged.value);
         var archived := Effect(ArchiveDispatch(0, tier0Only, asrEnabled, published), triaged.value, triaged.value);
         && dispatched.Some? && archived.Some?
         && (dispatched.value.status == DROPPED <==> route == DROP)
         && (dispatched.value.status == DIGEST_DIRECT <==> route == DIRECT)
         && (dispatched.value.status == AWAITING_TRANSCRIPT <==> route == ESCALATE)
         && (archived.value.status == DROPPED <==> route == DROP)
         && (archived.value.status == AWAITING_TRANSCRIPT <==> route == ESCALATE && !tier0Only && (asrEnabled || published))
         && (archived.value.status == DIGEST_DIRECT <==> route == DIRECT || (route == ESCALATE && (tier0Only || !(asrEnabled || published))))
         && dispatched.value.(status := TRIAGED) == triaged.value && archived.value.(status := TRIAGED) == triaged.value
  {
  }

  /** A summary and its classification: ready for a digest exactly with a high score, and a rescore may change the verdict. */
  lemma ScoreDecides(e: Episode, high: bool, later: bool)
    requires e.status in {TRANSCRIBED, TRANSCRIPT_FAILED}
    ensures var stored := Effect(StoreSummary, e, e);
      && stored == Some(e.(status := SUMMARIZED, tier1 := true))
      && var scored := Effect(Classify(high), stored.value, stored.value);
         && scored.Some? && scored.value.tier1 && scored.value.status == (if high then READY_FOR_DIGEST else SCORED_LOW)
         && Effect(Rescore(later), scored.value, scored.value) ==
              Some(scored.value.(status := if later then READY_FOR_DIGEST else SCORED_LOW))
    ensures forall other: Episode | other.status == SUMMARIZED ::
              Effect(Rescore(later), other, other) == Some(other.(status := if later then READY_FOR_DIGEST else SCORED_LOW, tier1 := true))
  {
  }

  /**
   A retry undoes an error: an episode that failed as NEW, AWAITING_TRANSCRIPT, TRANSCRIBED
   or TRANSCRIPT_FAILED is back where it was, its counters and its error cleared. From any
   other status that errs the retry is refused.
   */
  lemma RetryUndoesErrorIff(e: Episode, stage: string)
    requires MarkError(e, stage).status == ERROR && e.status != ERROR
    ensures var failed := MarkError(e, stage);
      Effect(Retry(0), failed, failed) ==
        if e.status in {NEW, AWAITING_TRANSCRIPT, TRANSCRIBED, TRANSCRIPT_FAILED} then
          Some(e.(attempts := 0, crashes := 0, lastError := None))
        else None
  {
  }

  /** Without a recorded status a retry queues what errs or has no transcript, and refuses everything else but what is queued. */
  lemma RetryWithoutRecordIff(e: Episode)
    requires e.lastError.Some? ==> e.lastError.value.failedAt in {None, Some(ERROR), Some(PUBLISHED)}
    ensures Effect(Retry(0), e, e) ==
      if e.status in {ERROR, TRANSCRIPT_FAILED, AWAITING_TRANSCRIPT} then
        Some(e.(status := AWAITING_TRANSCRIPT, attempts := 0, crashes := 0, lastError := None))
      else None
  {
  }

  /** Recording an error: its status is kept where ERROR may not follow, and it always is the status to come back to. */
  lemma ErrorsAreRecorded(e: Episode, stage: string)
    ensures MarkError(e, stage).lastError == Some(LastError(stage, Some(e.status)))
    ensures MarkError(e, stage).status == (if e.status in {DROPPED, PUBLISHED, ERROR} then e.status else ERROR)
    ensures MarkError(e, stage).(status := e.status, lastError := e.lastError) == e
  {
  }

  /** An escalation that is not refused starts over: queued, counters, error and claim cleared, everything made so far kept. */
  lemma EscalationStartsOver(e: Episode)
    requires Effect(Escalate, e, e).Some?
    ensures var again := Effect(Escalate, e, e).value;
      && again.status == AWAITING_TRANSCRIPT && again.attempts == again.crashes == 0
      && again.lastError.None? && again.digestId.None?
      && again.tier0 == e.tier0 && again.transcriptAt == e.transcriptAt && again.tier1 == e.tier1 && again.relisted == e.relisted
  {
  }

  /** A claim decided on the document it lands on never raises unless the episode is claimed; it publishes exactly what is due. */
  lemma ClaimPublishesIff(e: Episode, digest: string)
    ensures Effect(Claim(0, digest), e, e) ==
      if e.digestId.Some? then None
      else Some(e.(digestId := Some(digest), status := if e.status in {READY_FOR_DIGEST, DIGEST_DIRECT} then PUBLISHED else e.status))
  {
  }

  /** Whatever is written, and however stale what it was decided on, a listed or dropped episode stays so or is queued again. */
  lemma ListedOnlyRequeues(write: Write, seen: Episode, e: Episode)
    requires e.status in {PUBLISHED, DROPPED} && Effect(write, seen, e).Some?
    ensures Effect(write, seen, e).value.status in {e.status, AWAITING_TRANSCRIPT}
  {
  }

  /** A summary is refused of an episode listed with one that was there when it was listed; the three others cannot be queued. */
  lemma SummaryIsRefusedIff(e: Episode)
    ensures Effect(QueueSummary(0), e, e) ==
      if e.status in {NEW, TRANSCRIBED, SUMMARIZED} || (e.status == PUBLISHED && e.tier1 && !e.relisted) then None
      else Some(e.(status := AWAITING_TRANSCRIPT))
  {
  }

  /** Once made, it goes back to the listing it came from, marked as made after it. */
  lemma RequestedSummaryIsRelisted(listed: Episode, scored: Episode)
    requires listed.status == PUBLISHED && listed.digestId.Some? && (listed.tier1 ==> listed.relisted)
    requires scored.status in {READY_FOR_DIGEST, SCORED_LOW}
    ensures Effect(Relist(0), listed, scored) == Some(scored.(status := PUBLISHED, relisted := true))
  {
  }

  // --------------------------------------------------- a status never outruns its payload

  predicate Has(e: Episode, status: Status) {
    match status
    case TRIAGED => e.tier0.Some?
    case DIGEST_DIRECT => e.tier0.Some?
    case DROPPED => e.tier0.Some?
    case TRANSCRIBED => e.transcriptAt
    case SUMMARIZED => e.tier1
    case READY_FOR_DIGEST => e.tier1
    case SCORED_LOW => e.tier1
    case _ => true
  }

  predicate PayloadOk(e: Episode) {
    && Has(e, e.status)
    && (e.lastError.Some? && e.lastError.value.failedAt.Some? ==> Has(e, e.lastError.value.failedAt.value))
  }

  predicate KeepsPayload(a: Episode, b: Episode) {
    && (a.tier0.Some? ==> b.tier0.Some?)
    && (a.transcriptAt ==> b.transcriptAt)
    && (a.tier1 ==> b.tier1)
  }

  predicate ByOwnerOrDigest(write: Write) {
    write.RecordError? || write.Claim? || write.Retry? || write.Escalate? || write.QueueSummary?
    || write.SettleForDescription? || write.Relist?
  }

  lemma RetryKeepsPayload(write: Write, seen: Episode, e: Episode)
    requires PayloadOk(seen) && PayloadOk(e) && KeepsPayload(seen, e)
    requires Effect(write, seen, e).Some? && write.Retry?
    ensures PayloadOk(Effect(write, seen, e).value) && KeepsPayload(e, Effect(write, seen, e).value)
  {
  }

  lemma OwnerKeepsPayload(write: Write, seen: Episode, e: Episode)
    requires PayloadOk(seen) && PayloadOk(e) && KeepsPayload(seen, e)
    requires Effect(write, seen, e).Some? && ByOwnerOrDigest(write)
    ensures PayloadOk(Effect(write, seen, e).value) && KeepsPayload(e, Effect(write, seen, e).value)
  {
    if write.Retry? {
      hide Effect, PayloadOk, KeepsPayload;
      RetryKeepsPayload(write, seen, e);
    }
  }

  predicate ByTranscription(write: Write) {
    write.ClaimAcquisition? || write.ReleaseAcquisition? || write.ReportFailure? || write.StoreTranscript? || write.GiveUp?
  }

  lemma TranscriptionKeepsPayload(write: Write, seen: Episode, e: Episode)
    requires PayloadOk(seen) && PayloadOk(e) && KeepsPayload(seen, e)
    requires Effect(write, seen, e).Some? && ByTranscription(write)
    ensures PayloadOk(Effect(write, seen, e).value) && KeepsPayload(e, Effect(write, seen, e).value)
  {
  }

  lemma StageKeepsPayload(write: Write, seen: Episode, e: Episode)
    requires PayloadOk(seen) && PayloadOk(e) && KeepsPayload(seen, e)
    requires Effect(write, seen, e).Some? && !ByOwnerOrDigest(write) && !ByTranscription(write)
    ensures PayloadOk(Effect(write, seen, e).value) && KeepsPayload(e, Effect(write, seen, e).value)
  {
  }

  lemma EffectKeepsPayload(write: Write, seen: Episode, e: Episode)
    requires PayloadOk(seen) && PayloadOk(e) && KeepsPayload(seen, e)
    requires Effect(write, seen, e).Some?
    ensures PayloadOk(Effect(write, seen, e).value) && KeepsPayload(e, Effect(write, seen, e).value)
  {
    hide Effect, PayloadOk, KeepsPayload;
    if ByOwnerOrDigest(write) {
      OwnerKeepsPayload(write, seen, e);
    } else if ByTranscription(write) {
      TranscriptionKeepsPayload(write, seen, e);
    } else {
      StageKeepsPayload(write, seen, e);
    }
  }

  ghost predicate PayloadHistory(h: seq<Episode>) {
    && (forall k :: 0 <= k < |h| ==> PayloadOk(h[k]))
    && (forall i, j :: 0 <= i <= j < |h| ==> KeepsPayload(h[i], h[j]))
  }

  lemma AppendKeepsPayload(h: seq<Episode>, e: Episode)
    requires h != [] && PayloadHistory(h) && PayloadOk(e) && KeepsPayload(h[|h| - 1], e)
    ensures PayloadHistory(h + [e])
  {
    var h' := h + [e];
    forall i, j | 0 <= i <= j < |h'| ensures KeepsPayload(h'[i], h'[j]) {
      if i < |h| { assert KeepsPayload(h[i], h[|h| - 1]); }
    }
  }

  lemma CommitKeepsPayload(h: seq<Episode>, write: Write)
    requires h != [] && PayloadHistory(h)
    ensures PayloadHistory(Commit(h, write))
  {
    hide Effect, PayloadOk, KeepsPayload;
    var k := SeenBy(write);
    if k < |h| {
      var seen, e := h[k], h[|h| - 1];
      var effect := Effect(write, seen, e);
      if effect.Some? {
        assert PayloadOk(seen) && PayloadOk(e) && KeepsPayload(seen, e);
        EffectKeepsPayload(write, seen, e);
        AppendKeepsPayload(h, effect.value);
      }
    }
  }

  /**
   In every history, whatever writes interleave and however stale the documents they
   were decided on, owner overrides included: each status comes with the payload it
   stands for, and so does the status a retry would go back to.
   */
  lemma {:induction false} StatusImpliesPayload(writes: seq<Write>)
    ensures PayloadHistory(Lifetime(writes))
    decreases |writes|
  {
    if writes != [] {
      var n := |writes| - 1;
      StatusImpliesPayload(writes[..n]);
      CommitKeepsPayload(Lifetime(writes[..n]), writes[n]);
    }
  }

  // --------------------------------------------------------- only allowed edges are taken

  predicate EdgeOrStutter(a: Episode, b: Episode) {
    a.status == b.status || b.status in Allowed(a.status)
  }

  /** Every write, as a mutator handed to `update_doc`, checks its own edge. */
  function Mutator(write: Write, seen: Episode): Episode -> Option<Episode> {
    (e: Episode) => Effect(write, seen, e)
  }

  lemma MutatorChecksItsEdge(write: Write, seen: Episode, e: Episode)
    requires Mutator(write, seen)(e).Some?
    ensures EdgeOrStutter(e, Mutator(write, seen)(e).value)
  {
  }

  /**
   Concurrent writers on one episode: take any mutators built from any writes, let any
   interleaving of `update_doc` commit some of them, and every two consecutive committed
   statuses are equal or joined by an edge of the table.
   */
  lemma ConcurrentWritersKeepToTheTable(init: Episode, decided: seq<(Write, Episode)>, fs: seq<Episode -> Option<Episode>>, log: seq<nat>)
    requires |fs| == |decided| && forall i: nat | i < |fs| :: fs[i] == Mutator(decided[i].0, decided[i].1)
    requires UpdateDoc.Fold(init, fs, log).Some?
    ensures UpdateDoc.Chained(UpdateDoc.History(init, fs, log), EdgeOrStutter)
  {
    forall i: nat, e: Episode | i < |fs| && fs[i](e).Some? ensures EdgeOrStutter(e, fs[i](e).value) {
      MutatorChecksItsEdge(decided[i].0, decided[i].1, e);
    }
    UpdateDoc.CheckedMutatorsCheckHistory(init, fs, log, EdgeOrStutter);
  }

  // ------------------------------------------------------------- published means claimed

  predicate Claimed(e: Episode) {
    e.status == PUBLISHED ==> e.digestId.Some?
  }

  /**
   Exactly one write can publish an episode no digest claims: putting a summarised
   episode back on its list after something cleared the claim it was found with.
   */
  lemma OnlyRelistingLosesTheClaim(write: Write, seen: Episode, e: Episode)
    requires Claimed(e) && Effect(write, seen, e).Some?
    ensures !Claimed(Effect(write, seen, e).value) <==>
            write.Relist? && e.digestId.None?
  {
  }

  /** ... and only an escalation clears a claim. */
  lemma OnlyEscalationClearsAClaim(write: Write, seen: Episode, e: Episode)
    requires e.digestId.Some? && Effect(write, seen, e).Some?
    ensures Effect(write, seen, e).value.digestId.None? <==> write.Escalate?
  {
  }

  lemma RelistingWasClaimed(write: Write, seen: Episode, e: Episode)
    requires write.Relist? && Effect(write, seen, e).Some?
    ensures seen.digestId.Some?
  {
  }

  /** No escalation is written while a requested summary is between its first read and its relisting. */
  ghost predicate OwnerActionsDoNotOverlap(writes: seq<Write>) {
    forall m, n :: 0 <= m < n < |writes| && writes[n].Relist? && writes[m].Escalate? ==>
      |Lifetime(writes[..m + 1])| <= writes[n].seen + 1
  }

  lemma {:induction false} ClaimSurvives(writes: seq<Write>, seen: nat)
    requires var h := Lifetime(writes); seen < |h| && h[seen].digestId.Some?
    requires forall m :: 0 <= m < |writes| && writes[m].Escalate? ==> |Lifetime(writes[..m + 1])| <= seen + 1
    ensures var h := Lifetime(writes); h[|h| - 1].digestId.Some?
    decreases |writes|
  {
    hide Effect, Allowed, FRESH;
    var n := |writes| - 1;
    var h := Lifetime(writes);
    if seen < |h| - 1 {
      var before := Lifetime(writes[..n]);
      forall m | 0 <= m < n && writes[..n][m].Escalate? ensures |Lifetime(writes[..n][..m + 1])| <= seen + 1 {
        assert writes[..n][..m + 1] == writes[..m + 1];
      }
      assert writes[..n + 1] == writes;
      ClaimSurvives(writes[..n], seen);
      var write := writes[n];
      if |h| > |before| {
        OnlyEscalationClearsAClaim(write, before[SeenBy(write)], before[|before| - 1]);
      }
    }
  }

  lemma {:induction false} PublishedImpliesClaimed(writes: seq<Write>)
    requires OwnerActionsDoNotOverlap(writes)
    ensures forall k :: 0 <= k < |Lifetime(writes)| ==> Claimed(Lifetime(writes)[k])
    decreases |writes|
  {
    hide Effect, Allowed;
    if writes != [] {
      var n := |writes| - 1;
      var earlier := writes[..n];
      forall i, j | 0 <= i < j < |earlier| && earlier[j].Relist? && earlier[i].Escalate?
        ensures |Lifetime(earlier[..i + 1])| <= earlier[j].seen + 1
      {
        assert earlier[..i + 1] == writes[..i + 1];
      }
      PublishedImpliesClaimed(earlier);
      var h, write := Lifetime(earlier), writes[n];
      if SeenBy(write) < |h| && Effect(write, h[SeenBy(write)], h[|h| - 1]).Some? {
        OnlyRelistingLosesTheClaim(write, h[SeenBy(write)], h[|h| - 1]);
        if write.Relist? {
          forall m | 0 <= m < n && earlier[m].Escalate? ensures |Lifetime(earlier[..m + 1])| <= write.seen + 1 {
            assert earlier[..m + 1] == writes[..m + 1];
          }
          RelistingWasClaimed(write, h[write.seen], h[|h| - 1]);
          ClaimSurvives(earlier, write.seen);
        }
      }
    }
  }

  lemma LifetimeMore(writes: seq<Write>, write: Write)
    ensures Lifetime(writes + [write]) == Commit(Lifetime(writes), write)
  {
    hide Commit;
    assert (writes + [write])[..|writes|] == writes;
  }

  /** Write `i` of `steps`, decided on document `seenAt[i]` of the history grown by `stages`, produces `stages[i]`. */
  predicate Turns(h: seq<Episode>, steps: seq<Write>, seenAt: seq<nat>, stages: seq<Episode>, i: nat)
    requires h != [] && i < |steps| == |seenAt| == |stages|
  {
    && SeenBy(steps[i]) == seenAt[i] < |h| + i
    && Effect(steps[i], (h + stages)[seenAt[i]], (h + stages)[|h| + i - 1]) == Some(stages[i])
  }

  lemma {:induction false} Enacted(writes: seq<Write>, steps: seq<Write>, seenAt: seq<nat>, stages: seq<Episode>, k: nat)
    requires k <= |steps| == |seenAt| == |stages|
    requires forall i | 0 <= i < |steps| :: Turns(Lifetime(writes), steps, seenAt, stages, i)
    ensures Lifetime(writes + steps[..k]) == Lifetime(writes) + stages[..k]
  {
    hide Effect, Lifetime;
    var h := Lifetime(writes);
    if k == 0 {
      assert writes + steps[..0] == writes && h + stages[..0] == h;
    } else {
      Enacted(writes, steps, seenAt, stages, k - 1);
      assert writes + steps[..k] == writes + steps[..k - 1] + [steps[k - 1]];
      LifetimeMore(writes + steps[..k - 1], steps[k - 1]);
      var before := h + stages[..k - 1];
      assert Turns(h, steps, seenAt, stages, k - 1);
      assert before[seenAt[k - 1]] == (h + stages)[seenAt[k - 1]];
      assert before[|before| - 1] == (h + stages)[|h| + k - 2];
      assert before + [stages[k - 1]] == h + stages[..k];
    }
  }

  /** A summary requested of the listed episode at `n`, which the owner escalates before it is through. */
  function Overlap(n: nat, high: bool): (writes: seq<Write>)
    ensures |writes| == 7
  {
    [QueueSummary(n), Escalate, ClaimAcquisition, ReportFailure(n + 1, false, 3), StoreSummary, Classify(high), Relist(n)]
  }

  /** The document after each of the seven writes. */
  function Stages(listed: Episode, high: bool): (stages: seq<Episode>)
    ensures |stages| == 7
  {
    var queued := listed.(status := AWAITING_TRANSCRIPT);
    var escalated := queued.(attempts := 0, crashes := 0, lastError := None, digestId := None);
    var failed := escalated.(status := TRANSCRIPT_FAILED, attempts := 1, crashes := queued.crashes,
                             lastError := Some(LastError("transcript", None)));
    var stored := failed.(status := SUMMARIZED, tier1 := true);
    var scored := stored.(status := Verdict(high));
    [queued, escalated, escalated.(crashes := 1), failed, stored, scored, scored.(status := PUBLISHED, relisted := true)]
  }

  lemma OverlapEffects(first: Episode, listed: Episode, n: nat, high: bool)
    requires listed.status == PUBLISHED && listed.digestId.Some? && !Refused(listed)
    ensures var steps, stages := Overlap(n, high), Stages(listed, high);
      && Effect(steps[0], listed, listed) == Some(stages[0])
      && Effect(steps[1], first, stages[0]) == Some(stages[1])
      && Effect(steps[2], first, stages[1]) == Some(stages[2])
      && Effect(steps[3], stages[0], stages[2]) == Some(stages[3])
  {
  }

  lemma OverlapEffectsOn(first: Episode, listed: Episode, n: nat, high: bool)
    requires listed.status == PUBLISHED && listed.digestId.Some? && !Refused(listed)
    ensures var steps, stages := Overlap(n, high), Stages(listed, high);
      && Effect(steps[4], first, stages[3]) == Some(stages[4])
      && Effect(steps[5], first, stages[4]) == Some(stages[5])
      && Effect(steps[6], listed, stages[5]) == Some(stages[6])
      && stages[6].status == PUBLISHED && !Claimed(stages[6])
  {
  }

  function SeenAt(n: nat): (seenAt: seq<nat>)
    ensures |seenAt| == 7
  {
    [n, 0, 0, n + 1, 0, 0, n]
  }

  /**
   The overlap unclaims any listed episode the runner agrees to summarise: after whatever
   history, these seven writes leave it published and no digest claims it.
   */
  lemma OverlapUnclaims(writes: seq<Write>, high: bool)
    requires var h := Lifetime(writes); var listed := h[|h| - 1];
      listed.status == PUBLISHED && listed.digestId.Some? && !Refused(listed)
    ensures var n := |Lifetime(writes)| - 1;
      var h := Lifetime(writes + Overlap(n, high));
      h[|h| - 1].status == PUBLISHED && !Claimed(h[|h| - 1])
  {
    var h := Lifetime(writes);
    var n := |h| - 1;
    var stages := Stages(h[n], high);
    OverlapTurns(h, high);
    assert forall i :: 0 <= i < 7 ==> Turns(h, Overlap(n, high), SeenAt(n), stages, i) by { hide Turns, Overlap, SeenAt, Stages, Lifetime; }
    hide *;
    Enacted(writes, Overlap(n, high), SeenAt(n), stages, 7);
    assert Overlap(n, high)[..7] == Overlap(n, high) && stages[..7] == stages;
    assert (h + stages)[|h| + 6] == stages[6];
  }

  lemma OverlapTurns(h: seq<Episode>, high: bool)
    requires h != [] && h[|h| - 1].status == PUBLISHED && h[|h| - 1].digestId.Some? && !Refused(h[|h| - 1])
    ensures var n := |h| - 1;
      && AllSevenTurn(h, Overlap(n, high), SeenAt(n), Stages(h[n], high))
      && Stages(h[n], high)[6].status == PUBLISHED && !Claimed(Stages(h[n], high)[6])
  {
    var n := |h| - 1;
    var steps, stages := Overlap(n, high), Stages(h[n], high);
    OverlapEffects(h[0], h[n], n, high);
    OverlapEffectsOn(h[0], h[n], n, high);
    OverlapSees(n, high);
    hide *;
    var seenAt := SeenAt(n);
    FirstTurns(h, steps, seenAt, stages);
    TurnsNow(h, steps, seenAt, stages, 4, h[0], stages[3]);
    TurnsNow(h, steps, seenAt, stages, 5, h[0], stages[4]);
    TurnsNow(h, steps, seenAt, stages, 6, h[n], stages[5]);
    SevenTurn(h, steps, seenAt, stages);
  }

  lemma FirstTurns(h: seq<Episode>, steps: seq<Write>, seenAt: seq<nat>, stages: seq<Episode>)
    requires h != [] && |steps| == |seenAt| == |stages| == 7
    requires SeenBy(steps[0]) == seenAt[0] == |h| - 1 && SeenBy(steps[1]) == seenAt[1] == 0
    requires SeenBy(steps[2]) == seenAt[2] == 0 && SeenBy(steps[3]) == seenAt[3] == |h|
    requires Effect(steps[0], h[|h| - 1], h[|h| - 1]) == Some(stages[0]) && Effect(steps[1], h[0], stages[0]) == Some(stages[1])
    requires Effect(steps[2], h[0], stages[1]) == Some(stages[2]) && Effect(steps[3], stages[0], stages[2]) == Some(stages[3])
    ensures Turns(h, steps, seenAt, stages, 0) && Turns(h, steps, seenAt, stages, 1)
    ensures Turns(h, steps, seenAt, stages, 2) && Turns(h, steps, seenAt, stages, 3)
  {
    hide *;
    TurnsNow(h, steps, seenAt, stages, 0, h[|h| - 1], h[|h| - 1]);
    TurnsNow(h, steps, seenAt, stages, 1, h[0], stages[0]);
    TurnsNow(h, steps, seenAt, stages, 2, h[0], stages[1]);
    TurnsNow(h, steps, seenAt, stages, 3, stages[0], stages[2]);
  }

  predicate AllSevenTurn(h: seq<Episode>, steps: seq<Write>, seenAt: seq<nat>, stages: seq<Episode>) {
    h != [] && |steps| == |seenAt| == |stages| == 7 && forall i :: 0 <= i < 7 ==> Turns(h, steps, seenAt, stages, i)
  }

  lemma SevenTurn(h: seq<Episode>, steps: seq<Write>, seenAt: seq<nat>, stages: seq<Episode>)
    requires h != [] && |steps| == |seenAt| == |stages| == 7
    requires Turns(h, steps, seenAt, stages, 0) && Turns(h, steps, seenAt, stages, 1) && Turns(h, steps, seenAt, stages, 2)
    requires Turns(h, steps, seenAt, stages, 3) && Turns(h, steps, seenAt, stages, 4) && Turns(h, steps, seenAt, stages, 5)
    requires Turns(h, steps, seenAt, stages, 6)
    ensures AllSevenTurn(h, steps, seenAt, stages)
  {
    hide Turns;
  }

  lemma OverlapSees(n: nat, high: bool)
    ensures var steps, seenAt := Overlap(n, high), SeenAt(n);
      && seenAt[0] == n && seenAt[1] == 0 && seenAt[2] == 0 && seenAt[3] == n + 1 && seenAt[4] == 0 && seenAt[5] == 0 && seenAt[6] == n
      && SeenBy(steps[0]) == n && SeenBy(steps[1]) == 0 && SeenBy(steps[2]) == 0 && SeenBy(steps[3]) == n + 1
      && SeenBy(steps[4]) == 0 && SeenBy(steps[5]) == 0 && SeenBy(steps[6]) == n
  {
  }

  lemma TurnsNow(h: seq<Episode>, steps: seq<Write>, seenAt: seq<nat>, stages: seq<Episode>, i: nat, seen: Episode, e: Episode)
    requires h != [] && i < |steps| == |seenAt| == |stages| && SeenBy(steps[i]) == seenAt[i] < |h| + i
    requires seen == if seenAt[i] < |h| then h[seenAt[i]] else stages[seenAt[i] - |h|]
    requires e == if i == 0 then h[|h| - 1] else stages[i - 1]
    requires Effect(steps[i], seen, e) == Some(stages[i])
    ensures Turns(h, steps, seenAt, stages, i)
  {
    hide Effect;
  }

  /** A failure retried, in a history: whatever happened before, the error and the retry leave the episode as it was, its counters cleared. */
  lemma FailureIsRetried(writes: seq<Write>, stage: string)
    requires var h := Lifetime(writes); h[|h| - 1].status in {NEW, AWAITING_TRANSCRIPT, TRANSCRIBED, TRANSCRIPT_FAILED}
    ensures var h := Lifetime(writes);
      Lifetime(writes + [RecordError(stage)] + [Retry(|h|)]) ==
        h + [MarkError(h[|h| - 1], stage)] + [h[|h| - 1].(attempts := 0, crashes := 0, lastError := None)]
  {
    var h := Lifetime(writes);
    hide *;
    LifetimeMore(writes, RecordError(stage));
    LifetimeMore(writes + [RecordError(stage)], Retry(|h|));
    FailThenRetry(h, h[|h| - 1], stage);
  }

  lemma FailThenRetry(h: seq<Episode>, e: Episode, stage: string)
    requires h != [] && h[|h| - 1] == e && e.status in {NEW, AWAITING_TRANSCRIPT, TRANSCRIBED, TRANSCRIPT_FAILED}
    ensures Commit(Commit(h, RecordError(stage)), Retry(|h|)) ==
            h + [MarkError(e, stage)] + [e.(attempts := 0, crashes := 0, lastError := None)]
  {
    var failed := MarkError(e, stage);
    assert failed.status == ERROR;
    RetryUndoesErrorIff(e, stage);
    RecordedIs(h[0], e, stage);
    CommitIs(h, RecordError(stage), failed);
    hide Effect, Commit, MarkError, Allowed;
    var h' := h + [failed];
    assert h'[|h|] == failed;
    CommitIs(h', Retry(|h|), e.(attempts := 0, crashes := 0, lastError := None));
  }

  lemma RecordedIs(seen: Episode, e: Episode, stage: string)
    ensures Effect(RecordError(stage), seen, e) == Some(MarkError(e, stage))
  {
  }

  lemma CommitIs(h: seq<Episode>, write: Write, e: Episode)
    requires SeenBy(write) < |h| && Effect(write, h[SeenBy(write)], h[|h| - 1]) == Some(e)
    ensures Commit(h, write) == h + [e]
  {
    hide Effect;
  }

  /** An index entry, from triage to its listing. */
  function FromFresh(digest: string): seq<Episode> {
    var triaged := FRESH.(status := TRIAGED, tier0 := Some(DIRECT));
    var indexed := triaged.(status := DIGEST_DIRECT);
    [FRESH, triaged, indexed, indexed.(status := PUBLISHED, digestId := Some(digest))]
  }

  lemma FreshEffects(digest: string)
    ensures var h := FromFresh(digest);
      && Effect(Triage(DIRECT), h[0], h[0]) == Some(h[1])
      && Effect(Dispatch(1), h[1], h[1]) == Some(h[2])
      && Effect(Claim(2, digest), h[2], h[2]) == Some(h[3])
    ensures Lifetime([]) == [FRESH] == FromFresh(digest)[..1]
  {
  }

  lemma ListedFromFresh(digest: string)
    ensures Lifetime([Triage(DIRECT), Dispatch(1), Claim(2, digest)]) == FromFresh(digest)
  {
    var h := FromFresh(digest);
    FreshEffects(digest);
    LifetimeMore([], Triage(DIRECT));
    LifetimeMore([Triage(DIRECT)], Dispatch(1));
    LifetimeMore([Triage(DIRECT), Dispatch(1)], Claim(2, digest));
    assert |h| == 4;
    hide Effect, Lifetime, FromFresh, Commit;
    CommitIs(h[..1], Triage(DIRECT), h[1]);
    assert h[..1] + [h[1]] == h[..2];
    CommitIs(h[..2], Dispatch(1), h[2]);
    assert h[..2] + [h[2]] == h[..3];
    CommitIs(h[..3], Claim(2, digest), h[3]);
    assert h[..3] + [h[3]] == h;
    assert [] + [Triage(DIRECT)] == [Triage(DIRECT)] && [Triage(DIRECT)] + [Dispatch(1)] == [Triage(DIRECT), Dispatch(1)];
    assert [Triage(DIRECT), Dispatch(1)] + [Claim(2, digest)] == [Triage(DIRECT), Dispatch(1), Claim(2, digest)];
  }

  /** It can happen from the start: triaged as an index entry, listed, then summarised on request while it is escalated. */
  lemma OverlapFromFresh(digest: string, high: bool)
    ensures var before := [Triage(DIRECT), Dispatch(1), Claim(2, digest)];
      && |Lifetime(before)| == 4
      && var h := Lifetime(before + Overlap(3, high));
         h[|h| - 1].status == PUBLISHED && !Claimed(h[|h| - 1])
  {
    hide Lifetime, Effect, Overlap;
    ListedFromFresh(digest);
    OverlapUnclaims([Triage(DIRECT), Dispatch(1), Claim(2, digest)], high);
  }
}
