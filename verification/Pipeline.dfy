/** The routine stages of `pipeline/runner.py`, followed for one episode through any sequence of stage calls. */
module Pipeline {
  import opened Wrappers
  import opened Episodes
  import opened Transcripts

  datatype StageFate = Ok | Fails | Unavailable_ | Dies

  /** How the model calls of one stage call turn out. Only the part its status asks for is used. */
  datatype Call = Call(triage: StageFate, route: Route, transcript: Fate, summary: SummaryFate)

  /** `DiesHalfway` is a crash between the two writes of `Tier1Stage.summarize`. */
  datatype SummaryFate = Scored(high: bool) | SummaryFails | SummaryUnavailable | DiesBefore | DiesHalfway

  function Summarize(e: Episode, fate: SummaryFate): Episode
    requires e.status in {TRANSCRIBED, TRANSCRIPT_FAILED}
  {
    match fate
    case Scored(high) => Effect(Classify(high), e, Effect(StoreSummary, e, e).value).value
    case SummaryFails => MarkError(e, "tier1")
    case DiesHalfway => Effect(StoreSummary, e, e).value
    case _ => e
  }

  /** The stage whose queue holds the episode, if any, works on it once. */
  function Stage(e: Episode, call: Call, maxRetries: nat): Episode {
    match e.status
    case NEW =>
      (match call.triage
       case Ok => Effect(Triage(call.route), e, e).value
       case Fails => MarkError(e, "tier0")
       case _ => e)
    case TRIAGED => (match Effect(Dispatch(0), e, e) case Some(next) => next case None => MarkError(e, "dispatch"))
    case AWAITING_TRANSCRIPT => Process(e, call.transcript, maxRetries)
    case TRANSCRIBED => Summarize(e, call.summary)
    case TRANSCRIPT_FAILED => Summarize(e, call.summary)
    case _ => e
  }

  /** Where each stage leads from its own queue; the transcript stage is `Transcripts`. */
  lemma StagesLead(e: Episode, call: Call, maxRetries: nat)
    ensures var next := Stage(e, call, maxRetries);
      match e.status
      case NEW =>
        (match call.triage
         case Ok => next == e.(status := TRIAGED, tier0 := Some(call.route))
         case Fails => next == e.(status := ERROR, lastError := Some(LastError("tier0", Some(NEW))))
         case _ => next == e)
      case TRIAGED => next.status == (match e.tier0
         case None => ERROR
         case Some(DROP) => DROPPED
         case Some(DIRECT) => DIGEST_DIRECT
         case Some(ESCALATE) => AWAITING_TRANSCRIPT)
      case AWAITING_TRANSCRIPT => next == Process(e, call.transcript, maxRetries)
      case TRANSCRIBED => Summarized(e, call.summary, next)
      case TRANSCRIPT_FAILED => Summarized(e, call.summary, next)
      case _ => next == e
  {
    hide Process;
  }

  predicate Summarized(e: Episode, fate: SummaryFate, next: Episode) {
    match fate
    case Scored(high) => next == e.(status := if high then READY_FOR_DIGEST else SCORED_LOW, tier1 := true)
    case SummaryFails => next == e.(status := ERROR, lastError := Some(LastError("tier1", Some(e.status))))
    case DiesHalfway => next == e.(status := SUMMARIZED, tier1 := true)
    case _ => next == e
  }

  /** Nothing was attempted: the model or the backend is away, or the process died before its first write. */
  predicate Deferred(e: Episode, call: Call) {
    match e.status
    case NEW => call.triage in {Unavailable_, Dies}
    case AWAITING_TRANSCRIPT => call.transcript == DiesFirst || (call.transcript == Outage && e.crashes < CRASH_BUDGET)
    case TRANSCRIBED => call.summary in {SummaryUnavailable, DiesBefore}
    case TRANSCRIPT_FAILED => call.summary in {SummaryUnavailable, DiesBefore}
    case _ => false
  }

  predicate Settled(e: Episode) {
    e.status in {READY_FOR_DIGEST, DIGEST_DIRECT, SCORED_LOW, DROPPED, PUBLISHED, ERROR}
  }

  /** Stage calls an episode can still take: its rank, plus what is left of the transcript and crash budgets. */
  function Remaining(e: Episode, maxRetries: nat): nat {
    var budget := Max(0, CRASH_BUDGET - e.crashes) + Max(1, maxRetries - e.attempts);
    match e.status
    case NEW => budget + 3
    case TRIAGED => budget + 2
    case AWAITING_TRANSCRIPT => budget + 1
    case TRANSCRIBED => 1
    case TRANSCRIPT_FAILED => 1
    case _ => 0
  }

  lemma AcquisitionMakesProgress(e: Episode, fate: Fate, maxRetries: nat)
    requires e.status == AWAITING_TRANSCRIPT
    ensures var next := Process(e, fate, maxRetries);
      if fate.DiesFirst? || (fate.Outage? && e.crashes < CRASH_BUDGET) then next == e
      else Remaining(next, maxRetries) < Remaining(e, maxRetries)
  {
  }

  lemma SummaryMakesProgress(e: Episode, fate: SummaryFate, maxRetries: nat)
    requires e.status in {TRANSCRIBED, TRANSCRIPT_FAILED}
    ensures var next := Summarize(e, fate);
      if fate in {SummaryUnavailable, DiesBefore} then next == e else Remaining(next, maxRetries) == 0
  {
  }

  /** Every call that attempts something brings the episode strictly nearer to rest; a deferred one changes nothing. */
  lemma StageCallsMakeProgress(e: Episode, call: Call, maxRetries: nat)
    requires Remaining(e, maxRetries) > 0
    ensures if Deferred(e, call) then Stage(e, call, maxRetries) == e
            else Remaining(Stage(e, call, maxRetries), maxRetries) < Remaining(e, maxRetries)
  {
    hide Process, Summarize;
    if e.status == AWAITING_TRANSCRIPT {
      AcquisitionMakesProgress(e, call.transcript, maxRetries);
    } else if e.status in {TRANSCRIBED, TRANSCRIPT_FAILED} {
      SummaryMakesProgress(e, call.summary, maxRetries);
    }
  }

  lemma AcquisitionEnds(e: Episode, fate: Fate, maxRetries: nat)
    requires e.status == AWAITING_TRANSCRIPT
    ensures Process(e, fate, maxRetries).status in {AWAITING_TRANSCRIPT, TRANSCRIBED, TRANSCRIPT_FAILED, ERROR}
  {
  }

  lemma SummaryEnds(e: Episode, fate: SummaryFate)
    requires e.status in {TRANSCRIBED, TRANSCRIPT_FAILED}
    ensures Summarize(e, fate).status in
      if fate.DiesHalfway? then {SUMMARIZED} else {TRANSCRIBED, TRANSCRIPT_FAILED, READY_FOR_DIGEST, SCORED_LOW, ERROR}
  {
  }

  /** A stage call leaves the episode at rest or queued, except that dying between the two writes strands it. */
  lemma OnlyDyingHalfwayStrands(e: Episode, call: Call, maxRetries: nat)
    requires Remaining(e, maxRetries) > 0
    ensures var next := Stage(e, call, maxRetries);
      if e.status in {TRANSCRIBED, TRANSCRIPT_FAILED} && call.summary.DiesHalfway? then next.status == SUMMARIZED
      else Settled(next) || Remaining(next, maxRetries) > 0
  {
    hide Process, Summarize;
    if e.status == AWAITING_TRANSCRIPT {
      AcquisitionEnds(e, call.transcript, maxRetries);
    } else if e.status in {TRANSCRIBED, TRANSCRIPT_FAILED} {
      SummaryEnds(e, call.summary);
    }
  }

  function Stages(e: Episode, calls: seq<Call>, maxRetries: nat): Episode
    decreases |calls|
  {
    if calls == [] then e else Stages(Stage(e, calls[0], maxRetries), calls[1..], maxRetries)
  }

  /** The calls that found the episode with work to do and attempted it. */
  function Attempts(e: Episode, calls: seq<Call>, maxRetries: nat): nat
    decreases |calls|
  {
    if calls == [] then 0
    else (if Remaining(e, maxRetries) > 0 && !Deferred(e, calls[0]) then 1 else 0)
         + Attempts(Stage(e, calls[0], maxRetries), calls[1..], maxRetries)
  }

  /** Some call stores the summary and dies before classifying it. */
  predicate DiesBetweenWrites(e: Episode, calls: seq<Call>, maxRetries: nat)
    decreases |calls|
  {
    calls != [] &&
    (|| (e.status in {TRANSCRIBED, TRANSCRIPT_FAILED} && calls[0].summary.DiesHalfway?)
     || DiesBetweenWrites(Stage(e, calls[0], maxRetries), calls[1..], maxRetries))
  }

  /** Once nothing is owed, no stage touches the episode again. */
  lemma {:induction false} RestIsFinal(e: Episode, calls: seq<Call>, maxRetries: nat)
    requires Remaining(e, maxRetries) == 0
    ensures Stages(e, calls, maxRetries) == e
    ensures Attempts(e, calls, maxRetries) == 0 && !DiesBetweenWrites(e, calls, maxRetries)
    decreases |calls|
  {
    if calls != [] {
      assert Stage(e, calls[0], maxRetries) == e;
      RestIsFinal(e, calls[1..], maxRetries);
    }
  }

  lemma {:induction false} AttemptsUseUpTheBudget(e: Episode, calls: seq<Call>, maxRetries: nat)
    requires Settled(e) || Remaining(e, maxRetries) > 0
    ensures Attempts(e, calls, maxRetries) + Remaining(Stages(e, calls, maxRetries), maxRetries) <= Remaining(e, maxRetries)
    ensures Remaining(Stages(e, calls, maxRetries), maxRetries) == 0 ==>
              (Settled(Stages(e, calls, maxRetries)) <==> !DiesBetweenWrites(e, calls, maxRetries))
    decreases |calls|
  {
    hide Stage, Effect, Process;
    if Remaining(e, maxRetries) == 0 {
      RestIsFinal(e, calls, maxRetries);
    } else if calls != [] {
      StageCallsMakeProgress(e, calls[0], maxRetries);
      OnlyDyingHalfwayStrands(e, calls[0], maxRetries);
      var next := Stage(e, calls[0], maxRetries);
      if next.status == SUMMARIZED {
        RestIsFinal(next, calls[1..], maxRetries);
      } else {
        AttemptsUseUpTheBudget(next, calls[1..], maxRetries);
      }
    }
  }

  /**
   A new episode needs at most `6 + max(1, maxRetries)` attempts, deferred calls apart.
   After that many it is at rest for good, and settled exactly if no crash fell between
   Tier-1's two writes; if one did it is left SUMMARIZED, which no queue picks up.
   */
  lemma NewEpisodeSettles(calls: seq<Call>, maxRetries: nat)
    ensures Attempts(FRESH, calls, maxRetries) <= CRASH_BUDGET + Max(1, maxRetries) + 3
    ensures Attempts(FRESH, calls, maxRetries) == CRASH_BUDGET + Max(1, maxRetries) + 3 ==>
              Remaining(Stages(FRESH, calls, maxRetries), maxRetries) == 0
    ensures Remaining(Stages(FRESH, calls, maxRetries), maxRetries) == 0 ==>
              (Settled(Stages(FRESH, calls, maxRetries)) <==> !DiesBetweenWrites(FRESH, calls, maxRetries))
  {
    AttemptsUseUpTheBudget(FRESH, calls, maxRetries);
  }

  /** The models and the backend answer, one way or another, and no process dies before it wrote anything. */
  predicate Answered(call: Call) {
    && call.triage in {Ok, Fails}
    && call.transcript !in {DiesFirst, Outage}
    && call.summary !in {SummaryUnavailable, DiesBefore}
  }

  lemma {:induction false} AnsweredCallsCount(e: Episode, calls: seq<Call>, maxRetries: nat)
    requires Settled(e) || Remaining(e, maxRetries) > 0
    requires forall i :: 0 <= i < |calls| ==> Answered(calls[i])
    ensures Remaining(e, maxRetries) <= |calls| ==> Remaining(Stages(e, calls, maxRetries), maxRetries) == 0
    ensures Remaining(Stages(e, calls, maxRetries), maxRetries) > 0 ==> Attempts(e, calls, maxRetries) == |calls|
    decreases |calls|
  {
    hide Stage, Effect, Process;
    if Remaining(e, maxRetries) == 0 {
      RestIsFinal(e, calls, maxRetries);
    } else if calls != [] {
      StageCallsMakeProgress(e, calls[0], maxRetries);
      OnlyDyingHalfwayStrands(e, calls[0], maxRetries);
      var next := Stage(e, calls[0], maxRetries);
      if Remaining(next, maxRetries) == 0 {
        RestIsFinal(next, calls[1..], maxRetries);
      } else {
        AnsweredCallsCount(next, calls[1..], maxRetries);
      }
    }
  }

  /**
   So a new episode whose every call is answered, if only by a failure, is at rest after
   `6 + max(1, maxRetries)` of them: in a digest's reach, dropped or in error, unless a crash
   fell between Tier-1's two writes.
   */
  lemma AnsweredEpisodeSettles(calls: seq<Call>, maxRetries: nat)
    requires forall i :: 0 <= i < |calls| ==> Answered(calls[i])
    requires |calls| >= 6 + (if maxRetries < 1 then 1 else maxRetries)
    ensures var rest := Stages(FRESH, calls, maxRetries);
      if DiesBetweenWrites(FRESH, calls, maxRetries) then rest.status == SUMMARIZED
      else rest.status in {READY_FOR_DIGEST, DIGEST_DIRECT, SCORED_LOW, DROPPED, PUBLISHED, ERROR}
  {
    AnsweredCallsCount(FRESH, calls, maxRetries);
    AttemptsUseUpTheBudget(FRESH, calls, maxRetries);
  }
}
