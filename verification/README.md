# Verified model of the podcast agent

A Dafny model of the crash-safe core of the podcast agent, and proofs about it. `dafny verify dfyconfig.toml` checks
everything.

The agent is a set of jobs, possibly in several processes, that share one document store. Every document carries a
revision; a write names the revision it replaces and fails if somebody else got there first. On that rest the job
leases, the episode state machine with its crash accounting, the digests and the archive walk. Beside them stand a few
self-contained algorithms: two chunkers, a resumable download, an incremental index, an endpoint chain, a throttle, a
settings merge and two bounded logs.

What changes state step by step in the program is a class or a loop here, and each of its methods is proved equal to a
specification function; what is promised is then proved of those functions, over every run, crash and interleaving.

| file | what it holds |
|---|---|
| `DocStore`, `MemoryStore`, `UpdateDoc` | the revisioned store and its compare-and-swap loop, for any number of concurrent calls |
| `Lease`, `JobLease` | the job lease as an asynchronous protocol with late messages, deaths, heartbeats and startup reclaim |
| `Episodes`, `Transcripts`, `Pipeline` | the episode, every write made to it, crash counters, and how stage calls bring it to rest |
| `Digest`, `DigestGenerator`, `ArchiveDigest` | file, document, claims, flag: the weekly and the archive digest, cut off between any two writes |
| `Months`, `ArchiveWalk`, `BackfillIngestor` | month keys as strings, and the backward walk over a show's past |
| `Text`, `Chunking`, `Narration` | splitting, stripping and joining, and the two chunkers built from them |
| `Download` | range-resumed transfers against an arbitrary server |
| `SearchIndex`, `SearchIndexFile` | the two tables of the full-text sidecar, `sync` against `rebuild` |
| `Strings`, `FindSort` | the order on strings, the typed collation, the chain of stable sorts, paging |
| `LlmChain`, `Throttle`, `ThrottleLimits`, `DeepMerge`, `Logs` | endpoint failover with cooldown, the sliding window and why its bound counts what it counts, settings overrides, log queue and ring |

Revisions are drawn from one counter that only grows, which stands for the random part of a revision. Clocks, model
replies, servers, feeds, crashes and other processes are parameters, and every theorem holds for all of them. A crash
is a number of writes the process lives to make, or a fate a call meets.

## What turned out not to hold

- A text of a single paragraph is cut at its sentences even when it fits a chunk, although `chunk_transcript` says a
  paragraph is never split unless it alone exceeds the target (`summarize/chunking.py:26-34`).
  `Chunking.LoneParagraphIsKeptIfShorter` gives the exact condition and `Chunking.FittingParagraphIsSplit` a text that
  fails it; `Chunking.ParagraphsAreKeptWhole` is the promise where it holds.
- A download trusts whatever is at the destination once a first connection drops (`net.py:469`).
  `Download.DownloadIsExactIffHarmless` says exactly which old content is harmless.
- `transcript_expired_at` is never cleared, so a transcript attached again after it expired is indexed by `rebuild` and
  missed by `sync` (`search.py:185`, `search.py:236`): `SearchIndex.RewrittenRowAgreesIff` says exactly when a row that
  `sync` writes is the one of a rebuild, `SearchIndex.ReattachedTranscriptIsMissed` shows the transcript missing.
- `_write_all` pairs its two tables only if no episode was listed twice (`search.py:306-329`): `SearchIndex.WriteAllPairsIffDistinct`.
- A crash between Tier-1's two writes leaves an episode SUMMARIZED, which no stage queues (`summarize/tier1.py:65-66`):
  `Pipeline.OnlyDyingHalfwayStrands`, `Pipeline.NewEpisodeSettles`.
- A month is left unfinished when the budget runs out, but the cursor moves on (`backfill/ingest.py:238`, `278-279`):
  `ArchiveWalk.IngestIsExact`.
- `/retry` is refused of an episode that erred as TRIAGED, SUMMARIZED, READY_FOR_DIGEST, DIGEST_DIRECT or SCORED_LOW, as
  a failed rescore leaves it: it aims at the recorded status, which ERROR may not become (`state.py:110`,
  `api/routes.py:983-995`). `Episodes.RetryUndoesErrorIff` is exact; escalating such an episode does work.
- A published episode can lose its claim if the owner escalates it while a summary of it is being made
  (`pipeline/runner.py:619-631`): `Episodes.OnlyRelistingLosesTheClaim` is exact, `Episodes.OverlapUnclaims` gives the
  seven writes that do it after any history that lists an episode the runner agrees to summarise, and
  `Episodes.OverlapFromFresh` a whole history.
- A claim that raises is logged and its digest is marked complete all the same (`digest/generate.py:543-581`), so its
  episode is listed and unclaimed: `Digests.LivingRunLeavesExactlyTheFailed`. A rescore failing at the wrong moment is
  enough: `Digests.FailedRescoreRaisesTheClaim`.
- An episode is listed twice exactly when a run that puts a document picks one that an interrupted digest of another
  week has on record, or one listed before whose claim raised or was given up since: `Digests.ListedOnce`. Both happen:
  `Digests.SkippingAnInterruptedWeekListsTwice`, `Digests.FailedClaimListsTwice`.
- Finishing an interrupted archive month claims whoever is unclaimed by then, shown in its file or not
  (`digest/archive.py:144-145`): `ArchiveDigest.ShownIffFoundAreShown` is exact, `ArchiveDigest.NewcomerIsNotShown` an
  episode claimed and never shown.
- `tail` stops at the first event that is not newer than the mark, which equals filtering only if the mark separates old
  from new (`logbuffer.py:93-94`): `Logs.EarlyBreakIffSeparated`, and `Logs.OwnNumberHidesAnother` where it does not.
- The throttle's map can lose failures that still count although no more than 1024 addresses have any, because a refused
  request moves its address to the end without recording anything (`api/auth.py:40-57`):
  `ThrottleLimits.CountingTheLiveIsNotEnough`. It holds every window exactly while no request, being recorded, evicts a
  front address with a recent failure: `Throttle.FaithfulIffTheLiveAreSpared`. Turning away no more than 1024 addresses
  in a window is enough for that: `Throttle.QuietSparesTheLive`.
- `_atomic_write` tries 49 names, the plain one and revisions 2 to 49, before it refuses (`digest/generate.py:616-636`).

## Model

| member | source | states |
|---|---|---|
| DocStore.ApplyAllValid | podcast_agent/db/memory.py:53-89 | over any history of operations every revision in use was drawn from a counter that never goes back |
| DocStore.RevisionNeverReturns | podcast_agent/db/memory.py:53-89 | a revision that is gone from a document is never seen on it again |
| DocStore.SameRevisionMeansUntouched | podcast_agent/db/memory.py:53-69 | the same revision at both ends of any history means nobody wrote the document in between |
| DocStore.OperationsCheck | podcast_agent/db/memory.py:53-151 | every operation of another process takes effect exactly at the revision, or the absence, it names, moves the revision on and touches one document |
| MemoryStore.MemoryStore.Put | podcast_agent/db/memory.py:53-69 | replaces the document under a fresh revision if the expected revision is the current one, else conflicts and changes nothing |
| MemoryStore.MemoryStore.Create | podcast_agent/db/memory.py:71-80 | inserts only if absent, and reports which |
| MemoryStore.MemoryStore.Delete | podcast_agent/db/memory.py:82-90 | removes only at the expected revision; a missing document is no conflict |
| MemoryStore.MemoryStore.Attach | podcast_agent/db/memory.py:129-138 | storing an attachment moves the revision and keeps the body; a missing document is refused and nothing changes |
| MemoryStore.MemoryStore.Detach | podcast_agent/db/memory.py:145-151 | dropping one does the same if it was there, and leaves the revision alone if it was not |
| UpdateDoc.OneWriteOrNone | podcast_agent/db/base.py:242-267 | a call that succeeds replaced the very document its mutator was applied to, whatever ran in between; one that does not left only other writers' effects |
| UpdateDoc.FirstUnbeatenDecides | podcast_agent/db/base.py:256-267 | the call retries: the first attempt whose document nobody wrote or deleted before its put decides the outcome and the store it leaves |
| UpdateDoc.GivesUpIffAlwaysBeaten | podcast_agent/db/base.py:256-267 | it gives up if and only if in every attempt the document was read, accepted by the mutator, and written or deleted before the put |
| UpdateDoc.OneQuietAttemptIsEnough | podcast_agent/db/base.py:256-267 | a document that stays, under a mutator that never raises, is updated as soon as one attempt is left alone |
| UpdateDoc.Update | podcast_agent/db/base.py:242-267 | the retry loop, on the store object, does what `UpdateRun` says for every interleaving |
| UpdateDoc.ConcurrentCallsSerialise | podcast_agent/db/base.py:242-267 | in any interleaving of any number of calls the document is the fold, in commit order, of the mutators of exactly the calls that committed, each once; giving up takes at least `max` writes by others |
| UpdateDoc.CallAloneCommits | podcast_agent/db/base.py:256-267 | in that interleaving model, a call left alone between read and write commits its mutator's result unless the document is gone or the mutator raises |
| UpdateDoc.BeatenCallStartsOver | podcast_agent/db/base.py:256-267 | one that loses its revision, if only to an attachment, starts over with one attempt less and gives up after the last |
| UpdateDoc.StepKeepsSerial | podcast_agent/db/base.py:242-267 | every single read, write, attachment move or write elsewhere keeps that invariant |
| UpdateDoc.CheckedMutatorsCheckHistory | podcast_agent/db/base.py:242-267 | a relation every mutator keeps between its input and its output holds between every two consecutive committed bodies |
| Lease.StepKeepsInv | podcast_agent/joblock.py:89-199 | every send, landing, answer, tick, death, heartbeat, release or reclaim keeps the protocol's invariant |
| Lease.EveryRunKeepsInv | podcast_agent/joblock.py:89-199 | so it holds in every execution from a store naming none of our runs |
| Lease.HolderIsNamed | podcast_agent/joblock.py:89-173 | a live run whose last landed expiry is in the future is the owner its lock document names, with that very expiry |
| Lease.MutualExclusion | podcast_agent/joblock.py:89-173 | two such runs of one job are the same run, in every execution |
| Lease.LandingSparesHolders | podcast_agent/joblock.py:89-173 | a landing request changes the owner only of an expired lock, and removes only the sender's own after it left or that of a run that has finished |
| Lease.ExpiredLeaseIsTaken | podcast_agent/joblock.py:89-130 | an undisturbed run that asks while the lock is absent, without a readable expiry, or with one not in the future, gets it for a whole time to live |
| Lease.UnexpiredLeaseIsRefused | podcast_agent/joblock.py:89-109 | while the lock carries an expiry in the future, an asking run is turned away and nothing is written |
| Lease.KilledHolderCostsOneExpiry | podcast_agent/joblock.py:89-130 | in every execution, after a holder is killed and any time passes, another machine's idle run that asks undisturbed holds the lease if and only if the expiry last written has come |
| Lease.FirstRunHolds | podcast_agent/joblock.py:89-97 | a process started on a job without a lock does get to hold it |
| Lease.KilledHolderIsReclaimed | podcast_agent/joblock.py:236-271 | in every execution, the next startup on a killed holder's host removes its lock, with no expiry to wait for |
| Lease.ReclaimFreesIff | podcast_agent/joblock.py:254-262 | startup removes the lock it sees if and only if its process ran on this host and is gone |
| Lease.LeavingFrees | podcast_agent/joblock.py:146-168 | a holder that leaves undisturbed removes its lock and no other |
| Lease.FailedReleaseLeavesTheLock | podcast_agent/joblock.py:169-173 | a release whose read raises leaves the lock to expire, and the run is over all the same |
| Lease.LostLeaseIsNotRenewed | podcast_agent/joblock.py:132-137 | a heartbeat that finds another's lock, or none, writes nothing and is the last |
| Lease.FailedBeatGoesOn | podcast_agent/joblock.py:175-184 | a heartbeat whose storage call raises goes on beating and loses nothing |
| Lease.BeatExtends | podcast_agent/joblock.py:132-144 | an undisturbed heartbeat pushes the expiry to a whole time to live from now |
| JobLeases.JobLease.Acquire | podcast_agent/joblock.py:89-130 | success means the lock was still absent, or still the expired document first read, at the moment of the write; undisturbed it succeeds exactly when the lease is free |
| JobLeases.JobLease.Renew | podcast_agent/joblock.py:132-144 | extends the run's own lock and nothing else, and only if nobody touched it in between |
| JobLeases.JobLease.Release | podcast_agent/joblock.py:146-173 | drops the flag and removes the lock only if it is still this run's; a run that holds nothing touches nothing |
| JobLeases.ReclaimLocalLeases | podcast_agent/joblock.py:236-271 | removes exactly the found locks of dead processes on this host, and counts them |
| Episodes.StatusImpliesPayload | podcast_agent/episodes.py:24-85 | in every history of writes by stages, archive, digests and owner, decided on however stale documents, each status comes with its payload, and so does the status a retry returns to |
| Episodes.EffectKeepsPayload | podcast_agent/api/routes.py:845-994 | every single write, owner overrides included, keeps that and never loses a payload |
| Episodes.MutatorChecksItsEdge | podcast_agent/state.py:77-111 | every write takes an allowed edge of the status table or keeps the status |
| Episodes.ConcurrentWritersKeepToTheTable | podcast_agent/episodes.py:37-51 | under any interleaving of concurrent writers, consecutive committed statuses are equal or joined by an allowed edge |
| Episodes.RoutesLead | podcast_agent/backfill/process.py:160-205 | a triaged episode goes where its route says; the archive lists instead of queueing a show it only indexes, or an episode with no transcript to be had |
| Episodes.ScoreDecides | podcast_agent/summarize/tier1.py:54-98 | a summary is stored, then classified ready for a digest exactly with a high score; a rescore stores and classifies in one write |
| Episodes.ErrorsAreRecorded | podcast_agent/episodes.py:62-95 | an error records the status it met, becomes ERROR unless the episode is dropped, published or in error, and changes nothing else |
| Episodes.RetryUndoesErrorIff | podcast_agent/api/routes.py:847-886 | a retry undoes an error, counters and error cleared, exactly from NEW, AWAITING_TRANSCRIPT, TRANSCRIBED and TRANSCRIPT_FAILED; from other statuses that err it is refused |
| Episodes.RetryWithoutRecordIff | podcast_agent/api/routes.py:847-886 | without a recorded status it queues an episode in error, without a transcript or queued, and refuses every other |
| Episodes.FailureIsRetried | podcast_agent/api/routes.py:847-886 | so in every history a failure and its retry leave the episode as it was, counters cleared |
| Episodes.EscalationStartsOver | podcast_agent/api/routes.py:937-979 | an escalation queues the episode with both counters, error and claim cleared, and keeps everything made so far |
| Episodes.QueueableIff | podcast_agent/state.py:77-111 | it is refused exactly of a new, a transcribed or a half-classified episode |
| Episodes.ListedOnlyRequeues | podcast_agent/state.py:96-109 | whatever is written, however stale, a published or dropped episode stays so or is queued again |
| Episodes.SummaryIsRefusedIff | podcast_agent/pipeline/runner.py:577-625 | a requested summary is refused exactly of an episode listed with one that was there when it was listed, queueing from three statuses apart |
| Episodes.RequestedSummaryIsRelisted | podcast_agent/pipeline/runner.py:633-648 | a requested summary puts the listed episode back, marked as made after the listing |
| Episodes.ClaimPublishesIff | podcast_agent/digest/generate.py:543-564 | a claim takes effect exactly on an unclaimed episode, and publishes it exactly if it was due |
| Episodes.OnlyRelistingLosesTheClaim | podcast_agent/pipeline/runner.py:547-648 | a write publishes an unclaimed episode if and only if it relists one whose claim was cleared meanwhile |
| Episodes.OnlyEscalationClearsAClaim | podcast_agent/api/routes.py:937-979 | a write clears a claim if and only if it is an escalation |
| Episodes.PublishedImpliesClaimed | podcast_agent/pipeline/runner.py:547-648 | when no escalation falls within a requested summary, every published episode is claimed, in every history |
| Episodes.OverlapUnclaims | podcast_agent/pipeline/runner.py:547-648 | the overlap does unclaim: after any history that lists an episode the runner agrees to summarise, seven more writes of the program leave it published and claimed by nobody |
| Episodes.OverlapFromFresh | podcast_agent/pipeline/runner.py:583-648 | ten writes, from a new episode on, end in a published episode no digest claims |
| Transcripts.CountersTellTheTruth | podcast_agent/transcripts/stage.py:43-191 | over any sequence of calls `transcript_crash` grew by the unclean exits and `transcript` by the reported attempts, outages counting on neither |
| Transcripts.AcquisitionsAreBounded | podcast_agent/transcripts/stage.py:34-138 | at most (3 - crashes) unclean and max(1, max_retries - attempts) reported acquisitions happen before the episode leaves the queue, and there are no others but outages |
| Transcripts.CallEnds | podcast_agent/transcripts/stage.py:43-191 | a call on an episode within its crash budget leaves it queued exactly after a death, an outage or a retryable failure with an attempt left, transcribed exactly with a transcript, retired exactly by any other failure |
| Transcripts.CallLeaves | podcast_agent/transcripts/stage.py:94-191 | it stores a transcript exactly if one was obtained, records what failed, and leaves all else alone |
| Transcripts.SpentBudgetRetires | podcast_agent/transcripts/stage.py:48-56 | with the crash budget spent the next call retires the episode without touching the audio, and a retry makes both budgets whole |
| Transcripts.FailingEpisodeIsRetried | podcast_agent/transcripts/stage.py:141-191 | an episode that always fails retryably is acquired max(1, max_retries - attempts) times, all reported, and retired by the last and no earlier |
| Transcripts.FatalEpisodeIsRetired | podcast_agent/transcripts/stage.py:43-69 | an episode that kills the process every time is acquired to the last of its budget, and retired then and no earlier |
| Transcripts.TranscriptStage.Write | podcast_agent/episodes.py:24-59 | `transition` commits its effect through `update_doc`, or raises and changes nothing |
| Transcripts.TranscriptStage.Run | podcast_agent/transcripts/stage.py:43-191 | one call of `process`, write by write on the store, ends as its specification says and touches no other document |
| Pipeline.StageCallsMakeProgress | podcast_agent/pipeline/runner.py:697-825 | a stage call that attempts something strictly decreases rank and remaining budgets; a deferred one changes nothing |
| Pipeline.OnlyDyingHalfwayStrands | podcast_agent/summarize/tier1.py:54-71 | a stage call leaves the episode settled or still queued, except a death between Tier-1's two writes |
| Pipeline.AttemptsUseUpTheBudget | podcast_agent/pipeline/runner.py:697-825 | attempts made plus what is left never exceed the initial budget; once nothing is left, settled if and only if no such death happened |
| Pipeline.RestIsFinal | podcast_agent/pipeline/runner.py:697-825 | once nothing is owed no stage touches the episode again |
| Pipeline.NewEpisodeSettles | podcast_agent/pipeline/runner.py:697-825 | a new routine episode is at rest after at most 6 + max(1, max_retries) attempts, settled if and only if no crash fell between Tier-1's writes |
| Pipeline.StagesLead | podcast_agent/pipeline/runner.py:697-825 | what each stage call makes of an episode in its queue, for every way the model calls may turn out |
| Pipeline.AnsweredEpisodeSettles | podcast_agent/pipeline/runner.py:697-825 | a new episode whose calls are all answered, if only by failures, is at rest after 6 + max(1, max_retries) of them, and half-classified exactly after a crash between Tier-1's writes |
| Digests.FreePathIsFirstFree | podcast_agent/digest/generate.py:616-636 | the name chosen is the first of the 49 that no file has, and none only if all are taken |
| Digests.CrashAfterPut | podcast_agent/digest/generate.py:267-316 | a run that dies after its document was put has recorded what it picked and claimed, of a prefix of it, all whose claim did not raise |
| Digests.LivingRunRecordsAndClaims | podcast_agent/digest/generate.py:267-316 | a run that lives records what it picked under a new file, claims all of it that is unclaimed and whose claim does not raise, and is complete |
| Digests.ReconcileFinishes | podcast_agent/digest/generate.py:583-608 | a reconciling run writes no file, claims the recorded ids still unclaimed whose claim does not raise, and completes the document |
| Digests.LivingRunLeavesExactlyTheFailed | podcast_agent/digest/generate.py:543-581 | a run that lives, fresh or reconciling, is complete and leaves unclaimed exactly those of its unclaimed ids whose claim raised |
| Digests.ClaimRaisesIff | podcast_agent/state.py:77-111 | a claim raises if and only if it is to publish an episode that has meanwhile left every status that may be published |
| Digests.FailedRescoreRaisesTheClaim | podcast_agent/pipeline/runner.py:480-493 | a rescore that fails between the read and the write of a claim makes it raise, and leaves the episode unclaimed |
| Digests.InterruptedDigestIsFinished | podcast_agent/digest/generate.py:225-231 | from every crash after the put, whatever happened to the episodes since, the next run of that week finishes exactly that digest, save for claims that raise |
| Digests.UnclaimedIsListedIff | podcast_agent/digest/generate.py:225-316 | an unclaimed episode has been listed if and only if its claim raised or was given up, or an interrupted digest has it on record |
| Digests.ListedOnceIff | podcast_agent/digest/generate.py:212-316 | one call, cut anywhere and with any claims raising, keeps runs disjoint in ids and files if and only if it puts no document or picked nothing of that kind |
| Digests.GenerateKeepsInv | podcast_agent/digest/generate.py:212-316 | and then listed ids belong to their digest, or are not claimed yet by an interrupted one, or are among those whose claim raised or changed |
| Digests.ListedOnce | podcast_agent/digest/generate.py:212-316 | over any number of runs cut anywhere, with claims that raise and anything happening to the episodes in between, no episode is in two recorded runs and no file in two, if and only if no run that puts a document picked an episode listed and given up, or on record in an interrupted digest |
| Digests.SkippingAnInterruptedWeekListsTwice | podcast_agent/digest/generate.py:225-231 | beginning another week that picks the recorded episode lists it twice |
| Digests.FailedClaimListsTwice | podcast_agent/digest/generate.py:543-581 | so does a claim that raises: the week completes, and the next lists the episode again |
| DigestGenerators.DigestGenerator.FinalName | podcast_agent/digest/generate.py:616-636 | the naming loop finds that first free name |
| DigestGenerators.DigestGenerator.MarkPublished | podcast_agent/digest/generate.py:543-581 | claims id by id, going on past every claim that raises, then sets the flag, as far as the process lives |
| DigestGenerators.DigestGenerator.Generate | podcast_agent/digest/generate.py:212-316 | the generator's writes, in order, cut off anywhere and with any claims raising, are those of the specification |
| ArchiveDigest.TurnClaims | podcast_agent/digest/archive.py:136-199 | a month's turn cut anywhere claims, of a stretch of the unclaimed episodes found from the first on, exactly those whose claim does not raise |
| ArchiveDigest.TurnFiles | podcast_agent/digest/archive.py:144-176 | it adds one file showing the episodes found, and only if the month was not interrupted; other months keep theirs |
| ArchiveDigest.MonthWaitsForItsEpisodes | podcast_agent/digest/archive.py:84-116 | a month with an episode still on its way is left alone; otherwise its file lists exactly the found episodes not published |
| ArchiveDigest.TurnCompletesIffItLives | podcast_agent/digest/archive.py:144-176 | its document names the episodes it was first written for, and is complete exactly if a turn lived past its last claim |
| ArchiveDigest.ShownIffFoundAreShown | podcast_agent/digest/archive.py:144-199 | a turn cut anywhere leaves every claimed episode shown in a file if and only if every episode it got to claim is in the file being written or in one already there |
| ArchiveDigest.NewcomerIsNotShown | podcast_agent/digest/archive.py:144-145 | an episode finished while its month is interrupted is claimed by the next turn and in no file |
| ArchiveDigest.SteadyMonthsShowAll | podcast_agent/digest/archive.py:68-176 | over any number of turns cut anywhere, archives show all they claim at every point if and only if every turn shows whom it claims |
| ArchiveDigest.ArchiveGenerator.WriteMonth | podcast_agent/digest/archive.py:84-176 | the writes for one month, in order, cut off anywhere and with any claims raising, are those of the specification |
| Months.KeyNamesItsMonth | podcast_agent/backfill/ingest.py:78-79 | printing a month and parsing it back gives the month |
| Months.MonthHasOneKey | podcast_agent/backfill/ingest.py:78-85 | parsing a key and printing it back gives the key |
| Months.PreviousMonthIsOneBack | podcast_agent/backfill/ingest.py:82-84 | the previous month is one month back, across years |
| Months.NextMonthIsOneOn | podcast_agent/migrate.py:186-188 | the next month is one month on, across years |
| Months.BackUndoesOn | podcast_agent/migrate.py:186-188 | previous after next is the identity |
| Months.OnUndoesBack | podcast_agent/backfill/ingest.py:82-84 | next after previous is the identity |
| Months.StringOrderIsCalendarOrder | podcast_agent/backfill/ingest.py:195-245 | comparing keys as strings is comparing months |
| Months.BoundsHoldExactlyTheirMonth | podcast_agent/backfill/ingest.py:87-96 | an instant lies within a month's bounds if and only if its key is that month |
| Months.BoundsMeet | podcast_agent/backfill/ingest.py:87-96 | consecutive months meet with no gap or overlap |
| Months.FloorFromAnchor | podcast_agent/backfill/ingest.py:104-121 | the floor is exactly `months` back from the anchor |
| Months.AnchorFor | podcast_agent/migrate.py:144-188 | the migrated anchor is exactly `months` on from the cursor |
| Months.MigratedFloor | podcast_agent/migrate.py:144-188 | so the floor of a migrated walk's anchor is its cursor |
| ArchiveWalk.IngestCountsGrowth | podcast_agent/backfill/ingest.py:260-363 | ingestion only adds, only what the feed offers for the month, each episode once, and counts what it added |
| ArchiveWalk.IngestIsExact | podcast_agent/backfill/ingest.py:260-363 | a month is taken whole if and only if its new entries fit the budget, which is otherwise spent to the last |
| ArchiveWalk.RunKeepsInv | podcast_agent/backfill/ingest.py:177-258 | whatever the clock, the feed and the fate of a run, the anchor stays pinned, the cursor never moves forward, and a run that gets through moves it strictly back |
| ArchiveWalk.StoryKeepsInv | podcast_agent/backfill/control.py:102-131 | any sequence of runs and rewinds keeps: everything between the cursor and the anchor has been visited, month by month downwards |
| ArchiveWalk.CompleteMeansCovered | podcast_agent/backfill/ingest.py:177-258 | a show is complete only when exactly the window's months were visited, and whatever a visit within budget was offered is recorded |
| ArchiveWalk.LivingRunCompletesIff | podcast_agent/backfill/ingest.py:229-245 | a run that lives and may do something ends complete if and only if the cursor it saves lies before the window |
| ArchiveWalk.WalkedShowIsComplete | podcast_agent/backfill/ingest.py:201-211 | a run that finds the window walked records completion and nothing else, whatever its fate |
| ArchiveWalk.EnoughRunsComplete | podcast_agent/backfill/ingest.py:177-258 | from any point of any story, as many living runs as months are left, and at least one, complete the show, whatever fails or dies in between |
| ArchiveWalk.NewShowCompletes | podcast_agent/backfill/ingest.py:177-258 | so a new show is complete after max(1, months) living runs |
| ArchiveWalk.RewindStartsAgain | podcast_agent/backfill/control.py:102-131 | a rewind at any point puts the cursor below the same anchor, keeps every episode, and leaves the whole window to walk |
| ArchiveWalk.DeathKeepsWhatWasRecorded | podcast_agent/backfill/ingest.py:260-363 | a process that dies within a month has recorded exactly what it got to, as far as that fitted the budget |
| BackfillIngestors.BackfillIngestor.IngestMonth | podcast_agent/backfill/ingest.py:260-363 | the entry loop, on instants and month bounds, is the specification on months |
| BackfillIngestors.BackfillIngestor.WalkBack | podcast_agent/backfill/ingest.py:218-245 | the month loop, on string keys compared as strings, is the walk over ordinals |
| BackfillIngestors.BackfillIngestor.BackfillShow | podcast_agent/backfill/ingest.py:177-258 | one show's turn, cut off anywhere, is the specification |
| Text.MatchIsGreedy | podcast_agent/summarize/chunking.py:15-16 | a separator is recognised exactly where its pattern matches, and for the longest match |
| Text.SplitIsComplete | podcast_agent/summarize/chunking.py:15-16 | no part of a split holds another separator |
| Text.SplitKeepsInk | podcast_agent/summarize/chunking.py:15-16 | splitting loses whitespace only |
| Text.SlicesAreExact | podcast_agent/summarize/chunking.py:68-70 | hard slices concatenate to the text and are non-empty and within the size |
| Text.SliceLoop | podcast_agent/summarize/chunking.py:68-70 | the slicing loop yields those slices |
| Chunking.ChunksAreExact | podcast_agent/summarize/chunking.py:23-79 | no chunk exceeds the limit, and the chunks in order hold every non-whitespace character of the text, once and in order |
| Chunking.PackRespectsLimit | podcast_agent/summarize/chunking.py:36-54 | the packing loop respects the limit although the length it tracks counts one separator too many |
| Chunking.PackKeepsInk | podcast_agent/summarize/chunking.py:36-54 | packing, breaking and joining loses and adds nothing but whitespace |
| Chunking.ParagraphsAreKeptWhole | podcast_agent/summarize/chunking.py:23-54 | of several paragraphs, each that fits a chunk stands in one chunk entire |
| Chunking.FewParagraphsAreOneChunk | podcast_agent/summarize/chunking.py:36-54 | several fitting paragraphs come out in one chunk, blank lines between them, exactly if that leaves two characters to spare |
| Chunking.LoneParagraphIsKeptIfShorter | podcast_agent/summarize/chunking.py:32-34 | a lone paragraph of fitting sentences stays in one chunk if and only if its sentences joined by single spaces are strictly shorter than the limit |
| Chunking.FittingParagraphIsSplit | podcast_agent/summarize/chunking.py:32-34 | a lone paragraph of four characters comes out as two chunks of at most four |
| Chunking.ChunkTranscript | podcast_agent/summarize/chunking.py:23-54 | the paragraph loop computes those chunks, with at least one character per chunk allowed |
| Chunking.SplitOversizedLoop | podcast_agent/summarize/chunking.py:57-79 | the sentence loop computes the pieces of an oversized block |
| Narration.PiecesAreExact | podcast_agent/digest/narrate.py:80-136 | no piece of a script exceeds the cap, and the pieces hold every non-whitespace character, once and in order |
| Narration.PiecesBeginAndEndInInk | podcast_agent/digest/narrate.py:80-110 | no piece is empty, and each begins and ends in something to speak |
| Narration.ParagraphsAreSpokenWhole | podcast_agent/digest/narrate.py:80-110 | a paragraph within the cap stands in one piece entire, lone or not |
| Narration.ChunkScript | podcast_agent/digest/narrate.py:80-110 | the nested loops compute those pieces; a cap that is not positive is refused |
| Narration.SplitPieceLoop | podcast_agent/digest/narrate.py:113-136 | the sentence loop computes the parts of an oversized paragraph |
| Download.DownloadIsBounded | podcast_agent/net.py:436-490 | against any server: at most `max_resume_attempts` + 1 transfers at strictly increasing offsets, the reported count is the file's length, and every failure leaves no file |
| Download.StreamIs | podcast_agent/net.py:388-433 | one transfer as a whole: refused by content type, over the cap, cut, broken or fetched exactly as the reply says, and appended to old content exactly when a range was answered |
| Download.DownloadIsExactIffHarmless | podcast_agent/net.py:388-490 | success means exactly the body within the cap, for every server honest about ranges, if and only if the destination's old content is harmless |
| Download.AttemptsAreExact | podcast_agent/net.py:388-490 | resuming from a prefix of the body keeps a prefix and ends with the body |
| Download.StaleContentIsKept | podcast_agent/net.py:468-478 | otherwise some honest server makes the file stale content followed by the rest of the body |
| Download.HelpfulServerSucceeds | podcast_agent/net.py:453-482 | a server that honours ranges, always sends something and completes within the attempts allowed is never given up on |
| Download.Destination.StreamInto | podcast_agent/net.py:388-433 | one transfer, chunk by chunk into the file, is the specification |
| Download.Destination.DownloadToFile | podcast_agent/net.py:436-490 | the attempt loop, with the offsets it asks for, is the specification |
| SearchIndex.UpsertKeepsPaired | podcast_agent/search.py:270-287 | an upsert keeps state rows and full-text rows in bijection and changes what the index says of that episode only |
| SearchIndex.DeleteKeepsPaired | podcast_agent/search.py:289-299 | so does a delete |
| SearchIndex.WriteAllPairsIffDistinct | podcast_agent/search.py:306-329 | a rebuild leaves the tables in bijection if and only if no episode was listed twice |
| SearchIndex.SyncAgreesOnSignatures | podcast_agent/search.py:198-263 | after `sync` the state table has, episode by episode, the signatures a rebuild would write, one row each |
| SearchIndex.LoadedAlike | podcast_agent/search.py:185-236 | both operations make the same row of an episode if and only if there is no text to load or the timestamps ask for it |
| SearchIndex.SyncEqualsRebuild | podcast_agent/search.py:108-329 | after any history of syncs, rebuilds and interrupted syncs, where the signature determines the row, `sync` leaves exactly the signatures and rows of a rebuild |
| SearchIndex.RebuiltRowDescribes | podcast_agent/search.py:132-196 | a rebuild describes every listed episode column by column, with at most 120000 characters of its transcript |
| SearchIndex.SyncedRowDescribes | podcast_agent/search.py:198-263 | a sync leaves a row of unchanged signature alone and describes every other so, its transcript only if attached and not expired |
| SearchIndex.RewrittenRowAgreesIff | podcast_agent/search.py:185-263 | the row `sync` writes of an episode new or changed is the row of a rebuild if and only if there is no text to load or the timestamps ask for it |
| SearchIndex.ReattachedTranscriptIsMissed | podcast_agent/search.py:236-238 | in any listing and whatever was on record, a transcript attached after one expired is in the rebuilt row and not in the synced one |
| SearchIndexFiles.SearchIndexFile.Upsert | podcast_agent/search.py:270-287 | the upsert loop on the tables is the specification |
| SearchIndexFiles.SearchIndexFile.Delete | podcast_agent/search.py:289-299 | removes exactly the state rows of the ids and the full-text rows they point at |
| SearchIndexFiles.SearchIndexFile.WriteAll | podcast_agent/search.py:306-329 | replaces both tables by freshly inserted rows |
| SearchIndexFiles.SearchIndexFile.Rebuild | podcast_agent/search.py:164-196 | paging by skip and limit indexes every listed episode, once |
| SearchIndexFiles.SearchIndexFile.Sync | podcast_agent/search.py:198-263 | paging, comparing, upserting and deleting is the specification, and the report counts new, changed, removed and present episodes |
| Strings.LessIsTotal | podcast_agent/db/memory.py:204-221 | the order on strings is total |
| Strings.FirstDifferenceDecides | podcast_agent/db/memory.py:204-221 | the first character that differs decides, and a string comes before its continuations |
| FindSort.BeforeIsWeakOrder | podcast_agent/db/memory.py:204-221 | the typed collation over several fields, ascending or descending, is a weak order |
| FindSort.ChainIsOneSort | podcast_agent/db/memory.py:109-115 | the chain of stable sorts from the last field to the first is one stable lexicographic sort |
| FindSort.StableSortIsSorted | podcast_agent/db/memory.py:109-115 | on distinct documents a list is a stable sort of them, by any algorithm, if and only if it is this one |
| FindSort.SortedIsOrdered | podcast_agent/db/memory.py:109-115 | the result is ordered and a permutation |
| FindSort.ResultAscends | podcast_agent/db/memory.py:109-115 | of two documents in the result, on the first sort field where they are not level the values ascend, or descend if so asked, missing and null before booleans before numbers before strings before the rest; documents level on every field stand as they stood |
| FindSort.DigFollows | podcast_agent/db/memory.py:194-201 | a dotted path is followed part by part, and is missing where a part is |
| FindSort.FindIsWindow | podcast_agent/db/memory.py:116 | skip and limit cut one stretch out of the sorted documents |
| FindSort.TypedSortIsFieldSort | podcast_agent/db/base.py:61-70 | leading the sort with `type` changes nothing when the selector pins it |
| FindSort.SortChain | podcast_agent/db/memory.py:109-115 | the sorting loop computes that one sort |
| FindSort.FindAll | podcast_agent/search.py:173-192 | paging by skip and limit over an unchanged store enumerates every match exactly once, in order |
| FindSort.Count | podcast_agent/db/couch.py:280-292 | counting by pages counts every match |
| LlmChain.WalkIsReadyOrWhole | podcast_agent/llm/client.py:187-204 | the walk is an in-order subsequence of the chain, exactly the endpoints not cooling, or the whole chain if all are |
| LlmChain.CallIsFair | podcast_agent/llm/client.py:234-355 | at most `validation_retries` + 1 requests per endpoint, in order, another only after an invalid reply, and no fewer while replies are invalid; the first answer ends the call; failure only after every endpoint walked has failed |
| LlmChain.CoolingEndpointsAreSpared | podcast_agent/llm/client.py:187-204 | after any series of calls, an endpoint that failed at transport level in the last 60 seconds without answering since is contacted only if every endpoint of the chain did |
| LlmChain.CoolingIsLastFailure | podcast_agent/llm/client.py:300-340 | the cooling map is, endpoint by endpoint, the last transport failure not followed by an answer |
| LlmChain.LlmClient.WalkNow | podcast_agent/llm/client.py:187-204 | the filter loop computes the walk |
| LlmChain.LlmClient.CompleteStructured | podcast_agent/llm/client.py:234-355 | the nested retry loops make exactly these requests, and report the answering request, the fallback flag and the number of invalid replies |
| Throttle.StepKeepsBounds | podcast_agent/api/auth.py:40-57 | whatever arrives, no list exceeds 10 times and the map never exceeds 1024 addresses |
| Throttle.StepIsFaithfulIff | podcast_agent/api/auth.py:40-98 | a request keeps the map holding every window of the full history if and only if it does not, being recorded, evict a front address with a failure that still counts |
| Throttle.FaithfulIffTheLiveAreSpared | podcast_agent/api/auth.py:40-98 | over any series of requests every window is held at every point if and only if no request does that |
| Throttle.QuietSparesTheLive | podcast_agent/api/auth.py:51-57 | none does while at most 1024 addresses were turned away within any window |
| Throttle.ThrottledExactlyAtTen | podcast_agent/api/auth.py:78-98 | while no request has, an address gets 429 if and only if it has 10 recorded failures in the last 300 seconds since its last success |
| Throttle.ThrottledExactlyAtTenIfQuiet | podcast_agent/api/auth.py:78-98 | in particular while at most 1024 addresses were turned away within any window |
| Throttle.TenPerWindow | podcast_agent/api/auth.py:78-98 | so then no window without a success holds more than 10 recorded failures of an address |
| Throttle.KeyDecides | podcast_agent/api/auth.py:86-98 | an address not made to wait is let in exactly with the right key, which forgets its failures |
| ThrottleLimits.CountingTheLiveIsNotEnough | podcast_agent/api/auth.py:40-57 | a concrete series of requests, never more than 1024 addresses with a failure in the window, after which an address with 10 recent failures is not made to wait |
| Throttle.FailureMap.RecentNow | podcast_agent/api/auth.py:40-48 | pruning in place keeps the times within the window and moves the address to the end, or drops it |
| Throttle.FailureMap.RecordFailure | podcast_agent/api/auth.py:51-57 | appends, moves to the end and evicts the oldest |
| Throttle.FailureMap.RequireApiKey | podcast_agent/api/auth.py:65-98 | one request's decision and what it leaves in the map |
| DeepMerge.EmptyOverlayIsIdentity | podcast_agent/settings_store.py:192-209 | an empty overlay changes nothing |
| DeepMerge.MergeTwice | podcast_agent/settings_store.py:192-209 | laying the same overlay twice is laying it once |
| DeepMerge.MergedAt | podcast_agent/settings_store.py:192-209 | at every path: the base's value where the overlay does not reach, the merge where both have a node, else the overlay's value |
| DeepMerge.MergedKeys | podcast_agent/settings_store.py:201-208 | a merged node has exactly the keys of both sides |
| DeepMerge.OverlayValuesWin | podcast_agent/settings_store.py:201-208 | a scalar or list of the overlay is always what the result has |
| DeepMerge.TiersAreReplaced | podcast_agent/settings_store.py:189-208 | a tier the overlay names is exactly the overlay's, at every path inside it |
| DeepMerge.DeepMergeLoop | podcast_agent/settings_store.py:192-209 | the recursive loop over the overlay's items computes the merge |
| Logs.CollapseIsExact | podcast_agent/logstore.py:155-177 | one row per kind in order of first appearance, each with its count, its first event and the time of its last; the counts add up to the batch |
| Logs.CollapseLoop | podcast_agent/logstore.py:155-177 | the grouping loop computes those rows |
| Logs.LogStore.Offer | podcast_agent/logstore.py:85-94 | kept events offered are always popped, queued or counted as dropped, the queue being the newest stretch of them |
| Logs.LogStore.Flush | podcast_agent/logstore.py:123-135 | pops the oldest 100 at most, in order, and folds them |
| Logs.ScanIsFilter | podcast_agent/logbuffer.py:73-103 | where the mark separates old from new, the early break is filter and limit |
| Logs.MatchingIsSought | podcast_agent/logbuffer.py:88-101 | the filter finds exactly the entries newer than the mark, at or above the level, from the logger and with the text asked for |
| Logs.LevelsNest | podcast_agent/logbuffer.py:116-125 | asking for a level gives it and everything worse, under either of its names |
| Logs.EarlyBreakIffSeparated | podcast_agent/logbuffer.py:90-103 | the early break equals filtering the whole snapshot, for every query with that mark, if and only if no newer event stands behind an older one |
| Logs.OwnNumberHidesAnother | podcast_agent/logbuffer.py:90-94 | an event that brought a low number of its own hides a newer one standing behind it |
| Logs.LogBuffer.Add | podcast_agent/logbuffer.py:57-60 | the ring is the newest stretch of all that was added, numbered consecutively unless an event brings its own number |
| Logs.LogBuffer.Tail | podcast_agent/logbuffer.py:73-103 | on events without a number of their own, `tail` is filter and limit whatever was added |

## Left out

- CouchDB's wire protocol, transport retries and lost responses: a put that landed but was retried makes `update_doc` run its mutator twice.
- JobLeases.ReclaimLocalLeases: takes the lock documents a query found as an argument; that the query returns at most fifty is not modelled. Interleaved reclaims are in `Lease`.
- Attachments are not stored, only the revision they move; the transcript's text is part of `SearchIndex` alone.
- UpdateDoc.ConcurrentCallsSerialise: other writers of the same document are other `update_doc` calls and attachment moves; deletions of the document are in `UpdateDoc.OneWriteOrNone`.
- Transcripts.TranscriptStage.Write: nobody else writes between its read and its put; interleaved retries are in `UpdateDoc`.
- Transcripts.TranscriptStage.Run: nobody else writes the episode meanwhile; interleaved and stale writes are in `Episodes`.
- What `_collect` picks for a digest, its buckets, floor and rendering are a parameter, as is which claims raise.
- Digests.ListedOnce: a crash between the file and the put leaves an unrecorded file, which is harmless but stays; no file and no episode is removed between runs. A completion flag that cannot be written is a death before it.
- ArchiveDigest.ArchiveGenerator.WriteMonth: one month's turn; the grouping by show and month, the order of members and the naming of files (as in `Digests`) are left out.
- The show's document missing or changed by someone else during the archive walk, ineligible shows and the shared budget over several shows; years beyond four digits.
- BackfillIngestors.BackfillIngestor.BackfillShow: asks that the window does not reach before year 0, where the program's month arithmetic would fail.
- `truncate_to_tokens`, and characters beyond the basic plane (no whitespace lies there).
- Download.HelpfulServerSucceeds: content types and redirect hops are one bit of the reply; the hop loop only follows or refuses.
- SQLite itself: tables are maps, row ids come from any allocator that does not repeat one in use. A signature is its fields, that is, hashing is taken as injective. A corrupt transcript attachment, which raises, is left out.
- Query parsing, ranking and snippets of the search; the store changing while `sync` pages through it.
- FindSort.StableSortIsSorted: selectors, index choice and projections are left out; a number is a real, so NaN is not one.
- LlmChain.CoolingEndpointsAreSpared: asks for a clock that is not negative, as a monotonic clock is; calls are sequential.
- Throttle.ThrottledExactlyAtTen: asks that no failure that counts was evicted before, which `Throttle.FaithfulIffTheLiveAreSpared` shows to be exactly when the map is still whole; clock readings do not go back.
- Logs.LogStore.Offer: trimming of long values and dropping of rendering keys; documents whose write fails are lost silently, as in the program.
- Entity ranking, insight suggestions, triage prompts, notifications, console pages, configuration loading, and the model calls themselves, which appear as outcomes only.
