/**
 The job lease of `joblock.py` as a protocol: any number of runs on any number of
 machines, each storage call cut into "send" and "land", with requests that may land
 late, after the sender has given up or died, or never. A request that lands is answered
 at once: a run counts as live here when its write lands and so never later than in the
 program, where the answer takes its time; a run whose answer is lost leaves and gives up.
 What is promised of live runs therefore covers late and lost answers. One clock is shared
 and never goes back. Nobody sees anybody else's answer.
 */
module Lease {
  import opened Wrappers
  import opened DocStore

  datatype Owner = OfRun(index: nat) | Stranger(name: string)
  datatype Machine = Machine(host: string, pid: int)

  /** The lock document. `expires` is `None` when its expiry cannot be read. */
  datatype Lock = Lock(owner: Owner, at: Machine, expires: Option<int>)

  datatype Phase =
    | Idle                                        // constructed, nothing asked yet
    | Looked(existing: Option<Stored<Lock>>)      // acquire: the get has answered
    | Acquiring(request: nat)                     // acquire: create or put is in flight
    | Working(beating: bool)                      // the body of `held` is running
    | BeatLooked(existing: Option<Stored<Lock>>)  // still working; renew: the get has answered
    | Renewing(request: nat)                      // still working; renew: put is in flight
    | Leaving                                     // release: `_held` is already false
    | LeftLooked(existing: Option<Stored<Lock>>)  // release: the get has answered
    | Gone
    | Crashed

  /** `wrote` is the expiry carried by this run's latest write that reached the store. */
  datatype Run = Run(job: string, ttl: nat, at: Machine, phase: Phase, wrote: Option<int>)

  datatype Request =
    | Insert(run: nat, lock: Lock)
    | Replace(run: nat, rev: nat, lock: Lock)
    | Release(run: nat, rev: nat)
    | Reclaim(job: string, rev: nat)

  /** `sightings` are lock documents some `reclaim_local_leases` has read and not yet judged. */
  datatype World = World(
    db: Db<Lock>, now: int, runs: seq<Run>, alive: set<Machine>,
    net: map<nat, Request>, sent: nat, sightings: set<(string, Stored<Lock>)>)

  datatype Step =
    | Tick(elapsed: nat)
    | Boot(at: Machine)
    | Kill(at: Machine)
    | Begin(job: string, ttl: nat, at: Machine)
    | Look(run: nat)
    | Decide(run: nat)
    | Leave(run: nat)
    | GiveUp(run: nat)
    | Land(request: nat)
    | Drop(request: nat)
    | Sight(job: string)
    | Judge(host: string, job: string, seen: Stored<Lock>)

  function LockOf(w: World, i: nat): Lock
    requires i < |w.runs|
  {
    Lock(OfRun(i), w.runs[i].at, Some(w.now + w.runs[i].ttl))
  }

  predicate Readable(lock: Lock, now: int) {
    lock.expires.Some? && lock.expires.value > now
  }

  function Fetch(w: World, job: string): Option<Stored<Lock>> {
    if job in w.db.docs then Some(w.db.docs[job]) else None
  }

  function SetPhase(w: World, i: nat, phase: Phase): World
    requires i < |w.runs|
  {
    w.(runs := w.runs[i := w.runs[i].(phase := phase)])
  }

  function Send(w: World, request: Request): World {
    w.(net := w.net[w.sent := request], sent := w.sent + 1)
  }

  /** The get of acquire, of the heartbeat's renew, or of release answers. */
  function LookStep(w: World, i: nat): World
    requires i < |w.runs|
  {
    var seen := Fetch(w, w.runs[i].job);
    match w.runs[i].phase
    case Idle => SetPhase(w, i, Looked(seen))
    case Working(true) => SetPhase(w, i, BeatLooked(seen))
    case Leaving => SetPhase(w, i, LeftLooked(seen))
    case _ => w
  }

  /** What the run does with the answer, reading the clock now. */
  function DecideStep(w: World, i: nat): World
    requires i < |w.runs|
  {
    match w.runs[i].phase
    case Looked(None) => SetPhase(Send(w, Insert(i, LockOf(w, i))), i, Acquiring(w.sent))
    case Looked(Some(seen)) =>
      if Readable(seen.body, w.now) then SetPhase(w, i, Gone)
      else SetPhase(Send(w, Replace(i, seen.rev, LockOf(w, i))), i, Acquiring(w.sent))
    case BeatLooked(seen) =>
      if seen.None? || seen.value.body.owner != OfRun(i) then SetPhase(w, i, Working(false))
      else SetPhase(Send(w, Replace(i, seen.value.rev, LockOf(w, i))), i, Renewing(w.sent))
    case LeftLooked(seen) =>
      if seen.None? || seen.value.body.owner != OfRun(i) then SetPhase(w, i, Gone)
      else SetPhase(Send(w, Release(i, seen.value.rev)), i, Gone)
    case _ => w
  }

  /** The block ends: the heartbeat is cancelled wherever it stands, `_held` becomes false. */
  function LeaveStep(w: World, i: nat): World
    requires i < |w.runs|
  {
    if Live(w.runs[i].phase) then SetPhase(w, i, Leaving) else w
  }

  /** A storage call raises at the caller; what it sent may still land. */
  function GiveUpStep(w: World, i: nat): World
    requires i < |w.runs|
  {
    match w.runs[i].phase
    case Idle => SetPhase(w, i, Gone)
    case Looked(_) => SetPhase(w, i, Gone)
    case Acquiring(_) => SetPhase(w, i, Gone)
    case BeatLooked(_) => SetPhase(w, i, Working(true))
    case Renewing(_) => SetPhase(w, i, Working(true))
    case Leaving => SetPhase(w, i, Gone)
    case LeftLooked(_) => SetPhase(w, i, Gone)
    case _ => w
  }

  /** The sender hears the outcome only if it is still waiting for this very request. */
  function Answer(phase: Phase, request: nat, ok: bool): Phase {
    if phase == Acquiring(request) then (if ok then Working(true) else Gone)
    else if phase == Renewing(request) then Working(ok)
    else phase
  }

  function LandWrite(w: World, id: nat, i: nat, lock: Lock, result: (Db<Lock>, bool)): World
    requires i < |w.runs|
  {
    var run := w.runs[i];
    var run' := run.(phase := Answer(run.phase, id, result.1), wrote := if result.1 then lock.expires else run.wrote);
    w.(db := result.0, runs := w.runs[i := run'], net := w.net - {id})
  }

  function LandStep(w: World, id: nat): World
    requires id in w.net
  {
    match w.net[id]
    case Insert(i, lock) =>
      if i < |w.runs| then LandWrite(w, id, i, lock, Create(w.db, w.runs[i].job, lock)) else w
    case Replace(i, rev, lock) =>
      if i < |w.runs| then
        var (db, reply) := Put(w.db, w.runs[i].job, Some(rev), lock);
        LandWrite(w, id, i, lock, (db, reply == Done))
      else w
    case Release(i, rev) =>
      if i < |w.runs| then w.(db := Delete(w.db, w.runs[i].job, rev).0, net := w.net - {id}) else w
    case Reclaim(job, rev) => w.(db := Delete(w.db, job, rev).0, net := w.net - {id})
  }

  function KillRun(run: Run, at: Machine): Run {
    if run.at == at then run.(phase := Crashed) else run
  }

  function Next(w: World, step: Step): World {
    match step
    case Tick(elapsed) => w.(now := w.now + elapsed)
    case Boot(at) => w.(alive := w.alive + {at})
    case Kill(at) => w.(alive := w.alive - {at}, runs := seq(|w.runs|, i requires 0 <= i < |w.runs| => KillRun(w.runs[i], at)))
    case Begin(job, ttl, at) =>
      if at in w.alive then w.(runs := w.runs + [Run(job, ttl, at, Idle, None)]) else w
    case Look(i) => if i < |w.runs| then LookStep(w, i) else w
    case Decide(i) => if i < |w.runs| then DecideStep(w, i) else w
    case Leave(i) => if i < |w.runs| then LeaveStep(w, i) else w
    case GiveUp(i) => if i < |w.runs| then GiveUpStep(w, i) else w
    case Land(id) => if id in w.net then LandStep(w, id) else w
    case Drop(id) => w.(net := w.net - {id})
    case Sight(job) =>
      if job in w.db.docs then w.(sightings := w.sightings + {(job, w.db.docs[job])}) else w
    case Judge(host, job, seen) =>
      if (job, seen) in w.sightings && seen.body.at.host == host && seen.body.at !in w.alive then
        Send(w, Reclaim(job, seen.rev))
      else w
  }

  function Execute(w: World, steps: seq<Step>): World {
    if steps == [] then w else Next(Execute(w, steps[..|steps| - 1]), steps[|steps| - 1])
  }

  /** Any store in which no lock document names a run of ours; nobody is running yet. */
  ghost predicate Initial(w: World) {
    && Valid(w.db)
    && (forall job :: job in w.db.docs ==> w.db.docs[job].body.owner.Stranger?)
    && w.runs == [] && w.net == map[] && w.sightings == {}
  }

  // ------------------------------------------------------------- the invariant

  /** The run believes it holds the lease: acquired, not yet released, process alive. */
  predicate Live(phase: Phase) {
    phase.Working? || phase.BeatLooked? || phase.Renewing?
  }

  predicate Finished(phase: Phase) {
    phase.Gone? || phase.Crashed?
  }

  predicate Left(phase: Phase) {
    phase.Leaving? || phase.LeftLooked? || Finished(phase)
  }

  /** Were the document under `job` still at this revision, it would be this very document. */
  predicate Faithful(w: World, job: string, seen: Stored<Lock>) {
    && seen.rev < w.db.nextRev
    && (job in w.db.docs && w.db.docs[job].rev == seen.rev ==> w.db.docs[job] == seen)
  }

  predicate FaithfulIfAny(w: World, job: string, seen: Option<Stored<Lock>>) {
    seen.Some? ==> Faithful(w, job, seen.value)
  }

  predicate OwnLock(w: World, i: nat, lock: Lock)
    requires i < |w.runs|
  {
    lock.owner == OfRun(i) && lock.at == w.runs[i].at && lock.expires.Some?
  }

  /** The document a run has read and not yet acted on. */
  function Seen(phase: Phase): Option<Stored<Lock>> {
    match phase
    case Looked(seen) => seen
    case BeatLooked(seen) => seen
    case LeftLooked(seen) => seen
    case _ => None
  }

  /** What the protocol is for: a run that believes it holds the lease is named by it, until its own expiry. */
  predicate Named(w: World, i: nat)
    requires i < |w.runs|
  {
    var run := w.runs[i];
    Live(run.phase) ==>
      && run.wrote.Some?
      && (run.wrote.value <= w.now || (run.job in w.db.docs && w.db.docs[run.job].body.owner == OfRun(i)))
  }

  predicate RunOk(w: World, i: nat)
    requires i < |w.runs|
  {
    && (!Finished(w.runs[i].phase) ==> w.runs[i].at in w.alive)
    && Named(w, i)
    && FaithfulIfAny(w, w.runs[i].job, Seen(w.runs[i].phase))
  }

  predicate DocOk(w: World, job: string)
    requires job in w.db.docs
  {
    var lock := w.db.docs[job].body;
    lock.owner.OfRun? ==>
      var i := lock.owner.index;
      i < |w.runs| && w.runs[i].job == job && OwnLock(w, i, lock) && w.runs[i].wrote == lock.expires
  }

  predicate RequestOk(w: World, request: Request) {
    match request
    case Insert(i, lock) => i < |w.runs| && OwnLock(w, i, lock)
    case Replace(i, rev, lock) =>
      && i < |w.runs| && OwnLock(w, i, lock) && rev < w.db.nextRev
      && var job := w.runs[i].job;
         (job in w.db.docs && w.db.docs[job].rev == rev ==>
            w.db.docs[job].body.owner == OfRun(i) || !Readable(w.db.docs[job].body, w.now))
    case Release(i, rev) =>
      && i < |w.runs| && Left(w.runs[i].phase) && rev < w.db.nextRev
      && var job := w.runs[i].job;
         (job in w.db.docs && w.db.docs[job].rev == rev ==> w.db.docs[job].body.owner == OfRun(i))
    case Reclaim(job, rev) =>
      && rev < w.db.nextRev
      && (job in w.db.docs && w.db.docs[job].rev == rev ==> Abandoned(w, w.db.docs[job].body.owner))
  }

  /** Nobody who is still running wrote under this name. */
  predicate Abandoned(w: World, owner: Owner) {
    owner.OfRun? ==> owner.index < |w.runs| && Finished(w.runs[owner.index].phase)
  }

  ghost predicate Inv(w: World) {
    && Valid(w.db)
    && (forall i: nat :: i < |w.runs| ==> RunOk(w, i))
    && (forall job :: job in w.db.docs ==> DocOk(w, job))
    && (forall id :: id in w.net ==> id < w.sent && RequestOk(w, w.net[id]))
    && (forall job, seen :: (job, seen) in w.sightings ==> Faithful(w, job, seen))
  }

  /** A step writes the document under at most one name, and only with a revision never used before. */
  lemma WritesAreFresh(w: World, step: Step, job: string)
    requires Valid(w.db)
    ensures var w' := Next(w, step);
      && w'.db.nextRev >= w.db.nextRev
      && (job in w'.db.docs ==>
            || (job in w.db.docs && w'.db.docs[job] == w.db.docs[job])
            || w.db.nextRev <= w'.db.docs[job].rev < w'.db.nextRev)
  {
  }

  lemma SeenStaysFaithful(w: World, step: Step, job: string, seen: Stored<Lock>)
    requires Inv(w) && Faithful(w, job, seen)
    ensures Faithful(Next(w, step), job, seen)
  {
    WritesAreFresh(w, step, job);
  }

  /** Who a run is never changes, and a run that has left does not come back. */
  lemma PhasesOnlyAdvance(w: World, step: Step, i: nat)
    requires i < |w.runs|
    ensures var w' := Next(w, step);
      && i < |w'.runs|
      && w'.runs[i].job == w.runs[i].job && w'.runs[i].at == w.runs[i].at
      && (Left(w.runs[i].phase) ==> Left(w'.runs[i].phase))
      && (Finished(w.runs[i].phase) ==> Finished(w'.runs[i].phase))
      && (!step.Land? && Live(w'.runs[i].phase) ==> Live(w.runs[i].phase))
  {
  }

  lemma HolderStaysNamed(w: World, id: nat, i: nat)
    requires Valid(w.db) && id in w.net && RequestOk(w, w.net[id])
    requires i < |w.runs| && Named(w, i) && (w.runs[i].job in w.db.docs ==> DocOk(w, w.runs[i].job))
    ensures Named(LandStep(w, id), i)
  {
  }

  lemma RunStaysOkAtLanding(w: World, id: nat, i: nat)
    requires Valid(w.db) && id in w.net && RequestOk(w, w.net[id])
    requires i < |w.runs| && RunOk(w, i) && (w.runs[i].job in w.db.docs ==> DocOk(w, w.runs[i].job))
    ensures RunOk(LandStep(w, id), i)
  {
    WritesAreFresh(w, Land(id), w.runs[i].job);
    PhasesOnlyAdvance(w, Land(id), i);
    HolderStaysNamed(w, id, i);
    assert Seen(LandStep(w, id).runs[i].phase) in {None, Seen(w.runs[i].phase)};
  }

  lemma RunStaysOkQuietly(w: World, step: Step, i: nat)
    requires Valid(w.db) && !step.Land? && i < |Next(w, step).runs|
    requires i < |w.runs| ==> RunOk(w, i)
    ensures RunOk(Next(w, step), i)
  {
    QuietStep(w, step, i);
  }

  /** What a step other than a landing may do to a run. */
  predicate Quietly(w: World, w': World, i: nat) {
    i < |w.runs| ==>
      && i < |w'.runs| && w'.runs[i].wrote == w.runs[i].wrote && w'.runs[i].job == w.runs[i].job && w'.runs[i].at == w.runs[i].at
      && (Live(w'.runs[i].phase) ==> Live(w.runs[i].phase))
      && (w.runs[i].at in w.alive && w.runs[i].at !in w'.alive ==> Finished(w'.runs[i].phase))
      && (Finished(w.runs[i].phase) ==> Finished(w'.runs[i].phase))
      && (Seen(w'.runs[i].phase) == None || Seen(w'.runs[i].phase) == Seen(w.runs[i].phase)
          || Seen(w'.runs[i].phase) == Fetch(w, w.runs[i].job))
  }

  lemma LookingIsQuiet(w: World, r: nat, i: nat)
    requires r < |w.runs|
    ensures Quietly(w, LookStep(w, r), i)
  {
  }

  lemma DecidingIsQuiet(w: World, r: nat, i: nat)
    requires r < |w.runs|
    ensures Quietly(w, DecideStep(w, r), i)
  {
  }

  lemma LeavingIsQuiet(w: World, r: nat, i: nat)
    requires r < |w.runs|
    ensures Quietly(w, LeaveStep(w, r), i) && Quietly(w, GiveUpStep(w, r), i)
  {
  }

  lemma QuietStep(w: World, step: Step, i: nat)
    requires !step.Land?
    ensures var w' := Next(w, step); w'.db == w.db && w'.now >= w.now && Quietly(w, w', i)
  {
    if (step.Look? || step.Decide? || step.Leave? || step.GiveUp?) && step.run < |w.runs| {
      hide Quietly;
      LookingIsQuiet(w, step.run, i);
      DecidingIsQuiet(w, step.run, i);
      LeavingIsQuiet(w, step.run, i);
    }
  }

  lemma RunStaysOk(w: World, step: Step, i: nat)
    requires Inv(w) && i < |Next(w, step).runs|
    ensures RunOk(Next(w, step), i)
  {
    if step.Land? {
      if step.request in w.net {
        assert RunOk(w, i) && RequestOk(w, w.net[step.request]);
        RunStaysOkAtLanding(w, step.request, i);
      }
    } else {
      assert i < |w.runs| ==> RunOk(w, i);
      RunStaysOkQuietly(w, step, i);
    }
  }

  lemma DocStaysOkAtLanding(w: World, id: nat, job: string)
    requires id in w.net && RequestOk(w, w.net[id]) && job in LandStep(w, id).db.docs
    requires job in w.db.docs ==> DocOk(w, job)
    ensures DocOk(LandStep(w, id), job)
  {
  }

  lemma DocStaysOkQuietly(w: World, step: Step, job: string)
    requires !step.Land? && job in w.db.docs && DocOk(w, job)
    ensures Next(w, step).db == w.db && DocOk(Next(w, step), job)
  {
  }

  lemma DocStaysOk(w: World, step: Step, job: string)
    requires Inv(w) && job in Next(w, step).db.docs
    ensures DocOk(Next(w, step), job)
  {
    assert job in w.db.docs ==> DocOk(w, job);
    if step.Land? {
      if step.request in w.net {
        assert RequestOk(w, w.net[step.request]);
        DocStaysOkAtLanding(w, step.request, job);
      }
    } else {
      DocStaysOkQuietly(w, step, job);
    }
  }

  lemma RequestStaysOkAtLanding(w: World, id: nat, landing: nat)
    requires Valid(w.db) && landing in w.net && RequestOk(w, w.net[landing])
    requires id in w.net && RequestOk(w, w.net[id])
    ensures RequestOk(LandStep(w, landing), w.net[id])
  {
    match w.net[id]
    case Insert(i, _) => PhasesOnlyAdvance(w, Land(landing), i);
    case Replace(i, _, _) =>
      PhasesOnlyAdvance(w, Land(landing), i);
      WritesAreFresh(w, Land(landing), w.runs[i].job);
    case Release(i, _) =>
      PhasesOnlyAdvance(w, Land(landing), i);
      WritesAreFresh(w, Land(landing), w.runs[i].job);
    case Reclaim(job, _) =>
      WritesAreFresh(w, Land(landing), job);
      if job in w.db.docs && w.db.docs[job].body.owner.OfRun? && w.db.docs[job].body.owner.index < |w.runs| {
        PhasesOnlyAdvance(w, Land(landing), w.db.docs[job].body.owner.index);
      }
  }

  /** Requests already in flight, over a step that does not touch the store. */
  lemma RequestStaysOkQuietly(w: World, step: Step, request: Request)
    requires Inv(w) && !step.Land? && RequestOk(w, request)
    ensures RequestOk(Next(w, step), request)
  {
    assert Next(w, step).db == w.db && Next(w, step).now >= w.now;
    if !request.Reclaim? {
      PhasesOnlyAdvance(w, step, request.run);
    } else if request.job in w.db.docs && w.db.docs[request.job].body.owner.OfRun? {
      if w.db.docs[request.job].body.owner.index < |w.runs| {
        PhasesOnlyAdvance(w, step, w.db.docs[request.job].body.owner.index);
      }
    }
  }

  /** Requests sent by a run deciding ... */
  lemma DecidedRequestIsOk(w: World, i: nat)
    requires Valid(w.db) && i < |w.runs| && RunOk(w, i)
    requires w.sent !in w.net && w.sent in DecideStep(w, i).net
    ensures RequestOk(DecideStep(w, i), DecideStep(w, i).net[w.sent])
  {
  }

  /** ... or by a process cleaning up at startup. */
  lemma ReclaimRequestIsOk(w: World, host: string, job: string, seen: Stored<Lock>)
    requires Inv(w) && w.sent in Next(w, Judge(host, job, seen)).net
    ensures RequestOk(Next(w, Judge(host, job, seen)), Next(w, Judge(host, job, seen)).net[w.sent])
  {
    assert w.sent !in w.net;
    assert Faithful(w, job, seen);
    if job in w.db.docs {
      assert DocOk(w, job);
      if w.db.docs[job].body.owner.OfRun? {
        assert RunOk(w, w.db.docs[job].body.owner.index);
      }
    }
  }

  lemma NewRequestIsOk(w: World, step: Step)
    requires Inv(w) && w.sent in Next(w, step).net
    ensures RequestOk(Next(w, step), Next(w, step).net[w.sent])
  {
    assert w.sent !in w.net;
    hide RequestOk, RunOk, DocOk;
    if step.Decide? {
      assert RunOk(w, step.run);
      DecidedRequestIsOk(w, step.run);
    } else {
      ReclaimRequestIsOk(w, step.host, step.job, step.seen);
    }
  }

  lemma RequestStaysOk(w: World, step: Step, id: nat)
    requires Inv(w) && id in Next(w, step).net
    ensures id < Next(w, step).sent && RequestOk(Next(w, step), Next(w, step).net[id])
  {
    if step.Land? {
      if step.request in w.net {
        assert id in w.net && RequestOk(w, w.net[id]) && RequestOk(w, w.net[step.request]);
        assert LandStep(w, step.request).net[id] == w.net[id];
        RequestStaysOkAtLanding(w, id, step.request);
      }
    } else if id == w.sent {
      NewRequestIsOk(w, step);
    } else {
      assert id in w.net && Next(w, step).net[id] == w.net[id];
      RequestStaysOkQuietly(w, step, w.net[id]);
    }
  }

  lemma ValidStays(w: World, step: Step)
    requires Valid(w.db)
    ensures Valid(Next(w, step).db)
  {
    forall job | job in Next(w, step).db.docs ensures Next(w, step).db.docs[job].rev < Next(w, step).db.nextRev {
      WritesAreFresh(w, step, job);
    }
  }

  lemma SightingsStayFaithful(w: World, step: Step, job: string, seen: Stored<Lock>)
    requires Inv(w) && (job, seen) in Next(w, step).sightings
    ensures Faithful(Next(w, step), job, seen)
  {
    if (job, seen) in w.sightings { SeenStaysFaithful(w, step, job, seen); }
  }

  lemma StepKeepsInv(w: World, step: Step)
    requires Inv(w)
    ensures Inv(Next(w, step))
  {
    var w' := Next(w, step);
    forall i: nat | i < |w'.runs| ensures RunOk(w', i) { RunStaysOk(w, step, i); }
    forall job | job in w'.db.docs ensures DocOk(w', job) { DocStaysOk(w, step, job); }
    forall id | id in w'.net ensures id < w'.sent && RequestOk(w', w'.net[id]) { RequestStaysOk(w, step, id); }
    forall job, seen | (job, seen) in w'.sightings ensures Faithful(w', job, seen) {
      SightingsStayFaithful(w, step, job, seen);
    }
    ValidStays(w, step);
  }

  lemma {:induction false} EveryRunKeepsInv(w: World, steps: seq<Step>)
    requires Initial(w)
    ensures Inv(Execute(w, steps))
    decreases |steps|
  {
    if steps != [] {
      EveryRunKeepsInv(w, steps[..|steps| - 1]);
      StepKeepsInv(Execute(w, steps[..|steps| - 1]), steps[|steps| - 1]);
    }
  }

  // -------------------------------------------------------------- the promises

  /** Live, and its last write that reached the store has not expired. */
  predicate Holds(w: World, i: nat) {
    i < |w.runs| && Live(w.runs[i].phase) && w.runs[i].wrote.Some? && w.runs[i].wrote.value > w.now
  }

  /** In every execution, a holder is the owner its job's lock document names, with that very expiry. */
  lemma HolderIsNamed(w0: World, steps: seq<Step>, i: nat)
    requires Initial(w0) && Holds(Execute(w0, steps), i)
    ensures var w := Execute(w0, steps); var run := w.runs[i];
      run.job in w.db.docs && w.db.docs[run.job].body == Lock(OfRun(i), run.at, run.wrote)
  {
    EveryRunKeepsInv(w0, steps);
    var w := Execute(w0, steps);
    assert RunOk(w, i) && DocOk(w, w.runs[i].job);
  }

  /** In every execution, two holders of one job are the same run. */
  lemma MutualExclusion(w0: World, steps: seq<Step>, i: nat, j: nat)
    requires Initial(w0)
    requires var w := Execute(w0, steps); Holds(w, i) && Holds(w, j) && w.runs[i].job == w.runs[j].job
    ensures i == j
  {
    HolderIsNamed(w0, steps, i);
    HolderIsNamed(w0, steps, j);
  }

  /**
   A landing request that changes whose name a job's lock carries found it expired
   (or unreadable); one that removes a lock removed the sender's own after the sender
   had left, or one whose run had finished.
   */
  lemma LandingSparesHolders(w0: World, steps: seq<Step>, id: nat, job: string)
    requires Initial(w0)
    requires var w := Execute(w0, steps); id in w.net && job in w.db.docs
    ensures var w := Execute(w0, steps); var w' := Next(w, Land(id)); var lock := w.db.docs[job].body;
      && (job in w'.db.docs && w'.db.docs[job].body.owner != lock.owner ==> lock.expires.None? || lock.expires.value <= w.now)
      && (job !in w'.db.docs ==>
            match w.net[id]
            case Release(i, _) => lock.owner == OfRun(i) && !Live(w.runs[i].phase)
            case Reclaim(_, _) => Abandoned(w, lock.owner)
            case _ => false)
  {
    EveryRunKeepsInv(w0, steps);
    var w := Execute(w0, steps);
    assert RequestOk(w, w.net[id]) && DocOk(w, job);
  }

  /** One run asks, undisturbed: it looks, decides, and what it sends lands. */
  function Asked(w: World, i: nat): World {
    Next(Next(Next(w, Look(i)), Decide(i)), Land(w.sent))
  }

  /**
   Whatever happened before, an idle run that asks while the lock is absent, expired or
   without a readable expiry, with nobody in between, holds the lease for its whole time
   to live.
   */
  lemma ExpiredLeaseIsTaken(w0: World, steps: seq<Step>, i: nat)
    requires Initial(w0)
    requires var w := Execute(w0, steps);
      && i < |w.runs| && w.runs[i].phase == Idle && w.runs[i].ttl > 0
      && (w.runs[i].job in w.db.docs ==>
            var expires := w.db.docs[w.runs[i].job].body.expires; expires.None? || expires.value <= w.now)
    ensures var w := Execute(w0, steps);
      var taken := Asked(w, i);
      Holds(taken, i) && taken.runs[i].phase == Working(true) && taken.runs[i].wrote == Some(w.now + w.runs[i].ttl)
  {
    hide Execute, Valid;
    var w := Execute(w0, steps);
    var looked := Next(w, Look(i));
    assert looked == SetPhase(w, i, Looked(Fetch(w, w.runs[i].job)));
    var asked := Next(looked, Decide(i));
    assert asked.runs[i].phase == Acquiring(w.sent) && w.sent in asked.net && asked.db == w.db && asked.now == w.now;
    assert asked.net[w.sent] in {Insert(i, LockOf(w, i)),
      if w.runs[i].job in w.db.docs then Replace(i, w.db.docs[w.runs[i].job].rev, LockOf(w, i)) else Insert(i, LockOf(w, i))};
  }

  /** While the lock names somebody and has not expired, asking is in vain: the run is turned away and nothing is written. */
  lemma UnexpiredLeaseIsRefused(w0: World, steps: seq<Step>, i: nat)
    requires Initial(w0)
    requires var w := Execute(w0, steps);
      && i < |w.runs| && w.runs[i].phase == Idle && w.runs[i].job in w.db.docs
      && var expires := w.db.docs[w.runs[i].job].body.expires; expires.Some? && expires.value > w.now
    ensures var w := Execute(w0, steps);
      Asked(w, i).runs[i].phase == Gone && Asked(w, i).db == w.db && !Holds(Asked(w, i), i)
  {
    EveryRunKeepsInv(w0, steps);
    hide Execute, Valid, RunOk, DocOk, RequestOk, Faithful;
    var w := Execute(w0, steps);
    assert w.sent !in w.net;
    assert Next(w, Look(i)) == SetPhase(w, i, Looked(Fetch(w, w.runs[i].job)));
  }

  /**
   A killed holder costs one expiry, not a manual cleanup: in every execution, kill the
   process that holds a lease and let any time pass; another machine's idle run of that
   job, asking undisturbed, holds it if and only if the expiry last written has come.
   */
  lemma KilledHolderCostsOneExpiry(w0: World, steps: seq<Step>, dead: nat, i: nat, elapsed: nat)
    requires Initial(w0)
    requires var w := Execute(w0, steps);
      && Holds(w, dead) && i < |w.runs| && w.runs[i].job == w.runs[dead].job
      && w.runs[i].phase == Idle && w.runs[i].ttl > 0 && w.runs[i].at != w.runs[dead].at
    ensures var w := Execute(w0, steps);
      Holds(Asked(Execute(w0, steps + [Kill(w.runs[dead].at), Tick(elapsed)]), i), i) <==>
        w.runs[dead].wrote.value <= w.now + elapsed
  {
    HolderIsNamed(w0, steps, dead);
    var w := Execute(w0, steps);
    var all := steps + [Kill(w.runs[dead].at), Tick(elapsed)];
    TwoMore(w0, steps, Kill(w.runs[dead].at), Tick(elapsed));
    KillingLeaves(w, w.runs[dead].at, elapsed, i);
    var later := Execute(w0, all);
    hide Next, Asked;
    hide Execute, Holds;
    if w.runs[dead].wrote.value <= later.now {
      ExpiredLeaseIsTaken(w0, all, i);
    } else {
      HeldIsReadable(w, dead);
      UnexpiredLeaseIsRefused(w0, all, i);
    }
  }

  lemma TwoMore(w0: World, steps: seq<Step>, a: Step, b: Step)
    ensures Execute(w0, steps + [a, b]) == Next(Next(Execute(w0, steps), a), b)
  {
    var all := steps + [a, b];
    assert all[..|all| - 1] == steps + [a];
    assert all[..|all| - 1][..|steps|] == steps;
  }

  lemma KillingLeaves(w: World, at: Machine, elapsed: nat, i: nat)
    requires i < |w.runs| && w.runs[i].at != at
    ensures var later := Next(Next(w, Kill(at)), Tick(elapsed));
      && later.db == w.db && later.now == w.now + elapsed && |later.runs| == |w.runs| && later.runs[i] == w.runs[i]
  {
  }

  lemma HeldIsReadable(w: World, i: nat)
    requires Holds(w, i)
    ensures i < |w.runs| && w.runs[i].wrote.Some?
  {
  }

  /** A heartbeat nobody interferes with pushes the expiry to a full time to live from now. */
  lemma BeatExtends(w0: World, steps: seq<Step>, i: nat)
    requires Initial(w0)
    requires var w := Execute(w0, steps); Holds(w, i) && w.runs[i].phase == Working(true) && w.runs[i].ttl > 0
    ensures var w := Execute(w0, steps);
      var beaten := Next(Next(Next(w, Look(i)), Decide(i)), Land(w.sent));
      Holds(beaten, i) && beaten.runs[i].phase == Working(true) && beaten.runs[i].wrote == Some(w.now + w.runs[i].ttl)
  {
    HolderIsNamed(w0, steps, i);
    var w := Execute(w0, steps);
    var stored := w.db.docs[w.runs[i].job];
    var looked := Next(w, Look(i));
    assert looked == SetPhase(w, i, BeatLooked(Some(stored)));
    var asked := Next(looked, Decide(i));
    assert asked == SetPhase(Send(looked, Replace(i, stored.rev, LockOf(looked, i))), i, Renewing(w.sent));
    assert LockOf(looked, i) == LockOf(w, i) && asked.db == w.db;
  }

  /** A holder that leaves, undisturbed, takes its lock away and no other. */
  lemma LeavingFrees(w0: World, steps: seq<Step>, i: nat)
    requires Initial(w0) && Holds(Execute(w0, steps), i)
    ensures var w := Execute(w0, steps);
      var left := Asked(Next(w, Leave(i)), i);
      left.runs[i].phase == Gone && left.db.docs == w.db.docs - {w.runs[i].job}
  {
    HolderIsNamed(w0, steps, i);
    hide Execute;
    var w := Execute(w0, steps);
    var stored := w.db.docs[w.runs[i].job];
    assert Next(w, Leave(i)) == SetPhase(w, i, Leaving);
    assert Next(Next(w, Leave(i)), Look(i)) == SetPhase(w, i, LeftLooked(Some(stored)));
    assert Next(Next(Next(w, Leave(i)), Look(i)), Decide(i)) == SetPhase(Send(w, Release(i, stored.rev)), i, Gone);
  }

  /** A heartbeat that finds somebody else's lock, or none, writes nothing and is the last. */
  lemma LostLeaseIsNotRenewed(w: World, i: nat)
    requires i < |w.runs| && w.runs[i].phase == Working(true)
    requires w.runs[i].job in w.db.docs ==> w.db.docs[w.runs[i].job].body.owner != OfRun(i)
    ensures Next(Next(w, Look(i)), Decide(i)) == SetPhase(w, i, Working(false))
  {
    assert Next(w, Look(i)) == SetPhase(w, i, BeatLooked(Fetch(w, w.runs[i].job)));
  }

  /** Startup removes, undisturbed, the lock it sees if and only if its process ran on this host and is gone. */
  lemma ReclaimFreesIff(w0: World, steps: seq<Step>, host: string, job: string)
    requires Initial(w0) && job in Execute(w0, steps).db.docs
    ensures var w := Execute(w0, steps); var lock := w.db.docs[job];
      var judged := Next(Next(Next(w, Sight(job)), Judge(host, job, lock)), Land(w.sent));
      if lock.body.at.host == host && lock.body.at !in w.alive then judged.db.docs == w.db.docs - {job}
      else judged.db == w.db && judged.net == w.net
  {
    EveryRunKeepsInv(w0, steps);
    hide Execute, Valid, RunOk, DocOk, RequestOk, Faithful;
    var w := Execute(w0, steps);
    assert w.sent !in w.net;
  }

  /** A process started on a free job gets it, so holders do exist: five steps from any store without that lock. */
  lemma FirstRunHolds(w0: World, job: string, ttl: nat, at: Machine)
    requires Initial(w0) && job !in w0.db.docs && ttl > 0
    ensures Holds(Execute(w0, [Boot(at), Begin(job, ttl, at), Look(0), Decide(0), Land(w0.sent)]), 0)
  {
    var steps := [Boot(at), Begin(job, ttl, at)];
    TwoMore(w0, [], Boot(at), Begin(job, ttl, at));
    assert [] + steps == steps;
    assert Execute(w0, []) == w0;
    var w := Execute(w0, steps);
    assert w == w0.(alive := w0.alive + {at}, runs := [Run(job, ttl, at, Idle, None)]);
    ExpiredLeaseIsTaken(w0, steps, 0);
    hide Next;
    TwoMore(w0, steps, Look(0), Decide(0));
    OneMore(w0, steps + [Look(0), Decide(0)], Land(w0.sent));
    assert steps + [Look(0), Decide(0)] + [Land(w0.sent)] == [Boot(at), Begin(job, ttl, at), Look(0), Decide(0), Land(w0.sent)];
  }

  lemma OneMore(w0: World, steps: seq<Step>, step: Step)
    ensures Execute(w0, steps + [step]) == Next(Execute(w0, steps), step)
  {
    assert (steps + [step])[..|steps|] == steps;
  }

  /** A holder killed is cleaned up after by the next process to start on its host, with no expiry to wait for. */
  lemma KilledHolderIsReclaimed(w0: World, steps: seq<Step>, dead: nat)
    requires Initial(w0) && Holds(Execute(w0, steps), dead)
    ensures var w := Execute(w0, steps); var run := w.runs[dead];
      run.job in w.db.docs
      && var freed := Next(Next(Next(Next(w, Kill(run.at)), Sight(run.job)), Judge(run.at.host, run.job, w.db.docs[run.job])), Land(w.sent));
         freed.db.docs == w.db.docs - {run.job}
  {
    HolderIsNamed(w0, steps, dead);
    var w := Execute(w0, steps);
    var run := w.runs[dead];
    OneMore(w0, steps, Kill(run.at));
    var killed := Next(w, Kill(run.at));
    assert killed.db == w.db && killed.sent == w.sent && run.at !in killed.alive;
    hide Next, Execute;
    ReclaimFreesIff(w0, steps + [Kill(run.at)], run.at.host, run.job);
  }

  /** A heartbeat whose read or write raises goes on beating, and loses nothing it held. */
  lemma FailedBeatGoesOn(w: World, i: nat)
    requires i < |w.runs| && w.runs[i].phase == Working(true)
    ensures Next(Next(w, Look(i)), GiveUp(i)) == w
    ensures var tried := Next(Next(Next(w, Look(i)), Decide(i)), GiveUp(i));
      tried.db == w.db && (tried.runs == w.runs || tried.runs[i].phase == Working(false))
    ensures Holds(w, i) && w.runs[i].job in w.db.docs && w.db.docs[w.runs[i].job].body.owner == OfRun(i) ==>
              Next(Next(Next(w, Look(i)), Decide(i)), GiveUp(i)).runs == w.runs
  {
    assert Next(w, Look(i)) == SetPhase(w, i, BeatLooked(Fetch(w, w.runs[i].job)));
    assert w.runs[i := w.runs[i]] == w.runs;
  }

  /** A release whose read raises leaves the lock to expire; the run is over all the same. */
  lemma FailedReleaseLeavesTheLock(w: World, i: nat)
    requires i < |w.runs| && Live(w.runs[i].phase)
    ensures var left := Next(Next(w, Leave(i)), GiveUp(i));
      left.db == w.db && left.net == w.net && left.runs[i].phase == Gone
    ensures var left := Next(Next(Next(w, Leave(i)), Look(i)), GiveUp(i));
      left.db == w.db && left.net == w.net && left.runs[i].phase == Gone
  {
  }
}
