/**
 `search.py`: the full-text sidecar. Two tables must stay in step, a state table with one
 signature per episode and a full-text table keyed by row id. `rebuild` writes both from
 scratch, `sync` only what changed. Row ids come from an arbitrary allocator.
 */
module SearchIndex {
  import opened Wrappers
  import opened Text

  type Id = string
  type Ref = nat
  type Allocator = set<Ref> -> Ref

  const BATCH := 100
  const MAX_TRANSCRIPT_CHARS := 120000

  /** Everything a change of which makes `sync` rewrite a row. */
  datatype Signature = Signature(
    title: string, status: string, podcastName: string, transcriptAt: string, expiredAt: string,
    summary: string, why: string, takeaways: seq<string>, entities: seq<string>)

  datatype Episode = Episode(id: Id, signed: Signature, slug: string, publishedAt: string, transcript: Option<string>)

  datatype Row = Row(
    id: Id, slug: string, podcastName: string, title: string, summary: string,
    takeaways: string, entities: string, transcript: string, publishedAt: string)

  datatype Entry = Entry(ref: Ref, signature: Signature)

  datatype Index = Index(state: map<Id, Entry>, rows: map<Ref, Row>)

  datatype Job = Job(signature: Signature, row: Row)

  const EMPTY := Index(map[], map[])

  ghost predicate Fresh(pick: Allocator) {
    forall taken :: pick(taken) !in taken
  }

  function RowText(e: Episode, transcript: Option<string>): Row {
    var s := e.signed;
    var text := if transcript.None? then "" else transcript.value;
    Row(e.id, e.slug, s.podcastName, s.title, s.summary + "\n" + s.why, Join(s.takeaways, " \n"), Join(s.entities, ", "),
        if |text| > MAX_TRANSCRIPT_CHARS then text[..MAX_TRANSCRIPT_CHARS] else text, e.publishedAt)
  }

  /** `rebuild` loads whatever transcript is attached. */
  function RebuildJob(e: Episode): Job {
    Job(e.signed, RowText(e, e.transcript))
  }

  /** `sync` goes by the two timestamps. */
  function SyncJob(e: Episode): Job {
    Job(e.signed, RowText(e, if e.signed.transcriptAt != "" && e.signed.expiredAt == "" then e.transcript else None))
  }

  // ------------------------------------------------------------- table operations

  /** One turn of `_upsert`: the old row goes, a new one comes under a fresh id. */
  function Upsert(x: Index, job: Job, pick: Allocator): Index {
    var id := job.row.id;
    var kept := if id in x.state then x.rows - {x.state[id].ref} else x.rows;
    var ref := pick(kept.Keys);
    Index(x.state[id := Entry(ref, job.signature)], kept[ref := job.row])
  }

  function UpsertAll(x: Index, jobs: seq<Job>, pick: Allocator): Index
    decreases |jobs|
  {
    if jobs == [] then x else UpsertAll(Upsert(x, jobs[0], pick), jobs[1..], pick)
  }

  function Delete(x: Index, id: Id): Index {
    Index(x.state - {id}, if id in x.state then x.rows - {x.state[id].ref} else x.rows)
  }

  /** One turn of `_write_all`, which never looks for an old row. */
  function Insert(x: Index, job: Job, pick: Allocator): Index {
    var ref := pick(x.rows.Keys);
    Index(x.state[job.row.id := Entry(ref, job.signature)], x.rows[ref := job.row])
  }

  function InsertAll(x: Index, jobs: seq<Job>, pick: Allocator): Index
    decreases |jobs|
  {
    if jobs == [] then x else InsertAll(Insert(x, jobs[0], pick), jobs[1..], pick)
  }

  function RebuildJobs(listing: seq<Episode>): seq<Job> {
    if listing == [] then [] else [RebuildJob(listing[0])] + RebuildJobs(listing[1..])
  }

  function Rebuilt(listing: seq<Episode>, pick: Allocator): Index {
    InsertAll(EMPTY, RebuildJobs(listing), pick)
  }

  /** The episodes whose signature is not the one on record. */
  function Pending(listing: seq<Episode>, known: map<Id, Entry>): seq<Job> {
    if listing == [] then []
    else
      var e := listing[0];
      (if e.id in known && known[e.id].signature == e.signed then [] else [SyncJob(e)]) + Pending(listing[1..], known)
  }

  function Ids(listing: seq<Episode>): set<Id> {
    set e | e in listing :: e.id
  }

  /** Every state row of `gone` goes, and the full-text row it points at. */
  function Without(x: Index, gone: set<Id>): Index {
    Index(x.state - gone, x.rows - Refs(x, gone))
  }

  function Refs(x: Index, ids: set<Id>): set<Ref> {
    set id | id in x.state && id in ids :: x.state[id].ref
  }

  function Synced(x: Index, listing: seq<Episode>, pick: Allocator): Index {
    Without(UpsertAll(x, Pending(listing, x.state), pick), x.state.Keys - Ids(listing))
  }

  // -------------------------------------------------------------------- bijection

  /** State rows and full-text rows point at each other, one to one. */
  ghost predicate Paired(x: Index) {
    && (forall id | id in x.state :: x.state[id].ref in x.rows && x.rows[x.state[id].ref].id == id)
    && (forall ref | ref in x.rows :: x.rows[ref].id in x.state && x.state[x.rows[ref].id].ref == ref)
  }

  /** What the index says of an episode: its signature and its full-text row. */
  function Says(x: Index, id: Id): Option<Job> {
    if id in x.state && x.state[id].ref in x.rows then Some(Job(x.state[id].signature, x.rows[x.state[id].ref])) else None
  }

  lemma UpsertKeepsPaired(x: Index, job: Job, pick: Allocator)
    requires Paired(x) && Fresh(pick)
    ensures Paired(Upsert(x, job, pick)) && Upsert(x, job, pick).state.Keys == x.state.Keys + {job.row.id}
    ensures forall id :: Says(Upsert(x, job, pick), id) == if id == job.row.id then Some(job) else Says(x, id)
  {
  }

  lemma DeleteKeepsPaired(x: Index, id: Id)
    requires Paired(x)
    ensures Paired(Delete(x, id))
    ensures forall other :: Says(Delete(x, id), other) == if other == id then None else Says(x, other)
  {
  }

  lemma InsertKeepsPaired(x: Index, job: Job, pick: Allocator)
    requires Paired(x) && Fresh(pick)
    ensures job.row.id !in x.state ==> Insert(x, job, pick) == Upsert(x, job, pick)
    ensures Paired(Insert(x, job, pick)) <==> job.row.id !in x.state
  {
    var ref := pick(x.rows.Keys);
    assert ref !in x.rows;
    if job.row.id in x.state {
      var prior := x.state[job.row.id].ref;
      var y := Insert(x, job, pick);
      assert prior in y.rows && y.rows[prior].id == job.row.id && y.state[job.row.id].ref == ref;
    } else {
      UpsertKeepsPaired(x, job, pick);
    }
  }

  lemma {:induction false} UpsertAllKeepsPaired(x: Index, jobs: seq<Job>, pick: Allocator)
    requires Paired(x) && Fresh(pick)
    ensures Paired(UpsertAll(x, jobs, pick))
    ensures forall id :: (forall job | job in jobs :: job.row.id != id) ==> Says(UpsertAll(x, jobs, pick), id) == Says(x, id)
    decreases |jobs|
  {
    hide Paired, Says, Upsert;
    if jobs != [] {
      UpsertKeepsPaired(x, jobs[0], pick);
      UpsertAllKeepsPaired(Upsert(x, jobs[0], pick), jobs[1..], pick);
    }
  }

  /** Each episode at most once, which is what a listing of an unchanging store holds. */
  predicate Distinct(jobs: seq<Job>) {
    forall i, j :: 0 <= i < j < |jobs| ==> jobs[i].row.id != jobs[j].row.id
  }

  lemma {:induction false} LastWord(x: Index, jobs: seq<Job>, pick: Allocator, job: Job)
    requires Paired(x) && Fresh(pick) && Distinct(jobs) && job in jobs
    ensures Says(UpsertAll(x, jobs, pick), job.row.id) == Some(job)
    decreases |jobs|
  {
    hide Paired, Says, Upsert;
    UpsertKeepsPaired(x, jobs[0], pick);
    var y := Upsert(x, jobs[0], pick);
    UpsertAllKeepsPaired(y, jobs[1..], pick);
    if job in jobs[1..] {
      LastWord(y, jobs[1..], pick, job);
    }
  }

  /** `_write_all` leaves the two tables paired if and only if no episode was listed twice. */
  lemma {:induction false} WriteAllPairsIffDistinct(x: Index, jobs: seq<Job>, pick: Allocator)
    requires Paired(x) && Fresh(pick) && (forall job | job in jobs :: job.row.id !in x.state)
    ensures Distinct(jobs) ==> InsertAll(x, jobs, pick) == UpsertAll(x, jobs, pick)
    ensures Paired(InsertAll(x, jobs, pick)) <==> Distinct(jobs)
    decreases |jobs|
  {
    hide Paired, Upsert;
    if jobs != [] {
      var id := jobs[0].row.id;
      InsertKeepsPaired(x, jobs[0], pick);
      UpsertKeepsPaired(x, jobs[0], pick);
      var y := Insert(x, jobs[0], pick);
      if k :| 1 <= k < |jobs| && jobs[k].row.id == id {
        assert jobs[1..][k - 1] == jobs[k];
        Orphans(y, jobs[1..], pick, y.state[id].ref, k - 1);
      } else {
        WriteAllPairsIffDistinct(y, jobs[1..], pick);
        assert Distinct(jobs) <==> Distinct(jobs[1..]) by {
          if Distinct(jobs[1..]) {
            forall i, j | 0 <= i < j < |jobs| ensures jobs[i].row.id != jobs[j].row.id {
              assert jobs[j] == jobs[1..][j - 1] && (i > 0 ==> jobs[i] == jobs[1..][i - 1]);
            }
          }
        }
        UpsertAllKeepsPaired(x, jobs, pick);
      }
    }
  }

  /** A row whose episode is inserted again is left behind for good. */
  lemma {:induction false} Orphans(x: Index, jobs: seq<Job>, pick: Allocator, ref: Ref, k: nat)
    requires Fresh(pick) && ref in x.rows && k < |jobs| && x.rows[ref].id == jobs[k].row.id
    ensures !Paired(InsertAll(x, jobs, pick))
    decreases |jobs|
  {
    var y := Insert(x, jobs[0], pick);
    assert ref in y.rows && y.rows[ref] == x.rows[ref];
    if jobs[0].row.id == jobs[k].row.id {
      StaysOrphan(y, jobs[1..], pick, ref);
    } else {
      Orphans(y, jobs[1..], pick, ref, k - 1);
    }
  }

  lemma {:induction false} StaysOrphan(x: Index, jobs: seq<Job>, pick: Allocator, ref: Ref)
    requires Fresh(pick) && ref in x.rows && x.rows[ref].id in x.state && x.state[x.rows[ref].id].ref != ref
    ensures !Paired(InsertAll(x, jobs, pick))
    decreases |jobs|
  {
    if jobs != [] { StaysOrphan(Insert(x, jobs[0], pick), jobs[1..], pick, ref); }
  }

  lemma WithoutKeepsPaired(x: Index, gone: set<Id>)
    requires Paired(x)
    ensures Paired(Without(x, gone))
    ensures forall id :: Says(Without(x, gone), id) == if id in gone then None else Says(x, id)
  {
  }

  // ---------------------------------------------------------- sync against rebuild

  predicate OnceEach(listing: seq<Episode>) {
    forall i, j :: 0 <= i < j < |listing| ==> listing[i].id != listing[j].id
  }

  lemma {:induction false} PendingIs(listing: seq<Episode>, known: map<Id, Entry>)
    requires OnceEach(listing)
    ensures Distinct(Pending(listing, known))
    ensures forall job | job in Pending(listing, known) :: exists e :: e in listing && job == SyncJob(e) && e.id == job.row.id
    ensures forall e | e in listing && !(e.id in known && known[e.id].signature == e.signed) :: SyncJob(e) in Pending(listing, known)
    ensures forall e | e in listing && e.id in known && known[e.id].signature == e.signed ::
              forall job | job in Pending(listing, known) :: job.row.id != e.id
  {
    hide RowText;
    if listing != [] {
      PendingIs(listing[1..], known);
      SyncJobNames(listing[0]);
      forall e | e in listing[1..] ensures e.id != listing[0].id {
      }
    }
  }

  lemma SyncJobNames(e: Episode)
    ensures SyncJob(e).row.id == e.id && SyncJob(e).signature == e.signed
    ensures RebuildJob(e).row.id == e.id && RebuildJob(e).signature == e.signed
  {
  }

  lemma {:induction false} RebuildJobsAre(listing: seq<Episode>)
    requires OnceEach(listing)
    ensures |RebuildJobs(listing)| == |listing|
    ensures forall i :: 0 <= i < |listing| ==> RebuildJobs(listing)[i] == RebuildJob(listing[i]) && RebuildJobs(listing)[i].row.id == listing[i].id
    ensures Distinct(RebuildJobs(listing))
  {
    hide RowText;
    if listing != [] {
      RebuildJobsAre(listing[1..]);
      SyncJobNames(listing[0]);
    }
  }

  /** What `sync` leaves for an episode on the listing: the old row if the signature is unchanged. */
  function AfterSync(x: Index, e: Episode): Job {
    if Says(x, e.id).Some? && Says(x, e.id).value.signature == e.signed then Says(x, e.id).value else SyncJob(e)
  }

  lemma RebuiltSays(listing: seq<Episode>, pick: Allocator)
    requires Fresh(pick) && OnceEach(listing)
    ensures Paired(Rebuilt(listing, pick))
    ensures forall e | e in listing :: Says(Rebuilt(listing, pick), e.id) == Some(RebuildJob(e))
    ensures forall id | id !in Ids(listing) :: Says(Rebuilt(listing, pick), id) == None
  {
    var jobs := RebuildJobs(listing);
    RebuildJobsAre(listing);
    hide RebuildJobs, RebuildJob, Upsert, UpsertAll, InsertAll, Distinct;
    WriteAllPairsIffDistinct(EMPTY, jobs, pick);
    UpsertAllKeepsPaired(EMPTY, jobs, pick);
    hide Says, Paired;
    forall e | e in listing ensures Says(Rebuilt(listing, pick), e.id) == Some(RebuildJob(e)) {
      var i :| 0 <= i < |listing| && listing[i] == e;
      assert jobs[i] == RebuildJob(e);
      LastWord(EMPTY, jobs, pick, jobs[i]);
    }
    NothingSaid();
  }

  lemma NothingSaid()
    ensures Paired(EMPTY) && forall id :: Says(EMPTY, id) == None
  {
  }

  lemma SyncedSays(x: Index, listing: seq<Episode>, pick: Allocator)
    requires Fresh(pick) && OnceEach(listing) && Paired(x)
    ensures Paired(Synced(x, listing, pick))
    ensures forall e | e in listing :: Says(Synced(x, listing, pick), e.id) == Some(AfterSync(x, e))
    ensures forall id | id !in Ids(listing) :: Says(Synced(x, listing, pick), id) == None
  {
    var jobs := Pending(listing, x.state);
    PendingIs(listing, x.state);
    UpsertAllKeepsPaired(x, jobs, pick);
    var y := UpsertAll(x, jobs, pick);
    WithoutKeepsPaired(y, x.state.Keys - Ids(listing));
    forall id ensures Says(x, id).Some? <==> id in x.state {
    }
    hide Upsert, UpsertAll, Distinct, Pending, Paired, Without, SyncJob;
    forall e | e in listing ensures Says(Synced(x, listing, pick), e.id) == Some(AfterSync(x, e)) {
      if !(e.id in x.state && x.state[e.id].signature == e.signed) {
        SyncJobNames(e);
        LastWord(x, jobs, pick, SyncJob(e));
      }
    }
    forall id | id !in Ids(listing) ensures Says(Synced(x, listing, pick), id) == None {
    }
  }

  /** After `sync` the state table holds, episode by episode, the signatures a rebuild would write. */
  lemma SyncAgreesOnSignatures(x: Index, listing: seq<Episode>, pick: Allocator)
    requires Fresh(pick) && OnceEach(listing) && Paired(x)
    ensures var synced, rebuilt := Synced(x, listing, pick), Rebuilt(listing, pick);
      && Paired(synced) && Paired(rebuilt)
      && synced.state.Keys == rebuilt.state.Keys == Ids(listing)
      && forall id | id in Ids(listing) :: synced.state[id].signature == rebuilt.state[id].signature
  {
    SyncedSays(x, listing, pick);
    RebuiltSays(listing, pick);
    var synced, rebuilt := Synced(x, listing, pick), Rebuilt(listing, pick);
    hide Synced, Rebuilt, SyncJob, RebuildJob;
    forall e | e in listing ensures
      && e.id in synced.state && e.id in rebuilt.state
      && synced.state[e.id].signature == rebuilt.state[e.id].signature == e.signed
    {
      SyncJobNames(e);
      assert Says(synced, e.id) == Some(AfterSync(x, e)) && Says(rebuilt, e.id) == Some(RebuildJob(e));
    }
    forall id ensures id in Ids(listing) <==> id in synced.state
              ensures id in Ids(listing) <==> id in rebuilt.state
    {
      if id in Ids(listing) {
        var e :| e in listing && e.id == id;
      } else {
        assert Says(synced, id) == None && Says(rebuilt, id) == None;
      }
    }
  }

  /** Both operations load the same transcript text exactly if there is none to load or the timestamps ask for it. */
  lemma LoadedAlike(e: Episode)
    ensures SyncJob(e) == RebuildJob(e) <==>
            e.transcript == None || e.transcript == Some("") || (e.signed.transcriptAt != "" && e.signed.expiredAt == "")
  {
    if e.transcript.Some? && e.transcript.value != "" {
      assert RowText(e, e.transcript).transcript != "" == RowText(e, None).transcript;
    }
  }

  // ---------------------------------------------------------------- whole histories

  /** A completed `sync` or `rebuild`, or a `sync` that died after `done` of its upserts. */
  datatype Event = Sync(listing: seq<Episode>) | Rebuild(listing: seq<Episode>) | Torn(listing: seq<Episode>, done: nat)

  function After(x: Index, event: Event, pick: Allocator): Index {
    match event
    case Sync(listing) => Synced(x, listing, pick)
    case Rebuild(listing) => Rebuilt(listing, pick)
    case Torn(listing, done) =>
      var jobs := Pending(listing, x.state);
      UpsertAll(x, if done < |jobs| then jobs[..done] else jobs, pick)
  }

  function History(events: seq<Event>, pick: Allocator): Index
    decreases |events|
  {
    if events == [] then EMPTY else After(History(events[..|events| - 1], pick), events[|events| - 1], pick)
  }

  /** Among the versions ever listed, equal signatures mean equal rows, and the timestamps tell when to load. */
  ghost predicate SignatureDetermines(versions: set<Episode>) {
    && (forall e | e in versions :: SyncJob(e) == RebuildJob(e))
    && (forall a, b | a in versions && b in versions && a.id == b.id && a.signed == b.signed :: RebuildJob(a) == RebuildJob(b))
  }

  ghost predicate ListedFrom(events: seq<Event>, versions: set<Episode>) {
    forall event | event in events :: OnceEach(event.listing) && forall e | e in event.listing :: e in versions
  }

  predicate Genuine(job: Job, versions: set<Episode>) {
    exists e :: e in versions && job == RebuildJob(e)
  }

  ghost predicate AllGenuine(x: Index, versions: set<Episode>) {
    forall id | Says(x, id).Some? :: Genuine(Says(x, id).value, versions)
  }

  lemma {:induction false} UpsertsStayGenuine(x: Index, jobs: seq<Job>, pick: Allocator, versions: set<Episode>)
    requires Paired(x) && Fresh(pick) && AllGenuine(x, versions)
    requires forall job | job in jobs :: Genuine(job, versions)
    ensures Paired(UpsertAll(x, jobs, pick)) && AllGenuine(UpsertAll(x, jobs, pick), versions)
    decreases |jobs|
  {
    hide Paired, Says, Upsert, Genuine;
    if jobs != [] {
      UpsertKeepsPaired(x, jobs[0], pick);
      UpsertsStayGenuine(Upsert(x, jobs[0], pick), jobs[1..], pick, versions);
    }
  }

  lemma EventStaysGenuine(x: Index, event: Event, pick: Allocator, versions: set<Episode>)
    requires Paired(x) && Fresh(pick) && AllGenuine(x, versions) && SignatureDetermines(versions)
    requires OnceEach(event.listing) && forall e | e in event.listing :: e in versions
    ensures Paired(After(x, event, pick)) && AllGenuine(After(x, event, pick), versions)
  {
    hide Paired, Synced, Rebuilt, UpsertAll, Pending, SyncJob, RebuildJob, OnceEach, Upsert;
    match event
    case Sync(listing) =>
      SyncedSays(x, listing, pick);
      var y := Synced(x, listing, pick);
      forall id | Says(y, id).Some? ensures Genuine(Says(y, id).value, versions) {
        var e :| e in listing && e.id == id;
        assert SyncJob(e) == RebuildJob(e);
      }
    case Rebuild(listing) =>
      RebuiltSays(listing, pick);
      var y := Rebuilt(listing, pick);
      forall id | Says(y, id).Some? ensures Genuine(Says(y, id).value, versions) {
        var e :| e in listing && e.id == id;
      }
    case Torn(listing, done) =>
      var jobs := Pending(listing, x.state);
      PendingIs(listing, x.state);
      forall job | job in jobs ensures Genuine(job, versions) {
        var e :| e in listing && job == SyncJob(e) && e.id == job.row.id;
      }
      UpsertsStayGenuine(x, if done < |jobs| then jobs[..done] else jobs, pick, versions);
  }

  lemma {:induction false} HistoryStaysGenuine(events: seq<Event>, pick: Allocator, versions: set<Episode>)
    requires Fresh(pick) && SignatureDetermines(versions) && ListedFrom(events, versions)
    ensures Paired(History(events, pick)) && AllGenuine(History(events, pick), versions)
    decreases |events|
  {
    hide Paired, Says, After, OnceEach, SignatureDetermines;
    NothingSaid();
    if events != [] {
      var n := |events| - 1;
      assert events[n] in events;
      HistoryStaysGenuine(events[..n], pick, versions);
      EventStaysGenuine(History(events[..n], pick), events[n], pick, versions);
    }
  }

  lemma HistoryMore(events: seq<Event>, event: Event, pick: Allocator)
    ensures History(events + [event], pick) == After(History(events, pick), event, pick)
  {
    assert (events + [event])[..|events|] == events;
  }

  /**
   Whatever syncs, rebuilds and interrupted syncs came before: where the signature
   determines the row, a `sync` leaves exactly the signatures and rows a rebuild would.
   */
  lemma SyncEqualsRebuild(events: seq<Event>, listing: seq<Episode>, pick: Allocator, versions: set<Episode>)
    requires Fresh(pick) && SignatureDetermines(versions) && ListedFrom(events + [Sync(listing)], versions)
    ensures var synced, rebuilt := History(events + [Sync(listing)], pick), History(events + [Rebuild(listing)], pick);
      && synced == Synced(History(events, pick), listing, pick) && rebuilt == Rebuilt(listing, pick)
      && Paired(synced) && forall id :: Says(synced, id) == Says(rebuilt, id)
  {
    HistoryMore(events, Sync(listing), pick);
    HistoryMore(events, Rebuild(listing), pick);
    assert forall event | event in events :: event in events + [Sync(listing)];
    assert Sync(listing) in events + [Sync(listing)];
    HistoryStaysGenuine(events, pick, versions);
    var x := History(events, pick);
    SyncedSays(x, listing, pick);
    RebuiltSays(listing, pick);
    hide Paired, Synced, Rebuilt, History, RebuildJob, SyncJob, OnceEach;
    var synced, rebuilt := Synced(x, listing, pick), Rebuilt(listing, pick);
    forall id ensures Says(synced, id) == Says(rebuilt, id) {
      if id in Ids(listing) {
        var e :| e in listing && e.id == id;
        if Says(x, id).Some? && Says(x, id).value.signature == e.signed {
          var past :| past in versions && Says(x, id).value == RebuildJob(past);
          SyncJobNames(past);
          SaysOf(x, id);
          assert past.id == id && past.signed == e.signed;
        }
      }
    }
  }

  lemma SaysOf(x: Index, id: Id)
    requires Paired(x) && Says(x, id).Some?
    ensures Says(x, id).value.row.id == id
  {
  }

  /** `sync` has to write the row: the episode is new to the index, or on record under another signature. */
  predicate Rewrites(x: Index, e: Episode) {
    e.id in x.state ==> x.state[e.id].signature != e.signed
  }

  /**
   Where `sync` writes a row it is the row of a rebuild if and only if there is no text to
   load or the timestamps ask for it.
   */
  lemma RewrittenRowAgreesIff(x: Index, listing: seq<Episode>, e: Episode, pick: Allocator)
    requires Fresh(pick) && Paired(x) && OnceEach(listing) && e in listing && Rewrites(x, e)
    ensures Says(Synced(x, listing, pick), e.id) == Says(Rebuilt(listing, pick), e.id) <==>
            e.transcript == None || e.transcript == Some("") || (e.signed.transcriptAt != "" && e.signed.expiredAt == "")
  {
    SyncedSays(x, listing, pick);
    RebuiltSays(listing, pick);
    LoadedAlike(e);
    hide Synced, Rebuilt, SyncJob, RebuildJob, OnceEach;
  }

  /**
   `transcript_expired_at` is never cleared. Once a transcript has expired and a new one is
   attached, whatever the index had on record, `sync` indexes the episode without its text
   and `rebuild` with it.
   */
  lemma ReattachedTranscriptIsMissed(x: Index, listing: seq<Episode>, e: Episode, pick: Allocator)
    requires Fresh(pick) && Paired(x) && OnceEach(listing) && e in listing && Rewrites(x, e)
    requires e.transcript.Some? && e.transcript.value != "" && e.signed.expiredAt != ""
    ensures var synced, rebuilt := Says(Synced(x, listing, pick), e.id), Says(Rebuilt(listing, pick), e.id);
      synced.Some? && rebuilt.Some? && synced.value.row.transcript == "" != rebuilt.value.row.transcript
  {
    SyncedSays(x, listing, pick);
    RebuiltSays(listing, pick);
    hide Synced, Rebuilt, OnceEach;
  }

  // ------------------------------------------------------------ what a row says

  /** Column by column, with as much of `text` as a row holds. */
  predicate Describes(row: Row, e: Episode, text: string) {
    && row.id == e.id && row.slug == e.slug && row.publishedAt == e.publishedAt
    && row.title == e.signed.title && row.podcastName == e.signed.podcastName
    && row.summary == e.signed.summary + "\n" + e.signed.why
    && row.takeaways == Join(e.signed.takeaways, " \n") && row.entities == Join(e.signed.entities, ", ")
    && row.transcript <= text && |row.transcript| == (if |text| < 120000 then |text| else 120000)
  }

  /** Every listed episode is described in full by a rebuild, its transcript as far as it is attached. */
  lemma RebuiltRowDescribes(listing: seq<Episode>, e: Episode, pick: Allocator)
    requires Fresh(pick) && OnceEach(listing) && e in listing
    ensures var said := Says(Rebuilt(listing, pick), e.id);
      said.Some? && said.value.signature == e.signed
      && Describes(said.value.row, e, if e.transcript.Some? then e.transcript.value else "")
  {
    RebuiltSays(listing, pick);
    hide Rebuilt, OnceEach, Join;
  }

  /**
   `sync` leaves the row of an episode on record under the same signature alone, and describes
   every other in full, with its transcript if it was attached and has not expired.
   */
  lemma SyncedRowDescribes(x: Index, listing: seq<Episode>, e: Episode, pick: Allocator)
    requires Fresh(pick) && Paired(x) && OnceEach(listing) && e in listing
    ensures var said := Says(Synced(x, listing, pick), e.id);
      if !Rewrites(x, e) && e.id in x.state then said == Says(x, e.id)
      else
        said.Some? && said.value.signature == e.signed
        && Describes(said.value.row, e,
             if e.transcript.Some? && e.signed.transcriptAt != "" && e.signed.expiredAt == "" then e.transcript.value else "")
  {
    SyncedSays(x, listing, pick);
    hide Synced, OnceEach, Join;
  }
}
