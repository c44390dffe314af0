/** The sidecar file of `search.py` and the loops that change it, proved against `SearchIndex`. */
module SearchIndexFiles {
  import opened Wrappers
  import opened SearchIndex

  datatype Report = Report(added: nat, changed: nat, removed: nat, indexed: nat)

  /** How many of the jobs are for episodes not on record. */
  function New(jobs: seq<Job>, known: map<Id, Entry>): nat {
    if jobs == [] then 0 else (if jobs[0].row.id in known then 0 else 1) + New(jobs[1..], known)
  }

  lemma {:induction false} UpsertAllAppends(x: Index, a: seq<Job>, b: seq<Job>, pick: Allocator)
    ensures UpsertAll(x, a + b, pick) == UpsertAll(UpsertAll(x, a, pick), b, pick)
    decreases |a|
  {
    hide Upsert;
    if a == [] {
      assert a + b == b;
    } else {
      assert (a + b)[1..] == a[1..] + b;
      UpsertAllAppends(Upsert(x, a[0], pick), a[1..], b, pick);
    }
  }

  lemma {:induction false} PendingAppends(a: seq<Episode>, b: seq<Episode>, known: map<Id, Entry>)
    ensures Pending(a + b, known) == Pending(a, known) + Pending(b, known)
    decreases |a|
  {
    hide SyncJob;
    if a == [] {
      assert a + b == b;
    } else {
      assert (a + b)[1..] == a[1..] + b;
      PendingAppends(a[1..], b, known);
    }
  }

  lemma {:induction false} NewAppends(a: seq<Job>, b: seq<Job>, known: map<Id, Entry>)
    ensures New(a + b, known) == New(a, known) + New(b, known)
    decreases |a|
  {
    if a == [] {
      assert a + b == b;
    } else {
      assert (a + b)[1..] == a[1..] + b;
      NewAppends(a[1..], b, known);
    }
  }

  lemma {:induction false} RebuildJobsAppend(a: seq<Episode>, b: seq<Episode>)
    ensures RebuildJobs(a + b) == RebuildJobs(a) + RebuildJobs(b)
    decreases |a|
  {
    hide RebuildJob;
    if a == [] {
      assert a + b == b;
    } else {
      assert (a + b)[1..] == a[1..] + b;
      RebuildJobsAppend(a[1..], b);
    }
  }

  lemma PendingTurn(page: seq<Episode>, i: nat, known: map<Id, Entry>)
    requires i < |page|
    ensures Pending(page[..i + 1], known) == Pending(page[..i], known) +
      if page[i].id in known && known[page[i].id].signature == page[i].signed then [] else [SyncJob(page[i])]
  {
    assert page[..i + 1] == page[..i] + [page[i]];
    PendingAppends(page[..i], [page[i]], known);
    PendingOfOne(page[i], known);
  }

  lemma PendingOfOne(e: Episode, known: map<Id, Entry>)
    ensures Pending([e], known) == if e.id in known && known[e.id].signature == e.signed then [] else [SyncJob(e)]
  {
    hide SyncJob;
    assert Pending([e][1..], known) == [];
  }

  lemma NewOfOne(job: Job, known: map<Id, Entry>)
    ensures New([job], known) == if job.row.id in known then 0 else 1
  {
    assert New([job][1..], known) == 0;
  }

  lemma DeleteOneMore(x: Index, gone: set<Id>, id: Id)
    ensures Delete(Without(x, gone), id) == Without(x, gone + {id})
  {
    var more := gone + {id};
    assert id in x.state ==> x.state[id].ref in Refs(x, more);
    assert Refs(x, more) == Refs(x, gone) + (if id in x.state then {x.state[id].ref} else {});
  }

  class SearchIndexFile {
    const pick: Allocator
    var built: bool
    var state: map<Id, Entry>
    var rows: map<Ref, Row>

    constructor (pick: Allocator)
      ensures this.pick == pick && !built && Contents() == EMPTY
    {
      this.pick := pick;
      built, state, rows := false, map[], map[];
    }

    function Contents(): Index
      reads this
    {
      Index(state, rows)
    }

    method Upsert(pending: seq<Job>)
      modifies `state, `rows
      ensures Contents() == UpsertAll(old(Contents()), pending, pick)
      ensures built == old(built)
    {
      for i := 0 to |pending|
        invariant UpsertAll(old(Contents()), pending, pick) == UpsertAll(Contents(), pending[i..], pick)
      {
        var job := pending[i];
        assert pending[i..][0] == job && pending[i..][1..] == pending[i + 1..];
        if job.row.id in state {
          rows := rows - {state[job.row.id].ref};
        }
        var ref := pick(rows.Keys);
        rows := rows[ref := job.row];
        state := state[job.row.id := Entry(ref, job.signature)];
      }
    }

    method Delete(ids: set<Id>) returns (removed: nat)
      modifies `state, `rows
      ensures Contents() == Without(old(Contents()), ids)
      ensures built == old(built)
      ensures removed == |ids|
    {
      var left := ids;
      removed := 0;
      WithoutNothing(Contents());
      while left != {}
        invariant left <= ids && removed == |ids| - |left|
        invariant Contents() == Without(old(Contents()), ids - left)
        decreases |left|
      {
        hide Without;
        var id :| id in left;
        DeleteOneMore(old(Contents()), ids - left, id);
        assert ids - left + {id} == ids - (left - {id});
        if id in state {
          rows := rows - {state[id].ref};
        }
        state := state - {id};
        left := left - {id};
        removed := removed + 1;
      }
      assert ids - {} == ids;
    }

    /** Written beside the old file and swapped in at the end. */
    method WriteAll(jobs: seq<Job>) returns (count: nat)
      modifies this
      ensures built && Contents() == InsertAll(EMPTY, jobs, pick)
      ensures count == |jobs|
    {
      var newState, newRows := map[], map[];
      count := 0;
      for i := 0 to |jobs|
        invariant count == i
        invariant InsertAll(EMPTY, jobs, pick) == InsertAll(Index(newState, newRows), jobs[i..], pick)
      {
        var job := jobs[i];
        assert jobs[i..][0] == job && jobs[i..][1..] == jobs[i + 1..];
        var ref := pick(newRows.Keys);
        newRows := newRows[ref := job.row];
        newState := newState[job.row.id := Entry(ref, job.signature)];
        count := count + 1;
      }
      built, state, rows := true, newState, newRows;
    }

    /** One page of `rebuild`. */
    method RebuildPage(page: seq<Episode>) returns (jobs: seq<Job>)
      ensures jobs == RebuildJobs(page) && |jobs| == |page|
    {
      hide RebuildJobs, RebuildJob;
      jobs := [];
      NothingToRebuild(page);
      for i := 0 to |page|
        invariant jobs == RebuildJobs(page[..i]) && |jobs| == i
      {
        RebuildTurn(page, i);
        jobs := jobs + [RebuildJob(page[i])];
      }
      assert page[..|page|] == page;
    }

    /** `listing` is what `find` pages through on a store that does not change meanwhile. */
    method Rebuild(listing: seq<Episode>) returns (indexed: nat)
      modifies this
      ensures built && Contents() == Rebuilt(listing, pick)
      ensures indexed == |listing|
    {
      hide RebuildJobs, RebuildJob, Page;
      var jobs: seq<Job>, skip: nat := [], 0;
      NothingToRebuild(listing);
      while true
        invariant skip <= |listing| && jobs == RebuildJobs(listing[..skip]) && |jobs| == skip
        decreases |listing| - skip
      {
        var page := Page(listing, skip);
        PageIsSlice(listing, skip);
        if page == [] {
          break;
        }
        var more := RebuildPage(page);
        RebuildJobsAppend(listing[..skip], page);
        assert listing[..skip] + page == listing[..skip + |page|];
        jobs := jobs + more;
        skip := skip + |page|;
        if |page| < BATCH {
          break;
        }
      }
      assert listing[..skip] == listing;
      indexed := WriteAll(jobs);
    }

    /** One page of `sync`: what changed, and the ids seen. */
    method Compare(page: seq<Episode>, known: map<Id, Entry>)
      returns (pending: seq<Job>, added: nat, changed: nat, seen: set<Id>)
      ensures pending == Pending(page, known) && seen == Ids(page)
      ensures added == New(pending, known) && added + changed == |pending|
    {
      hide SyncJob, Pending, New, Ids;
      pending, added, changed, seen := [], 0, 0, {};
      StartOfPage(page, known);
      for i := 0 to |page|
        invariant pending == Pending(page[..i], known) && seen == Ids(page[..i])
        invariant added == New(pending, known) && added + changed == |pending|
      {
        var e := page[i];
        PendingTurn(page, i, known);
        SeenTurn(page, i);
        seen := seen + {e.id};
        if e.id in known && known[e.id].signature == e.signed {
          assert pending + [] == pending;
          continue;
        }
        NewAppends(pending, [SyncJob(e)], known);
        NewOfOne(SyncJob(e), known);
        SyncJobNames(e);
        pending := pending + [SyncJob(e)];
        if e.id in known {
          changed := changed + 1;
        } else {
          added := added + 1;
        }
      }
      assert page[..|page|] == page;
    }

    /** The paging loop of `sync`. */
    method UpsertChanged(listing: seq<Episode>) returns (seen: set<Id>, added: nat, changed: nat)
      modifies `state, `rows
      ensures Contents() == UpsertAll(old(Contents()), Pending(listing, old(state)), pick)
      ensures seen == Ids(listing)
      ensures var pending := Pending(listing, old(state)); added == New(pending, old(state)) && added + changed == |pending|
    {
      hide SyncJob, Pending, UpsertAll, New, Ids, Page;
      var known := state;
      var skip: nat := 0;
      seen, added, changed := {}, 0, 0;
      ghost var x := Contents();
      StartOfListing(x, listing, pick);
      while true
        invariant skip <= |listing| && seen == Ids(listing[..skip])
        invariant Contents() == UpsertAll(x, Pending(listing[..skip], known), pick)
        invariant added == New(Pending(listing[..skip], known), known)
        invariant added + changed == |Pending(listing[..skip], known)|
        decreases |listing| - skip
      {
        var page := Page(listing, skip);
        PageIsSlice(listing, skip);
        if page == [] {
          break;
        }
        PageDone(x, listing, skip, page, known, pick);
        var pending, news, stale, ids := Compare(page, known);
        seen := seen + ids;
        added, changed := added + news, changed + stale;
        if pending != [] {
          Upsert(pending);
        } else {
          NothingToUpsert(Contents(), pick);
        }
        skip := skip + |page|;
        if |page| < BATCH {
          break;
        }
      }
      assert listing[..skip] == listing;
    }

    method Sync(listing: seq<Episode>) returns (report: Report)
      modifies this
      ensures built
      ensures Contents() == if old(built) then Synced(old(Contents()), listing, pick) else Rebuilt(listing, pick)
      ensures old(built) ==>
        var pending := Pending(listing, old(state));
        var news := New(pending, old(state));
        news <= |pending| && report == Report(news, |pending| - news, |old(state).Keys - Ids(listing)|, |state|)
      ensures !old(built) ==> report == Report(0, 0, 0, |listing|)
    {
      hide Pending, UpsertAll, New, Without, Rebuilt, Synced, Ids;
      if !built {
        var indexed := Rebuild(listing);
        return Report(0, 0, 0, indexed);
      }
      var known := state;
      SyncedIs(Contents(), listing, pick);
      var seen, added, changed := UpsertChanged(listing);
      var gone := known.Keys - seen;
      var removed := 0;
      if gone != {} {
        removed := Delete(gone);
      } else {
        WithoutNothing(Contents());
      }
      return Report(added, changed, removed, |state|);
    }
  }

  function Page(listing: seq<Episode>, skip: nat): seq<Episode>
    requires skip <= |listing|
  {
    listing[skip..if skip + BATCH < |listing| then skip + BATCH else |listing|]
  }

  lemma WithoutNothing(x: Index)
    ensures Without(x, {}) == x
  {
    assert Refs(x, {}) == {};
  }

  lemma NothingToUpsert(x: Index, pick: Allocator)
    ensures UpsertAll(x, [], pick) == x
  {
  }

  lemma NothingToRebuild(listing: seq<Episode>)
    ensures RebuildJobs(listing[..0]) == []
  {
  }

  lemma StartOfListing(x: Index, listing: seq<Episode>, pick: Allocator)
    ensures Pending(listing[..0], x.state) == [] && UpsertAll(x, [], pick) == x && New([], x.state) == 0 && Ids(listing[..0]) == {}
  {
  }

  lemma StartOfPage(page: seq<Episode>, known: map<Id, Entry>)
    ensures Pending(page[..0], known) == [] && New([], known) == 0 && Ids(page[..0]) == {}
  {
  }

  lemma SeenTurn(listing: seq<Episode>, n: nat)
    requires n < |listing|
    ensures Ids(listing[..n + 1]) == Ids(listing[..n]) + {listing[n].id}
  {
    assert listing[..n + 1] == listing[..n] + [listing[n]];
  }

  lemma RebuildTurn(page: seq<Episode>, i: nat)
    requires i < |page|
    ensures RebuildJobs(page[..i + 1]) == RebuildJobs(page[..i]) + [RebuildJob(page[i])]
  {
    hide RebuildJob;
    assert page[..i + 1] == page[..i] + [page[i]];
    RebuildJobsAppend(page[..i], [page[i]]);
    assert RebuildJobs([page[i]][1..]) == [];
  }

  /** Taking in one more page. */
  lemma PageDone(x: Index, listing: seq<Episode>, skip: nat, page: seq<Episode>, known: map<Id, Entry>, pick: Allocator)
    requires skip + |page| <= |listing| && page == listing[skip..skip + |page|]
    ensures var before, after := Pending(listing[..skip], known), Pending(listing[..skip + |page|], known);
      && UpsertAll(x, after, pick) == UpsertAll(UpsertAll(x, before, pick), Pending(page, known), pick)
      && New(after, known) == New(before, known) + New(Pending(page, known), known)
      && |after| == |before| + |Pending(page, known)|
    ensures Ids(listing[..skip + |page|]) == Ids(listing[..skip]) + Ids(page)
  {
    hide Pending, UpsertAll, New;
    assert listing[..skip + |page|] == listing[..skip] + page;
    PendingAppends(listing[..skip], page, known);
    UpsertAllAppends(x, Pending(listing[..skip], known), Pending(page, known), pick);
    NewAppends(Pending(listing[..skip], known), Pending(page, known), known);
  }

  lemma PageIsSlice(listing: seq<Episode>, skip: nat)
    requires skip <= |listing|
    ensures var page := Page(listing, skip);
      && skip + |page| <= |listing| && page == listing[skip..skip + |page|]
      && (|page| < BATCH ==> skip + |page| == |listing|)
  {
  }

  lemma SyncedIs(x: Index, listing: seq<Episode>, pick: Allocator)
    ensures Synced(x, listing, pick) == Without(UpsertAll(x, Pending(listing, x.state), pick), x.state.Keys - Ids(listing))
  {
  }
}
