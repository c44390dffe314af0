/**
 `JobLease` as the object the runner uses. Each method takes the clock reading it acts
 on and `others`, everything other processes did to the store while it was waiting.
 */
module JobLeases {
  import opened Wrappers
  import opened DocStore
  import opened MemoryStore
  import opened Lease

  class JobLease {
    const store: MemoryStore<Lock>
    const job: string
    const ttl: nat
    const owner: Owner
    const at: Machine
    var held: bool

    constructor (store: MemoryStore<Lock>, job: string, ttl: nat, owner: Owner, at: Machine)
      ensures this.store == store && this.job == job && this.ttl == ttl && this.owner == owner && this.at == at
      ensures !held
    {
      this.store, this.job, this.ttl, this.owner, this.at := store, job, ttl, owner, at;
      held := false;
    }

    function Mine(now: int): Lock {
      Lock(owner, at, Some(now + ttl))
    }

    /** The store with our lock, good for one time to live from now, over whatever `before` holds under the job's name. */
    ghost function Written(before: Db<Lock>, now: int): Db<Lock> {
      Db(before.docs[job := Stored(before.nextRev, Lock(owner, at, Some(now + ttl)))], before.nextRev + 1)
    }

    /**
     Success means nobody held the lease at the moment of the write, whatever ran in
     between: the lock was still absent, or was still the expired document first read.
     Undisturbed, it succeeds exactly when the lease is free.
     */
    method Acquire(now: int, others: seq<Op<Lock>>) returns (acquired: bool)
      requires Valid(store.State())
      modifies this`held, store
      ensures acquired ==> held
      ensures var was := old(store.State()); var before := ApplyAll(was, others);
        if acquired then
          && store.State() == Written(before, now)
          && (if job in was.docs
              then (was.docs[job].body.expires.None? || was.docs[job].body.expires.value <= now)
                   && job in before.docs && before.docs[job] == was.docs[job]
              else job !in before.docs)
        else if job in was.docs && was.docs[job].body.expires.Some? && was.docs[job].body.expires.value > now then store.State() == was && held == old(held)
        else store.State() == before
      ensures others == [] ==>
                (acquired <==> (job in old(store.docs) ==>
                   old(store.docs)[job].body.expires.None? || old(store.docs)[job].body.expires.value <= now))
    {
      var existing := store.Get(job);
      if existing.None? {
        store.Interleave(others);
        held := store.Create(job, Mine(now));
        return held;
      }
      if Readable(existing.value.body, now) {
        return false;
      }
      ghost var was := store.State();
      store.Interleave(others);
      var reply := store.Put(job, Some(existing.value.rev), Mine(now));
      if reply == Conflict {
        return false;
      }
      SameRevisionMeansUntouched(was, others, job);
      assert others[..|others|] == others;
      held := true;
      acquired := true;
    }

    /** Extends our own lock and nothing else; refused once the document is not ours. */
    method Renew(now: int, others: seq<Op<Lock>>) returns (ours: bool)
      requires Valid(store.State())
      modifies store
      ensures var was := old(store.State()); var before := ApplyAll(was, others);
        if ours then
          && job in was.docs && was.docs[job].body.owner == owner
          && job in before.docs && before.docs[job] == was.docs[job]
          && store.State() == Written(before, now)
        else
          store.State() == (if job in was.docs && was.docs[job].body.owner == owner then before else was)
      ensures others == [] ==> (ours <==> job in old(store.docs) && old(store.docs)[job].body.owner == owner)
    {
      var existing := store.Get(job);
      if existing.None? || existing.value.body.owner != owner {
        return false;
      }
      ghost var was := store.State();
      store.Interleave(others);
      var reply := store.Put(job, Some(existing.value.rev), Mine(now));
      if reply == Conflict {
        return false;
      }
      SameRevisionMeansUntouched(was, others, job);
      assert others[..|others|] == others;
      ours := true;
    }

    /**
     Drops the `held` flag, and removes the lock only if it is still the one this run
     wrote. A successor's lock stays, and a run that holds nothing touches nothing.
     */
    method Release(others: seq<Op<Lock>>)
      requires Valid(store.State())
      modifies this`held, store
      ensures !held
      ensures !old(held) ==> store.State() == old(store.State())
      ensures old(held) ==>
        var was := old(store.State()); var before := ApplyAll(was, others);
        if job !in was.docs || was.docs[job].body.owner != owner then store.State() == was
        else if job in before.docs && before.docs[job] == was.docs[job] then
          store.State() == before.(docs := before.docs - {job})
        else store.State() == before
    {
      if !held {
        return;
      }
      held := false;
      var existing := store.Get(job);
      if existing.None? || existing.value.body.owner != owner {
        return;
      }
      ghost var was := store.State();
      store.Interleave(others);
      if job in store.docs && store.docs[job].rev == existing.value.rev {
        SameRevisionMeansUntouched(was, others, job);
        assert others[..|others|] == others;
      }
      var _ := store.Delete(job, existing.value.rev);
    }
  }

  /** At startup, with `found` the lock documents of a query: drops those of dead processes on this host. */
  method ReclaimLocalLeases(store: MemoryStore<Lock>, found: seq<string>, host: string, alive: set<Machine>)
      returns (reclaimed: nat)
    requires forall i :: 0 <= i < |found| ==> found[i] in store.docs
    requires forall i, j :: 0 <= i < j < |found| ==> found[i] != found[j]
    modifies store
    ensures store.docs ==
            map job | job in old(store.docs)
                && !(job in found && old(store.docs)[job].body.at.host == host && old(store.docs)[job].body.at !in alive)
              :: old(store.docs)[job]
    ensures reclaimed == |old(store.docs)| - |store.docs|
  {
    reclaimed := 0;
    for i := 0 to |found|
      invariant store.docs ==
                map job | job in old(store.docs)
                    && !(job in found[..i] && old(store.docs)[job].body.at.host == host && old(store.docs)[job].body.at !in alive)
                  :: old(store.docs)[job]
      invariant reclaimed == |old(store.docs)| - |store.docs|
    {
      assert found[..i + 1] == found[..i] + [found[i]];
      assert found[i] in store.docs;
      var doc := store.docs[found[i]];
      if doc.body.at.host == host && doc.body.at !in alive {
        ghost var kept := store.docs;
        var reply := store.Delete(found[i], doc.rev);
        assert kept.Keys == store.docs.Keys + {found[i]};
        reclaimed := reclaimed + 1;
      }
    }
    assert found[..|found|] == found;
  }
}
