/**
 The revisioned document store of `db/memory.py` as atomic steps. A revision is drawn from one counter that only
 grows, which stands for the random part the store puts in every `_rev`.
 */
module DocStore {
  import opened Wrappers

  datatype Stored<+B> = Stored(rev: nat, body: B)
  datatype Db<+B> = Db(docs: map<string, Stored<B>>, nextRev: nat)

  datatype Reply = Done | Conflict

  /** Every revision in use was drawn from the counter. */
  ghost predicate Valid<B>(db: Db<B>) {
    forall id :: id in db.docs ==> db.docs[id].rev < db.nextRev
  }

  /** One atomic operation of the store, as some other process may issue it. */
  datatype Op<+B> =
    | PutOp(id: string, expected: Option<nat>, body: B)
    | CreateOp(id: string, body: B)
    | DeleteOp(id: string, rev: nat)
    | AttachOp(id: string)

  function Put<B>(db: Db<B>, id: string, rev: Option<nat>, body: B): (Db<B>, Reply) {
    var known := if id in db.docs then Some(db.docs[id].rev) else None;
    if known != rev then (db, Conflict)
    else (Db(db.docs[id := Stored(db.nextRev, body)], db.nextRev + 1), Done)
  }

  function Create<B>(db: Db<B>, id: string, body: B): (Db<B>, bool) {
    if id in db.docs then (db, false) else (Put(db, id, None, body).0, true)
  }

  /** Deleting a document that is not there succeeds and changes nothing. */
  function Delete<B>(db: Db<B>, id: string, rev: nat): (Db<B>, Reply) {
    if id !in db.docs then (db, Done)
    else if db.docs[id].rev != rev then (db, Conflict)
    else (db.(docs := db.docs - {id}), Done)
  }

  /** Storing or dropping an attachment moves the revision and keeps the body. */
  function Attach<B>(db: Db<B>, id: string): Db<B> {
    if id !in db.docs then db
    else Db(db.docs[id := Stored(db.nextRev, db.docs[id].body)], db.nextRev + 1)
  }

  function Apply<B>(db: Db<B>, op: Op<B>): Db<B> {
    match op
    case PutOp(id, rev, body) => Put(db, id, rev, body).0
    case CreateOp(id, body) => Create(db, id, body).0
    case DeleteOp(id, rev) => Delete(db, id, rev).0
    case AttachOp(id) => Attach(db, id)
  }

  function ApplyAll<B>(db: Db<B>, ops: seq<Op<B>>): Db<B>
    decreases |ops|
  {
    if ops == [] then db else ApplyAll(Apply(db, ops[0]), ops[1..])
  }

  lemma {:induction false} ApplyAllExtends<B>(db: Db<B>, ops: seq<Op<B>>, op: Op<B>)
    ensures ApplyAll(db, ops + [op]) == Apply(ApplyAll(db, ops), op)
    decreases |ops|
  {
    if ops == [] {
      assert ApplyAll(db, [op]) == ApplyAll(Apply(db, op), []);
      assert [] + [op] == [op];
    } else {
      assert (ops + [op])[1..] == ops[1..] + [op];
      ApplyAllExtends(Apply(db, ops[0]), ops[1..], op);
    }
  }

  /** The store stays valid, and its counter never goes back. */
  lemma {:induction false} ApplyAllValid<B>(db: Db<B>, ops: seq<Op<B>>)
    requires Valid(db)
    ensures Valid(ApplyAll(db, ops))
    ensures ApplyAll(db, ops).nextRev >= db.nextRev
    decreases |ops|
  {
    if ops != [] {
      ApplyAllValid(Apply(db, ops[0]), ops[1..]);
    }
  }

  /**
   A revision that is gone never returns: once `id` is absent, or carries a revision
   other than `rev`, no history of operations brings `rev` back.
   */
  lemma {:induction false} RevisionNeverReturns<B>(db: Db<B>, ops: seq<Op<B>>, id: string, rev: nat)
    requires Valid(db) && rev < db.nextRev
    requires id in db.docs ==> db.docs[id].rev != rev
    ensures id in ApplyAll(db, ops).docs ==> ApplyAll(db, ops).docs[id].rev != rev
    decreases |ops|
  {
    if ops != [] {
      RevisionNeverReturns(Apply(db, ops[0]), ops[1..], id, rev);
    }
  }

  /**
   What makes compare-and-swap sound: seeing the same revision at both ends of an
   arbitrary history means nobody wrote the document, not even to write it back.
   */
  lemma {:induction false} SameRevisionMeansUntouched<B>(db: Db<B>, ops: seq<Op<B>>, id: string)
    requires Valid(db) && id in db.docs
    requires id in ApplyAll(db, ops).docs && ApplyAll(db, ops).docs[id].rev == db.docs[id].rev
    ensures forall k :: 0 <= k <= |ops| ==>
              id in ApplyAll(db, ops[..k]).docs && ApplyAll(db, ops[..k]).docs[id] == db.docs[id]
    decreases |ops|
  {
    if ops != [] {
      var next := Apply(db, ops[0]);
      if id !in next.docs || next.docs[id].rev != db.docs[id].rev {
        RevisionNeverReturns(next, ops[1..], id, db.docs[id].rev);
        assert false;
      }
      SameRevisionMeansUntouched(next, ops[1..], id);
      forall k | 0 <= k <= |ops|
        ensures id in ApplyAll(db, ops[..k]).docs && ApplyAll(db, ops[..k]).docs[id] == db.docs[id]
      {
        if k > 0 {
          assert ops[..k][1..] == ops[1..][..k - 1];
        }
      }
    }
  }

  /**
   What another process's operation does: a put or a delete takes effect exactly at the
   revision it names, a creation exactly where nothing is, and everything that writes moves
   the revision on. No other document is touched.
   */
  lemma OperationsCheck<B>(db: Db<B>, op: Op<B>)
    requires Valid(db)
    ensures var db' := Apply(db, op);
      && db'.docs - {op.id} == db.docs - {op.id}
      && match op
         case PutOp(id, rev, body) =>
           if rev == (if id in db.docs then Some(db.docs[id].rev) else None)
           then id in db'.docs && db'.docs[id].body == body && db'.docs[id].rev == db.nextRev < db'.nextRev
           else db' == db
         case CreateOp(id, body) =>
           if id !in db.docs then id in db'.docs && db'.docs[id].body == body && db'.docs[id].rev == db.nextRev < db'.nextRev
           else db' == db
         case DeleteOp(id, rev) =>
           if id in db.docs && db.docs[id].rev == rev then id !in db'.docs else db' == db
         case AttachOp(id) =>
           if id in db.docs then id in db'.docs && db'.docs[id].body == db.docs[id].body && db'.docs[id].rev == db.nextRev < db'.nextRev
           else db' == db
  {
  }
}
