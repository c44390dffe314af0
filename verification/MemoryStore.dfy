/** The in-memory store of `db/memory.py`, proved against the steps of `DocStore`. */
module MemoryStore {
  import opened Wrappers
  import opened DocStore

  /** The dictionary-backed store. `nextRev` plays the part of `uuid4`. */
  class MemoryStore<B> {
    var docs: map<string, Stored<B>>
    var nextRev: nat

    ghost function State(): Db<B>
      reads this
    {
      Db(docs, nextRev)
    }

    constructor ()
      ensures State() == Db(map[], 0)
    {
      docs, nextRev := map[], 0;
    }

    method Get(id: string) returns (doc: Option<Stored<B>>)
      ensures doc == if id in docs then Some(docs[id]) else None
    {
      doc := if id in docs then Some(docs[id]) else None;
    }

    method Put(id: string, rev: Option<nat>, body: B) returns (reply: Reply)
      modifies this
      ensures (State(), reply) == DocStore.Put(old(State()), id, rev, body)
      ensures reply == Done <==> rev == if id in old(docs) then Some(old(docs)[id].rev) else None
      ensures docs == if reply == Done then old(docs)[id := Stored(old(nextRev), body)] else old(docs)
    {
      var existing := Get(id);
      if existing.Some? && rev != Some(existing.value.rev) {
        return Conflict;
      }
      if existing.None? && rev.Some? {
        return Conflict;
      }
      docs := docs[id := Stored(nextRev, body)];
      nextRev := nextRev + 1;
      reply := Done;
    }

    method Create(id: string, body: B) returns (created: bool)
      modifies this
      ensures (State(), created) == DocStore.Create(old(State()), id, body)
      ensures created <==> id !in old(docs)
      ensures docs == if created then old(docs)[id := Stored(old(nextRev), body)] else old(docs)
    {
      if id in docs {
        return false;
      }
      var _ := Put(id, None, body);
      created := true;
    }

    method Delete(id: string, rev: nat) returns (reply: Reply)
      modifies this
      ensures (State(), reply) == DocStore.Delete(old(State()), id, rev)
      ensures reply == Conflict <==> id in old(docs) && old(docs)[id].rev != rev
      ensures docs == if reply == Done then old(docs) - {id} else old(docs)
    {
      if id !in docs {
        return Done;
      }
      if docs[id].rev != rev {
        return Conflict;
      }
      docs := docs - {id};
      reply := Done;
    }

    /** `put_attachment`; false stands for `NotFoundError`. */
    method Attach(id: string) returns (found: bool)
      modifies this
      ensures found == (id in old(docs)) && State() == DocStore.Attach(old(State()), id)
      ensures docs == if found then old(docs)[id := Stored(old(nextRev), old(docs)[id].body)] else old(docs)
    {
      if id !in docs {
        return false;
      }
      docs := docs[id := Stored(nextRev, docs[id].body)];
      nextRev := nextRev + 1;
      found := true;
    }

    /** `delete_attachment`; `present` says whether the document has the attachment. */
    method Detach(id: string, present: bool) returns (found: bool)
      modifies this
      ensures found == (id in old(docs))
      ensures State() == if present then DocStore.Attach(old(State()), id) else old(State())
    {
      if !present {
        return id in docs;
      }
      found := Attach(id);
    }

    /** Everything other processes did while this one was waiting at an `await`. */
    method Interleave(ops: seq<Op<B>>)
      modifies this
      ensures State() == ApplyAll(old(State()), ops)
    {
      for i := 0 to |ops|
        invariant State() == ApplyAll(old(State()), ops[..i])
      {
        match ops[i] {
          case PutOp(id, rev, body) => var _ := Put(id, rev, body);
          case CreateOp(id, body) => var _ := Create(id, body);
          case DeleteOp(id, rev) => var _ := Delete(id, rev);
          case AttachOp(id) => var _ := Attach(id);
        }
        ApplyAllExtends(old(State()), ops[..i], ops[i]);
        assert ops[..i + 1] == ops[..i] + [ops[i]];
      }
      assert ops[..|ops|] == ops;
    }
  }
}
