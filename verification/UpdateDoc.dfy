/**
 `update_doc` of `db/base.py`: read, mutate, compare-and-swap, and start over when
 somebody else got there first. A mutator that raises is one that returns `None`.
 */
module UpdateDoc {
  import opened Wrappers
  import opened DocStore
  import opened MemoryStore

  datatype Outcome = Updated | NotFound | Raised | StillConflicting

  // ---------------------------------------------------------------- one call

  /**
   One call, with `others[k]` being all that happened in the store between the read
   and the write of attempt `k`; there are `|others|` attempts.
   */
  function UpdateRun<B>(db: Db<B>, id: string, mutator: B -> Option<B>, others: seq<seq<Op<B>>>): (Db<B>, Outcome)
    decreases |others|
  {
    if others == [] then (db, StillConflicting)
    else if id !in db.docs then (db, NotFound)
    else
      match mutator(db.docs[id].body)
      case None => (db, Raised)
      case Some(candidate) =>
        var meanwhile := ApplyAll(db, others[0]);
        var (after, reply) := Put(meanwhile, id, Some(db.docs[id].rev), candidate);
        if reply == Done then (after, Updated)
        else UpdateRun(meanwhile, id, mutator, others[1..])
  }

  function Flatten<T>(parts: seq<seq<T>>): seq<T> {
    if parts == [] then [] else parts[0] + Flatten(parts[1..])
  }

  lemma {:induction false} ApplyAllSplits<B>(db: Db<B>, first: seq<Op<B>>, second: seq<Op<B>>)
    ensures ApplyAll(db, first + second) == ApplyAll(ApplyAll(db, first), second)
    decreases |first|
  {
    if first == [] {
      assert first + second == second;
    } else {
      assert (first + second)[1..] == first[1..] + second;
      ApplyAllSplits(Apply(db, first[0]), first[1..], second);
    }
  }

  /**
   No update is lost and none is invented. A call that reports success replaced the
   very document its mutator was applied to, although any number of writers ran in
   between; a call that reports anything else left only other writers' effects.
   */
  lemma {:induction false} OneWriteOrNone<B>(db: Db<B>, id: string, mutator: B -> Option<B>, others: seq<seq<Op<B>>>)
      returns (rounds: nat)
    requires Valid(db)
    ensures rounds <= |others|
    ensures
      var (after, outcome) := UpdateRun(db, id, mutator, others);
      var before := ApplyAll(db, Flatten(others[..rounds]));
      if outcome.Updated? then
        && id in before.docs
        && mutator(before.docs[id].body).Some?
        && after == Db(before.docs[id := Stored(before.nextRev, mutator(before.docs[id].body).value)], before.nextRev + 1)
      else
        after == before
    decreases |others|
  {
    if others == [] || id !in db.docs || mutator(db.docs[id].body).None? {
      assert others[..0] == [];
      return 0;
    }
    var meanwhile := ApplyAll(db, others[0]);
    ApplyAllValid(db, others[0]);
    assert Flatten(others[..1]) == others[0] + Flatten(others[..1][1..]) == others[0];
    if Put(meanwhile, id, Some(db.docs[id].rev), mutator(db.docs[id].body).value).1 == Done {
      SameRevisionMeansUntouched(db, others[0], id);
      assert others[0][..|others[0]|] == others[0];
      rounds := 1;
    } else {
      var later := OneWriteOrNone(meanwhile, id, mutator, others[1..]);
      rounds := later + 1;
      assert others[..rounds][1..] == others[1..][..later];
      assert Flatten(others[..rounds]) == others[0] + Flatten(others[1..][..later]);
      ApplyAllSplits(db, others[0], Flatten(others[1..][..later]));
    }
  }

  /** The store as attempt `k` reads it, when every attempt before it lost. */
  function AtRead<B>(db: Db<B>, others: seq<seq<Op<B>>>, k: nat): Db<B>
    requires k <= |others|
  {
    if k == 0 then db else ApplyAll(AtRead(db, others, k - 1), others[k - 1])
  }

  /** Attempt `k` reads the document, its mutator is content, and somebody writes or deletes it before the put. */
  predicate Beaten<B>(db: Db<B>, id: string, mutator: B -> Option<B>, others: seq<seq<Op<B>>>, k: nat)
    requires k < |others|
  {
    var read, write := AtRead(db, others, k), AtRead(db, others, k + 1);
    && id in read.docs && mutator(read.docs[id].body).Some?
    && !(id in write.docs && write.docs[id].rev == read.docs[id].rev)
  }

  lemma {:induction false} AtReadLater<B>(db: Db<B>, others: seq<seq<Op<B>>>, k: nat)
    requires k < |others|
    ensures AtRead(db, others, k + 1) == AtRead(ApplyAll(db, others[0]), others[1..], k)
  {
    if k > 0 { AtReadLater(db, others, k - 1); }
  }

  lemma BeatenLater<B>(db: Db<B>, id: string, mutator: B -> Option<B>, others: seq<seq<Op<B>>>, k: nat)
    requires k + 1 < |others|
    ensures Beaten(db, id, mutator, others, k + 1) == Beaten(ApplyAll(db, others[0]), id, mutator, others[1..], k)
  {
    AtReadLater(db, others, k);
    AtReadLater(db, others, k + 1);
  }

  /**
   The call retries, and the first attempt that is not beaten decides: the document is
   gone, the mutator raises, or the write goes through.
   */
  lemma {:induction false} FirstUnbeatenDecides<B>(db: Db<B>, id: string, mutator: B -> Option<B>, others: seq<seq<Op<B>>>, k: nat)
    requires k < |others| && !Beaten(db, id, mutator, others, k)
    requires forall j :: 0 <= j < k ==> Beaten(db, id, mutator, others, j)
    ensures var (after, outcome) := UpdateRun(db, id, mutator, others);
      var read, write := AtRead(db, others, k), AtRead(db, others, k + 1);
      if id !in read.docs then after == read && outcome == NotFound
      else if mutator(read.docs[id].body).None? then after == read && outcome == Raised
      else
        && outcome == Updated
        && after == Db(write.docs[id := Stored(write.nextRev, mutator(read.docs[id].body).value)], write.nextRev + 1)
    decreases k
  {
    assert AtRead(db, others, 1) == ApplyAll(AtRead(db, others, 0), others[0]);
    if k > 0 {
      assert Beaten(db, id, mutator, others, 0);
      BeatenLater(db, id, mutator, others, k - 1);
      AtReadLater(db, others, k - 1);
      AtReadLater(db, others, k);
      forall j | 0 <= j < k - 1 ensures Beaten(ApplyAll(db, others[0]), id, mutator, others[1..], j) {
        BeatenLater(db, id, mutator, others, j);
      }
      hide Beaten, ApplyAll;
      FirstUnbeatenDecides(ApplyAll(db, others[0]), id, mutator, others[1..], k - 1);
    }
  }

  lemma {:induction false} AlwaysBeatenGivesUp<B>(db: Db<B>, id: string, mutator: B -> Option<B>, others: seq<seq<Op<B>>>)
    requires forall k :: 0 <= k < |others| ==> Beaten(db, id, mutator, others, k)
    ensures UpdateRun(db, id, mutator, others) == (AtRead(db, others, |others|), StillConflicting)
    decreases |others|
  {
    if others != [] {
      assert AtRead(db, others, 1) == ApplyAll(AtRead(db, others, 0), others[0]);
      assert Beaten(db, id, mutator, others, 0);
      forall k | 0 <= k < |others| - 1 ensures Beaten(ApplyAll(db, others[0]), id, mutator, others[1..], k) {
        BeatenLater(db, id, mutator, others, k);
      }
      AtReadLater(db, others, |others| - 1);
      hide Beaten, ApplyAll;
      AlwaysBeatenGivesUp(ApplyAll(db, others[0]), id, mutator, others[1..]);
    }
  }

  lemma FirstUnbeaten<B>(db: Db<B>, id: string, mutator: B -> Option<B>, others: seq<seq<Op<B>>>, some: nat) returns (k: nat)
    requires some < |others| && !Beaten(db, id, mutator, others, some)
    ensures k <= some && !Beaten(db, id, mutator, others, k)
    ensures forall j :: 0 <= j < k ==> Beaten(db, id, mutator, others, j)
  {
    hide Beaten;
    k := 0;
    while Beaten(db, id, mutator, others, k)
      invariant k <= some && forall j :: 0 <= j < k ==> Beaten(db, id, mutator, others, j)
      decreases some - k
    {
      k := k + 1;
    }
  }

  /** It gives up if and only if every one of its attempts is beaten. */
  lemma GivesUpIffAlwaysBeaten<B>(db: Db<B>, id: string, mutator: B -> Option<B>, others: seq<seq<Op<B>>>)
    ensures UpdateRun(db, id, mutator, others).1 == StillConflicting <==>
            forall k :: 0 <= k < |others| ==> Beaten(db, id, mutator, others, k)
  {
    hide Beaten, UpdateRun;
    if some :| 0 <= some < |others| && !Beaten(db, id, mutator, others, some) {
      var k := FirstUnbeaten(db, id, mutator, others, some);
      FirstUnbeatenDecides(db, id, mutator, others, k);
    } else {
      AlwaysBeatenGivesUp(db, id, mutator, others);
    }
  }

  /** So a document that stays, under a mutator that never raises, is updated as soon as one attempt is left alone. */
  lemma OneQuietAttemptIsEnough<B>(db: Db<B>, id: string, mutator: B -> Option<B>, others: seq<seq<Op<B>>>, quiet: nat)
    requires forall k :: 0 <= k < |others| ==>
               id in AtRead(db, others, k).docs && mutator(AtRead(db, others, k).docs[id].body).Some?
    requires quiet < |others| && id in AtRead(db, others, quiet + 1).docs
    requires AtRead(db, others, quiet + 1).docs[id].rev == AtRead(db, others, quiet).docs[id].rev
    ensures UpdateRun(db, id, mutator, others).1 == Updated
  {
    var k := FirstUnbeaten(db, id, mutator, others, quiet);
    FirstUnbeatenDecides(db, id, mutator, others, k);
  }

  method Update<B>(store: MemoryStore<B>, id: string, mutator: B -> Option<B>, maxRetries: nat,
                   others: seq<seq<Op<B>>>)
      returns (outcome: Outcome)
    requires |others| == maxRetries
    modifies store
    ensures (store.State(), outcome) == UpdateRun(old(store.State()), id, mutator, others)
  {
    var attempt := 0;
    while attempt < maxRetries
      invariant 0 <= attempt <= maxRetries
      invariant UpdateRun(old(store.State()), id, mutator, others) ==
                UpdateRun(store.State(), id, mutator, others[attempt..])
    {
      var doc := store.Get(id);
      if doc.None? {
        return NotFound;
      }
      var candidate := mutator(doc.value.body);
      if candidate.None? {
        return Raised;
      }
      store.Interleave(others[attempt]);
      var reply := store.Put(id, Some(doc.value.rev), candidate.value);
      if reply == Done {
        return Updated;
      }
      assert others[attempt..][1..] == others[attempt + 1..];
      attempt := attempt + 1;
    }
    outcome := StillConflicting;
  }

  // ------------------------------------------------------- any number of calls

  /** Where one of many concurrent calls stands. `start` counts the writes before its first read. */
  datatype Call<+B> =
    | Ready(left: nat, start: nat)
    | Holding(seen: Stored<B>, left: nat, start: nat)
    | Committed
    | Failed(why: Outcome, start: nat)

  /** `log` names the calls that committed, in commit order; `writes` counts every write to the document. */
  datatype World<+B> = World(db: Db<B>, calls: seq<Call<B>>, log: seq<nat>, writes: nat)

  datatype Step<+B> =
    | Read(call: nat)
    | Write(call: nat)
    | AttachmentMoved
    | Elsewhere(op: Op<B>)

  function Next<B>(w: World<B>, id: string, fs: seq<B -> Option<B>>, max: nat, step: Step<B>): World<B>
    requires |fs| == |w.calls|
  {
    match step
    case Read(i) =>
      if i >= |w.calls| || !w.calls[i].Ready? then w
      else
        var Ready(left, start) := w.calls[i];
        var start' := if left == max then w.writes else start;
        w.(calls := w.calls[i :=
          if left == 0 then Failed(StillConflicting, start)
          else if id !in w.db.docs then Failed(NotFound, start')
          else if fs[i](w.db.docs[id].body).None? then Failed(Raised, start')
          else Holding(w.db.docs[id], left, start')])
    case Write(i) =>
      if i >= |w.calls| || !w.calls[i].Holding? then w
      else
        var Holding(seen, left, start) := w.calls[i];
        var candidate := fs[i](seen.body);
        if candidate.None? || left == 0 then w
        else
          var (db, reply) := Put(w.db, id, Some(seen.rev), candidate.value);
          if reply == Done then World(db, w.calls[i := Committed], w.log + [i], w.writes + 1)
          else w.(calls := w.calls[i := Ready(left - 1, start)])
    case AttachmentMoved => w.(db := Attach(w.db, id), writes := w.writes + 1)
    case Elsewhere(op) => if op.id == id then w else w.(db := Apply(w.db, op))
  }

  function Run<B>(w: World<B>, id: string, fs: seq<B -> Option<B>>, max: nat, steps: seq<Step<B>>): (r: World<B>)
    requires |fs| == |w.calls|
    ensures |r.calls| == |w.calls|
  {
    if steps == [] then w
    else Next(Run(w, id, fs, max, steps[..|steps| - 1]), id, fs, max, steps[|steps| - 1])
  }

  function Start<B>(db: Db<B>, calls: nat, max: nat): World<B> {
    World(db, seq(calls, _ => Ready(max, 0)), [], 0)
  }

  /** One call reading and writing with nobody in between: it commits unless the document is gone or its mutator raises. */
  lemma CallAloneCommits<B>(w: World<B>, id: string, fs: seq<B -> Option<B>>, max: nat, i: nat, op: Op<B>)
    requires |fs| == |w.calls| && i < |w.calls| && w.calls[i].Ready? && w.calls[i].left > 0 && op.id != id
    ensures var after := Run(w, id, fs, max, [Read(i), Elsewhere(op), Write(i)]);
      if id !in w.db.docs then after.calls[i].Failed? && after.calls[i].why == NotFound && after.log == w.log
      else if fs[i](w.db.docs[id].body).None? then after.calls[i].Failed? && after.calls[i].why == Raised && after.log == w.log
      else
        && after.calls[i] == Committed && after.log == w.log + [i]
        && id in after.db.docs && Some(after.db.docs[id].body) == fs[i](w.db.docs[id].body)
        && after.db.docs - {id} == Apply(w.db, op).docs - {id}
  {
    RunThree(w, id, fs, max, Read(i), Elsewhere(op), Write(i));
  }

  lemma RunThree<B>(w: World<B>, id: string, fs: seq<B -> Option<B>>, max: nat, a: Step<B>, b: Step<B>, c: Step<B>)
    requires |fs| == |w.calls|
    ensures Run(w, id, fs, max, [a, b, c]) == Next(Next(Next(w, id, fs, max, a), id, fs, max, b), id, fs, max, c)
  {
    assert [a, b, c][..2] == [a, b] && [a, b][..1] == [a] && [a][..0] == [];
    assert Run(w, id, fs, max, [a]) == Next(Run(w, id, fs, max, []), id, fs, max, a);
  }

  /** Beaten by anything that moves the revision, even an attachment, a call starts over with one attempt less; out of attempts it gives up. */
  lemma BeatenCallStartsOver<B>(w: World<B>, id: string, fs: seq<B -> Option<B>>, max: nat, i: nat)
    requires Valid(w.db) && |fs| == |w.calls| && i < |w.calls| && w.calls[i].Ready? && w.calls[i].left > 0
    requires id in w.db.docs && fs[i](w.db.docs[id].body).Some?
    ensures var after := Run(w, id, fs, max, [Read(i), AttachmentMoved, Write(i)]);
      && after.calls[i].Ready? && after.calls[i].left == w.calls[i].left - 1 && after.log == w.log
      && after.calls[i].start == (if w.calls[i].left == max then w.writes else w.calls[i].start)
      && after.writes == w.writes + 1 && id in after.db.docs && after.db.docs[id].body == w.db.docs[id].body
      && (after.calls[i].left == 0 ==>
            Next(after, id, fs, max, Read(i)).calls[i].Failed? && Next(after, id, fs, max, Read(i)).calls[i].why == StillConflicting)
  {
    RunThree(w, id, fs, max, Read(i), AttachmentMoved, Write(i));
  }

  /** The mutators named by `log`, applied one after the other; `None` if one of them raises. */
  function Fold<B>(init: B, fs: seq<B -> Option<B>>, log: seq<nat>): Option<B> {
    if log == [] then Some(init)
    else
      var last := log[|log| - 1];
      match Fold(init, fs, log[..|log| - 1])
      case None => None
      case Some(body) => if last < |fs| then fs[last](body) else None
  }

  ghost predicate CallOk<B>(w: World<B>, id: string, fs: seq<B -> Option<B>>, max: nat, i: nat)
    requires i < |w.calls| == |fs| && id in w.db.docs
  {
    match w.calls[i]
    case Ready(left, start) => left <= max && start + (max - left) <= w.writes
    case Holding(seen, left, start) =>
      && 0 < left <= max
      && seen.rev < w.db.nextRev
      && fs[i](seen.body).Some?
      && (seen.rev == w.db.docs[id].rev ==> seen == w.db.docs[id])
      && start + (max - left) + (if seen.rev == w.db.docs[id].rev then 0 else 1) <= w.writes
    case Committed => true
    case Failed(why, start) => why.StillConflicting? ==> start + max <= w.writes
  }

  ghost predicate Serial<B>(w: World<B>, id: string, fs: seq<B -> Option<B>>, max: nat, init: B) {
    && |w.calls| == |fs|
    && Valid(w.db)
    && id in w.db.docs
    && Fold(init, fs, w.log) == Some(w.db.docs[id].body)
    && (forall i: nat :: i in w.log <==> i < |w.calls| && w.calls[i].Committed?)
    && (forall i, j :: 0 <= i < j < |w.log| ==> w.log[i] != w.log[j])
    && (forall i: nat :: i < |w.calls| ==> CallOk(w, id, fs, max, i))
  }

  lemma StepKeepsCallOk<B>(w: World<B>, id: string, fs: seq<B -> Option<B>>, max: nat, step: Step<B>, i: nat)
    requires |w.calls| == |fs| && Valid(w.db) && id in w.db.docs && i < |fs|
    requires CallOk(w, id, fs, max, i)
    ensures var w' := Next(w, id, fs, max, step);
      id in w'.db.docs && |w'.calls| == |fs| && CallOk(w', id, fs, max, i)
  {
  }

  lemma StepKeepsSerial<B>(w: World<B>, id: string, fs: seq<B -> Option<B>>, max: nat, init: B, step: Step<B>)
    requires Serial(w, id, fs, max, init)
    ensures Serial(Next(w, id, fs, max, step), id, fs, max, init)
  {
    var w' := Next(w, id, fs, max, step);
    if step.Write? && w'.log != w.log {
      assert w'.log[..|w'.log| - 1] == w.log;
      assert CallOk(w, id, fs, max, step.call);
      assert Fold(init, fs, w'.log) == fs[step.call](w.db.docs[id].body);
    }
    forall i: nat | i < |w'.calls| ensures CallOk(w', id, fs, max, i) {
      StepKeepsCallOk(w, id, fs, max, step, i);
    }
  }

  /**
   Any number of concurrent calls on one document, in any interleaving, with
   attachments moving and other documents changing meanwhile: the document is always
   the fold, in commit order, of the mutators of exactly the calls that committed,
   each once. A call gives up as conflicting only after at least `max` writes by others.
   */
  lemma {:induction false} ConcurrentCallsSerialise<B>(db: Db<B>, id: string, fs: seq<B -> Option<B>>, max: nat, steps: seq<Step<B>>)
    requires Valid(db) && id in db.docs
    ensures
      var w := Run(Start(db, |fs|, max), id, fs, max, steps);
      Serial(w, id, fs, max, db.docs[id].body)
    decreases |steps|
  {
    if steps != [] {
      ConcurrentCallsSerialise(db, id, fs, max, steps[..|steps| - 1]);
      StepKeepsSerial(Run(Start(db, |fs|, max), id, fs, max, steps[..|steps| - 1]), id, fs, max,
                      db.docs[id].body, steps[|steps| - 1]);
    }
  }

  /** The bodies the document has held, oldest first, as the log of commits tells them. */
  function History<B>(init: B, fs: seq<B -> Option<B>>, log: seq<nat>): (r: seq<B>)
    requires Fold(init, fs, log).Some?
    ensures |r| == |log| + 1 && r[|log|] == Fold(init, fs, log).value
  {
    if log == [] then [init]
    else History(init, fs, log[..|log| - 1]) + [Fold(init, fs, log).value]
  }

  ghost predicate Chained<B>(bodies: seq<B>, R: (B, B) -> bool) {
    forall k: nat | k + 1 < |bodies| :: R(bodies[k], bodies[k + 1])
  }

  /**
   A check made inside the mutator holds of the document itself: whatever relation every
   mutator keeps between the body it is given and the body it returns, every two
   consecutive committed bodies are so related.
   */
  lemma {:induction false} CheckedMutatorsCheckHistory<B>(init: B, fs: seq<B -> Option<B>>, log: seq<nat>, R: (B, B) -> bool)
    requires Fold(init, fs, log).Some?
    requires forall i: nat, b: B | i < |fs| && fs[i](b).Some? :: R(b, fs[i](b).value)
    ensures Chained(History(init, fs, log), R)
    decreases |log|
  {
    if log != [] {
      var n := |log| - 1;
      CheckedMutatorsCheckHistory(init, fs, log[..n], R);
      var earlier, h := History(init, fs, log[..n]), History(init, fs, log);
      forall k: nat | k + 1 < |h| ensures R(h[k], h[k + 1]) {
        if k == n {
          assert fs[log[n]](earlier[n]).Some?;
        } else {
          assert h[k] == earlier[k] && h[k + 1] == earlier[k + 1];
        }
      }
    }
  }
}
