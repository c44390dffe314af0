/**
 `net.py`: streaming a body into a file, resuming with range requests when the server cuts
 the transfer short. The server is arbitrary: what it does is a function of the attempt
 number and of the offset asked for.
 */
module Download {
  import opened Wrappers

  type Bytes = seq<bv8>

  datatype Ending = Whole | Cut | Broken

  /**
   What one request gets. `NoAnswer`: nothing reached the file, because the request was
   refused or the connection dropped first. `Answer`: a status of 206 if `partial` and 200
   otherwise, a content type that is `accepted` or not, an optional content-length, and
   chunks until the transfer ends one way or another.
   */
  datatype Reply =
    | NoAnswer(dropped: bool)
    | Answer(partial: bool, accepted: bool, declared: Option<nat>, chunks: seq<Bytes>, ending: Ending)

  type Server = (nat, nat) -> Reply

  datatype Outcome = Fetched(count: nat) | CutShort | Rejected | TooLarge | Interrupted

  datatype Transfer = Transfer(file: Option<Bytes>, outcome: Outcome)

  function Content(file: Option<Bytes>): Bytes {
    if file.None? then [] else file.value
  }

  /** The chunk loop of `_stream_into`. */
  function Receive(held: Bytes, total: nat, chunks: seq<Bytes>, ending: Ending, maxBytes: nat): Transfer
    decreases |chunks|
  {
    if chunks == [] then
      Transfer(Some(held), match ending case Whole => Fetched(total) case Cut => CutShort case Broken => Rejected)
    else if total + |chunks[0]| > maxBytes then Transfer(Some(held), TooLarge)
    else Receive(held + chunks[0], total + |chunks[0]|, chunks[1..], ending, maxBytes)
  }

  /** `_stream_into` */
  function Stream(file: Option<Bytes>, offset: nat, reply: Reply, maxBytes: nat): Transfer {
    match reply
    case NoAnswer(dropped) => Transfer(file, if dropped then CutShort else Rejected)
    case Answer(partial, accepted, declared, chunks, ending) =>
      var resuming := offset > 0 && partial;
      var total := if resuming then offset else 0;
      if !accepted then Transfer(file, Rejected)
      else if declared.Some? && total + declared.value > maxBytes then Transfer(file, TooLarge)
      else Receive(if resuming then Content(file) else [], total, chunks, ending, maxBytes)
  }

  /** What `download_to_file` leaves behind, what it reports, and the offsets it asked for. */
  datatype Result = Result(file: Option<Bytes>, outcome: Outcome, offsets: seq<nat>)

  /** The attempt loop; the file is removed whenever it ends without success. */
  function Attempts(file: Option<Bytes>, total: nat, attempt: nat, serve: Server, maxBytes: nat, maxResume: int): Result
    decreases maxResume - attempt
  {
    if attempt > maxResume then Result(file, Fetched(total), [])
    else
      var t := Stream(file, total, serve(attempt, total), maxBytes);
      var written := |Content(t.file)|;
      if t.outcome.Fetched? then Result(t.file, t.outcome, [total])
      else if t.outcome != CutShort then Result(None, t.outcome, [total])
      else if written <= total || attempt >= maxResume then Result(None, Interrupted, [total])
      else
        var later := Attempts(t.file, written, attempt + 1, serve, maxBytes, maxResume);
        later.(offsets := [total] + later.offsets)
  }

  function Download(file: Option<Bytes>, serve: Server, maxBytes: nat, maxResume: int): Result {
    Attempts(file, 0, 0, serve, maxBytes, maxResume)
  }

  // ---------------------------------------------------- whatever the server does

  ghost predicate Increasing(offsets: seq<nat>) {
    forall i, j :: 0 <= i < j < |offsets| ==> offsets[i] < offsets[j]
  }

  lemma {:induction false} ReceiveCounts(held: Bytes, total: nat, chunks: seq<Bytes>, ending: Ending, maxBytes: nat)
    requires total == |held|
    ensures var t := Receive(held, total, chunks, ending, maxBytes);
      t.file.Some? && (t.outcome.Fetched? ==> t.outcome.count == |t.file.value|)
    ensures var t := Receive(held, total, chunks, ending, maxBytes);
      t.outcome.Fetched? ==> t.outcome.count <= maxBytes || t.outcome.count == total
    decreases |chunks|
  {
    if chunks != [] && total + |chunks[0]| <= maxBytes {
      ReceiveCounts(held + chunks[0], total + |chunks[0]|, chunks[1..], ending, maxBytes);
    }
  }

  lemma {:induction false} AttemptsAreBounded(file: Option<Bytes>, total: nat, attempt: nat, serve: Server, maxBytes: nat, maxResume: int)
    requires attempt <= maxResume && (total == 0 || total == |Content(file)|)
    ensures var r := Attempts(file, total, attempt, serve, maxBytes, maxResume);
      && 1 <= |r.offsets| <= maxResume - attempt + 1
      && r.offsets[0] == total && Increasing(r.offsets)
      && (if r.outcome.Fetched? then r.file.Some? && |r.file.value| == r.outcome.count else r.file.None?)
    decreases maxResume - attempt
  {
    var reply := serve(attempt, total);
    var t := Stream(file, total, reply, maxBytes);
    if reply.Answer? {
      var resuming := total > 0 && reply.partial;
      ReceiveCounts(if resuming then Content(file) else [], if resuming then total else 0, reply.chunks, reply.ending, maxBytes);
    }
    if t.outcome == CutShort && |Content(t.file)| > total && attempt < maxResume {
      AttemptsAreBounded(t.file, |Content(t.file)|, attempt + 1, serve, maxBytes, maxResume);
    }
  }

  /**
   Against any server at all: at most `maxResume + 1` transfers, each asking for a strictly
   larger offset than the one before; a reported count is the length of the file; and
   every failure leaves no file.
   */
  lemma DownloadIsBounded(file: Option<Bytes>, serve: Server, maxBytes: nat, maxResume: nat)
    ensures var r := Download(file, serve, maxBytes, maxResume);
      && 1 <= |r.offsets| <= maxResume + 1
      && r.offsets[0] == 0 && Increasing(r.offsets)
      && (if r.outcome.Fetched? then r.file.Some? && |r.file.value| == r.outcome.count else r.file.None?)
  {
    AttemptsAreBounded(file, 0, 0, serve, maxBytes, maxResume);
  }

  // ------------------------------------------------------- an honest server

  function Body(chunks: seq<Bytes>): Bytes {
    if chunks == [] then [] else chunks[0] + Body(chunks[1..])
  }

  /**
   Sections 14.2 and 15.3.7 of RFC 9110: a 206 answers a satisfiable range request with the
   body from there on, and a 200 carries the whole body. Either may be cut anywhere.
   */
  predicate Honest(reply: Reply, offset: nat, body: Bytes) {
    reply.Answer? ==>
      && (reply.partial ==> 0 < offset < |body|)
      && var rest := if reply.partial then body[offset..] else body;
      && Body(reply.chunks) <= rest
      && (reply.ending.Whole? ==> Body(reply.chunks) == rest)
  }

  ghost predicate HonestServer(serve: Server, body: Bytes) {
    forall attempt, offset :: Honest(serve(attempt, offset), offset, body)
  }

  /** A reported success holds the body, whole and within the cap. */
  predicate Exact(r: Result, body: Bytes, maxBytes: nat) {
    r.outcome.Fetched? ==> r.file == Some(body) && r.outcome.count == |body| <= maxBytes
  }

  lemma {:induction false} ReceiveIsExact(held: Bytes, chunks: seq<Bytes>, ending: Ending, maxBytes: nat, body: Bytes)
    requires held + Body(chunks) <= body && (ending.Whole? ==> held + Body(chunks) == body)
    requires held == [] || Body(chunks) != [] || !ending.Whole?
    ensures var t := Receive(held, |held|, chunks, ending, maxBytes);
      && t.file.Some? && t.file.value <= body
      && (t.outcome.Fetched? ==> t.file.value == body && t.outcome.count == |body| <= maxBytes)
    decreases |chunks|
  {
    if chunks == [] {
      assert held + Body(chunks) == held;
    } else {
      assert held + Body(chunks) == (held + chunks[0]) + Body(chunks[1..]);
      if |held| + |chunks[0]| > maxBytes {
        assert held == body[..|held|];
      } else {
        StillExact(held + chunks[0], chunks[1..], ending, maxBytes, body);
      }
    }
  }

  /** The same once the cap has been checked for what is already held. */
  lemma {:induction false} StillExact(held: Bytes, chunks: seq<Bytes>, ending: Ending, maxBytes: nat, body: Bytes)
    requires held + Body(chunks) <= body && (ending.Whole? ==> held + Body(chunks) == body)
    requires |held| <= maxBytes
    ensures var t := Receive(held, |held|, chunks, ending, maxBytes);
      && t.file.Some? && t.file.value <= body
      && (t.outcome.Fetched? ==> t.file.value == body && t.outcome.count == |body| <= maxBytes)
    decreases |chunks|
  {
    if chunks == [] {
      assert held + Body(chunks) == held;
    } else {
      assert held + Body(chunks) == (held + chunks[0]) + Body(chunks[1..]);
      if |held| + |chunks[0]| <= maxBytes {
        StillExact(held + chunks[0], chunks[1..], ending, maxBytes, body);
      } else {
        assert held == body[..|held|];
      }
    }
  }

  lemma {:induction false} ReceiveIs(held: Bytes, total: nat, chunks: seq<Bytes>, ending: Ending, maxBytes: nat)
    ensures var t := Receive(held, total, chunks, ending, maxBytes);
      if chunks != [] && total + |Body(chunks)| > maxBytes then t.outcome == TooLarge && t.file.Some? && held <= t.file.value <= held + Body(chunks)
      else
        && t.file == Some(held + Body(chunks))
        && t.outcome == match ending case Whole => Fetched(total + |Body(chunks)|) case Cut => CutShort case Broken => Rejected
    decreases |chunks|
  {
    if chunks == [] {
      assert held + Body(chunks) == held;
    } else {
      assert held + Body(chunks) == (held + chunks[0]) + Body(chunks[1..]);
      if total + |chunks[0]| <= maxBytes {
        ReceiveIs(held + chunks[0], total + |chunks[0]|, chunks[1..], ending, maxBytes);
        if chunks[1..] == [] { assert Body(chunks) == chunks[0]; }
      }
    }
  }

  /**
   One transfer as a whole: what is reported as fetched came under an accepted content type,
   declared and sent within the cap, to its end; the count starts at the offset only if the
   server answered the range, and the old content is kept only then.
   */
  lemma StreamIs(file: Option<Bytes>, offset: nat, reply: Reply, maxBytes: nat)
    ensures var t := Stream(file, offset, reply, maxBytes);
      if reply.NoAnswer? then t == Transfer(file, if reply.dropped then CutShort else Rejected)
      else
        var resumed := offset > 0 && reply.partial;
        var base, kept := if resumed then offset else 0, if resumed then Content(file) else [];
        if !reply.accepted then t == Transfer(file, Rejected)
        else if reply.declared.Some? && base + reply.declared.value > maxBytes then t == Transfer(file, TooLarge)
        else if reply.chunks != [] && base + |Body(reply.chunks)| > maxBytes then t.outcome == TooLarge
        else
          && t.file == Some(kept + Body(reply.chunks))
          && t.outcome == match reply.ending case Whole => Fetched(base + |Body(reply.chunks)|) case Cut => CutShort case Broken => Rejected
  {
    hide Body;
    if reply.Answer? && reply.accepted {
      var resumed := offset > 0 && reply.partial;
      ReceiveIs(if resumed then Content(file) else [], if resumed then offset else 0, reply.chunks, reply.ending, maxBytes);
    }
  }

  lemma StreamIsExact(file: Option<Bytes>, offset: nat, reply: Reply, maxBytes: nat, body: Bytes)
    requires Content(file) <= body && (offset == 0 || offset == |Content(file)|)
    requires Honest(reply, offset, body)
    ensures var t := Stream(file, offset, reply, maxBytes);
      && Content(t.file) <= body
      && (t.outcome.Fetched? ==> t.file == Some(body) && t.outcome.count == |body| <= maxBytes)
  {
    if reply.Answer? && reply.accepted {
      var held := if offset > 0 && reply.partial then Content(file) else [];
      HeldPlusRest(file, offset, reply, body);
      hide Body, Receive, Honest;
      ReceiveIsExact(held, reply.chunks, reply.ending, maxBytes, body);
    }
  }

  lemma HeldPlusRest(file: Option<Bytes>, offset: nat, reply: Reply, body: Bytes)
    requires Content(file) <= body && (offset == 0 || offset == |Content(file)|)
    requires Honest(reply, offset, body) && reply.Answer?
    ensures var held := if offset > 0 && reply.partial then Content(file) else [];
      && held + Body(reply.chunks) <= body && (reply.ending.Whole? ==> held + Body(reply.chunks) == body)
      && (held == [] || Body(reply.chunks) != [] || !reply.ending.Whole?)
  {
    hide Body;
    if offset > 0 && reply.partial {
      assert Content(file) + body[offset..] == body;
    } else {
      assert [] + Body(reply.chunks) == Body(reply.chunks);
    }
  }

  lemma {:induction false} AttemptsAreExact(file: Option<Bytes>, total: nat, attempt: nat, serve: Server, maxBytes: nat, maxResume: int, body: Bytes)
    requires attempt <= maxResume
    requires Content(file) <= body && (total == 0 || total == |Content(file)|)
    requires HonestServer(serve, body)
    ensures Exact(Attempts(file, total, attempt, serve, maxBytes, maxResume), body, maxBytes)
    decreases maxResume - attempt
  {
    hide Stream, Honest;
    StreamIsExact(file, total, serve(attempt, total), maxBytes, body);
    var t := Stream(file, total, serve(attempt, total), maxBytes);
    if t.outcome == CutShort && |Content(t.file)| > total && attempt < maxResume {
      AttemptsAreExact(t.file, |Content(t.file)|, attempt + 1, serve, maxBytes, maxResume, body);
    }
  }

  // ------------------------------------------- what may already be in the file

  /**
   The first cut measures whatever is at the destination. It is harmless if nothing is, if
   it is a prefix of the body, if no range past it can be satisfied, if there is no second
   attempt, or if the body is over the cap anyway.
   */
  predicate Harmless(file: Option<Bytes>, body: Bytes, maxBytes: nat, maxResume: nat) {
    Content(file) <= body || |Content(file)| >= |body| || maxResume == 0 || |body| > maxBytes
  }

  ghost predicate ExactForEveryHonestServer(file: Option<Bytes>, body: Bytes, maxBytes: nat, maxResume: nat) {
    forall serve | HonestServer(serve, body) :: Exact(Download(file, serve, maxBytes, maxResume), body, maxBytes)
  }

  /** Success means the exact body, for every honest server, if and only if the destination's old content is harmless. */
  lemma DownloadIsExactIffHarmless(file: Option<Bytes>, body: Bytes, maxBytes: nat, maxResume: nat)
    ensures ExactForEveryHonestServer(file, body, maxBytes, maxResume) <==> Harmless(file, body, maxBytes, maxResume)
  {
    if Harmless(file, body, maxBytes, maxResume) {
      forall serve | HonestServer(serve, body) ensures Exact(Download(file, serve, maxBytes, maxResume), body, maxBytes) {
        HarmlessIsEnough(file, serve, body, maxBytes, maxResume);
      }
    } else {
      StaleContentIsKept(file, body, maxBytes, maxResume);
      var serve := DropThenResume(body);
      assert !Exact(Download(file, serve, maxBytes, maxResume), body, maxBytes);
    }
  }

  lemma HarmlessIsEnough(file: Option<Bytes>, serve: Server, body: Bytes, maxBytes: nat, maxResume: nat)
    requires HonestServer(serve, body) && Harmless(file, body, maxBytes, maxResume)
    ensures Exact(Download(file, serve, maxBytes, maxResume), body, maxBytes)
  {
    hide Honest;
    if Content(file) <= body {
      AttemptsAreExact(file, 0, 0, serve, maxBytes, maxResume, body);
    } else {
      hide Stream;
      var reply := serve(0, 0);
      var t := Stream(file, 0, reply, maxBytes);
      FirstTransfer(file, reply, maxBytes, body);
      if t.outcome == CutShort && |Content(t.file)| > 0 && maxResume > 0 {
        if Content(t.file) <= body {
          AttemptsAreExact(t.file, |Content(t.file)|, 1, serve, maxBytes, maxResume, body);
        } else {
          NothingPastTheEnd(t.file, 1, serve, maxBytes, maxResume, body);
        }
      }
    }
  }

  /** The first transfer either leaves the file alone and gets nothing, or starts it afresh. */
  lemma FirstTransfer(file: Option<Bytes>, reply: Reply, maxBytes: nat, body: Bytes)
    requires Honest(reply, 0, body)
    ensures var t := Stream(file, 0, reply, maxBytes);
      if t.outcome.Fetched? then t.file == Some(body) && t.outcome.count == |body| <= maxBytes
      else t.file == file || Content(t.file) <= body
  {
    if reply.Answer? && reply.accepted {
      assert [] + Body(reply.chunks) == Body(reply.chunks);
      ReceiveIsExact([], reply.chunks, reply.ending, maxBytes, body);
    }
  }

  /** With at least the body's length on file, or a body over the cap, nothing wrong can be reported. */
  lemma {:induction false} NothingPastTheEnd(file: Option<Bytes>, attempt: nat, serve: Server, maxBytes: nat, maxResume: int, body: Bytes)
    requires attempt <= maxResume && HonestServer(serve, body)
    requires file.Some? && |file.value| > 0 && (|file.value| >= |body| || |body| > maxBytes)
    ensures Exact(Attempts(file, |file.value|, attempt, serve, maxBytes, maxResume), body, maxBytes)
    decreases maxResume - attempt
  {
    hide Honest;
    var total := |file.value|;
    var t := Stream(file, total, serve(attempt, total), maxBytes);
    PastTheEnd(file, serve(attempt, total), maxBytes, body);
    if t.outcome == CutShort && |Content(t.file)| > total && attempt < maxResume {
      if Content(t.file) <= body {
        AttemptsAreExact(t.file, |Content(t.file)|, attempt + 1, serve, maxBytes, maxResume, body);
      } else {
        NothingPastTheEnd(t.file, attempt + 1, serve, maxBytes, maxResume, body);
      }
    }
  }

  lemma PastTheEnd(file: Option<Bytes>, reply: Reply, maxBytes: nat, body: Bytes)
    requires file.Some? && |file.value| > 0 && (|file.value| >= |body| || |body| > maxBytes)
    requires Honest(reply, |file.value|, body)
    ensures var t := Stream(file, |file.value|, reply, maxBytes);
      && t.file.Some?
      && (t.outcome.Fetched? ==> t.file == Some(body) && t.outcome.count == |body| <= maxBytes)
      && (t.file.value <= body || |t.file.value| >= |body| || |body| > maxBytes)
  {
    if reply.Answer? && reply.accepted {
      if reply.partial {
        ReceiveKeepsLength(file.value, reply.chunks, reply.ending, maxBytes);
      } else {
        assert [] + Body(reply.chunks) == Body(reply.chunks);
        ReceiveIsExact([], reply.chunks, reply.ending, maxBytes, body);
      }
    }
  }

  /** A transfer that completes has taken every chunk and stayed within the cap. */
  lemma {:induction false} ReceiveKeepsLength(held: Bytes, chunks: seq<Bytes>, ending: Ending, maxBytes: nat)
    ensures var t := Receive(held, |held|, chunks, ending, maxBytes);
      && t.file.Some?
      && (t.outcome.Fetched? ==> ending.Whole? && t.file.value == held + Body(chunks) && t.outcome.count == |t.file.value|)
      && (t.outcome.Fetched? && Body(chunks) != [] ==> t.outcome.count <= maxBytes)
    decreases |chunks|
  {
    if chunks == [] {
      assert held + Body(chunks) == held;
    } else if |held| + |chunks[0]| <= maxBytes {
      ReceiveKeepsLength(held + chunks[0], chunks[1..], ending, maxBytes);
      assert held + Body(chunks) == (held + chunks[0]) + Body(chunks[1..]);
    }
  }

  /** An honest server: the first connection drops, a range request is then answered in full. */
  function DropThenResume(body: Bytes): Server {
    (attempt: nat, offset: nat) =>
      if attempt == 0 || !(0 < offset < |body|) then NoAnswer(true)
      else Answer(true, true, None, [body[offset..]], Whole)
  }

  lemma StaleContentIsKept(file: Option<Bytes>, body: Bytes, maxBytes: nat, maxResume: nat)
    requires !Harmless(file, body, maxBytes, maxResume)
    ensures HonestServer(DropThenResume(body), body)
    ensures var r := Download(file, DropThenResume(body), maxBytes, maxResume);
      r.outcome == Fetched(|body|) && r.file == Some(Content(file) + body[|Content(file)|..]) && r.file != Some(body)
  {
    var stale := Content(file);
    var rest := body[|stale|..];
    forall attempt: nat, offset: nat ensures Honest(DropThenResume(body)(attempt, offset), offset, body) {
      if attempt > 0 && 0 < offset < |body| {
        BodyOfOne(body[offset..]);
      }
    }
    var serve := DropThenResume(body);
    assert stale + rest != body;
    assert Stream(file, 0, serve(0, 0), maxBytes) == Transfer(file, CutShort);
    assert Download(file, serve, maxBytes, maxResume).(offsets := []) ==
           Attempts(file, |stale|, 1, serve, maxBytes, maxResume).(offsets := []);
    assert Stream(file, |stale|, DropThenResume(body)(1, |stale|), maxBytes) == Receive(stale, |stale|, [rest], Whole, maxBytes);
    assert Receive(stale, |stale|, [rest], Whole, maxBytes) == Receive(stale + rest, |body|, [], Whole, maxBytes);
    assert (stale + rest)[..|stale|] == stale;
  }

  lemma BodyOfOne(chunk: Bytes)
    ensures Body([chunk]) == chunk
  {
    assert Body([chunk]) == chunk + Body([]);
  }

  // ------------------------------------------------------------- when it succeeds

  /** Honours every range, declares no more than it sends, and cuts only between the first new byte and the last. */
  predicate Helpful(reply: Reply, offset: nat, body: Bytes) {
    && reply.Answer? && reply.accepted && !reply.ending.Broken?
    && (offset > 0 ==> reply.partial)
    && (reply.declared.Some? ==> offset + reply.declared.value <= |body|)
    && (reply.ending.Cut? ==> 0 < |Body(reply.chunks)| && offset + |Body(reply.chunks)| < |body|)
  }

  predicate Resumes(offset: nat, body: Bytes) {
    offset == 0 || offset < |body|
  }

  ghost predicate HelpsUntil(serve: Server, attempt: nat, last: nat, body: Bytes) {
    && (forall a: nat, offset: nat | attempt <= a <= last && Resumes(offset, body) :: Helpful(serve(a, offset), offset, body))
    && (forall offset: nat | Resumes(offset, body) :: var reply := serve(last, offset); reply.Answer? && reply.ending.Whole?)
  }

  lemma {:induction false} ReceiveTakesAll(held: Bytes, chunks: seq<Bytes>, ending: Ending, maxBytes: nat, body: Bytes)
    requires held + Body(chunks) <= body && |body| <= maxBytes
    ensures var t := Receive(held, |held|, chunks, ending, maxBytes);
      t.file == Some(held + Body(chunks)) && t.outcome == match ending case Whole => Fetched(|held + Body(chunks)|) case Cut => CutShort case Broken => Rejected
    decreases |chunks|
  {
    if chunks == [] {
      assert held + Body(chunks) == held;
    } else {
      assert held + Body(chunks) == (held + chunks[0]) + Body(chunks[1..]);
      ReceiveTakesAll(held + chunks[0], chunks[1..], ending, maxBytes, body);
    }
  }

  /** A helpful server that completes a transfer within the attempts allowed is never given up on. */
  lemma {:induction false} HelpfulServerSucceeds(file: Option<Bytes>, total: nat, attempt: nat, last: nat, serve: Server, maxBytes: nat, maxResume: int, body: Bytes)
    requires HonestServer(serve, body) && |body| <= maxBytes
    requires attempt <= last <= maxResume && HelpsUntil(serve, attempt, last, body)
    requires total == 0 || (total < |body| && Content(file) == body[..total])
    ensures var r := Attempts(file, total, attempt, serve, maxBytes, maxResume);
      r.outcome == Fetched(|body|) && r.file == Some(body)
    decreases last - attempt
  {
    hide HonestServer, Stream, Helpful, Honest;
    var reply := serve(attempt, total);
    HonestReply(serve, attempt, total, body);
    HelpfulTransfer(file, total, reply, maxBytes, body);
    var t := Stream(file, total, reply, maxBytes);
    if t.outcome == CutShort {
      HelpfulServerSucceeds(t.file, |t.file.value|, attempt + 1, last, serve, maxBytes, maxResume, body);
    }
  }

  lemma HonestReply(serve: Server, attempt: nat, offset: nat, body: Bytes)
    requires HonestServer(serve, body)
    ensures Honest(serve(attempt, offset), offset, body)
  {
  }

  lemma HelpfulTransfer(file: Option<Bytes>, total: nat, reply: Reply, maxBytes: nat, body: Bytes)
    requires Honest(reply, total, body) && Helpful(reply, total, body) && |body| <= maxBytes
    requires total == 0 || (total < |body| && Content(file) == body[..total])
    ensures var t := Stream(file, total, reply, maxBytes);
      if reply.ending.Whole? then t == Transfer(Some(body), Fetched(|body|))
      else t.outcome == CutShort && t.file.Some? && total < |t.file.value| < |body| && t.file.value == body[..|t.file.value|]
  {
    var held := if total > 0 then Content(file) else [];
    assert held + body[total..] == body;
    assert held + Body(reply.chunks) <= body;
    ReceiveTakesAll(held, reply.chunks, reply.ending, maxBytes, body);
  }

  // ------------------------------------------------------------------ the loops

  /** A path on disk. */
  class Destination {
    var file: Option<Bytes>

    constructor (file: Option<Bytes>)
      ensures this.file == file
    {
      this.file := file;
    }

    method StreamInto(offset: nat, reply: Reply, maxBytes: nat) returns (outcome: Outcome)
      modifies this
      ensures Transfer(file, outcome) == Stream(old(file), offset, reply, maxBytes)
    {
      if reply.NoAnswer? {
        return if reply.dropped then CutShort else Rejected;
      }
      if !reply.accepted {
        return Rejected;
      }
      var resuming := offset > 0 && reply.partial;
      var total: nat := if resuming then offset else 0;
      if reply.declared.Some? && total + reply.declared.value > maxBytes {
        return TooLarge;
      }
      file := Some(if resuming then Content(file) else []);
      for i := 0 to |reply.chunks|
        invariant file.Some?
        invariant Stream(old(file), offset, reply, maxBytes) ==
                  Receive(file.value, total, reply.chunks[i..], reply.ending, maxBytes)
      {
        var chunk := reply.chunks[i];
        assert reply.chunks[i..][1..] == reply.chunks[i + 1..];
        total := total + |chunk|;
        if total > maxBytes {
          return TooLarge;
        }
        file := Some(file.value + chunk);
      }
      return match reply.ending case Whole => Fetched(total) case Cut => CutShort case Broken => Rejected;
    }

    method DownloadToFile(serve: Server, maxBytes: nat, maxResume: int) returns (outcome: Outcome, offsets: seq<nat>)
      modifies this
      ensures Result(file, outcome, offsets) == Download(old(file), serve, maxBytes, maxResume)
    {
      var total: nat, attempt: nat := 0, 0;
      offsets := [];
      while attempt <= maxResume
        invariant var later := Attempts(file, total, attempt, serve, maxBytes, maxResume);
          Download(old(file), serve, maxBytes, maxResume) == later.(offsets := offsets + later.offsets)
      {
        hide Stream;
        outcome := StreamInto(total, serve(attempt, total), maxBytes);
        offsets := offsets + [total];
        if outcome.Fetched? {
          return;
        }
        if outcome != CutShort {
          file := None;
          return;
        }
        var written := |Content(file)|;
        if written <= total || attempt >= maxResume {
          file := None;
          return Interrupted, offsets;
        }
        total := written;
        attempt := attempt + 1;
      }
      return Fetched(total), offsets;
    }
  }
}
