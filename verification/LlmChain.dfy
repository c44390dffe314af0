/**
 `llm/client.py`: a structured call walks a chain of endpoints, retries replies that fail
 validation, and leaves endpoints that failed at transport level alone for a while.
 */
module LlmChain {
  import opened Wrappers

  type Alias = string
  type Time = real

  const ENDPOINT_COOLDOWN_S: Time := 60.0

  datatype Outcome = Answered | Invalid | Unreachable | Refused

  datatype Reply = Reply(outcome: Outcome, at: Time)

  /** One request: to which place in the chain, and what came back. */
  datatype Event = Event(index: nat, alias: Alias, reply: Reply)

  type Cooling = map<Alias, Time>

  function Since(cooling: Cooling, alias: Alias): Time {
    if alias in cooling then cooling[alias] else -ENDPOINT_COOLDOWN_S
  }

  predicate Ready(cooling: Cooling, alias: Alias, now: Time) {
    now - Since(cooling, alias) >= ENDPOINT_COOLDOWN_S
  }

  /** The places in the chain from `i` on whose endpoint is not cooling. */
  function ReadyFrom(chain: seq<Alias>, i: nat, cooling: Cooling, now: Time): seq<nat>
    requires i <= |chain|
    decreases |chain| - i
  {
    if i == |chain| then []
    else (if Ready(cooling, chain[i], now) then [i] else []) + ReadyFrom(chain, i + 1, cooling, now)
  }

  function Upward(i: nat, n: nat): seq<nat>
    requires i <= n
    decreases n - i
  {
    if i == n then [] else [i] + Upward(i + 1, n)
  }

  /** `_walk` */
  function Walk(chain: seq<Alias>, cooling: Cooling, now: Time): seq<nat> {
    var ready := ReadyFrom(chain, 0, cooling, now);
    if ready != [] then ready else Upward(0, |chain|)
  }

  /** The requests to one endpoint, after `failures` that failed validation; `n` numbers the call's requests. */
  function Knock(index: nat, alias: Alias, failures: nat, retries: nat, n: nat, serve: nat -> Reply): (events: seq<Event>)
    ensures events != []
    decreases retries - failures
  {
    var e := Event(index, alias, serve(n));
    if serve(n).outcome == Invalid && failures < retries then [e] + Knock(index, alias, failures + 1, retries, n + 1, serve) else [e]
  }

  function Last(events: seq<Event>): Event
    requires events != []
  {
    events[|events| - 1]
  }

  predicate Succeeded(events: seq<Event>) {
    events != [] && Last(events).reply.outcome == Answered
  }

  predicate Within(walk: seq<nat>, n: nat) {
    forall i :: 0 <= i < |walk| ==> walk[i] < n
  }

  /** All the requests of a call: endpoint after endpoint until one answers. */
  function Visit(chain: seq<Alias>, walk: seq<nat>, retries: nat, n: nat, serve: nat -> Reply): seq<Event>
    requires Within(walk, |chain|)
    decreases |walk|
  {
    if walk == [] then []
    else
      var here := Knock(walk[0], chain[walk[0]], 0, retries, n, serve);
      if Succeeded(here) then here else here + Visit(chain, walk[1..], retries, n + |here|, serve)
  }

  function Cool(cooling: Cooling, e: Event): Cooling {
    match e.reply.outcome
    case Unreachable => cooling[e.alias := e.reply.at]
    case Answered => cooling - {e.alias}
    case Invalid => cooling
    case Refused => cooling
  }

  function CoolAll(cooling: Cooling, events: seq<Event>): Cooling
    decreases |events|
  {
    if events == [] then cooling else Cool(CoolAll(cooling, events[..|events| - 1]), Last(events))
  }

  function Failures(events: seq<Event>): nat {
    if events == [] then 0 else (if events[0].reply.outcome == Invalid then 1 else 0) + Failures(events[1..])
  }

  function Requests(events: seq<Event>, index: nat): nat {
    if events == [] then 0 else (if events[0].index == index then 1 else 0) + Requests(events[1..], index)
  }

  // --------------------------------------------------------------------- the walk

  ghost predicate InOrder(walk: seq<nat>) {
    forall i, j :: 0 <= i < j < |walk| ==> walk[i] < walk[j]
  }

  lemma HeadedInOrder(head: nat, tail: seq<nat>)
    requires InOrder(tail) && forall j | 0 <= j < |tail| :: head < tail[j]
    ensures InOrder([head] + tail)
  {
  }

  lemma {:induction false} ReadyFromIs(chain: seq<Alias>, i: nat, cooling: Cooling, now: Time)
    requires i <= |chain|
    ensures var ready := ReadyFrom(chain, i, cooling, now);
      && InOrder(ready)
      && (forall j | 0 <= j < |ready| :: i <= ready[j] < |chain|)
      && forall k :: k in ready <==> i <= k < |chain| && Ready(cooling, chain[k], now)
    decreases |chain| - i
  {
    hide Ready;
    if i < |chain| {
      ReadyFromIs(chain, i + 1, cooling, now);
      var later := ReadyFrom(chain, i + 1, cooling, now);
      HeadedInOrder(i, later);
    }
  }

  lemma {:induction false} UpwardIs(i: nat, n: nat)
    requires i <= n
    ensures InOrder(Upward(i, n)) && (forall j | 0 <= j < |Upward(i, n)| :: i <= Upward(i, n)[j] < n)
    ensures forall k :: k in Upward(i, n) <==> i <= k < n
    decreases n - i
  {
    if i < n {
      UpwardIs(i + 1, n);
      HeadedInOrder(i, Upward(i + 1, n));
    }
  }

  /**
   The walk is a subsequence of the chain, empty only if the chain is. It holds exactly the
   endpoints that are not cooling, or the whole chain if all of them are.
   */
  lemma WalkIsReadyOrWhole(chain: seq<Alias>, cooling: Cooling, now: Time)
    ensures var walk := Walk(chain, cooling, now);
      && InOrder(walk) && (walk == [] <==> chain == [])
      && Within(walk, |chain|)
      && forall k | 0 <= k < |chain| ::
        k in walk <==> Ready(cooling, chain[k], now) || forall j | 0 <= j < |chain| :: !Ready(cooling, chain[j], now)
  {
    hide Ready, InOrder;
    ReadyFromIs(chain, 0, cooling, now);
    UpwardIs(0, |chain|);
    if ReadyFrom(chain, 0, cooling, now) == [] {
      forall j | 0 <= j < |chain| ensures !Ready(cooling, chain[j], now) {
        assert j !in ReadyFrom(chain, 0, cooling, now);
      }
      if chain != [] { assert 0 in Upward(0, |chain|); }
    } else {
      var first := ReadyFrom(chain, 0, cooling, now)[0];
      assert first in ReadyFrom(chain, 0, cooling, now);
    }
  }

  // ------------------------------------------------------------------- one endpoint

  lemma {:induction false} KnockIs(index: nat, alias: Alias, failures: nat, retries: nat, n: nat, serve: nat -> Reply)
    requires failures <= retries
    ensures var events := Knock(index, alias, failures, retries, n, serve);
      && |events| <= retries - failures + 1
      && (forall i | 0 <= i < |events| :: events[i] == Event(index, alias, serve(n + i)))
      && (forall i | 0 <= i < |events| - 1 :: events[i].reply.outcome == Invalid)
      && (Last(events).reply.outcome == Invalid ==> |events| == retries - failures + 1)
    decreases retries - failures
  {
    var e := Event(index, alias, serve(n));
    if serve(n).outcome == Invalid && failures < retries {
      var later := Knock(index, alias, failures + 1, retries, n + 1, serve);
      KnockIs(index, alias, failures + 1, retries, n + 1, serve);
      var events := [e] + later;
      forall i | 0 <= i < |events| ensures events[i] == Event(index, alias, serve(n + i)) {
        if i > 0 { assert events[i] == later[i - 1]; }
      }
    }
  }

  lemma {:induction false} RequestsAppend(a: seq<Event>, b: seq<Event>, index: nat)
    ensures Requests(a + b, index) == Requests(a, index) + Requests(b, index)
    decreases |a|
  {
    if a == [] {
      assert a + b == b;
    } else {
      assert (a + b)[1..] == a[1..] + b;
      RequestsAppend(a[1..], b, index);
    }
  }

  lemma {:induction false} RequestsOfOne(events: seq<Event>, index: nat, other: nat)
    requires forall e | e in events :: e.index == index
    ensures Requests(events, other) == if other == index then |events| else 0
  {
    if events != [] { RequestsOfOne(events[1..], index, other); }
  }

  lemma {:induction false} FailuresAppend(a: seq<Event>, b: seq<Event>)
    ensures Failures(a + b) == Failures(a) + Failures(b)
    decreases |a|
  {
    if a == [] {
      assert a + b == b;
    } else {
      assert (a + b)[1..] == a[1..] + b;
      FailuresAppend(a[1..], b);
    }
  }

  // ------------------------------------------------------------------ a whole call

  /** The requests go, in order, to places of the walk. */
  ghost predicate Addressed(chain: seq<Alias>, walk: seq<nat>, n: nat, serve: nat -> Reply, events: seq<Event>) {
    forall i | 0 <= i < |events| ::
      && events[i].reply == serve(n + i)
      && events[i].index in walk && events[i].index < |chain| && events[i].alias == chain[events[i].index]
  }

  ghost predicate Ascending(events: seq<Event>) {
    forall i, j | 0 <= i < j < |events| :: events[i].index <= events[j].index
  }

  /** The first answer ends the call. */
  ghost predicate AnswerEnds(events: seq<Event>) {
    forall i | 0 <= i < |events| - 1 :: events[i].reply.outcome != Answered
  }

  /** No place of the walk is skipped, and without an answer every one was tried. */
  ghost predicate NoneSkipped(walk: seq<nat>, events: seq<Event>) {
    forall k | k in walk && (!Succeeded(events) || k <= Last(events).index) :: Requests(events, k) > 0
  }

  ghost predicate FairVisit(chain: seq<Alias>, walk: seq<nat>, retries: nat, n: nat, serve: nat -> Reply, events: seq<Event>) {
    Addressed(chain, walk, n, serve, events) && Ascending(events) && AnswerEnds(events) && NoneSkipped(walk, events)
  }

  /**
   Bounded patience: at most `retries + 1` requests to one place, a second one only after an
   invalid reply, and it is given up on only after that many or an error.
   */
  ghost predicate Patient(walk: seq<nat>, retries: nat, events: seq<Event>) {
    && (forall k :: Requests(events, k) <= retries + 1)
    && (forall i | 0 <= i < |events| - 1 && events[i + 1].index != events[i].index ::
          events[i].reply.outcome == Invalid ==> Requests(events, events[i].index) == retries + 1)
    && (forall i | 0 <= i < |events| - 1 && events[i + 1].index == events[i].index :: events[i].reply.outcome == Invalid)
    && (events != [] && Last(events).reply.outcome == Invalid ==> Requests(events, Last(events).index) == retries + 1)
  }

  lemma {:induction false} VisitIsFair(chain: seq<Alias>, walk: seq<nat>, retries: nat, n: nat, serve: nat -> Reply)
    requires InOrder(walk) && Within(walk, |chain|)
    ensures FairVisit(chain, walk, retries, n, serve, Visit(chain, walk, retries, n, serve))
    decreases |walk|
  {
    hide Knock, Requests, Addressed, Ascending, AnswerEnds, NoneSkipped;
    if walk != [] {
      var at := walk[0];
      var here := Knock(at, chain[at], 0, retries, n, serve);
      KnockIsFair(chain, walk, retries, n, serve);
      if !Succeeded(here) {
        var rest := Visit(chain, walk[1..], retries, n + |here|, serve);
        VisitIsFair(chain, walk[1..], retries, n + |here|, serve);
        JoinedAddressed(chain, walk, n, serve, here, rest);
        JoinedNoneSkipped(walk, here, rest);
      }
    } else {
      NothingIsFair(chain, n, serve);
    }
  }

  lemma NothingIsFair(chain: seq<Alias>, n: nat, serve: nat -> Reply)
    ensures Addressed(chain, [], n, serve, []) && Ascending([]) && AnswerEnds([]) && NoneSkipped([], [])
  {
  }

  lemma KnockIsFair(chain: seq<Alias>, walk: seq<nat>, retries: nat, n: nat, serve: nat -> Reply)
    requires walk != [] && InOrder(walk) && Within(walk, |chain|)
    ensures var here := Knock(walk[0], chain[walk[0]], 0, retries, n, serve);
      && Addressed(chain, walk, n, serve, here) && Ascending(here) && AnswerEnds(here)
      && (Succeeded(here) ==> NoneSkipped(walk, here))
      && Requests(here, walk[0]) > 0
      && forall i | 0 <= i < |here| :: here[i].index == walk[0]
  {
    hide Requests, Succeeded;
    KnockIs(walk[0], chain[walk[0]], 0, retries, n, serve);
    RequestsOfOne(Knock(walk[0], chain[walk[0]], 0, retries, n, serve), walk[0], walk[0]);
    assert walk[0] in walk;
  }

  lemma JoinedAddressed(chain: seq<Alias>, walk: seq<nat>, n: nat, serve: nat -> Reply, here: seq<Event>, rest: seq<Event>)
    requires walk != [] && InOrder(walk) && here != [] && Last(here).reply.outcome != Answered
    requires Addressed(chain, walk, n, serve, here) && AnswerEnds(here) && forall i | 0 <= i < |here| :: here[i].index == walk[0]
    requires Addressed(chain, walk[1..], n + |here|, serve, rest) && Ascending(rest) && AnswerEnds(rest)
    ensures Addressed(chain, walk, n, serve, here + rest) && Ascending(here + rest) && AnswerEnds(here + rest)
  {
    var events := here + rest;
    forall i | |here| <= i < |events| ensures events[i] == rest[i - |here|] && events[i].index > walk[0] {
      assert rest[i - |here|].index in walk[1..];
    }
  }

  lemma JoinedNoneSkipped(walk: seq<nat>, here: seq<Event>, rest: seq<Event>)
    requires walk != [] && InOrder(walk) && here != [] && Last(here).reply.outcome != Answered
    requires Requests(here, walk[0]) > 0 && NoneSkipped(walk[1..], rest)
    ensures NoneSkipped(walk, here + rest)
  {
    hide Requests;
    var events := here + rest;
    if rest != [] { assert Last(events) == Last(rest); } else { assert events == here; }
    forall k | k in walk && (!Succeeded(events) || k <= Last(events).index) ensures Requests(events, k) > 0 {
      RequestsAppend(here, rest, k);
      if k != walk[0] {
        assert k in walk[1..];
      }
    }
  }

  /** The requests to one place, as `JoinedPatience` needs them. */
  ghost predicate OnePlace(at: nat, retries: nat, here: seq<Event>) {
    && here != [] && |here| <= retries + 1
    && (forall i | 0 <= i < |here| :: here[i].index == at)
    && (Last(here).reply.outcome == Invalid ==> |here| == retries + 1)
    && (forall i | 0 <= i < |here| - 1 :: here[i].reply.outcome == Invalid)
    && (forall k :: Requests(here, k) == if k == at then |here| else 0)
  }

  lemma KnockIsPatient(at: nat, alias: Alias, retries: nat, n: nat, serve: nat -> Reply)
    ensures OnePlace(at, retries, Knock(at, alias, 0, retries, n, serve))
  {
    hide Knock, Requests;
    var here := Knock(at, alias, 0, retries, n, serve);
    KnockIs(at, alias, 0, retries, n, serve);
    forall k ensures Requests(here, k) == if k == at then |here| else 0 {
      RequestsOfOne(here, at, k);
    }
  }

  /** Patient, and only with places of the walk. */
  ghost predicate PatientAt(walk: seq<nat>, retries: nat, events: seq<Event>) {
    && Patient(walk, retries, events)
    && (forall e | e in events :: e.index in walk)
    && (forall k | k !in walk :: Requests(events, k) == 0)
  }

  lemma OnePlaceIsPatient(walk: seq<nat>, retries: nat, here: seq<Event>)
    requires walk != [] && OnePlace(walk[0], retries, here)
    ensures PatientAt(walk, retries, here)
  {
    hide Requests;
    assert walk[0] in walk;
  }

  lemma {:induction false} VisitIsPatient(chain: seq<Alias>, walk: seq<nat>, retries: nat, n: nat, serve: nat -> Reply)
    requires InOrder(walk) && Within(walk, |chain|)
    ensures PatientAt(walk, retries, Visit(chain, walk, retries, n, serve))
    decreases |walk|
  {
    hide Knock, Requests, PatientAt, OnePlace;
    if walk == [] {
      NothingIsPatient(retries);
    } else {
      var here := Knock(walk[0], chain[walk[0]], 0, retries, n, serve);
      KnockIsPatient(walk[0], chain[walk[0]], retries, n, serve);
      OnePlaceIsPatient(walk, retries, here);
      if !Succeeded(here) {
        VisitIsPatient(chain, walk[1..], retries, n + |here|, serve);
        JoinedPatience(walk, retries, here, Visit(chain, walk[1..], retries, n + |here|, serve));
      }
    }
  }

  lemma NothingIsPatient(retries: nat)
    ensures PatientAt([], retries, [])
  {
  }

  lemma JoinedPatience(walk: seq<nat>, retries: nat, here: seq<Event>, rest: seq<Event>)
    requires walk != [] && InOrder(walk) && OnePlace(walk[0], retries, here)
    requires PatientAt(walk[1..], retries, rest)
    ensures PatientAt(walk, retries, here + rest)
  {
    hide Requests;
    var events := here + rest;
    assert walk[0] in walk && walk[0] !in walk[1..];
    forall k ensures Requests(events, k) == if k == walk[0] then |here| else Requests(rest, k) {
      RequestsAppend(here, rest, k);
    }
    forall i | 0 <= i < |events| - 1 && events[i + 1].index != events[i].index && events[i].reply.outcome == Invalid
      ensures Requests(events, events[i].index) == retries + 1
    {
      if i >= |here| {
        assert events[i] == rest[i - |here|] && events[i + 1] == rest[i - |here| + 1];
        assert events[i].index in walk[1..];
      } else {
        assert i == |here| - 1;
      }
    }
    forall i | 0 <= i < |events| - 1 && events[i + 1].index == events[i].index ensures events[i].reply.outcome == Invalid {
      if i >= |here| {
        assert events[i] == rest[i - |here|] && events[i + 1] == rest[i - |here| + 1];
      }
    }
    if rest != [] { assert Last(events) == Last(rest); } else { assert events == here; }
  }

  /**
   Every call: at most `retries + 1` requests per endpoint, in chain order; it ends at the
   first answer; and it fails only after every endpoint of the walk has failed.
   */
  lemma CallIsFair(chain: seq<Alias>, cooling: Cooling, now: Time, retries: nat, serve: nat -> Reply)
    ensures var walk := Walk(chain, cooling, now);
      && Within(walk, |chain|)
      && var events := Visit(chain, walk, retries, 0, serve);
      && FairVisit(chain, walk, retries, 0, serve, events)
      && Patient(walk, retries, events)
  {
    WalkIsReadyOrWhole(chain, cooling, now);
    VisitIsFair(chain, Walk(chain, cooling, now), retries, 0, serve);
    VisitIsPatient(chain, Walk(chain, cooling, now), retries, 0, serve);
  }

  // ------------------------------------------------------- cooling, over many calls

  datatype Call = Call(chain: seq<Alias>, now: Time, retries: nat, serve: nat -> Reply)

  function CallEvents(call: Call, cooling: Cooling): seq<Event> {
    WalkIsReadyOrWhole(call.chain, cooling, call.now);
    Visit(call.chain, Walk(call.chain, cooling, call.now), call.retries, 0, call.serve)
  }

  /** Every request of a series of calls, one call after the other. */
  function Log(calls: seq<Call>): seq<Event>
    decreases |calls|
  {
    if calls == [] then []
    else
      var before := Log(calls[..|calls| - 1]);
      before + CallEvents(calls[|calls| - 1], CoolAll(map[], before))
  }

  /** When the endpoint last failed at transport level, unless it has answered since. */
  function LastFailure(log: seq<Event>, alias: Alias): Option<Time>
    decreases |log|
  {
    if log == [] then None
    else if Last(log).alias == alias && Last(log).reply.outcome == Unreachable then Some(Last(log).reply.at)
    else if Last(log).alias == alias && Last(log).reply.outcome == Answered then None
    else LastFailure(log[..|log| - 1], alias)
  }

  predicate FailedLately(log: seq<Event>, alias: Alias, now: Time) {
    LastFailure(log, alias).Some? && now - LastFailure(log, alias).value < ENDPOINT_COOLDOWN_S
  }

  lemma {:induction false} CoolingIsLastFailure(log: seq<Event>, alias: Alias)
    ensures if alias in CoolAll(map[], log) then LastFailure(log, alias) == Some(CoolAll(map[], log)[alias])
            else LastFailure(log, alias) == None
    decreases |log|
  {
    if log != [] { CoolingIsLastFailure(log[..|log| - 1], alias); }
  }

  lemma {:induction false} CoolAllAppends(cooling: Cooling, a: seq<Event>, b: seq<Event>)
    ensures CoolAll(cooling, a + b) == CoolAll(CoolAll(cooling, a), b)
    decreases |b|
  {
    if b == [] {
      assert a + b == a;
    } else {
      assert (a + b)[..|a + b| - 1] == a + b[..|b| - 1];
      CoolAllAppends(cooling, a, b[..|b| - 1]);
    }
  }

  /**
   After any series of calls, the next one contacts exactly the endpoints, up to the one
   that answers, that have not failed at transport level in the last 60 seconds without
   answering since, and the whole chain only if every endpoint has.
   */
  lemma CoolingEndpointsAreSpared(calls: seq<Call>, next: Call)
    requires next.now >= 0.0
    ensures var log := Log(calls);
      var walk := Walk(next.chain, CoolAll(map[], log), next.now);
      forall k | 0 <= k < |next.chain| ::
        k in walk <==> (FailedLately(log, next.chain[k], next.now) ==>
                        forall j | 0 <= j < |next.chain| :: FailedLately(log, next.chain[j], next.now))
    ensures forall e | e in CallEvents(next, CoolAll(map[], Log(calls))) && FailedLately(Log(calls), e.alias, next.now) ::
              forall alias | alias in next.chain :: FailedLately(Log(calls), alias, next.now)
  {
    var log := Log(calls);
    var cooling := CoolAll(map[], log);
    var walk := Walk(next.chain, cooling, next.now);
    WalkIsReadyOrWhole(next.chain, cooling, next.now);
    VisitIsFair(next.chain, walk, next.retries, 0, next.serve);
    var events := CallEvents(next, cooling);
    hide Log, Visit, Walk, CoolAll, LastFailure;
    forall alias ensures Ready(cooling, alias, next.now) <==> !FailedLately(log, alias, next.now) {
      CoolingIsLastFailure(log, alias);
    }
    hide Ready, FailedLately;
    forall e | e in events && FailedLately(log, e.alias, next.now)
      ensures forall alias | alias in next.chain :: FailedLately(log, alias, next.now)
    {
      var i :| 0 <= i < |events| && events[i] == e;
      assert e.index in walk && next.chain[e.index] == e.alias;
    }
  }

  // --------------------------------------------------------------------- the loops

  /** What a call returns: the answering request and its flags, or `LLMUnavailable`. */
  datatype Result =
    | Completed(request: nat, fallbackUsed: bool, validationRetries: nat)
    | Unavailable

  class LlmClient {
    var cooling: Cooling
    ghost var log: seq<Event>

    ghost predicate Valid()
      reads this
    {
      cooling == CoolAll(map[], log)
    }

    constructor ()
      ensures Valid() && log == []
    {
      cooling, log := map[], [];
    }

    method WalkNow(chain: seq<Alias>, now: Time) returns (walk: seq<nat>)
      ensures walk == Walk(chain, cooling, now)
    {
      walk := [];
      ghost var whole := ReadyFrom(chain, 0, cooling, now);
      for i := 0 to |chain|
        invariant whole == walk + ReadyFrom(chain, i, cooling, now)
      {
        hide Ready;
        if Ready(cooling, chain[i], now) {
          walk := walk + [i];
        } else {
          assert [] + ReadyFrom(chain, i + 1, cooling, now) == ReadyFrom(chain, i + 1, cooling, now);
        }
      }
      assert walk + [] == walk;
      if walk == [] {
        for i := 0 to |chain|
          invariant Upward(0, |chain|) == walk + Upward(i, |chain|)
        {
          walk := walk + [i];
        }
      }
    }

    /** The retry loop on one endpoint; `n` numbers the call's requests. */
    method Ask(index: nat, alias: Alias, retries: nat, n: nat, serve: nat -> Reply)
      returns (answered: bool, next: nat, invalid: nat)
      requires Valid()
      modifies this
      ensures Valid()
      ensures var here := Knock(index, alias, 0, retries, n, serve);
        log == old(log) + here && next == n + |here| && answered == Succeeded(here) && invalid == Failures(here)
    {
      hide Knock, CoolAll, Failures;
      next, invalid := n, 0;
      ghost var here := Knock(index, alias, 0, retries, n, serve);
      ghost var made: seq<Event> := [];
      NothingYet(log, here);
      while true
        invariant Valid() && log == old(log) + made
        invariant next == n + |made| && invalid == Failures(made) <= retries
        invariant here == made + Knock(index, alias, invalid, retries, next, serve)
        decreases retries - invalid
      {
        var reply := serve(next);
        var e := Event(index, alias, reply);
        KnockTurn(index, alias, invalid, retries, next, serve);
        AskTurn(cooling, old(log), made, e, Knock(index, alias, invalid + 1, retries, next + 1, serve));
        made := made + [e];
        next := next + 1;
        log := log + [e];
        if reply.outcome == Answered {
          cooling := cooling - {alias};
          return true, next, invalid;
        }
        if reply.outcome == Invalid {
          invalid := invalid + 1;
          if invalid > retries {
            break;
          }
          continue;
        }
        if reply.outcome == Unreachable {
          cooling := cooling[alias := reply.at];
        }
        break;
      }
      return false, next, invalid;
    }

    /** `complete_structured`; `serve` numbers this call's requests from 0. */
    method CompleteStructured(chain: seq<Alias>, now: Time, retries: nat, serve: nat -> Reply) returns (result: Result)
      requires Valid()
      modifies this
      ensures Valid()
      ensures var events := CallEvents(Call(chain, now, retries, serve), old(cooling));
        && log == old(log) + events
        && result == if Succeeded(events) then Completed(|events| - 1, Last(events).index > 0, Failures(events)) else Unavailable
    {
      hide Walk, Visit, Knock, CoolAll, Failures, Valid, CallEvents, Succeeded, Last;
      ghost var events := CallEvents(Call(chain, now, retries, serve), cooling);
      ghost var made: seq<Event> := [];
      CallEventsAre(chain, cooling, now, retries, serve);
      var walk := WalkNow(chain, now);
      var validationRetries: nat, n: nat := 0, 0;
      NothingYet(log, events);
      assert walk[0..] == walk;
      for position := 0 to |walk|
        invariant Valid() && log == old(log) + made
        invariant n == |made| && validationRetries == Failures(made) && !Succeeded(made)
        invariant events == made + Visit(chain, walk[position..], retries, n, serve)
      {
        var index := walk[position];
        VisitTurn(chain, walk, position, retries, n, serve);
        ghost var here := Knock(index, chain[index], 0, retries, n, serve);
        ghost var rest := Visit(chain, walk[position + 1..], retries, n + |here|, serve);
        var answered, next, invalid := Ask(index, chain[index], retries, n, serve);
        FailuresAppend(made, here);
        CallTurn(old(log), made, here, rest);
        made := made + here;
        n := next;
        validationRetries := validationRetries + invalid;
        if answered {
          return Completed(n - 1, index > 0, validationRetries);
        }
      }
      VisitEnds(chain, retries, n, serve);
      assert made + [] == made;
      return Unavailable;
    }
  }

  lemma NothingYet(log: seq<Event>, events: seq<Event>)
    ensures log + [] == log && [] + events == events && Failures([]) == 0 && !Succeeded([])
  {
  }

  lemma VisitEnds(chain: seq<Alias>, retries: nat, n: nat, serve: nat -> Reply)
    ensures Visit(chain, [], retries, n, serve) == []
  {
  }

  lemma CallEventsAre(chain: seq<Alias>, cooling: Cooling, now: Time, retries: nat, serve: nat -> Reply)
    ensures Within(Walk(chain, cooling, now), |chain|)
    ensures CallEvents(Call(chain, now, retries, serve), cooling) == Visit(chain, Walk(chain, cooling, now), retries, 0, serve)
  {
    WalkIsReadyOrWhole(chain, cooling, now);
  }

  /** One endpoint more. */
  lemma CallTurn(log: seq<Event>, made: seq<Event>, here: seq<Event>, rest: seq<Event>)
    requires here != []
    ensures log + made + here == log + (made + here) && made + (here + rest) == made + here + rest
    ensures Last(made + here) == Last(here) && Succeeded(made + here) == Succeeded(here)
  {
  }

  /** One request more: what it does to the log, the cooling map and the count. */
  lemma AskTurn(cooling: Cooling, log: seq<Event>, made: seq<Event>, e: Event, rest: seq<Event>)
    requires cooling == CoolAll(map[], log + made)
    ensures Cool(cooling, e) == CoolAll(map[], log + made + [e])
    ensures log + made + [e] == log + (made + [e]) && made + ([e] + rest) == made + [e] + rest
    ensures Failures(made + [e]) == Failures(made) + if e.reply.outcome == Invalid then 1 else 0
    ensures Last(made + [e]) == e
  {
    CoolOne(cooling, log + made, e);
    FailuresAppend(made, [e]);
    FailuresOfOne(e);
  }

  lemma VisitTurn(chain: seq<Alias>, walk: seq<nat>, position: nat, retries: nat, n: nat, serve: nat -> Reply)
    requires position < |walk| && Within(walk, |chain|)
    ensures walk[position] < |chain| && Within(walk[position + 1..], |chain|)
    ensures var here := Knock(walk[position], chain[walk[position]], 0, retries, n, serve);
      && Last(here).index == walk[position]
      && Visit(chain, walk[position..], retries, n, serve) ==
         if Succeeded(here) then here else here + Visit(chain, walk[position + 1..], retries, n + |here|, serve)
  {
    hide Knock;
    KnockIs(walk[position], chain[walk[position]], 0, retries, n, serve);
    assert walk[position] in walk && walk[position..][1..] == walk[position + 1..];
  }

  lemma KnockTurn(index: nat, alias: Alias, failures: nat, retries: nat, n: nat, serve: nat -> Reply)
    requires failures <= retries
    ensures var e := Event(index, alias, serve(n));
      Knock(index, alias, failures, retries, n, serve) ==
      if serve(n).outcome == Invalid && failures < retries then [e] + Knock(index, alias, failures + 1, retries, n + 1, serve) else [e]
  {
  }

  lemma FailuresOfOne(e: Event)
    ensures Failures([e]) == if e.reply.outcome == Invalid then 1 else 0
  {
    assert [e][1..] == [];
  }

  lemma CoolOne(cooling: Cooling, log: seq<Event>, e: Event)
    requires cooling == CoolAll(map[], log)
    ensures Cool(cooling, e) == CoolAll(map[], log + [e])
  {
    CoolAllAppends(map[], log, [e]);
    assert [e][..0] == [];
  }
}
