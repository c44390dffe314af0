/**
 `api/auth.py`: the sliding window that makes an address wait after too many bad keys. The
 module keeps a pruned, bounded, ordered map; the specification is the full history.
 */
module Throttle {
  import opened Wrappers

  type Address = string
  type Time = real

  const MAX_FAILURES := 10
  const WINDOW_S: Time := 300.0
  const MAX_TRACKED := 1024

  /** The ordered dictionary: its keys, oldest first, and the failure times of each. */
  datatype Failures = Failures(order: seq<Address>, times: map<Address, seq<Time>>)

  const NONE := Failures([], map[])

  datatype Request = Request(address: Address, configured: bool, good: bool, now: Time)

  /** 503, 429, 401, and let through. */
  datatype Response = Closed | Throttled | Denied | Accepted

  function Prune(times: seq<Time>, now: Time): seq<Time> {
    if times == [] then []
    else if now - times[0] < WINDOW_S then [times[0]] + Prune(times[1..], now)
    else Prune(times[1..], now)
  }

  function Without(order: seq<Address>, address: Address): seq<Address> {
    if order == [] then []
    else if order[0] == address then Without(order[1..], address)
    else [order[0]] + Without(order[1..], address)
  }

  function Look(s: Failures, address: Address): seq<Time> {
    if address in s.times then s.times[address] else []
  }

  /** Assign and `move_to_end`. */
  function Touch(s: Failures, address: Address, times: seq<Time>): Failures {
    Failures(Without(s.order, address) + [address], s.times[address := times])
  }

  function Drop(s: Failures, address: Address): Failures {
    Failures(Without(s.order, address), s.times - {address})
  }

  /** `_recent`, as what it leaves behind. */
  function Recent(s: Failures, address: Address, now: Time): Failures {
    var times := Prune(Look(s, address), now);
    if times != [] then Touch(s, address, times) else Drop(s, address)
  }

  /** `while len(_failures) > MAX_TRACKED: _failures.popitem(last=False)` */
  function Evict(s: Failures): Failures
    decreases |s.order|
  {
    if |s.order| <= MAX_TRACKED then s else Evict(Failures(s.order[1..], s.times - {s.order[0]}))
  }

  /** `_record_failure` */
  function Record(s: Failures, address: Address, now: Time): Failures {
    Evict(Touch(Recent(s, address, now), address, Prune(Look(s, address), now) + [now]))
  }

  /** `require_api_key` */
  function Step(s: Failures, r: Request): (Failures, Response) {
    if !r.configured then (s, Closed)
    else
      var pruned := Recent(s, r.address, r.now);
      if |Prune(Look(s, r.address), r.now)| >= MAX_FAILURES then (pruned, Throttled)
      else if !r.good then (Record(pruned, r.address, r.now), Denied)
      else (Drop(pruned, r.address), Accepted)
  }

  /** An address not made to wait is let in with the right key, and then none of its failures count any more; otherwise one more does. */
  lemma KeyDecides(s: Failures, r: Request)
    requires r.configured && |LessThanFiveMinutesOld(Look(s, r.address), r.now)| < 10
    ensures Step(s, r).1 == (if r.good then Accepted else Denied)
    ensures r.good ==> Look(Step(s, r).0, r.address) == []
  {
    PruneCounts(Look(s, r.address), r.now);
  }

  // ------------------------------------------------------------------- full history

  datatype Event = Event(address: Address, now: Time, response: Response)

  /** Every recorded failure of the address since its last success. */
  function Recorded(h: seq<Event>, address: Address): seq<Time>
    decreases |h|
  {
    if h == [] then []
    else
      var e, before := h[|h| - 1], Recorded(h[..|h| - 1], address);
      if e.address != address then before
      else match e.response
        case Denied => before + [e.now]
        case Accepted => []
        case Throttled => before
        case Closed => before
  }

  /** When the address was last turned away, if it has not succeeded since. */
  function TurnedAway(h: seq<Event>, address: Address): Option<Time>
    decreases |h|
  {
    if h == [] then None
    else
      var e, before := h[|h| - 1], TurnedAway(h[..|h| - 1], address);
      if e.address != address then before
      else match e.response
        case Denied => Some(e.now)
        case Throttled => Some(e.now)
        case Accepted => None
        case Closed => before
  }

  function Addresses(h: seq<Event>): set<Address> {
    set e | e in h :: e.address
  }

  /** The addresses turned away less than a window ago. */
  function Busy(h: seq<Event>, now: Time): set<Address> {
    set a | a in Addresses(h) && TurnedAway(h, a).Some? && now - TurnedAway(h, a).value < WINDOW_S
  }

  /** The state and the history after a series of requests. */
  function Play(requests: seq<Request>): (Failures, seq<Event>)
    decreases |requests|
  {
    if requests == [] then (NONE, [])
    else
      var r := requests[|requests| - 1];
      var (s, h) := Play(requests[..|requests| - 1]);
      var (s', response) := Step(s, r);
      (s', h + [Event(r.address, r.now, response)])
  }

  predicate Clock(requests: seq<Request>) {
    forall i, j :: 0 <= i < j < |requests| ==> requests[i].now <= requests[j].now
  }

  /** At no point were more than `MAX_TRACKED` addresses turned away within one window. */
  predicate Quiet(requests: seq<Request>)
    decreases |requests|
  {
    requests == [] ||
    (Quiet(requests[..|requests| - 1]) && |Busy(Play(requests).1, requests[|requests| - 1].now)| <= MAX_TRACKED)
  }

  // ---------------------------------------------------------------------- pruning

  lemma {:induction false} PruneAgain(times: seq<Time>, now: Time, later: Time)
    requires now <= later
    ensures Prune(Prune(times, now), later) == Prune(times, later)
  {
    if times != [] {
      PruneAgain(times[1..], now, later);
      if now - times[0] < WINDOW_S {
        assert ([times[0]] + Prune(times[1..], now))[1..] == Prune(times[1..], now);
      }
    }
  }

  lemma {:induction false} PruneAppends(times: seq<Time>, t: Time, now: Time)
    ensures Prune(times + [t], now) == Prune(times, now) + if now - t < WINDOW_S then [t] else []
  {
    if times == [] {
      assert [] + [t] == [t] && [t][1..] == [];
    } else {
      assert (times + [t])[1..] == times[1..] + [t];
      PruneAppends(times[1..], t, now);
    }
  }

  /** The failures less than 300 seconds old, by their place in the record. */
  function LessThanFiveMinutesOld(times: seq<Time>, now: Time): set<nat> {
    set i: nat | i < |times| && now - times[i] < 300.0
  }

  lemma {:induction false} PruneCounts(times: seq<Time>, now: Time)
    ensures |Prune(times, now)| == |LessThanFiveMinutesOld(times, now)|
    decreases |times|
  {
    if times != [] {
      var n := |times| - 1;
      var before, all := LessThanFiveMinutesOld(times[..n], now), LessThanFiveMinutesOld(times, now);
      assert times == times[..n] + [times[n]];
      PruneAppends(times[..n], times[n], now);
      PruneCounts(times[..n], now);
      assert all == before + if now - times[n] < 300.0 then {n as nat} else {};
      assert n !in before;
    }
  }

  lemma {:induction false} PruneIsShorter(times: seq<Time>, now: Time)
    ensures |Prune(times, now)| <= |times| && forall t | t in Prune(times, now) :: t in times
  {
    if times != [] { PruneIsShorter(times[1..], now); }
  }

  lemma {:induction false} AllOld(times: seq<Time>, now: Time)
    requires forall t | t in times :: now - t >= WINDOW_S
    ensures Prune(times, now) == []
  {
    if times != [] {
      assert times[0] in times;
      forall t | t in times[1..] ensures t in times {
      }
      AllOld(times[1..], now);
    }
  }

  // ------------------------------------------------------------------- the ordering

  predicate NoneTwice(order: seq<Address>) {
    forall i, j :: 0 <= i < j < |order| ==> order[i] != order[j]
  }

  lemma {:induction false} WithoutIs(order: seq<Address>, address: Address)
    requires NoneTwice(order)
    ensures NoneTwice(Without(order, address)) && |Without(order, address)| <= |order|
    ensures forall a :: a in Without(order, address) <==> a in order && a != address
    ensures address in order ==> |Without(order, address)| == |order| - 1
  {
    if order != [] {
      WithoutIs(order[1..], address);
      if order[0] == address {
        assert address !in order[1..];
        WithoutNone(order[1..], address);
      } else {
        var rest := Without(order[1..], address);
        assert order[0] !in rest;
        assert forall i | 0 <= i < |rest| :: rest[i] in rest;
      }
    }
  }

  lemma {:induction false} WithoutNone(order: seq<Address>, address: Address)
    requires address !in order
    ensures Without(order, address) == order
  {
    if order != [] { WithoutNone(order[1..], address); }
  }

  function Members(order: seq<Address>): set<Address> {
    set a | a in order
  }

  lemma {:induction false} SizeOf(order: seq<Address>)
    requires NoneTwice(order)
    ensures |Members(order)| == |order|
  {
    if order != [] {
      SizeOf(order[1..]);
      assert Members(order) == Members(order[1..]) + {order[0]};
    }
  }

  // --------------------------------------------- always: the bounds on what is kept

  ghost predicate Shaped(s: Failures) {
    && NoneTwice(s.order) && (forall a :: a in s.order <==> a in s.times)
    && (forall a | a in s.times :: 0 < |s.times[a]| <= MAX_FAILURES)
  }

  ghost predicate Bounded(s: Failures) {
    Shaped(s) && |s.order| <= MAX_TRACKED
  }

  lemma TouchKeepsShape(s: Failures, address: Address, times: seq<Time>)
    requires Shaped(s) && 0 < |times| <= MAX_FAILURES
    ensures Shaped(Touch(s, address, times)) && |Touch(s, address, times).order| <= |s.order| + 1
    ensures address in s.times ==> |Touch(s, address, times).order| == |s.order|
  {
    WithoutIs(s.order, address);
  }

  lemma DropKeepsShape(s: Failures, address: Address)
    requires Shaped(s)
    ensures Shaped(Drop(s, address)) && |Drop(s, address).order| <= |s.order|
  {
    WithoutIs(s.order, address);
  }

  lemma RecentKeepsBounds(s: Failures, address: Address, now: Time)
    requires Bounded(s)
    ensures Bounded(Recent(s, address, now))
  {
    PruneIsShorter(Look(s, address), now);
    if Prune(Look(s, address), now) != [] {
      TouchKeepsShape(s, address, Prune(Look(s, address), now));
    } else {
      DropKeepsShape(s, address);
    }
  }

  lemma EvictOne(s: Failures)
    requires Shaped(s) && |s.order| <= MAX_TRACKED + 1
    ensures Bounded(Evict(s))
    ensures Evict(s) == if |s.order| <= MAX_TRACKED then s else Failures(s.order[1..], s.times - {s.order[0]})
  {
  }

  /** Whatever arrives: no list exceeds 10 entries, and the map never exceeds 1024 addresses. */
  lemma StepKeepsBounds(s: Failures, r: Request)
    requires Bounded(s)
    ensures Bounded(Step(s, r).0)
  {
    hide Evict, Touch, Drop, Recent;
    RecentKeepsBounds(s, r.address, r.now);
    var pruned := Recent(s, r.address, r.now);
    DropKeepsShape(pruned, r.address);
    RecentLook(s, r.address, r.now);
    if r.configured && |Prune(Look(s, r.address), r.now)| < MAX_FAILURES {
      PruneAgain(Look(s, r.address), r.now, r.now);
      RecentKeepsBounds(pruned, r.address, r.now);
      var again := Recent(pruned, r.address, r.now);
      var times := Prune(Look(pruned, r.address), r.now) + [r.now];
      TouchKeepsShape(again, r.address, times);
      EvictOne(Touch(again, r.address, times));
    }
  }

  lemma RecentLook(s: Failures, address: Address, now: Time)
    ensures Look(Recent(s, address, now), address) == Prune(Look(s, address), now)
    ensures forall a | a != address :: Look(Recent(s, address, now), a) == Look(s, a)
  {
  }

  lemma {:induction false} PlayKeepsBounds(requests: seq<Request>)
    ensures Bounded(Play(requests).0)
    decreases |requests|
  {
    hide Bounded, Step;
    if requests == [] {
      NoneIsBounded();
    } else {
      PlayKeepsBounds(requests[..|requests| - 1]);
      StepKeepsBounds(Play(requests[..|requests| - 1]).0, requests[|requests| - 1]);
    }
  }

  lemma NoneIsBounded()
    ensures Bounded(NONE)
  {
  }

  // -------------------------------------------------- quiet: nothing needed is lost

  /** From `now` on, the window of the kept list is the window of the full history. */
  ghost predicate Faithful(s: Failures, h: seq<Event>, now: Time) {
    forall a, later | later >= now :: Prune(Look(s, a), later) == Prune(Recorded(h, a), later)
  }

  /** Kept addresses are ordered by when they were last turned away, no failure being later. */
  ghost predicate InOrder(s: Failures, h: seq<Event>) {
    && (forall a | a in s.times :: TurnedAway(h, a).Some? && a in Addresses(h))
    && (forall a | a in s.times :: forall t | t in s.times[a] :: t <= TurnedAway(h, a).value)
    && (forall i, j | 0 <= i < j < |s.order| ::
          s.order[i] in s.times && s.order[j] in s.times ==> TurnedAway(h, s.order[i]).value <= TurnedAway(h, s.order[j]).value)
  }

  ghost predicate NotAfter(h: seq<Event>, now: Time) {
    forall a :: TurnedAway(h, a).Some? ==> TurnedAway(h, a).value <= now
  }

  lemma OneMore(h: seq<Event>, e: Event)
    ensures forall a | a != e.address :: Recorded(h + [e], a) == Recorded(h, a) && TurnedAway(h + [e], a) == TurnedAway(h, a)
    ensures Addresses(h + [e]) == Addresses(h) + {e.address}
    ensures e.response == Denied ==> Recorded(h + [e], e.address) == Recorded(h, e.address) + [e.now] && TurnedAway(h + [e], e.address) == Some(e.now)
    ensures e.response == Throttled ==> Recorded(h + [e], e.address) == Recorded(h, e.address) && TurnedAway(h + [e], e.address) == Some(e.now)
    ensures e.response == Accepted ==> Recorded(h + [e], e.address) == [] && TurnedAway(h + [e], e.address) == None
    ensures e.response == Closed ==> Recorded(h + [e], e.address) == Recorded(h, e.address) && TurnedAway(h + [e], e.address) == TurnedAway(h, e.address)
  {
    assert (h + [e])[..|h|] == h;
  }

  lemma WithoutKeepsOrder(s: Failures, h: seq<Event>, address: Address, i: nat, j: nat)
    requires Shaped(s) && InOrder(s, h)
    requires i < j < |Without(s.order, address)|
    ensures var kept := Without(s.order, address);
      kept[i] in s.times && kept[j] in s.times && TurnedAway(h, kept[i]).value <= TurnedAway(h, kept[j]).value
  {
    WithoutIs(s.order, address);
    var kept := Without(s.order, address);
    WithoutInOrder(s.order, address, i, j);
    assert kept[i] in kept && kept[j] in kept;
  }

  lemma {:induction false} WithoutInOrder(order: seq<Address>, address: Address, i: nat, j: nat)
    requires i < j < |Without(order, address)|
    ensures exists p, q :: 0 <= p < q < |order| && order[p] == Without(order, address)[i] && order[q] == Without(order, address)[j]
  {
    var rest := Without(order[1..], address);
    if order[0] == address {
      WithoutInOrder(order[1..], address, i, j);
      var p, q :| 0 <= p < q < |order[1..]| && order[1..][p] == rest[i] && order[1..][q] == rest[j];
      assert order[p + 1] == rest[i] && order[q + 1] == rest[j];
    } else if i == 0 {
      WithoutIn(order[1..], address, j - 1);
      var q :| 0 <= q < |order[1..]| && order[1..][q] == rest[j - 1];
      assert order[0] == Without(order, address)[0] && order[q + 1] == Without(order, address)[j];
    } else {
      WithoutInOrder(order[1..], address, i - 1, j - 1);
      var p, q :| 0 <= p < q < |order[1..]| && order[1..][p] == rest[i - 1] && order[1..][q] == rest[j - 1];
      assert order[p + 1] == rest[i - 1] && order[q + 1] == rest[j - 1];
    }
  }

  lemma {:induction false} WithoutIn(order: seq<Address>, address: Address, i: nat)
    requires i < |Without(order, address)|
    ensures Without(order, address)[i] in order
  {
    if order[0] == address {
      WithoutIn(order[1..], address, i);
    } else if i > 0 {
      WithoutIn(order[1..], address, i - 1);
    }
  }

  lemma TouchKeepsDates(s: Failures, h: seq<Event>, e: Event, times: seq<Time>)
    requires Shaped(s) && InOrder(s, h)
    requires e.response == Denied || e.response == Throttled
    requires 0 < |times| && forall t | t in times :: t <= e.now
    ensures var s', h' := Touch(s, e.address, times), h + [e];
      forall a | a in s'.times :: TurnedAway(h', a).Some? && a in Addresses(h') && forall t | t in s'.times[a] :: t <= TurnedAway(h', a).value
  {
    OneMore(h, e);
    hide Without, Recorded, TurnedAway, Addresses, NoneTwice;
  }

  lemma TouchKeepsSequence(s: Failures, h: seq<Event>, e: Event, times: seq<Time>, i: nat, j: nat)
    requires Shaped(s) && InOrder(s, h) && NotAfter(h, e.now)
    requires e.response == Denied || e.response == Throttled
    requires i < j < |Touch(s, e.address, times).order|
    ensures var order, h' := Touch(s, e.address, times).order, h + [e];
      && TurnedAway(h', order[i]).Some? && TurnedAway(h', order[j]).Some?
      && TurnedAway(h', order[i]).value <= TurnedAway(h', order[j]).value
  {
    var order := Touch(s, e.address, times).order;
    OneMore(h, e);
    WithoutIs(s.order, e.address);
    var kept := Without(s.order, e.address);
    hide Without, Recorded, TurnedAway, Addresses, NoneTwice;
    assert order[i] == kept[i] && kept[i] in kept;
    if j < |kept| {
      WithoutKeepsOrder(s, h, e.address, i, j);
      assert order[j] == kept[j] && kept[j] in kept;
    }
  }

  /** Touching an address at the end of a history that has just turned it away. */
  lemma TouchKeepsOrder(s: Failures, h: seq<Event>, e: Event, times: seq<Time>)
    requires Shaped(s) && InOrder(s, h) && NotAfter(h, e.now)
    requires e.response == Denied || e.response == Throttled
    requires 0 < |times| && forall t | t in times :: t <= e.now
    ensures InOrder(Touch(s, e.address, times), h + [e])
  {
    var s', h' := Touch(s, e.address, times), h + [e];
    TouchKeepsDates(s, h, e, times);
    hide Touch, TurnedAway, Recorded, Addresses, Shaped;
    forall i, j | 0 <= i < j < |s'.order|
      ensures TurnedAway(h', s'.order[i]).Some? && TurnedAway(h', s'.order[j]).Some?
      ensures TurnedAway(h', s'.order[i]).value <= TurnedAway(h', s'.order[j]).value
    {
      TouchKeepsSequence(s, h, e, times, i, j);
    }
  }

  lemma DropKeepsOrder(s: Failures, h: seq<Event>, e: Event)
    requires Shaped(s) && InOrder(s, h)
    ensures InOrder(Drop(s, e.address), h + [e])
  {
    var s', h' := Drop(s, e.address), h + [e];
    OneMore(h, e);
    WithoutIs(s.order, e.address);
    assert forall a | a in s'.times :: a in s.times && a != e.address;
    hide Without, Recorded, TurnedAway, NoneTwice;
    forall i, j | 0 <= i < j < |s'.order|
      ensures s'.order[i] in s'.times && s'.order[j] in s'.times ==>
              TurnedAway(h', s'.order[i]).value <= TurnedAway(h', s'.order[j]).value
    {
      WithoutKeepsOrder(s, h, e.address, i, j);
    }
  }

  /** The one entry that may have to go has not been turned away within the window. */
  lemma EvictedIsOld(s: Failures, h: seq<Event>, now: Time)
    requires Shaped(s) && InOrder(s, h) && |s.order| == MAX_TRACKED + 1
    requires |Busy(h, now)| <= MAX_TRACKED
    ensures forall t | t in s.times[s.order[0]] :: now - t >= WINDOW_S
  {
    var first := s.order[0];
    assert first in s.order;
    if now - TurnedAway(h, first).value < WINDOW_S {
      forall a | a in s.order ensures a in Busy(h, now) {
        var i :| 0 <= i < |s.order| && s.order[i] == a;
        if i > 0 { assert TurnedAway(h, s.order[0]).value <= TurnedAway(h, s.order[i]).value; }
      }
      SizeOf(s.order);
      Subset(Members(s.order), Busy(h, now));
    }
  }

  lemma Subset(a: set<Address>, b: set<Address>)
    requires a <= b
    ensures |a| <= |b|
  {
    if a != {} {
      var x :| x in a;
      Subset(a - {x}, b - {x});
    }
  }

  lemma EvictKeepsOrder(s: Failures, h: seq<Event>)
    requires Shaped(s) && InOrder(s, h) && |s.order| <= MAX_TRACKED + 1
    ensures InOrder(Evict(s), h)
  {
    EvictOne(s);
    hide Evict, TurnedAway;
  }

  /** Evicting keeps every window if and only if the one that goes is empty. */
  lemma EvictIsFaithfulIff(s: Failures, h: seq<Event>, now: Time)
    requires Shaped(s) && Faithful(s, h, now) && |s.order| <= MAX_TRACKED + 1
    ensures Faithful(Evict(s), h, now) <==> |s.order| <= MAX_TRACKED || Prune(Look(s, s.order[0]), now) == []
  {
    EvictOne(s);
    if |s.order| == MAX_TRACKED + 1 {
      var first, s' := s.order[0], Evict(s);
      assert first in s.order;
      hide Evict, Recorded;
      assert Prune(Look(s, first), now) == Prune(Recorded(h, first), now);
      if Prune(Look(s, first), now) == [] {
        forall a, later | later >= now ensures Prune(Look(s', a), later) == Prune(Recorded(h, a), later) {
          assert Prune(Look(s, a), later) == Prune(Recorded(h, a), later);
          if a == first { PruneAgain(Look(s, first), now, later); }
        }
      } else {
        assert Prune(Look(s', first), now) != Prune(Recorded(h, first), now);
      }
    }
  }

  /** What every run of requests keeps, as long as no step evicts a live entry. */
  ghost predicate Inv(s: Failures, h: seq<Event>, now: Time) {
    Bounded(s) && InOrder(s, h) && NotAfter(h, now) && Faithful(s, h, now)
  }

  lemma FaithfulAfter(s: Failures, s': Failures, h: seq<Event>, e: Event, before: Time)
    requires Faithful(s, h, before) && before <= e.now
    requires forall a | a != e.address :: Look(s', a) == Look(s, a)
    requires match e.response
      case Denied => Look(s', e.address) == Prune(Look(s, e.address), e.now) + [e.now]
      case Throttled => Look(s', e.address) == Prune(Look(s, e.address), e.now)
      case Accepted => Look(s', e.address) == []
      case Closed => Look(s', e.address) == Look(s, e.address)
    ensures Faithful(s', h + [e], e.now)
  {
    OneMore(h, e);
    hide Recorded, TurnedAway, Look;
    forall a, later | later >= e.now ensures Prune(Look(s', a), later) == Prune(Recorded(h + [e], a), later) {
      assert Prune(Look(s, a), later) == Prune(Recorded(h, a), later);
      if a == e.address {
        PruneAgain(Look(s, a), e.now, later);
        PruneAppends(Recorded(h, a), e.now, later);
        PruneAppends(Prune(Look(s, a), e.now), e.now, later);
      }
    }
  }

  lemma NotAfterMore(h: seq<Event>, e: Event, before: Time)
    requires NotAfter(h, before) && before <= e.now
    ensures NotAfter(h, e.now) && NotAfter(h + [e], e.now)
  {
    OneMore(h, e);
  }

  lemma PrunedNotAfter(s: Failures, h: seq<Event>, address: Address, now: Time)
    requires InOrder(s, h) && NotAfter(h, now)
    ensures forall t | t in Prune(Look(s, address), now) :: t <= now
  {
    PruneIsShorter(Look(s, address), now);
  }

  lemma ThrottledKeepsInv(s: Failures, h: seq<Event>, e: Event, before: Time)
    requires Inv(s, h, before) && before <= e.now && e.response == Throttled
    requires Prune(Look(s, e.address), e.now) != []
    ensures InOrder(Recent(s, e.address, e.now), h + [e]) && Faithful(Recent(s, e.address, e.now), h + [e], e.now)
  {
    NotAfterMore(h, e, before);
    PrunedNotAfter(s, h, e.address, e.now);
    RecentLook(s, e.address, e.now);
    FaithfulAfter(s, Recent(s, e.address, e.now), h, e, before);
    TouchKeepsOrder(s, h, e, Prune(Look(s, e.address), e.now));
  }

  lemma AcceptedKeepsInv(s: Failures, h: seq<Event>, e: Event, before: Time)
    requires Inv(s, h, before) && before <= e.now && e.response == Accepted
    ensures var s' := Drop(Recent(s, e.address, e.now), e.address);
      InOrder(s', h + [e]) && Faithful(s', h + [e], e.now)
  {
    var s' := Drop(Recent(s, e.address, e.now), e.address);
    assert s' == Drop(s, e.address) by {
      DropAfterRecent(s, e.address, e.now);
    }
    hide Recent;
    DropKeepsOrder(s, h, e);
    FaithfulAfter(s, s', h, e, before);
  }

  lemma DropAfterRecent(s: Failures, address: Address, now: Time)
    requires Shaped(s)
    ensures Drop(Recent(s, address, now), address) == Drop(s, address)
  {
    WithoutIs(s.order, address);
    var kept := Without(s.order, address);
    WithoutNone(kept, address);
    WithoutLast(kept, address);
    assert s.times[address := Prune(Look(s, address), now)] - {address} == s.times - {address};
    assert s.times - {address} - {address} == s.times - {address};
  }

  lemma {:induction false} WithoutLast(order: seq<Address>, address: Address)
    requires address !in order
    ensures Without(order + [address], address) == order
  {
    if order == [] {
      assert [] + [address] == [address] && [address][1..] == [];
    } else {
      assert (order + [address])[1..] == order[1..] + [address];
      WithoutLast(order[1..], address);
    }
  }

  lemma TouchedFront(s: Failures, address: Address, times: seq<Time>)
    requires Shaped(s)
    ensures var touched := Touch(s, address, times);
      && |touched.order| == (if address in s.times then |s.order| else |s.order| + 1)
      && (address !in s.times && s.order != [] ==> touched.order[0] == s.order[0] && Look(touched, s.order[0]) == Look(s, s.order[0]))
  {
    WithoutIs(s.order, address);
    if address !in s.times {
      WithoutNone(s.order, address);
      if s.order != [] { assert s.order[0] in s.order; }
    }
  }

  lemma DeniedKeepsOrder(s: Failures, h: seq<Event>, e: Event, before: Time)
    requires Inv(s, h, before) && before <= e.now && e.response == Denied
    requires |Prune(Look(s, e.address), e.now)| < MAX_FAILURES
    ensures var touched := Touch(s, e.address, Prune(Look(s, e.address), e.now) + [e.now]);
      && Shaped(touched) && InOrder(touched, h + [e]) && Faithful(touched, h + [e], e.now)
      && Record(Recent(s, e.address, e.now), e.address, e.now) == Evict(touched)
  {
    var times := Prune(Look(s, e.address), e.now) + [e.now];
    NotAfterMore(h, e, before);
    PrunedNotAfter(s, h, e.address, e.now);
    hide InOrder, Recent, Record, Evict, Recorded, TurnedAway, Without;
    RecordIsTouch(s, e.address, e.now);
    TouchKeepsOrder(s, h, e, times);
    TouchKeepsShape(s, e.address, times);
    FaithfulAfter(s, Touch(s, e.address, times), h, e, before);
  }

  lemma RecordIsTouch(s: Failures, address: Address, now: Time)
    requires Shaped(s)
    ensures Record(Recent(s, address, now), address, now) == Evict(Touch(s, address, Prune(Look(s, address), now) + [now]))
  {
    var pruned := Recent(s, address, now);
    RecentLook(s, address, now);
    PruneAgain(Look(s, address), now, now);
    var times := Prune(Look(s, address), now) + [now];
    TouchAfterRecent(s, address, now, times);
    WithoutRecent(s, address, now);
    TouchAfterRecent(pruned, address, now, times);
  }

  lemma TouchAfterRecent(s: Failures, address: Address, now: Time, times: seq<Time>)
    requires NoneTwice(s.order)
    ensures Touch(Recent(s, address, now), address, times) == Touch(s, address, times)
  {
    WithoutRecent(s, address, now);
    assert (s.times - {address})[address := times] == s.times[address := times];
  }

  lemma WithoutRecent(s: Failures, address: Address, now: Time)
    requires NoneTwice(s.order)
    ensures Without(Recent(s, address, now).order, address) == Without(s.order, address)
    ensures NoneTwice(Recent(s, address, now).order)
  {
    WithoutIs(s.order, address);
    WithoutNone(Without(s.order, address), address);
    WithoutLast(Without(s.order, address), address);
  }

  /** The eviction loop is entered, and the oldest entry still holds a failure within the window. */
  predicate EvictsLive(s: Failures, r: Request) {
    Step(s, r).1 == Denied && |s.order| == MAX_TRACKED && r.address !in s.times && Prune(Look(s, s.order[0]), r.now) != []
  }

  lemma DeniedIsFaithfulIff(s: Failures, h: seq<Event>, e: Event, before: Time)
    requires Inv(s, h, before) && before <= e.now && e.response == Denied
    requires |Prune(Look(s, e.address), e.now)| < MAX_FAILURES
    ensures var s' := Record(Recent(s, e.address, e.now), e.address, e.now);
      && InOrder(s', h + [e])
      && (Faithful(s', h + [e], e.now) <==>
          !(|s.order| == MAX_TRACKED && e.address !in s.times && Prune(Look(s, s.order[0]), e.now) != []))
  {
    DeniedKeepsOrder(s, h, e, before);
    var touched := Touch(s, e.address, Prune(Look(s, e.address), e.now) + [e.now]);
    TouchedFront(s, e.address, Prune(Look(s, e.address), e.now) + [e.now]);
    hide Touch, Recent, Evict, Record, InOrder, Faithful, Prune, Look, NotAfter;
    EvictKeepsOrder(touched, h + [e]);
    EvictIsFaithfulIff(touched, h + [e], e.now);
  }

  /**
   One request: the map goes on holding every window of the full history if and only if the
   request does not put a live address out. The rest of the invariant is kept regardless.
   */
  lemma StepIsFaithfulIff(s: Failures, h: seq<Event>, before: Time, r: Request)
    requires Inv(s, h, before) && before <= r.now
    ensures var (s', response) := Step(s, r);
      var h' := h + [Event(r.address, r.now, response)];
      && Bounded(s') && InOrder(s', h') && NotAfter(h', r.now)
      && (Faithful(s', h', r.now) <==> !EvictsLive(s, r))
  {
    var e := Event(r.address, r.now, Step(s, r).1);
    StepKeepsBounds(s, r);
    NotAfterMore(h, e, before);
    hide Bounded, InOrder, Faithful, NotAfter, Record, Recent, Drop;
    match e.response
    case Closed =>
      FaithfulAfter(s, s, h, e, before);
      ClosedKeepsOrder(s, h, e);
    case Throttled => ThrottledKeepsInv(s, h, e, before);
    case Denied => DeniedIsFaithfulIff(s, h, e, before);
    case Accepted => AcceptedKeepsInv(s, h, e, before);
  }

  /** With few addresses turned away lately, whoever is evicted is not live. */
  lemma BusyBoundSparesTheLive(s: Failures, h: seq<Event>, before: Time, r: Request)
    requires Inv(s, h, before) && before <= r.now
    requires var e := Event(r.address, r.now, Step(s, r).1); |Busy(h + [e], r.now)| <= MAX_TRACKED
    ensures !EvictsLive(s, r)
  {
    if EvictsLive(s, r) {
      var e := Event(r.address, r.now, Denied);
      DeniedKeepsOrder(s, h, e, before);
      var touched := Touch(s, r.address, Prune(Look(s, r.address), r.now) + [r.now]);
      TouchedFront(s, r.address, Prune(Look(s, r.address), r.now) + [r.now]);
      hide Touch, Recent, Record, Evict, InOrder, Faithful, Busy, Step;
      EvictedIsOld(touched, h + [e], r.now);
      assert touched.order[0] in touched.order;
      AllOld(touched.times[touched.order[0]], r.now);
      assert false;
    }
  }

  lemma ClosedKeepsOrder(s: Failures, h: seq<Event>, e: Event)
    requires InOrder(s, h) && e.response == Closed
    ensures InOrder(s, h + [e])
  {
    OneMore(h, e);
  }

  /** No request of the series puts a live address out. */
  predicate SparesTheLive(requests: seq<Request>)
    decreases |requests|
  {
    requests == [] ||
    (SparesTheLive(requests[..|requests| - 1]) && !EvictsLive(Play(requests[..|requests| - 1]).0, requests[|requests| - 1]))
  }

  /** At every point of the series the map holds every window of the full history. */
  ghost predicate AlwaysFaithful(requests: seq<Request>)
    decreases |requests|
  {
    requests == [] ||
    (AlwaysFaithful(requests[..|requests| - 1]) && Faithful(Play(requests).0, Play(requests).1, requests[|requests| - 1].now))
  }

  predicate NotBefore(now: Time, requests: seq<Request>) {
    requests != [] ==> requests[|requests| - 1].now <= now
  }

  lemma InvLater(s: Failures, h: seq<Event>, now: Time, later: Time)
    requires Inv(s, h, now) && now <= later
    ensures Inv(s, h, later)
  {
  }

  lemma NothingInv(now: Time)
    ensures Inv(NONE, [], now)
  {
  }

  /** While every window is held the whole invariant is, at the last request and ever after. */
  lemma {:induction false} FaithfulMeansInv(requests: seq<Request>, now: Time)
    requires Clock(requests) && AlwaysFaithful(requests) && NotBefore(now, requests)
    ensures Inv(Play(requests).0, Play(requests).1, now)
    decreases |requests|
  {
    hide Step, Bounded, InOrder, NotAfter, Faithful, EvictsLive;
    if requests == [] {
      NothingInv(now);
    } else {
      var front, r := requests[..|requests| - 1], requests[|requests| - 1];
      FaithfulMeansInv(front, r.now);
      StepIsFaithfulIff(Play(front).0, Play(front).1, r.now, r);
      InvLater(Play(requests).0, Play(requests).1, r.now, now);
    }
  }

  /** Over any series of requests: every window is always held if and only if no request puts a live address out. */
  lemma {:induction false} FaithfulIffTheLiveAreSpared(requests: seq<Request>)
    requires Clock(requests)
    ensures AlwaysFaithful(requests) <==> SparesTheLive(requests)
    decreases |requests|
  {
    hide Step, Faithful, EvictsLive, Inv;
    if requests != [] {
      var front, r := requests[..|requests| - 1], requests[|requests| - 1];
      FaithfulIffTheLiveAreSpared(front);
      if AlwaysFaithful(front) {
        FaithfulMeansInv(front, r.now);
        StepIsFaithfulIff(Play(front).0, Play(front).1, r.now, r);
      }
    }
  }

  /** A quiet series spares the live. */
  lemma {:induction false} QuietSparesTheLive(requests: seq<Request>)
    requires Clock(requests) && Quiet(requests)
    ensures SparesTheLive(requests)
    decreases |requests|
  {
    hide Step, Faithful, EvictsLive, Inv, Busy;
    if requests != [] {
      var front, r := requests[..|requests| - 1], requests[|requests| - 1];
      QuietSparesTheLive(front);
      FaithfulIffTheLiveAreSpared(front);
      FaithfulMeansInv(front, r.now);
      BusyBoundSparesTheLive(Play(front).0, Play(front).1, r.now, r);
    }
  }

  /**
   While no request puts a live address out, the bounded map decides as the full history
   would: 429 exactly if the address has 10 recorded failures in the last 300 seconds since
   its last success.
   */
  lemma ThrottledExactlyAtTen(requests: seq<Request>, next: Request)
    requires Clock(requests + [next]) && SparesTheLive(requests) && next.configured
    ensures var (s, h) := Play(requests);
      Step(s, next).1 == Throttled <==> |LessThanFiveMinutesOld(Recorded(h, next.address), next.now)| >= 10
  {
    assert forall i | 0 <= i < |requests| :: (requests + [next])[i] == requests[i];
    assert (requests + [next])[|requests|] == next;
    FaithfulIffTheLiveAreSpared(requests);
    FaithfulMeansInv(requests, next.now);
    var (s, h) := Play(requests);
    hide Recorded, Play, Bounded, AlwaysFaithful, SparesTheLive;
    assert Prune(Look(s, next.address), next.now) == Prune(Recorded(h, next.address), next.now);
    PruneCounts(Recorded(h, next.address), next.now);
  }

  /** In particular while no more than 1024 addresses are turned away within one window. */
  lemma ThrottledExactlyAtTenIfQuiet(requests: seq<Request>, next: Request)
    requires Clock(requests + [next]) && Quiet(requests) && next.configured
    ensures var (s, h) := Play(requests);
      Step(s, next).1 == Throttled <==> |LessThanFiveMinutesOld(Recorded(h, next.address), next.now)| >= 10
  {
    hide Quiet, Play, Step, Prune, Recorded, LessThanFiveMinutesOld;
    assert forall i | 0 <= i < |requests| :: (requests + [next])[i] == requests[i];
    QuietSparesTheLive(requests);
    ThrottledExactlyAtTen(requests, next);
  }

  /** So no window without a success in it holds more than 10 recorded failures of one address. */
  lemma TenPerWindow(requests: seq<Request>, address: Address, now: Time)
    requires Clock(requests) && SparesTheLive(requests) && NotBefore(now, requests)
    ensures |LessThanFiveMinutesOld(Recorded(Play(requests).1, address), now)| <= 10
  {
    FaithfulIffTheLiveAreSpared(requests);
    FaithfulMeansInv(requests, now);
    var (s, h) := Play(requests);
    PruneIsShorter(Look(s, address), now);
    hide Recorded, Play, AlwaysFaithful, SparesTheLive;
    assert Prune(Look(s, address), now) == Prune(Recorded(h, address), now);
    PruneCounts(Recorded(h, address), now);
  }

  // ------------------------------------------------------------------ in place

  /** The module's `_failures`, pruned, appended to, reordered and evicted in place. */
  class FailureMap {
    var order: seq<Address>
    var times: map<Address, seq<Time>>

    constructor ()
      ensures Contents() == NONE
    {
      order, times := [], map[];
    }

    function Contents(): Failures
      reads this
    {
      Failures(order, times)
    }

    method PruneNow(address: Address, now: Time) returns (recent: seq<Time>)
      ensures recent == Prune(Look(Contents(), address), now)
    {
      var all := if address in times then times[address] else [];
      recent := [];
      assert all[0..] == all;
      for i := 0 to |all|
        invariant Prune(all, now) == recent + Prune(all[i..], now)
      {
        assert all[i..][0] == all[i] && all[i..][1..] == all[i + 1..];
        if now - all[i] < WINDOW_S {
          recent := recent + [all[i]];
        }
      }
      assert recent + [] == recent;
    }

    method RecentNow(address: Address, now: Time) returns (recent: seq<Time>)
      modifies this
      ensures Contents() == Recent(old(Contents()), address, now)
      ensures recent == Prune(Look(old(Contents()), address), now)
    {
      recent := PruneNow(address, now);
      if recent != [] {
        times := times[address := recent];
        order := Without(order, address) + [address];
      } else {
        times := times - {address};
        order := Without(order, address);
      }
    }

    method RecordFailure(address: Address, now: Time)
      modifies this
      ensures Contents() == Record(old(Contents()), address, now)
    {
      var recent := RecentNow(address, now);
      times := times[address := recent + [now]];
      order := Without(order, address) + [address];
      while |order| > MAX_TRACKED
        invariant Evict(Contents()) == Record(old(Contents()), address, now)
        decreases |order|
      {
        times := times - {order[0]};
        order := order[1..];
      }
    }

    method RequireApiKey(r: Request) returns (response: Response)
      modifies this
      ensures (Contents(), response) == Step(old(Contents()), r)
    {
      hide Prune, Recent, Record;
      if !r.configured {
        return Closed;
      }
      var recent := RecentNow(r.address, r.now);
      if |recent| >= MAX_FAILURES {
        return Throttled;
      }
      if !r.good {
        RecordFailure(r.address, r.now);
        return Denied;
      }
      times := times - {r.address};
      order := Without(order, r.address);
      return Accepted;
    }
  }
}
