/**
 Why bounding the addresses with a failure in the window does not keep `Throttle` from
 putting one of them out: a refused request moves its address to the end of the map without
 recording anything, so an address whose failures have all expired can outlive one whose
 have not.
 */
module ThrottleLimits {
  import opened Throttle

  /** The addresses with a recorded failure still inside the window. */
  function Live(h: seq<Event>, now: Time): set<Address> {
    set a | a in Addresses(h) && Prune(Recorded(h, a), now) != []
  }

  /** At no point were more than `MAX_TRACKED` addresses live. */
  predicate FewLive(requests: seq<Request>)
    decreases |requests|
  {
    requests == [] ||
    (FewLive(requests[..|requests| - 1]) && |Live(Play(requests).1, requests[|requests| - 1].now)| <= MAX_TRACKED)
  }

  lemma PlayMore(front: seq<Request>, r: Request)
    ensures var (s, h) := Play(front);
      Play(front + [r]) == (Step(s, r).0, h + [Event(r.address, r.now, Step(s, r).1)])
    ensures FewLive(front + [r]) <==> FewLive(front) && |Live(Play(front + [r]).1, r.now)| <= MAX_TRACKED
  {
    assert (front + [r])[..|front|] == front;
  }

  // ------------------------------------------------------------------ the scenario

  function Repeat(r: Request, n: nat): seq<Request> {
    if n == 0 then [] else Repeat(r, n - 1) + [r]
  }

  function Times(t: Time, n: nat): seq<Time> {
    if n == 0 then [] else Times(t, n - 1) + [t]
  }

  function Bad(address: Address, now: Time): Request {
    Request(address, true, false, now)
  }

  /** The `k`-th of many other addresses. */
  function Other(k: nat): Address {
    if k == 0 then "x" else Other(k - 1) + "x"
  }

  function Others(n: nat): seq<Request> {
    if n == 0 then [] else Others(n - 1) + [Bad(Other(n - 1), 310.0)]
  }

  function OtherOrder(n: nat): seq<Address> {
    if n == 0 then [] else OtherOrder(n - 1) + [Other(n - 1)]
  }

  /** "b" fails `m` times at 0, "a" `m` times at 100, "b" is refused at 299, and `n` others fail at 310. */
  function Scenario(m: nat, n: nat): seq<Request> {
    Prelude(m) + Others(n)
  }

  function Prelude(m: nat): seq<Request> {
    Repeat(Bad("b", 0.0), m) + Repeat(Bad("a", 100.0), m) + [Bad("b", 299.0)]
  }

  lemma {:induction false} OtherLength(k: nat)
    ensures |Other(k)| == k + 1 && Other(k)[0] == 'x'
  {
    if k > 0 { OtherLength(k - 1); }
  }

  lemma {:induction false} PruneTimes(t: Time, n: nat, now: Time)
    ensures Prune(Times(t, n), now) == if now - t < WINDOW_S then Times(t, n) else []
    ensures |Times(t, n)| == n
  {
    if n > 0 {
      PruneTimes(t, n - 1, now);
      PruneAppends(Times(t, n - 1), t, now);
    }
  }

  /** Where a series of requests leads, few addresses being live throughout. */
  ghost predicate Leads(requests: seq<Request>, s: Failures, h: seq<Event>) {
    Play(requests) == (s, h) && FewLive(requests)
  }

  lemma LeadsOn(requests: seq<Request>, s: Failures, h: seq<Event>, r: Request, s': Failures, response: Response, allowed: set<Address>)
    requires Leads(requests, s, h) && Step(s, r) == (s', response)
    requires Live(h + [Event(r.address, r.now, response)], r.now) <= allowed && |allowed| <= MAX_TRACKED
    ensures Leads(requests + [r], s', h + [Event(r.address, r.now, response)])
  {
    hide Step, FewLive;
    PlayMore(requests, r);
    Subset(Live(h + [Event(r.address, r.now, response)], r.now), allowed);
  }

  lemma {:induction false} NeverSeen(h: seq<Event>, address: Address)
    requires address !in Addresses(h)
    ensures Recorded(h, address) == []
    decreases |h|
  {
    if h != [] {
      var n := |h| - 1;
      assert h[n].address in Addresses(h);
      assert Addresses(h[..n]) <= Addresses(h);
      NeverSeen(h[..n], address);
    }
  }

  lemma LookAtNone(s: Failures, address: Address)
    requires Shaped(s) && address !in s.order
    ensures Look(s, address) == []
  {
  }

  /** The `k + 1`st failure at one moment of an address that is last in the map, or not in it. */
  lemma StepFails(s: Failures, order: seq<Address>, address: Address, t: Time, k: nat)
    requires Shaped(s) && address !in order && |order| < MAX_TRACKED && k < MAX_FAILURES
    requires s.order == (if k == 0 then order else order + [address]) && Look(s, address) == Times(t, k)
    ensures var s' := Failures(order + [address], s.times[address := Times(t, k + 1)]);
      Step(s, Bad(address, t)) == (s', Denied) && Shaped(s')
  {
    PruneTimes(t, k, t);
    PruneTimes(t, k + 1, t);
    RecordIsTouch(s, address, t);
    if k == 0 { WithoutNone(order, address); } else { WithoutLast(order, address); }
    hide Recent, Record, Prune;
    TouchKeepsShape(s, address, Times(t, k + 1));
    EvictOne(Touch(s, address, Times(t, k + 1)));
  }

  /** `n` failures in a row of a new address. */
  lemma {:induction false} FailInARow(requests: seq<Request>, s: Failures, h: seq<Event>, address: Address, t: Time, n: nat)
      returns (h': seq<Event>)
    requires Leads(requests, s, h) && Shaped(s) && 0 < n <= MAX_FAILURES
    requires address !in s.order && address !in Addresses(h)
    requires |s.order| < MAX_TRACKED && |Addresses(h) + {address}| <= MAX_TRACKED
    ensures var s' := Failures(s.order + [address], s.times[address := Times(t, n)]);
      Leads(requests + Repeat(Bad(address, t), n), s', h') && Shaped(s')
    ensures Addresses(h') == Addresses(h) + {address} && Recorded(h', address) == Times(t, n)
    ensures forall a | a != address :: Recorded(h', a) == Recorded(h, a)
    decreases n
  {
    hide *;
    var before, s1, h1 := requests, s, h;
    var s' := Failures(s.order + [address], s.times[address := Times(t, n)]);
    var e := Event(address, t, Denied);
    RepeatMore(requests, Bad(address, t), n - 1);
    if n == 1 {
      NeverSeen(h, address);
      LookAtNone(s, address);
      NoTimes(t);
    } else {
      before := requests + Repeat(Bad(address, t), n - 1);
      h1 := FailInARow(requests, s, h, address, t, n - 1);
      s1 := Failures(s.order + [address], s.times[address := Times(t, n - 1)]);
      LookAtLast(s1, address);
    }
    assert s1.times[address := Times(t, n)] == s.times[address := Times(t, n)];
    StepFails(s1, s.order, address, t, n - 1);
    OneMore(h1, e);
    TimesMore(t, n - 1);
    h' := h1 + [e];
    LiveAreSeen(h', t);
    BadIs(address, t);
    assert Addresses(h') == Addresses(h) + {address};
    LeadsOn(before, s1, h1, Bad(address, t), s', Denied, Addresses(h) + {address});
  }

  lemma RepeatMore(requests: seq<Request>, r: Request, n: nat)
    ensures requests + Repeat(r, n + 1) == (if n == 0 then requests else requests + Repeat(r, n)) + [r]
  {
  }

  lemma BadIs(address: Address, t: Time)
    ensures Bad(address, t) == Request(address, true, false, t)
  {
  }

  lemma NoTimes(t: Time)
    ensures Times(t, 0) == []
  {
  }

  lemma TimesMore(t: Time, n: nat)
    ensures Times(t, n + 1) == Times(t, n) + [t]
  {
  }

  lemma LookAtLast(s: Failures, address: Address)
    ensures address in s.times ==> Look(s, address) == s.times[address]
  {
  }

  lemma LiveAreSeen(h: seq<Event>, now: Time)
    ensures Live(h, now) <= Addresses(h)
  {
  }

  // ------------------------------------------------------------------- step by step

  function Two(m: nat): map<Address, seq<Time>> {
    map["b" := Times(0.0, m), "a" := Times(100.0, m)]
  }

  lemma Nobody()
    ensures Leads([], Failures([], map[]), []) && Shaped(Failures([], map[])) && Addresses([]) == {}
  {
  }

  lemma TwoIs(m: nat)
    ensures Two(m) == map["b" := Times(0.0, m), "a" := Times(100.0, m)]
  {
    hide Times;
  }

  lemma Limits()
    ensures MAX_TRACKED == 1024 && MAX_FAILURES == 10
  {
  }

  lemma Begun(m: nat) returns (h: seq<Event>)
    requires m == MAX_FAILURES
    ensures Leads(Repeat(Bad("b", 0.0), m) + Repeat(Bad("a", 100.0), m), Failures(["b", "a"], Two(m)), h)
    ensures Shaped(Failures(["b", "a"], Two(m))) && Addresses(h) == {"a", "b"}
    ensures Recorded(h, "a") == Times(100.0, m) && Recorded(h, "b") == Times(0.0, m)
  {
    hide *;
    Nobody();
    Limits();
    var nobody := Failures([], map[]);
    var first := Repeat(Bad("b", 0.0), m);
    var h1 := FailInARow([], nobody, [], "b", 0.0, m);
    assert [] + first == first;
    var s1 := Failures([] + ["b"], map["b" := Times(0.0, m)]);
    assert nobody.times["b" := Times(0.0, m)] == s1.times;
    h := FailInARow(first, s1, h1, "a", 100.0, m);
    assert [] + ["b"] + ["a"] == ["b", "a"];
    TwoIs(m);
    assert s1.times["a" := Times(100.0, m)] == map["b" := Times(0.0, m), "a" := Times(100.0, m)];
  }

  /** "b" is refused, which moves it behind "a". */
  lemma StepRefused(m: nat)
    requires m == MAX_FAILURES && Shaped(Failures(["b", "a"], Two(m)))
    ensures Step(Failures(["b", "a"], Two(m)), Bad("b", 299.0)) == (Failures(["a", "b"], Two(m)), Throttled)
    ensures Shaped(Failures(["a", "b"], Two(m)))
  {
    PruneTimes(0.0, m, 299.0);
    BehindA();
    hide Times, Prune;
    assert Two(m)["b" := Times(0.0, m)] == Two(m);
    TouchKeepsShape(Failures(["b", "a"], Two(m)), "b", Times(0.0, m));
  }

  lemma BehindA()
    ensures Without(["b", "a"], "b") + ["b"] == ["a", "b"]
  {
    assert ["b", "a"][1..] == ["a"] && ["a"][1..] == [];
  }

  lemma {:induction false} OthersAreNew(n: nat, k: nat)
    ensures Other(k) in OtherOrder(n) <==> k < n
    ensures "a" !in OtherOrder(n) && "b" !in OtherOrder(n) && |OtherOrder(n)| == n
  {
    OtherLength(k);
    if n > 0 {
      OthersAreNew(n - 1, k);
      OtherLength(n - 1);
    }
  }

  /** What `n` others leave while there is room. */
  ghost predicate Crowded(m: nat, n: nat, s: Failures, h: seq<Event>) {
    && Leads(Scenario(m, n), s, h) && Shaped(s)
    && s.order == ["a", "b"] + OtherOrder(n)
    && Addresses(h) == {"a", "b"} + Members(OtherOrder(n))
    && Recorded(h, "a") == Times(100.0, m) && Recorded(h, "b") == Times(0.0, m)
  }

  lemma NobodyYet(m: nat) returns (s: Failures, h: seq<Event>)
    requires m == MAX_FAILURES
    ensures Crowded(m, 0, s, h)
  {
    hide Times, Repeat, Leads, Recorded, TurnedAway, Step, Shaped, Scenario, Two, Live, Addresses, Bad, Other, Prune;
    var before := Repeat(Bad("b", 0.0), m) + Repeat(Bad("a", 100.0), m);
    var e := Event("b", 299.0, Throttled);
    ScenarioStart(m);
    var h0 := Begun(m);
    StepRefused(m);
    s := Failures(["a", "b"], Two(m));
    h := h0 + [e];
    OneMore(h0, e);
    LiveAreSeen(h, 299.0);
    BadIs("b", 299.0);
    LeadsOn(before, Failures(["b", "a"], Two(m)), h0, Bad("b", 299.0), s, Throttled, {"a", "b"});
    assert ["a", "b"] + OtherOrder(0) == ["a", "b"];
    assert Members(OtherOrder(0)) == {};
  }

  lemma ScenarioStart(m: nat)
    ensures Scenario(m, 0) == Repeat(Bad("b", 0.0), m) + Repeat(Bad("a", 100.0), m) + [Bad("b", 299.0)]
  {
    assert Prelude(m) + Others(0) == Prelude(m);
  }

  lemma {:induction false} Crowd(m: nat, n: nat) returns (s: Failures, h: seq<Event>)
    requires m == MAX_FAILURES && n <= MAX_TRACKED - 2
    ensures Crowded(m, n, s, h)
    decreases n
  {
    hide *;
    if n == 0 {
      s, h := NobodyYet(m);
    } else {
      s, h := Crowd(m, n - 1);
      s, h := CrowdMore(m, n, s, h);
    }
  }

  lemma ScenarioMore(m: nat, n: nat)
    ensures Scenario(m, n + 1) == Scenario(m, n) + [Bad(Other(n), 310.0)]
  {
    hide Prelude, Other, Bad;
    assert Prelude(m) + (Others(n) + [Bad(Other(n), 310.0)]) == Prelude(m) + Others(n) + [Bad(Other(n), 310.0)];
  }

  lemma OrderMore(n: nat)
    ensures OtherOrder(n + 1) == OtherOrder(n) + [Other(n)]
    ensures Members(OtherOrder(n + 1)) == Members(OtherOrder(n)) + {Other(n)}
  {
    hide Other;
  }

  lemma OtherMore(m: nat, n: nat)
    requires n > 0
    ensures Scenario(m, n) == Scenario(m, n - 1) + [Bad(Other(n - 1), 310.0)]
    ensures OtherOrder(n) == OtherOrder(n - 1) + [Other(n - 1)]
    ensures Members(OtherOrder(n)) == Members(OtherOrder(n - 1)) + {Other(n - 1)}
    ensures Other(n - 1) !in OtherOrder(n - 1) && Other(n - 1) != "a" && Other(n - 1) != "b"
    ensures |{"a", "b"} + Members(OtherOrder(n))| <= n + 2 && |{"a"} + Members(OtherOrder(n))| <= n + 1
  {
    hide Scenario, Other, OtherOrder, Members, Bad;
    ScenarioMore(m, n - 1);
    OrderMore(n - 1);
    OtherLength(n - 1);
    OthersAreNew(n - 1, n - 1);
    OthersAreNew(n, 0);
    MembersCount(OtherOrder(n));
    SizesAdd({"a", "b"}, Members(OtherOrder(n)));
    SizesAdd({"a"}, Members(OtherOrder(n)));
  }

  lemma SizesAdd(a: set<Address>, b: set<Address>)
    ensures |a + b| <= |a| + |b|
  {
    assert a + b == a + (b - a);
    Subset(b - a, b);
  }

  lemma {:induction false} MembersCount(order: seq<Address>)
    ensures |Members(order)| <= |order|
  {
    if order != [] {
      MembersCount(order[1..]);
      assert Members(order) == Members(order[1..]) + {order[0]};
    }
  }

  lemma CrowdMore(m: nat, n: nat, s: Failures, h: seq<Event>) returns (s': Failures, h': seq<Event>)
    requires 0 < n <= MAX_TRACKED - 2 && Crowded(m, n - 1, s, h)
    ensures Crowded(m, n, s', h')
  {
    hide Scenario, Leads, Recorded, Other, OtherOrder, Members, Times, Repeat, Shaped, Addresses;
    var address := Other(n - 1);
    OtherMore(m, n);
    OthersAreNew(n - 1, 0);
    OneRepeat(Bad(address, 310.0));
    MembersAre(OtherOrder(n - 1), address);
    assert {"a", "b"} + Members(OtherOrder(n)) == Addresses(h) + {address};
    h' := FailInARow(Scenario(m, n - 1), s, h, address, 310.0, 1);
    s' := Failures(s.order + [address], s.times[address := Times(310.0, 1)]);
    assert ["a", "b"] + OtherOrder(n) == s.order + [address];
  }

  lemma MembersAre(order: seq<Address>, address: Address)
    ensures address in Members(order) <==> address in order
  {
  }

  lemma OneRepeat(r: Request)
    ensures Repeat(r, 1) == [r]
  {
    assert Repeat(r, 0) == [];
  }

  /** A newcomer to a full map with "a" in front puts "a" out. */
  lemma Evicts(s: Failures, address: Address) returns (s': Failures)
    requires Shaped(s) && |s.order| == MAX_TRACKED && s.order[0] == "a" && address !in s.order
    ensures Step(s, Bad(address, 310.0)) == (s', Denied) && Step(s', Bad("a", 320.0)).1 == Denied
  {
    LookAtNone(s, address);
    RecordIsTouch(s, address, 310.0);
    WithoutNone(s.order, address);
    assert [] + [310.0] == [310.0];
    var touched := Touch(s, address, [310.0]);
    TouchKeepsShape(s, address, [310.0]);
    EvictOne(touched);
    hide Recent, Record, Evict;
    s' := Evict(touched);
    assert touched.order[0] == "a" && "a" !in s'.times;
  }

  /**
   1024 live addresses at most at every point, and yet: "a" has ten failures of the last
   220 seconds, and is not made to wait.
   */
  lemma CountingTheLiveIsNotEnough()
    ensures var requests := Scenario(MAX_FAILURES, MAX_TRACKED - 1); var (s, h) := Play(requests);
      && FewLive(requests)
      && |Prune(Recorded(h, "a"), 320.0)| == MAX_FAILURES
      && Step(s, Bad("a", 320.0)).1 == Denied
  {
    var m, n := MAX_FAILURES, MAX_TRACKED - 1;
    var s, h := Crowd(m, n - 1);
    OtherMore(m, n);
    OthersAreNew(n - 1, 0);
    var e := Event(Other(n - 1), 310.0, Denied);
    OneMore(h, e);
    PruneTimes(100.0, m, 320.0);
    PruneTimes(0.0, m, 310.0);
    hide Scenario, Play, FewLive, Recorded, Times, Other, OtherOrder, Step, Prune, Members, Shaped;
    var s' := Evicts(s, e.address);
    assert Live(h + [e], 310.0) <= {"a"} + Members(OtherOrder(n));
    LeadsOn(Scenario(m, n - 1), s, h, Bad(e.address, 310.0), s', Denied, {"a"} + Members(OtherOrder(n)));
  }
}
