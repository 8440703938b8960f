/** Runs from the start whose next event does not return, or goes on with freed memory. */
module ArpWitness {
  import opened Words
  import opened ArpSpec
  import opened ArpQueue
  import opened ArpSearch
  import opened ArpVisit
  import opened ArpBalance
  import opened ArpReturn
  import opened ArpSweep
  import opened ArpRuns
  import opened ArpTheorems

  /** Two datagrams for two next hops that never answer: one broadcast on queueing, four by sweeps. */
  const P1 := Packet(Datagram(1, 100), 0)
  const P2 := Packet(Datagram(2, 200), 0)

  const Silence: Run := [
    (Forwarding(P2, 2), 2), (Forwarding(P1, 1), 2), (Sweeping, 4), (Sweeping, 6), (Sweeping, 8), (Sweeping, 10)]

  /** The times of the first `n` broadcasts. */
  function Times(n: nat): seq<int> { seq(n, i => 2 + 2 * i) }

  function Asked(hop: Ip, p: Packet, n: nat): Request
    requires n > 0
  {
    Request(hop, 2 * n, n, [p], Times(n))
  }

  /** The state after the first datagram. */
  function One(): State {
    var one := multiset{(P2, 2)};
    State(NoEntries(), [Asked(2, P2, 1)], [], [], [], one, one, [], [], {}, [], None)
  }

  /** The state after `n` broadcasts of both. */
  function Waited(n: nat): State
    requires n > 0
  {
    var both := multiset{(P2, 2), (P1, 1)};
    State(NoEntries(), [Asked(1, P1, n), Asked(2, P2, n)], [], [], [], both, both, [], [], {}, [],
      if n == 1 then None else Some(2 * n))
  }

  lemma {:induction false} NothingCached(ip: Ip)
    ensures Lookup(NoEntries(), ip) == None
  {
    LookupHit(NoEntries(), ip);
  }

  lemma {:induction false} NothingAges(now: int)
    ensures ExpireEntries(NoEntries(), now) == NoEntries()
  {
  }

  lemma {:induction false} IndexTwo(r1: Request, r2: Request)
    requires r1.ip != r2.ip
    ensures Index([r1, r2], r1.ip) == 0 && Index([r1, r2], r2.ip) == 1
    ensures Index([r1], r1.ip) == 0 && (forall x: Ip :: x != r1.ip ==> Index([r1], x) == 1)
    ensures forall x: Ip :: x != r1.ip && x != r2.ip ==> Index([r1, r2], x) == 2
  {
  }

  /** A visit of a request that is due and has attempts left is one more broadcast. */
  lemma {:induction false} VisitAsks(env: Env, st: State, ip: Ip, now: int)
    requires Pending(st, ip) && Due(RequestFor(st, ip), now) && RequestFor(st, ip).times < ATTEMPTS
    ensures Visit(env, st, ip, now) == Some(Ask(st, ip, now))
  {
    hide HandleAll, Index, Ask;
  }

  lemma {:induction false} FirstForward(env: Env)
    ensures Do(env, Empty, Forwarding(P2, 2), 2) == Done(One())
  {
    NothingCached(2);
    hide Lookup, Visit;
    var st := Enqueue(Empty.(forwarded := Empty.forwarded + multiset{(P2, 2)}), 2, P2);
    assert st.requests == [Request(2, 0, 0, [P2], [])];
    VisitAsks(env, st, 2, 2);
    assert Times(1) == [2] == [] + [2];
  }

  lemma {:induction false} SecondForward(env: Env)
    ensures Do(env, Do(env, Empty, Forwarding(P2, 2), 2).st, Forwarding(P1, 1), 2) == Done(Waited(1))
  {
    FirstForward(env);
    NothingCached(1);
    hide Lookup, Visit;
    var st0 := Do(env, Empty, Forwarding(P2, 2), 2).st;
    var st := Enqueue(st0.(forwarded := st0.forwarded + multiset{(P1, 1)}), 1, P1);
    IndexTwo(Request(1, 0, 0, [P1], []), Asked(2, P2, 1));
    IndexTwo(Asked(2, P2, 1), Request(1, 0, 0, [P1], []));
    hide Index;
    assert st.requests == [Request(1, 0, 0, [P1], []), Asked(2, P2, 1)];
    VisitAsks(env, st, 1, 2);
    assert Times(1) == [2] == [] + [2];
  }

  lemma {:induction false} AnotherSweep(env: Env, n: nat)
    requires 0 < n < 5
    ensures Do(env, Waited(n), Sweeping, 2 * n + 2) == Done(Waited(n + 1))
  {
    var now := 2 * n + 2;
    NothingAges(now);
    var st := AgeCache(Waited(n), now);
    assert st == Waited(n).(swept := Some(now));
    IndexTwo(Asked(1, P1, n), Asked(2, P2, n));
    IndexTwo(Asked(1, P1, n + 1), Asked(2, P2, n));
    hide Index, Visit, ExpireEntries;
    assert Times(n + 1) == Times(n) + [now];
    assert Ips(st.requests) == [1, 2];
    VisitAsks(env, st, 1, now);
    var st1 := Ask(st, 1, now);
    assert st1.requests == [Asked(1, P1, n + 1), Asked(2, P2, n)];
    assert Still(st, st1, [2], now) == [2];
    VisitAsks(env, st1, 2, now);
    var st2 := Ask(st1, 2, now);
    assert st2.requests == [Asked(1, P1, n + 1), Asked(2, P2, n + 1)];
    assert [1, 2][1..] == [2] && [2][1..] == [];
    assert Walk(env, st1, [2], now) == Done(st2);
  }

  /** The sweeps, one after the other. */
  lemma {:induction false} SweepsRun(env: Env, n: nat, run: Run)
    requires 0 < n <= 5 && run == seq(5 - n, i => (Sweeping, 2 * n + 2 + 2 * i))
    ensures Legal(env, Waited(n), run, 2 * n) && After(env, Waited(n), run, 2 * n) == Waited(5)
    decreases 5 - n
  {
    if n < 5 {
      AnotherSweep(env, n);
      hide Do, Waited;
      assert run[0] == (Sweeping, 2 * n + 2);
      assert run[1..] == seq(5 - (n + 1), i => (Sweeping, 2 * (n + 1) + 2 + 2 * i));
      SweepsRun(env, n + 1, run[1..]);
    }
  }

  /** Whatever the routes, nothing is given up before the fifth broadcast. */
  lemma {:induction false} SilenceRuns(env: Env)
    ensures Legal(env, Empty, Silence, 2) && After(env, Empty, Silence, 2) == Waited(5)
  {
    FirstForward(env);
    SecondForward(env);
    var sweeps := Silence[2..];
    SweepsRun(env, 1, sweeps);
    hide Do, Waited, One;
    var rest := Silence[1..];
    assert rest[1..] == sweeps;
    assert Legal(env, One(), rest, 2) && After(env, One(), rest, 2) == Waited(5);
  }

  lemma {:induction false} SilenceInv(env: Env)
    ensures Inv(env, Waited(5), 12)
  {
    SilenceRuns(env);
    EmptyInv(env, 2);
    RunKeepsInv(env, Empty, Silence, 2);
    hide Inv, Waited, Legal, After;
    InvLater(env, Waited(5), 10, 12);
  }

  lemma {:induction false} BothDead()
    ensures var st := AgeCache(Waited(5), 12);
      && st.cache == NoEntries() && st.requests == [Asked(1, P1, 5), Asked(2, P2, 5)] && Ips(st.requests) == [1, 2]
      && DeadIps(st, 12) == {1, 2} && Pending(st, 1) && Pending(st, 2)
      && RequestFor(st, 1).packets == [P1] && RequestFor(st, 2).packets == [P2]
  {
    NothingAges(12);
    var st := AgeCache(Waited(5), 12);
    IndexTwo(Asked(1, P1, 5), Asked(2, P2, 5));
    hide Index, ExpireEntries;
    assert st.requests[0].ip == 1 && st.requests[1].ip == 2;
    assert DeadAt(st, 1, 12) && DeadAt(st, 2, 12);
  }

  lemma {:induction false} LoopSearch(env: Env, st: State)
    requires st.cache == NoEntries() && env.route(100).Some? && env.route(100).value.gw == 1
    ensures Explore(env, st, [P1], {2}, {1}) == None
  {
    NothingCached(1);
    hide Lookup;
    assert Follow(env, st, P1, {2}, {1}) == None;
  }

  lemma {:induction false} ChainSearch(env: Env, st: State)
    requires st.cache == NoEntries() && Pending(st, 2) && RequestFor(st, 2).packets == [P2]
    requires env.route(100).Some? && env.route(100).value.gw == 2
    requires env.route(200).None? && env.route(env.address(0)).None?
    ensures Explore(env, st, [P1], {2}, {1}) == Some({})
  {
    NothingCached(2);
    hide Lookup, Index;
    var e := ErrorAbout(env, P1, env.route(100).value);
    assert {2} - {2} == {} && {1} + {2} == {1, 2} && [e] + [P2] == [e, P2];
    assert [e, P2][1..] == [P2] && [P2][1..] == [] && [P1][1..] == [];
    assert Explore(env, st, [P2], {}, {1, 2}) == Some({});
    assert Explore(env, st, [e, P2], {}, {1, 2}) == Some({});
    assert Follow(env, st, P1, {2}, {1}) == Some({});
  }

  lemma {:induction false} ScanTwo(env: Env, st: State, f: Option<set<Ip>>)
    requires Pending(st, 1) && RequestFor(st, 1).packets == [P1] && Explore(env, st, [P1], {2}, {1}) == f
    requires f == None || f == Some({})
    ensures Scan(env, st, [1, 2], {1, 2}) == if f == None then Loops else Frees
  {
    hide Explore, Index;
    assert {1, 2} - {1} == {2};
  }

  /** A run in which the next sweep never returns: the route back to the sender of the first datagram
      goes through the very hop that it waited for. */
  lemma {:induction false} SweepNeverReturns(env: Env)
    requires env.route(100).Some? && env.route(100).value.gw == 1
    ensures Legal(env, Empty, Silence, 2) && Do(env, After(env, Empty, Silence, 2), Sweeping, 12) == Endless
  {
    hide Inv, Waited, Legal, After, Do, Lookup, Index, DeadIps, AgeCache, RequestFor, Pending, Explore, Scan, Ips;
    SilenceRuns(env);
    SilenceInv(env);
    BothDead();
    EventExact(env, Waited(5), Sweeping, 12);
    var st := AgeCache(Waited(5), 12);
    LoopSearch(env, st);
    ScanTwo(env, st, None);
  }

  /** A run in which the next sweep goes on with a freed request: giving up the first hop gives up the
      second, which the sweep had noted as the next one. The visit itself returns. */
  lemma {:induction false} SweepUsesFreed(env: Env)
    requires env.route(100).Some? && env.route(100).value.gw == 2
    requires env.route(200).None? && env.route(env.address(0)).None?
    ensures Legal(env, Empty, Silence, 2) && Do(env, After(env, Empty, Silence, 2), Sweeping, 12) == Dangling
    ensures var st := AgeCache(Waited(5), 12); Pending(st, 1) && Returns(env, st, 1, 12)
  {
    hide Inv, Waited, Legal, After, Do, Lookup, Index, DeadIps, AgeCache, RequestFor, Pending, Explore, Scan, Ips, DeadAt;
    SilenceRuns(env);
    SilenceInv(env);
    BothDead();
    EventExact(env, Waited(5), Sweeping, 12);
    var st := AgeCache(Waited(5), 12);
    ChainSearch(env, st);
    ScanTwo(env, st, Some({}));
    assert {1, 2} - {1} == {2};
  }
}
