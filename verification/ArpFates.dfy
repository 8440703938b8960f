/** What becomes of each packet that is given up, and in which order a hop's packets are. */
module ArpFates {
  import opened Words
  import opened ArpSpec
  import opened ArpQueue
  import opened ArpSearch
  import opened ArpVisit
  import opened ArpGiveUp
  import opened ArpBalance
  import opened ArpReturn
  import opened ArpSweep
  import opened ArpRuns
  import opened ArpTheorems

  type Log = seq<(Packet, Ip, Fate)>

  /** The error has no route back, or its next hop is in the cache and it was sent to the address there,
      or it was queued for that hop. */
  predicate FateIs(env: Env, cache: seq<Entry>, g: (Packet, Ip, Fate)) {
    match env.route(g.0.frame.src)
    case None => g.2 == NoRouteBack
    case Some(h) =>
      match Lookup(cache, h.gw)
      case Some(mac) => g.2 == SentBack(h.gw, mac)
      case None => g.2 == QueuedBack(h.gw)
  }

  /** The log has grown, by packets whose fate is what the cache says. */
  ghost predicate Noted(env: Env, cache: seq<Entry>, log: Log, log': Log) {
    && |log| <= |log'| && log'[..|log|] == log
    && forall i :: |log| <= i < |log'| ==> FateIs(env, cache, log'[i])
  }

  /** The packets given up that waited for a hop, in order. */
  function GivenFor(log: Log, hop: Ip): seq<Packet> {
    if log == [] then [] else
    var n := |log| - 1;
    GivenFor(log[..n], hop) + if log[n].1 == hop then [log[n].0] else []
  }

  lemma {:induction false} NotedOne(env: Env, cache: seq<Entry>, log: Log, log1: Log, g: (Packet, Ip, Fate), y: Ip)
    requires Noted(env, cache, log, log1) && FateIs(env, cache, g)
    ensures Noted(env, cache, log, log1 + [g])
    ensures GivenFor(log1 + [g], y) == GivenFor(log1, y) + if g.1 == y then [g.0] else []
  {
    hide FateIs;
    assert (log1 + [g])[..|log1|] == log1 && (log1 + [g])[..|log|] == log1[..|log|];
  }

  lemma {:induction false} NotedTrans(env: Env, cache: seq<Entry>, a: Log, b: Log, c: Log)
    requires Noted(env, cache, a, b) && Noted(env, cache, b, c)
    ensures Noted(env, cache, a, c)
  {
    hide FateIs;
    assert c[..|a|] == c[..|b|][..|a|];
    forall i | |a| <= i < |c| ensures FateIs(env, cache, c[i]) {
      if i < |b| {
        assert c[..|b|][i] == b[i];
      }
    }
  }

  lemma {:induction false} NotedNone(env: Env, cache: seq<Entry>, log: Log)
    ensures Noted(env, cache, log, log)
  {
  }

  lemma {:induction false} CacheKept(st: State, st': State, white: set<Ip>, left: set<Ip>, gray: set<Ip>, now: int)
    requires Steps(st, st', white, left, gray, now)
    ensures st'.cache == st.cache
  {
    hide StepAt;
  }

  /** Giving up notes the packets of the hop in order, and for other hops only those that it reaches. */
  lemma {:induction false} GiveUpAllFates(
    env: Env, st: State, ps: seq<Packet>, hop: Ip, now: int, white: set<Ip>, gray: set<Ip>, y: Ip)
    requires Queue(st, now) && Situation(st, white, gray, now) && Explore(env, st, ps, white, gray).Some?
    requires y !in white
    ensures var log := GiveUpAll(env, st, ps, hop, now, white).0.givenUp;
      && Noted(env, st.cache, st.givenUp, log)
      && GivenFor(log, y) == GivenFor(st.givenUp, y) + if y == hop then ps else []
    decreases white, |ps| + 1
  {
    hide Queue, Situation, Steps, Follow, GiveUp, Noted, GivenFor;
    if ps == [] {
      NotedNone(env, st.cache, st.givenUp);
    } else {
      var s := GiveUp(env, st, ps[0], hop, now, white);
      GiveUpWorks(env, st, ps[0], hop, now, white, gray);
      CacheKept(st, s.0, white, s.1, gray, now);
      GiveUpFates(env, st, ps[0], hop, now, white, gray, y);
      LeftSame(env, st, s.0, ps[1..], white, s.1, gray, now);
      GiveUpAllFates(env, s.0, ps[1..], hop, now, s.1, gray, y);
      NotedTrans(env, st.cache, st.givenUp, s.0.givenUp, GiveUpAll(env, s.0, ps[1..], hop, now, s.1).0.givenUp);
      FirstPacket(GivenFor(st.givenUp, y), ps);
    }
  }

  lemma {:induction false} FirstPacket(before: seq<Packet>, ps: seq<Packet>)
    requires ps != []
    ensures before + [ps[0]] + ps[1..] == before + ps && before + [] + [] == before + []
  {
  }

  lemma {:induction false} GiveUpFates(
    env: Env, st: State, p: Packet, hop: Ip, now: int, white: set<Ip>, gray: set<Ip>, y: Ip)
    requires Queue(st, now) && Situation(st, white, gray, now) && Follow(env, st, p, white, gray).Some?
    requires y !in white
    ensures var log := GiveUp(env, st, p, hop, now, white).0.givenUp;
      && Noted(env, st.cache, st.givenUp, log)
      && GivenFor(log, y) == GivenFor(st.givenUp, y) + if y == hop then [p] else []
    decreases white, 0
  {
    hide Queue, Explore, GiveUpAll, Index, Lookup, Enqueue, AskIfDue, Unlink, Noted, GivenFor;
    NotedNone(env, st.cache, st.givenUp);
    var w := WaitsAt(env, st.cache, p);
    if w.None? {
      var st' := ErrorNow(env, st, p, hop);
      NotedOne(env, st.cache, st.givenUp, st.givenUp, st'.givenUp[|st.givenUp|], y);
    } else {
      var x := w.value;
      var e := ErrorAbout(env, p, env.route(p.frame.src).value);
      var st1 := Enqueue(st, x, e);
      var g := (p, hop, QueuedBack(x));
      EnqueueFields(st, x, e);
      if x !in white {
        QueueAndAskRest(st, x, e, now);
        NotedOne(env, st.cache, st.givenUp, st.givenUp, g, y);
      } else {
        assert DeadAt(st, x, now);
        Detour(env, st, p, now, white, gray);
        var r := RequestFor(st1, x);
        GiveUpAllFates(env, st1, r.packets, x, now, white - {x}, gray + {x}, y);
        var st2 := GiveUpAll(env, st1, r.packets, x, now, white - {x}).0;
        NotedOne(env, st.cache, st.givenUp, st2.givenUp, g, y);
        assert GivenFor(st.givenUp, y) + [] == GivenFor(st.givenUp, y);
      }
    }
  }

  /** A visit of a dead hop gives its packets up in the order of its list; another visit gives up none. */
  lemma {:induction false} VisitedFates(env: Env, st: State, ip: Ip, now: int)
    requires Queue(st, now) && Pending(st, ip) && Returns(env, st, ip, now)
    ensures var st' := Visited(env, st, ip, now);
      && st'.cache == st.cache && Noted(env, st.cache, st.givenUp, st'.givenUp)
      && (DeadAt(st, ip, now) ==> GivenFor(st'.givenUp, ip) == GivenFor(st.givenUp, ip) + RequestFor(st, ip).packets)
      && (!DeadAt(st, ip, now) ==> st'.givenUp == st.givenUp)
  {
    hide Queue, Index, GiveUpAll, DeadIps, Explore, Ask, Unlink, Noted, GivenFor, Steps;
    VisitedSteps(env, st, ip, now);
    CacheKept(st, Visited(env, st, ip, now), DeadIps(st, now), Left(env, st, ip, now), {}, now);
    if DeadAt(st, ip, now) {
      Start(st, ip, now);
      GiveUpAllFates(env, st, RequestFor(st, ip).packets, ip, now, DeadIps(st, now) - {ip}, {ip}, ip);
    } else {
      AskFields(st, ip, now);
      NotedNone(env, st.cache, st.givenUp);
    }
  }

  lemma {:induction false} WalkFates(env: Env, st: State, ips: seq<Ip>, now: int)
    requires Queue(st, now) && Ahead(st, ips, now) && Walk(env, st, ips, now).Done?
    ensures Noted(env, st.cache, st.givenUp, Walk(env, st, ips, now).st.givenUp)
    decreases |ips|
  {
    if ips == [] {
      NotedNone(env, st.cache, st.givenUp);
    } else {
      assert Pending(st, ips[0]);
      var st1 := Visited(env, st, ips[0], now);
      VisitIsResult(env, st, ips[0], now, 0);
      hide Visited, Visit, Queue, Returns, DeadIps, Gone, Still, DeadAt, Ahead, Noted, GivenFor, Pending;
      VisitedQueue(env, st, ips[0], now);
      VisitedFates(env, st, ips[0], now);
      StillAhead(env, st, ips, now);
      WalkFates(env, st1, Still(st, st1, ips[1..], now), now);
      NotedTrans(env, st.cache, st.givenUp, st1.givenUp, Walk(env, st1, Still(st, st1, ips[1..], now), now).st.givenUp);
    }
  }

  /** The cache that an event works with: a sweep has just dropped the old entries. */
  function CacheAt(st: State, e: Event, now: int): seq<Entry> {
    if e.Sweeping? then ExpireEntries(st.cache, now) else st.cache
  }

  /** Whatever an event gives up: each packet's error is sent at once exactly when the way back is in the
      cache, and queued for it otherwise; a packet whose hop is in the cache is sent there at once; and a forward to a dead hop gives that hop's packets up in the
      order of its list, the new one first. */
  lemma {:induction false} EventFates(env: Env, st: State, e: Event, now: int)
    requires Inv(env, st, now) && Do(env, st, e, now).Done?
    ensures var st' := Do(env, st, e, now).st;
      && Noted(env, CacheAt(st, e, now), st.givenUp, st'.givenUp)
      && (e.Forwarding? && Lookup(st.cache, e.gw).None? && DeadAt(st, e.gw, now) ==>
            GivenFor(st'.givenUp, e.gw) == GivenFor(st.givenUp, e.gw) + [e.p] + RequestFor(st, e.gw).packets)
      && (e.Forwarding? && Lookup(st.cache, e.gw).Some? ==>
            st'.relayed == st.relayed + [(e.p, e.gw, Lookup(st.cache, e.gw).value)] && st'.requests == st.requests)
  {
    hide Queue, Balance, Owed, CacheWell, SentWell, Index, Lookup, Returns, DeadIps, Walk, Visited, Visit, Enqueue, Noted;
    hide Ahead, Ips, ExpireEntries, GivenFor, Unlink;
    match e
    case Forwarding(p, gw) =>
      if Lookup(st.cache, gw).None? {
        var st0 := st.(forwarded := st.forwarded + multiset{(p, gw)});
        QueuedKeeps(env, st, p, gw, now);
        ForwardIs(env, st, p, gw, now);
        EnqueueFields(st0, gw, p);
        EnqueueOwn(st0, gw, p);
        VisitedFates(env, Queued(st, p, gw), gw, now);
        if DeadAt(st, gw, now) {
          Assoc(GivenFor(st.givenUp, gw), [p], RequestFor(st, gw).packets);
        }
      } else {
        NotedNone(env, st.cache, st.givenUp);
      }
    case Replying(_, _) => NotedNone(env, st.cache, st.givenUp);
    case Sweeping =>
      var st1 := AgeCache(st, now);
      SameQueue(st, st1, now);
      SweptIps(st1, now);
      WalkFates(env, st1, Ips(st1.requests), now);
  }

  // ---- Every packet forwarded -------------------------------------------------------------------------------

  /** How often the packet was handed on or queued by a forward. */
  function Handled(st: State, p: Packet, gw: Ip): nat { st.forwarded[(p, gw)] + SentPairs(st.relayed)[(p, gw)] }

  /** How often a run forwards the packet. */
  function Forwards(run: Run, p: Packet, gw: Ip): nat {
    if run == [] then 0 else (if run[0].0 == Forwarding(p, gw) then 1 else 0) + Forwards(run[1..], p, gw)
  }

  lemma {:induction false} RelayedOne(log: seq<(Packet, Ip, Mac)>, p: Packet, gw: Ip, mac: Mac)
    ensures SentPairs(log + [(p, gw, mac)]) == SentPairs(log) + multiset{(p, gw)}
  {
    assert (log + [(p, gw, mac)])[..|log|] == log;
  }

  lemma {:induction false} EventForwards(env: Env, st: State, e: Event, now: int, p: Packet, gw: Ip)
    requires Inv(env, st, now) && Do(env, st, e, now).Done?
    ensures var st' := Do(env, st, e, now).st;
      Handled(st', p, gw) == Handled(st, p, gw) + if e == Forwarding(p, gw) then 1 else 0
  {
    hide Queue, Balance, Owed, CacheWell, SentWell, Index, Lookup, Returns, DeadIps, Walk, Visited, Visit, Enqueue, SentPairs;
    hide Ahead, Ips, ExpireEntries, Unlink, StepAt;
    match e
    case Forwarding(q, hop) =>
      if Lookup(st.cache, hop).None? {
        QueuedKeeps(env, st, q, hop, now);
        ForwardIs(env, st, q, hop, now);
        EnqueueFields(st.(forwarded := st.forwarded + multiset{(q, hop)}), hop, q);
        VisitedSteps(env, Queued(st, q, hop), hop, now);
      } else {
        RelayedOne(st.relayed, q, hop, Lookup(st.cache, hop).value);
      }
    case Replying(_, _) =>
    case Sweeping =>
      var st1 := AgeCache(st, now);
      SameQueue(st, st1, now);
      SweptIps(st1, now);
      WalkGrows(env, st1, Ips(st1.requests), now);
  }

  /** Over every run, a packet that is forwarded is sent at once or queued, once for each time. */
  lemma {:induction false} EveryForward(env: Env, st: State, run: Run, t: int, p: Packet, gw: Ip)
    requires Inv(env, st, t) && Legal(env, st, run, t)
    ensures Handled(After(env, st, run, t), p, gw) == Handled(st, p, gw) + Forwards(run, p, gw)
    decreases |run|
  {
    hide Inv, Do, Handled;
    if run != [] {
      var (e, now) := run[0];
      InvLater(env, st, t, now);
      EventKeepsInv(env, st, e, t, now);
      EventForwards(env, st, e, now, p, gw);
      EveryForward(env, Do(env, st, e, now).st, run[1..], now, p, gw);
    }
  }

  // ---- The list and the cache, entry by entry ----------------------------------------------------------------

  /** A reply sends what waited for it in the order of the list, to the address that it brings. */
  lemma {:induction false} ReplySends(st: State, ip: Ip, mac: Mac, now: int)
    ensures var (before, after) := (st.sent, Reply(st, ip, mac, now).sent);
      if !Pending(st, ip) then after == before
      else
        var ps := RequestFor(st, ip).packets;
        && |after| == |before| + |ps| && after[..|before|] == before
        && forall i :: 0 <= i < |ps| ==> after[|before| + i] == (ps[i], ip, mac)
  {
    hide Index, Unlink, FirstFree;
  }

  /** A reply goes into the first entry that is not in use, and nowhere when all are. */
  lemma {:induction false} ReplyStores(st: State, ip: Ip, mac: Mac, now: int)
    ensures var (c, c') := (st.cache, Reply(st, ip, mac, now).cache);
      && |c'| == |c|
      && forall i :: 0 <= i < |c| ==>
           c'[i] == if !c[i].valid && (forall j :: 0 <= j < i ==> c[j].valid) then Entry(mac, ip, now, true) else c[i]
  {
    FirstFreeExact(st.cache);
    hide Index, Unlink, FirstFree;
  }

  lemma {:induction false} FirstFreeExact(cache: seq<Entry>)
    ensures forall j :: 0 <= j < FirstFree(cache) ==> cache[j].valid
    ensures FirstFree(cache) < |cache| ==> !cache[FirstFree(cache)].valid
  {
    if cache != [] && cache[0].valid {
      FirstFreeExact(cache[1..]);
    }
  }

  /** A lookup gives the address in the last valid entry for the hop. */
  lemma {:induction false} LookupLast(cache: seq<Entry>, ip: Ip, i: nat)
    requires i < |cache| && cache[i].valid && cache[i].ip == ip
    requires forall j :: i < j < |cache| ==> !(cache[j].valid && cache[j].ip == ip)
    ensures Lookup(cache, ip) == Some(cache[i].mac)
  {
    if i < |cache| - 1 {
      LookupLast(cache[..|cache| - 1], ip, i);
    }
  }
}
