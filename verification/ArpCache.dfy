/** `struct sr_arpcache` as the router updates it: the array of entries in place, the list of requests
    as a sequence that is reassigned. Each operation does what its function in `ArpSpec` says. */
module ArpCache {
  import opened Words
  import opened ArpSpec
  import opened ArpQueue
  import opened ArpSearch
  import opened ArpVisit
  import opened ArpGiveUp
  import opened ArpBalance
  import opened ArpReturn
  import opened ArpSweep
  import opened ArpOrder
  import Runs = ArpRuns

  lemma {:induction false} LookupNext(cache: seq<Entry>, i: nat, ip: Ip)
    requires i < |cache|
    ensures Lookup(cache[..i + 1], ip)
      == if cache[i].valid && cache[i].ip == ip then Some(cache[i].mac) else Lookup(cache[..i], ip)
  {
    assert cache[..i + 1][..i] == cache[..i];
  }

  lemma {:induction false} FirstFreeAt(cache: seq<Entry>, i: nat)
    requires i <= |cache| && (forall k :: 0 <= k < i ==> cache[k].valid) && (i < |cache| ==> !cache[i].valid)
    ensures FirstFree(cache) == i
  {
    if i > 0 {
      FirstFreeAt(cache[1..], i - 1);
    }
  }

  lemma {:induction false} IndexAt(rs: seq<Request>, i: nat, ip: Ip)
    requires i <= |rs| && (forall k :: 0 <= k < i ==> rs[k].ip != ip) && (i < |rs| ==> rs[i].ip == ip)
    ensures Index(rs, ip) == i
  {
  }

  class ArpCache {
    const env: Env
    const entries: array<Entry>
    /** The requests and what was accepted, sent and given up; its own `cache` is not used. */
    var rest: State

    ghost function View(): State reads this, entries { rest.(cache := entries[..]) }

    constructor (env: Env)
      ensures View() == Runs.Empty && this.env == env && fresh(entries)
    {
      this.env := env;
      entries := new Entry[CACHE_SIZE](_ => Entry(0, 0, 0, false));
      rest := Runs.Empty;
    }

    method Lookup(ip: Ip) returns (m: Option<Mac>)
      ensures m == ArpSpec.Lookup(View().cache, ip)
    {
      m := None;
      for i := 0 to entries.Length
        invariant m == ArpSpec.Lookup(entries[..i], ip)
      {
        LookupNext(entries[..], i, ip);
        assert entries[..][..i] == entries[..i] && entries[..][..i + 1] == entries[..i + 1];
        if entries[i].valid && entries[i].ip == ip {
          m := Some(entries[i].mac);
        }
      }
      assert entries[..entries.Length] == entries[..];
    }

    /** Walking the list of requests to the one for an address. */
    method Find(ip: Ip) returns (i: nat)
      ensures i == Index(rest.requests, ip)
    {
      i := 0;
      while i < |rest.requests| && rest.requests[i].ip != ip
        invariant i <= |rest.requests| && forall k :: 0 <= k < i ==> rest.requests[k].ip != ip
      {
        i := i + 1;
      }
      IndexAt(rest.requests, i, ip);
    }

    method QueueReq(ip: Ip, p: Packet)
      modifies this
      ensures View() == Enqueue(old(View()), ip, p)
    {
      var i := Find(ip);
      if i == |rest.requests| {
        rest := rest.(requests := [Request(ip, 0, 0, [p], [])] + rest.requests);
      } else {
        var r := rest.requests[i];
        rest := rest.(requests := rest.requests[i := r.(packets := [p] + r.packets)]);
      }
      rest := rest.(accepted := rest.accepted + multiset{(p, ip)});
    }

    method Destroy(ip: Ip)
      modifies this
      ensures rest == old(rest.(requests := Unlink(rest.requests, ip)))
    {
      var i := Find(ip);
      UnlinkSplit(rest.requests, ip);
      if i < |rest.requests| {
        rest := rest.(requests := rest.requests[..i] + rest.requests[i + 1..]);
      }
    }

    /** `sr_arpcache_insert`: unlinks the request for the address and fills the first free entry. */
    method Insert(mac: Mac, ip: Ip, now: int) returns (req: Option<Request>)
      modifies this, entries
      ensures req == if Pending(old(View()), ip) then Some(RequestFor(old(View()), ip)) else None
      ensures View() == Reply(old(View()), ip, mac, now).(sent := old(View()).sent)
    {
      ghost var before := View();
      var k := Find(ip);
      req := if k < |rest.requests| then Some(rest.requests[k]) else None;
      Destroy(ip);
      UnlinkSplit(before.requests, ip);
      var i := 0;
      while i < entries.Length && entries[i].valid
        invariant i <= entries.Length && forall k :: 0 <= k < i ==> entries[k].valid
      {
        i := i + 1;
      }
      FirstFreeAt(entries[..], i);
      hide FirstFree, Index, Unlink;
      rest := rest.(replies := rest.replies + {(ip, mac)});
      if i < entries.Length {
        entries[i] := Entry(mac, ip, now, true);
        rest := rest.(stored := rest.stored + [Stored(ip, mac, now)]);
        assert entries[..] == before.cache[i := Entry(mac, ip, now, true)];
      }
    }

    /** The ARP reply branch of `sr_handle_arp_packet`. */
    method OnReply(mac: Mac, ip: Ip, now: int)
      modifies this, entries
      ensures View() == Reply(old(View()), ip, mac, now)
    {
      ghost var before := View();
      var req := Insert(mac, ip, now);
      if req.Some? {
        var ps := req.value.packets;
        ghost var inserted := View();
        for i := 0 to |ps|
          invariant View() == inserted.(sent := inserted.sent + SendAll(ps[..i], ip, mac))
        {
          assert SendAll(ps[..i + 1], ip, mac) == SendAll(ps[..i], ip, mac) + [(ps[i], ip, mac)];
          rest := rest.(sent := rest.sent + [(ps[i], ip, mac)]);
        }
        assert ps[..|ps|] == ps;
      }
    }

    /** `handle_arpreq`, where the search over return hops says that it returns. */
    method HandleArpReq(ip: Ip, now: int)
      requires Queue(View(), now) && Pending(View(), ip) && Returns(env, View(), ip, now)
      modifies this
      ensures Visit(env, old(View()), ip, now) == Some(View())
    {
      ghost var st := View();
      VisitIsResult(env, st, ip, now, 0);
      AllDead(st, now);
      DeadIpsAre(st, now, ip);
      assert {} + {ip} == {ip};
      hide Queue, Visit, Situation, Explore, GiveUpAll, Index, DeadIps;
      HandleNested(ip, now, DeadIps(st, now), {});
    }

    /** The same with the dead hops not yet reached and the hops in progress, which only the proof
        that it ends needs. */
    method HandleNested(ip: Ip, now: int, ghost white: set<Ip>, ghost gray: set<Ip>)
      requires Queue(View(), now) && Situation(View(), white, gray, now) && Pending(View(), ip) && ip !in gray
      requires ip in white ==>
        Explore(env, View(), RequestFor(View(), ip).packets, white - {ip}, gray + {ip}).Some?
      modifies this
      ensures var st, r := old(View()), RequestFor(old(View()), ip);
        View() == if ip in white then Retire(GiveUpAll(env, st, r.packets, ip, now, white - {ip}).0, ip, r, now)
                  else AskIfDue(st, ip, now)
      decreases white, 0
    {
      ghost var st := View();
      assert DeadAt(st, ip, now) <==> ip in white + gray;
      SituationNarrows(st, white, gray, ip, now);
      var i := Find(ip);
      var r := rest.requests[i];
      hide Queue, Situation, Explore, GiveUpAll, Index, Unlink;
      if now - r.sent > 1 {
        if r.times >= 5 {
          GiveUpPackets(r.packets, ip, now, white - {ip}, gray + {ip});
          Destroy(ip);
          rest := rest.(dropped := rest.dropped + [(r, now)]);
        } else {
          var asked := r.(sent := now, times := r.times + 1, asked := r.asked + [now]);
          rest := rest.(requests := rest.requests[i := asked]);
        }
      }
    }

    /** The loop over the waiting packets of a request that is given up. */
    method GiveUpPackets(ps: seq<Packet>, hop: Ip, now: int, ghost white: set<Ip>, ghost gray: set<Ip>)
      requires Queue(View(), now) && Situation(View(), white, gray, now)
      requires Explore(env, View(), ps, white, gray).Some?
      modifies this
      ensures View() == GiveUpAll(env, old(View()), ps, hop, now, white).0
      decreases white, 2
    {
      ghost var before, left := View(), white;
      hide Queue, Situation, Follow, GiveUp, Steps;
      for i := 0 to |ps|
        invariant left <= white && Queue(View(), now) && Situation(View(), left, gray, now)
        invariant Explore(env, View(), ps[i..], left, gray).Some?
        invariant GiveUpAll(env, View(), ps[i..], hop, now, left) == GiveUpAll(env, before, ps, hop, now, white)
      {
        ghost var st, s := View(), GiveUp(env, View(), ps[i], hop, now, left);
        assert ps[i..][1..] == ps[i + 1..];
        GiveUpWorks(env, st, ps[i], hop, now, left, gray);
        LeftSame(env, st, s.0, ps[i + 1..], left, s.1, gray, now);
        SendError(ps[i], hop, now, left, gray);
        left := s.1;
      }
    }

    /** `sr_send_error` for host unreachable. */
    method SendError(p: Packet, hop: Ip, now: int, ghost white: set<Ip>, ghost gray: set<Ip>)
      requires Queue(View(), now) && Situation(View(), white, gray, now)
      requires Follow(env, View(), p, white, gray).Some?
      modifies this
      ensures View() == GiveUp(env, old(View()), p, hop, now, white).0
      decreases white, 1
    {
      ghost var st := View();
      var back := env.route(p.frame.src);
      hide Queue, Situation, Explore, GiveUpAll, Index, Enqueue, ArpSpec.Lookup, Grows, AskIfDue, Retire;
      if back.None? {
        rest := rest.(givenUp := rest.givenUp + [(p, hop, NoRouteBack)]);
        return;
      }
      var gw := back.value.gw;
      var m := Lookup(gw);
      var e := Packet(IcmpError(p.frame, env.address(p.iface)), back.value.iface);
      if m.Some? {
        rest := rest.(
          errors := rest.errors + [(e, gw, m.value)], givenUp := rest.givenUp + [(p, hop, SentBack(gw, m.value))]);
      } else {
        QueueEnters(env, st, p, white, gray, now);
        QueueReq(gw, e);
        HandleNested(gw, now, white, gray);
        rest := rest.(givenUp := rest.givenUp + [(p, hop, QueuedBack(gw))]);
      }
    }

    /** The end of `sr_forward_packet`, and of the other senders: sending at once, or queueing and a visit. */
    method Send(p: Packet, gw: Ip, now: int)
      requires Queue(View(), now)
      requires ArpSpec.Lookup(View().cache, gw).None? ==> Returns(env, Runs.Queued(View(), p, gw), gw, now)
      modifies this
      ensures Forward(env, old(View()), p, gw, now) == Done(View())
    {
      ghost var st := View();
      var m := Lookup(gw);
      if m.None? {
        EnqueueQueue(st.(forwarded := st.forwarded + multiset{(p, gw)}), gw, p, now);
        hide Queue, Index, Enqueue, Visit, ArpSpec.Lookup, Returns;
        rest := rest.(forwarded := rest.forwarded + multiset{(p, gw)});
        QueueReq(gw, p);
        HandleArpReq(gw, now);
      } else {
        rest := rest.(relayed := rest.relayed + [(p, gw, m.value)]);
      }
    }

    /** The expiry loop of `sr_arpcache_timeout`. */
    method Expire(now: int)
      modifies entries
      ensures entries[..] == ExpireEntries(old(entries[..]), now)
    {
      ghost var before := entries[..];
      for i := 0 to entries.Length
        invariant forall k :: 0 <= k < entries.Length ==>
          entries[k] == if k < i then ExpireEntry(before[k], now) else before[k]
      {
        if entries[i].valid && now - entries[i].added > TIMEOUT {
          entries[i] := entries[i].(valid := false);
        }
      }
    }

    /** One round of `sr_arpcache_timeout`, where it gets through. */
    method Timeout(now: int)
      requires Queue(View(), now) && Sweep(env, View(), now).Done?
      modifies this, entries
      ensures Sweep(env, old(View()), now) == Done(View())
    {
      ghost var st0 := View();
      Expire(now);
      rest := rest.(swept := Some(now));
      assert View() == AgeCache(st0, now);
      SameQueue(st0, View(), now);
      SweepReqs(now);
    }

    /** `sr_arpcache_sweepreqs`: along the list, the next request noted before each visit. */
    method SweepReqs(now: int)
      requires Queue(View(), now) && Walk(env, View(), Ips(rest.requests), now).Done?
      modifies this
      ensures Walk(env, old(View()), old(Ips(rest.requests)), now) == Done(View())
    {
      ghost var st0, ahead := View(), Ips(rest.requests);
      ghost var ips := ahead;
      SweptIps(st0, now);
      var current := if rest.requests == [] then None else Some(rest.requests[0].ip);
      assert Remaining(st0, ahead) && current == if ahead == [] then None else Some(ahead[0]);
      hide Queue, Index, Visit, Visited, Returns, Ahead, Still, Remaining, Walk, Ips;
      while current.Some?
        invariant Queue(View(), now) && Ahead(View(), ahead, now) && Remaining(View(), ahead)
        invariant Walk(env, View(), ahead, now) == Walk(env, st0, ips, now) && Walk(env, st0, ips, now).Done?
        invariant current == if ahead == [] then None else Some(ahead[0])
        decreases |ahead|
      {
        ghost var st := View();
        SweepRound(env, st, ahead, now);
        AtIndex(st, ahead, now);
        var i := Find(current.value);
        var next := if i + 1 < |rest.requests| then Some(rest.requests[i + 1].ip) else None;
        HandleArpReq(current.value, now);
        ahead := Still(st, View(), ahead[1..], now);
        current := next;
      }
      WalkEnd(env, View(), now);
    }
  }

  lemma {:induction false} WalkEnd(env: Env, st: State, now: int)
    ensures Walk(env, st, [], now) == Done(st)
  {
  }

  /** One round of a sweep that gets through. */
  lemma {:induction false} SweepRound(env: Env, st: State, ahead: seq<Ip>, now: int)
    requires Queue(st, now) && Ahead(st, ahead, now) && Remaining(st, ahead) && ahead != []
    requires Walk(env, st, ahead, now).Done?
    ensures Pending(st, ahead[0]) && Returns(env, st, ahead[0], now)
    ensures Visit(env, st, ahead[0], now) == Some(Visited(env, st, ahead[0], now))
    ensures var st1 := Visited(env, st, ahead[0], now);
      var rest := Still(st, st1, ahead[1..], now);
      && Queue(st1, now) && Ahead(st1, rest, now) && Remaining(st1, rest)
      && Walk(env, st1, rest, now) == Walk(env, st, ahead, now)
      && (if |ahead| > 1 then rest != [] && rest[0] == ahead[1] else rest == [])
  {
    hide Queue, Index, Visit, Visited, Returns, Gone, Ahead, Still, Remaining, Pending;
    AheadFirst(st, ahead, now);
    VisitIsResult(env, st, ahead[0], now, 0);
    VisitedQueue(env, st, ahead[0], now);
    StillAhead(env, st, ahead, now);
    WalksOn(env, st, ahead, now);
    StillFirst(st, Visited(env, st, ahead[0], now), ahead[1..], now);
  }

  lemma {:induction false} AheadFirst(st: State, ahead: seq<Ip>, now: int)
    requires Ahead(st, ahead, now) && ahead != []
    ensures Pending(st, ahead[0])
  {
  }

  /** Where the walk stands in the list. */
  lemma {:induction false} AtIndex(st: State, ahead: seq<Ip>, now: int)
    requires Queue(st, now) && Remaining(st, ahead) && ahead != []
    ensures var i := Index(st.requests, ahead[0]);
      && i == |st.requests| - |ahead| && i < |st.requests|
      && (|ahead| > 1 ==> st.requests[i + 1].ip == ahead[1])
  {
    hide GoodRequest, GoodDrop;
    var a, i := Ips(st.requests), |st.requests| - |ahead|;
    assert a[i] == ahead[0];
    assert |ahead| > 1 ==> a[i + 1] == ahead[1];
    IndexOf(st.requests, i);
  }

  lemma {:induction false} StillFirst(st: State, st': State, ips: seq<Ip>, now: int)
    requires ips != [] ==> !Gone(st, st', ips[0], now)
    ensures ips == [] ==> Still(st, st', ips, now) == []
    ensures ips != [] ==> Still(st, st', ips, now) != [] && Still(st, st', ips, now)[0] == ips[0]
  {
    hide Gone, DeadIps;
    if ips != [] {
      GoneIs(st, st', ips[0], DeadIps(st, now), DeadIps(st', now), now);
    }
  }

  lemma {:induction false} SituationNarrows(st: State, white: set<Ip>, gray: set<Ip>, ip: Ip, now: int)
    requires Situation(st, white, gray, now)
    ensures ip in white ==> Situation(st, white - {ip}, gray + {ip}, now)
  {
    hide DeadAt;
    if ip in white {
      forall x: Ip ensures DeadAt(st, x, now) <==> x in (white - {ip}) + (gray + {ip}) {
        assert DeadAt(st, x, now) <==> x in white + gray;
      }
    }
  }

  /** Before the nested visit of the hop where the error was queued. */
  lemma {:induction false} QueueEnters(env: Env, st: State, p: Packet, white: set<Ip>, gray: set<Ip>, now: int)
    requires Queue(st, now) && Situation(st, white, gray, now) && Follow(env, st, p, white, gray).Some?
    requires WaitsAt(env, st.cache, p).Some?
    ensures var x, st1 := WaitsAt(env, st.cache, p).value, QueuedError(env, st, p);
      && Queue(st1, now) && Situation(st1, white, gray, now) && x !in gray
      && (x in white ==> Explore(env, st1, RequestFor(st1, x).packets, white - {x}, gray + {x}).Some?)
  {
    var x, e := WaitsAt(env, st.cache, p).value, ErrorAbout(env, p, env.route(p.frame.src).value);
    EnqueueQueue(st, x, e, now);
    hide Queue, Index, Enqueue, Explore, Lookup, DeadAt, Grows, QueuedError;
    forall y: Ip ensures DeadAt(QueuedError(env, st, p), y, now) <==> y in white + gray {
      QueuedErrorDead(env, st, p, now, y);
    }
    assert x !in gray;
    if x in white {
      assert DeadAt(st, x, now);
      DeadPending(st, x, now);
      Detour(env, st, p, now, white, gray);
    }
    QueuedErrorIs(env, st, p);
  }

  lemma {:induction false} QueuedErrorIs(env: Env, st: State, p: Packet)
    requires WaitsAt(env, st.cache, p).Some?
    ensures QueuedError(env, st, p)
      == Enqueue(st, WaitsAt(env, st.cache, p).value, ErrorAbout(env, p, env.route(p.frame.src).value))
  {
  }
}
