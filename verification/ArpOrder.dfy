/** The order of the request list: a visit puts new requests in front and takes the given-up ones out,
    so that a walk along the list meets the rest in their old order. */
module ArpOrder {
  import opened Words
  import opened ArpSpec
  import opened ArpQueue
  import opened ArpSearch
  import opened ArpVisit
  import opened ArpGiveUp
  import opened ArpBalance
  import opened ArpReturn
  import opened ArpSweep

  /** The list ends as the old one did, but for the hops that are gone. */
  predicate Ends(a: seq<Ip>, b: seq<Ip>, gone: set<Ip>) {
    var w := Without(a, gone);
    |w| <= |b| && b[|b| - |w|..] == w
  }

  lemma {:induction false} WithoutConcat(a: seq<Ip>, b: seq<Ip>, gone: set<Ip>)
    ensures Without(a + b, gone) == Without(a, gone) + Without(b, gone)
  {
    if a == [] {
      assert a + b == b;
    } else {
      assert (a + b)[0] == a[0] && (a + b)[1..] == a[1..] + b;
      WithoutConcat(a[1..], b, gone);
    }
  }

  lemma {:induction false} WithoutCons(x: Ip, a: seq<Ip>, gone: set<Ip>)
    ensures Without([x] + a, gone) == (if x in gone then [] else [x]) + Without(a, gone)
  {
    assert ([x] + a)[1..] == a;
  }

  lemma {:induction false} WithoutTwice(a: seq<Ip>, g: set<Ip>, h: set<Ip>)
    ensures Without(Without(a, g), h) == Without(a, g + h)
  {
    if a != [] {
      WithoutTwice(a[1..], g, h);
      if a[0] in g {
        assert Without(a, g) == Without(a[1..], g);
      } else {
        WithoutCons(a[0], Without(a[1..], g), h);
      }
    }
  }

  lemma {:induction false} EndsTrans(a: seq<Ip>, b: seq<Ip>, c: seq<Ip>, g: set<Ip>, h: set<Ip>)
    requires Ends(a, b, g) && Ends(b, c, h)
    ensures Ends(a, c, g + h)
  {
    var w := Without(a, g);
    var front := b[..|b| - |w|];
    assert b == front + w;
    WithoutConcat(front, w, h);
    WithoutTwice(a, g, h);
  }

  lemma {:induction false} EndsSame(a: seq<Ip>)
    ensures Ends(a, a, {})
  {
    WithoutNone(a);
  }

  lemma {:induction false} EnqueueEnds(st: State, ip: Ip, p: Packet)
    ensures Ends(Ips(st.requests), Ips(Enqueue(st, ip, p).requests), {})
  {
    var a, b := Ips(st.requests), Ips(Enqueue(st, ip, p).requests);
    WithoutNone(a);
    if Pending(st, ip) {
      assert a == b;
    } else {
      assert b == [ip] + a;
    }
  }

  lemma {:induction false} AskEnds(st: State, ip: Ip, now: int)
    requires Pending(st, ip)
    ensures Ips(AskIfDue(st, ip, now).requests) == Ips(st.requests)
  {
  }

  lemma {:induction false} UnlinkIps(rs: seq<Request>, ip: Ip)
    requires Distinct(rs)
    ensures Ips(Unlink(rs, ip)) == Without(Ips(rs), {ip})
  {
    if rs != [] {
      assert Ips(rs)[1..] == Ips(rs[1..]);
      UnlinkIps(rs[1..], ip);
      if rs[0].ip == ip {
        NotIn(Ips(rs[1..]), ip);
      } else {
        assert Ips([rs[0]] + Unlink(rs[1..], ip)) == [rs[0].ip] + Ips(Unlink(rs[1..], ip));
      }
    }
  }

  lemma {:induction false} NotIn(a: seq<Ip>, x: Ip)
    requires x !in a
    ensures Without(a, {x}) == a
  {
    if a != [] {
      NotIn(a[1..], x);
    }
  }

  lemma {:induction false} RetireEnds(st: State, ip: Ip, r: Request, now: int)
    requires Distinct(st.requests)
    ensures Ends(Ips(st.requests), Ips(Retire(st, ip, r, now).requests), {ip})
  {
    UnlinkIps(st.requests, ip);
  }

  // ---- Giving up -----------------------------------------------------------------------------------------

  lemma {:induction false} GiveUpAllEnds(
    env: Env, st: State, ps: seq<Packet>, hop: Ip, now: int, white: set<Ip>, gray: set<Ip>)
    requires Queue(st, now) && Situation(st, white, gray, now) && Explore(env, st, ps, white, gray).Some?
    ensures var s := GiveUpAll(env, st, ps, hop, now, white); Ends(Ips(st.requests), Ips(s.0.requests), white - s.1)
    decreases white, |ps| + 1
  {
    if ps == [] {
      EndsSame(Ips(st.requests));
      assert white - white == {};
    } else {
      hide Queue, Situation, Steps, Follow, GiveUp, Ends, Ips;
      var s := GiveUp(env, st, ps[0], hop, now, white);
      GiveUpWorks(env, st, ps[0], hop, now, white, gray);
      GiveUpEnds(env, st, ps[0], hop, now, white, gray);
      LeftSame(env, st, s.0, ps[1..], white, s.1, gray, now);
      GiveUpAllEnds(env, s.0, ps[1..], hop, now, s.1, gray);
      var s' := GiveUpAll(env, s.0, ps[1..], hop, now, s.1);
      EndsTrans(Ips(st.requests), Ips(s.0.requests), Ips(s'.0.requests), white - s.1, s.1 - s'.1);
      assert (white - s.1) + (s.1 - s'.1) == white - s'.1;
    }
  }

  lemma {:induction false} GiveUpEnds(
    env: Env, st: State, p: Packet, hop: Ip, now: int, white: set<Ip>, gray: set<Ip>)
    requires Queue(st, now) && Situation(st, white, gray, now) && Follow(env, st, p, white, gray).Some?
    ensures var s := GiveUp(env, st, p, hop, now, white); Ends(Ips(st.requests), Ips(s.0.requests), white - s.1)
    decreases white, 0
  {
    hide Queue, Explore, GiveUpAll, Index, Lookup, Enqueue, AskIfDue, Unlink, Ends, Ips;
    var a, w := Ips(st.requests), WaitsAt(env, st.cache, p);
    assert white - white == {};
    if w.None? {
      EndsSame(a);
    } else {
      var x, e := w.value, ErrorAbout(env, p, env.route(p.frame.src).value);
      EnqueueEnds(st, x, e);
      if x !in white {
        AskEnds(Enqueue(st, x, e), x, now);
      } else {
        assert DeadAt(st, x, now);
        DetourEnds(env, st, p, hop, now, white, gray);
      }
    }
  }

  lemma {:induction false} DetourEnds(
    env: Env, st: State, p: Packet, hop: Ip, now: int, white: set<Ip>, gray: set<Ip>)
    requires Queue(st, now) && Situation(st, white, gray, now) && Follow(env, st, p, white, gray).Some?
    requires var w := WaitsAt(env, st.cache, p); w.Some? && w.value in white && Pending(st, w.value)
    ensures var s := GiveUp(env, st, p, hop, now, white); Ends(Ips(st.requests), Ips(s.0.requests), white - s.1)
    decreases white, 0, 0
  {
    hide Queue, Explore, GiveUpAll, Index, Lookup, Enqueue, Unlink, Ends, Ips, Situation, Steps, Follow, Grows;
    var x, e := WaitsAt(env, st.cache, p).value, ErrorAbout(env, p, env.route(p.frame.src).value);
    var st1 := Enqueue(st, x, e);
    var r := RequestFor(st1, x);
    Detour(env, st, p, now, white, gray);
    EnqueueEnds(st, x, e);
    GiveUpAllWorks(env, st1, r.packets, x, now, white - {x}, gray + {x});
    GiveUpAllEnds(env, st1, r.packets, x, now, white - {x}, gray + {x});
    var s := GiveUpAll(env, st1, r.packets, x, now, white - {x});
    QueueDistinct(s.0, now);
    RetireEnds(s.0, x, r, now);
    var a, b, c, d := Ips(st.requests), Ips(st1.requests), Ips(s.0.requests), Ips(Retire(s.0, x, r, now).requests);
    EndsTrans(a, b, c, {}, white - {x} - s.1);
    EndsTrans(a, c, d, {} + (white - {x} - s.1), {x});
    assert {} + (white - {x} - s.1) + {x} == white - s.1;
  }

  /** The list after a visit. */
  lemma {:induction false} VisitedEnds(env: Env, st: State, ip: Ip, now: int)
    requires Queue(st, now) && Pending(st, ip) && Returns(env, st, ip, now)
    ensures Ends(Ips(st.requests), Ips(Visited(env, st, ip, now).requests), DeadIps(st, now) - Left(env, st, ip, now))
  {
    hide Queue, Index, GiveUpAll, DeadIps, Explore, AskIfDue, Unlink, Ends, Ips, Situation, Steps;
    var all := DeadIps(st, now);
    if DeadAt(st, ip, now) {
      var r, white := RequestFor(st, ip), all - {ip};
      Start(st, ip, now);
      DeadIpsAre(st, now, ip);
      GiveUpAllWorks(env, st, r.packets, ip, now, white, {ip});
      GiveUpAllEnds(env, st, r.packets, ip, now, white, {ip});
      var s := GiveUpAll(env, st, r.packets, ip, now, white);
      QueueDistinct(s.0, now);
      RetireEnds(s.0, ip, r, now);
      EndsTrans(Ips(st.requests), Ips(s.0.requests), Ips(Visited(env, st, ip, now).requests), white - s.1, {ip});
      assert (white - s.1) + {ip} == all - s.1;
    } else {
      AskEnds(st, ip, now);
      EndsSame(Ips(st.requests));
      assert all - all == {};
    }
  }

  // ---- Walking along the list ----------------------------------------------------------------------------------

  /** `ahead` is the end of the list. */
  predicate Remaining(st: State, ahead: seq<Ip>) {
    var a := Ips(st.requests);
    |ahead| <= |a| && a[|a| - |ahead|..] == ahead
  }

  /** After a visit, what the walk has ahead is again the end of the list. */
  lemma {:induction false} WalksOn(env: Env, st: State, ahead: seq<Ip>, now: int)
    requires Queue(st, now) && Remaining(st, ahead) && ahead != []
    requires Pending(st, ahead[0]) && Returns(env, st, ahead[0], now)
    ensures var st1 := Visited(env, st, ahead[0], now); Remaining(st1, Still(st, st1, ahead[1..], now))
  {
    hide Queue, Index, Visited, DeadIps, Left, Ips;
    var st1 := Visited(env, st, ahead[0], now);
    var white, left := DeadIps(st, now), Left(env, st, ahead[0], now);
    VisitedEnds(env, st, ahead[0], now);
    VisitedDead(env, st, ahead[0], now);
    assert Still(st, st1, ahead[1..], now) == Without(ahead[1..], white - left);
    var a, gone := Ips(st.requests), white - left;
    var front := a[..|a| - |ahead| + 1];
    assert a == front + ahead[1..];
    WithoutConcat(front, ahead[1..], gone);
  }
}
