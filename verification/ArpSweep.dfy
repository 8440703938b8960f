/** A visit and a sweep as a whole: what they do to each hop, and when a sweep gets through. */
module ArpSweep {
  import opened Words
  import opened ArpSpec
  import opened ArpQueue
  import opened ArpSearch
  import opened ArpVisit
  import opened ArpGiveUp
  import opened ArpBalance
  import opened ArpReturn

  // ---- A visit ---------------------------------------------------------------------------------------------

  /** The dead hops that the search from `ip` does not reach. */
  function Left(env: Env, st: State, ip: Ip, now: int): (r: set<Ip>)
    requires Pending(st, ip)
    ensures r <= DeadIps(st, now)
  {
    if DeadAt(st, ip, now)
    then GiveUpAll(env, st, RequestFor(st, ip).packets, ip, now, DeadIps(st, now) - {ip}).1
    else DeadIps(st, now)
  }

  lemma {:induction false} AllDead(st: State, now: int)
    ensures Situation(st, DeadIps(st, now), {}, now)
  {
    hide DeadAt, DeadIps;
    forall x: Ip ensures DeadAt(st, x, now) <==> x in DeadIps(st, now) + {} {
      DeadIpsAre(st, now, x);
    }
  }

  lemma {:induction false} AskAt(st: State, ip: Ip, now: int, white: set<Ip>, x: Ip)
    requires Situation(st, white, {}, now) && Pending(st, ip) && !DeadAt(st, ip, now)
    ensures StepAt(st, AskIfDue(st, ip, now), x, white, white, {}, now)
    ensures x == ip ==> Pending(AskIfDue(st, ip, now), x) && !Due(RequestFor(AskIfDue(st, ip, now), x), now)
  {
    hide Index, Ask, Logged;
    assert DeadAt(st, x, now) <==> x in white + {};
    if Due(RequestFor(st, ip), now) {
      AskEffect(st, ip, now, x);
    }
  }

  lemma {:induction false} RetireAt(
    st: State, st1: State, ip: Ip, r: Request, now: int, white: set<Ip>, left: set<Ip>, x: Ip)
    requires StepAt(st, st1, x, white - {ip}, left, {ip}, now) && left <= white - {ip} && ip in white
    requires Distinct(st1.requests) && r.ip == ip
    ensures StepAt(st, Retire(st1, ip, r, now), x, white, left, {}, now)
  {
    hide Index, Unlink;
    var st' := Retire(st1, ip, r, now);
    UnlinkOwn(st1.requests, ip);
    if x == ip {
      assert (r, now) in st'.dropped;
    } else {
      UnlinkOther(st1.requests, ip, x);
      LoggedMore(st1, st', x, now);
    }
  }

  /** A visit that returns, hop by hop. */
  lemma {:induction false} VisitedSteps(env: Env, st: State, ip: Ip, now: int)
    requires Queue(st, now) && Pending(st, ip) && Returns(env, st, ip, now)
    ensures Steps(st, Visited(env, st, ip, now), DeadIps(st, now), Left(env, st, ip, now), {}, now)
  {
    var white, st' := DeadIps(st, now), Visited(env, st, ip, now);
    hide Index, GiveUpAll, DeadIps, StepAt, Ask, Explore, Situation;
    AllDead(st, now);
    if DeadAt(st, ip, now) {
      var r := RequestFor(st, ip);
      Start(st, ip, now);
      GiveUpAllWorks(env, st, r.packets, ip, now, white - {ip}, {ip});
      var s := GiveUpAll(env, st, r.packets, ip, now, white - {ip});
      QueueDistinct(s.0, now);
      DeadIpsAre(st, now, ip);
      forall x: Ip ensures StepAt(st, st', x, white, s.1, {}, now) {
        RetireAt(st, s.0, ip, r, now, white, s.1, x);
      }
    } else {
      AskFields(st, ip, now);
      forall x: Ip ensures StepAt(st, st', x, white, white, {}, now) {
        AskAt(st, ip, now, white, x);
      }
    }
  }

  /** What is dead afterwards is what the search did not reach. */
  lemma {:induction false} VisitedDead(env: Env, st: State, ip: Ip, now: int)
    requires Queue(st, now) && Pending(st, ip) && Returns(env, st, ip, now)
    ensures DeadIps(Visited(env, st, ip, now), now) == Left(env, st, ip, now)
    ensures ip !in Left(env, st, ip, now)
    ensures DeadAt(st, ip, now) ==>
      Explore(env, st, RequestFor(st, ip).packets, DeadIps(st, now) - {ip}, {ip}) == Some(Left(env, st, ip, now))
  {
    var white, left, st' := DeadIps(st, now), Left(env, st, ip, now), Visited(env, st, ip, now);
    VisitedSteps(env, st, ip, now);
    AllDead(st, now);
    StepsSituation(st, st', white, left, {}, now);
    AllDead(st', now);
    DeadIpsAre(st, now, ip);
    if DeadAt(st, ip, now) {
      Start(st, ip, now);
      GiveUpAllWorks(env, st, RequestFor(st, ip).packets, ip, now, white - {ip}, {ip});
    }
    hide Visited, DeadIps, Explore, Steps, DeadAt, GiveUpAll;
    forall x ensures x in DeadIps(st', now) <==> x in left {
      DeadSame(st', left, now, x);
    }
  }

  lemma {:induction false} DeadSame(st: State, left: set<Ip>, now: int, x: Ip)
    requires Situation(st, left, {}, now)
    ensures x in DeadIps(st, now) <==> x in left
  {
    hide DeadAt, DeadIps;
    DeadIpsAre(st, now, x);
    assert DeadAt(st, x, now) <==> x in left + {};
  }

  /** A visit keeps hops distinct, packet lists non-empty, broadcasts spaced and at most five. */
  lemma {:induction false} VisitedQueue(env: Env, st: State, ip: Ip, now: int)
    requires Queue(st, now) && Pending(st, ip) && Returns(env, st, ip, now)
    ensures Queue(Visited(env, st, ip, now), now)
  {
    hide Queue, Index, GiveUpAll, DeadIps, Explore, Ask, Unlink, StepAt;
    var r := RequestFor(st, ip);
    if DeadAt(st, ip, now) {
      var white := DeadIps(st, now) - {ip};
      Start(st, ip, now);
      GiveUpAllWorks(env, st, r.packets, ip, now, white, {ip});
      var s := GiveUpAll(env, st, r.packets, ip, now, white);
      KeptInProgress(st, s.0, ip, white, s.1, {ip}, now);
      UnlinkQueue(s.0, ip, now);
    } else if Due(r, now) {
      AskQueue(st, ip, now);
    }
  }

  /** A visit loses no packet and duplicates none. */
  lemma {:induction false} VisitedBalance(env: Env, st: State, ip: Ip, now: int, extra: multiset<(Packet, Ip)>)
    requires Queue(st, now) && Pending(st, ip) && Returns(env, st, ip, now) && Balance(st, extra)
    ensures Balance(Visited(env, st, ip, now), extra)
  {
    hide Queue, Index, GiveUpAll, DeadIps, Explore, Ask, Unlink, StepAt, Balance;
    var r := RequestFor(st, ip);
    if DeadAt(st, ip, now) {
      var white := DeadIps(st, now) - {ip};
      Start(st, ip, now);
      GiveUpAllWorks(env, st, r.packets, ip, now, white, {ip});
      GiveUpAllBalance(env, st, r.packets, ip, now, white, {ip}, extra);
      var s := GiveUpAll(env, st, r.packets, ip, now, white);
      KeptInProgress(st, s.0, ip, white, s.1, {ip}, now);
      UnlinkBalance(s.0, Visited(env, st, ip, now), ip, extra);
    } else if Due(r, now) {
      AskBalance(st, ip, now, extra);
    }
  }

  /** A visit makes one error for each packet it gives up. */
  lemma {:induction false} VisitedOwed(env: Env, st: State, ip: Ip, now: int)
    requires Queue(st, now) && Pending(st, ip) && Returns(env, st, ip, now) && Owed(env, st, multiset{}) && Backed(st)
    ensures Owed(env, Visited(env, st, ip, now), multiset{})
  {
    hide Queue, Index, GiveUpAll, DeadIps, Explore, Ask, Unlink, Owed;
    if DeadAt(st, ip, now) {
      var ps, white := RequestFor(st, ip).packets, DeadIps(st, now) - {ip};
      Start(st, ip, now);
      GiveUpAllOwed(env, st, ps, ip, now, white, {ip}, multiset{});
      SameOwed(env, GiveUpAll(env, st, ps, ip, now, white).0, Visited(env, st, ip, now), multiset{});
    } else {
      AskFields(st, ip, now);
      SameOwed(env, st, Visited(env, st, ip, now), multiset{});
    }
  }

  // ---- A sweep ---------------------------------------------------------------------------------------------

  predicate AllPending(st: State, ips: seq<Ip>) { forall i :: 0 <= i < |ips| ==> Pending(st, ips[i]) }

  predicate DistinctIps(ips: seq<Ip>) { forall i, j :: 0 <= i < j < |ips| ==> ips[i] != ips[j] }

  /** The walk is on a list of distinct hops in the queue that has all the dead ones. */
  predicate Ahead(st: State, ips: seq<Ip>, now: int) {
    AllPending(st, ips) && DistinctIps(ips) && forall x :: x in DeadIps(st, now) ==> x in ips
  }

  /** Every request in the queue is ahead of a sweep. */
  lemma {:induction false} SweptIps(st: State, now: int)
    requires Queue(st, now)
    ensures Ahead(st, Ips(st.requests), now)
    ensures forall x: Ip :: x in Ips(st.requests) <==> Pending(st, x)
  {
    hide GoodRequest, GoodDrop, DeadIps;
    var rs := st.requests;
    forall i | 0 <= i < |rs| ensures Pending(st, rs[i].ip) {
      IndexOf(rs, i);
    }
    forall x: Ip | Pending(st, x) ensures x in Ips(rs) {
      assert Ips(rs)[Index(rs, x)] == x;
    }
    forall x | x in DeadIps(st, now) ensures x in Ips(rs) {
      DeadIpsAre(st, now, x);
    }
  }

  lemma {:induction false} GoneIs(st: State, st': State, x: Ip, white: set<Ip>, left: set<Ip>, now: int)
    requires white == DeadIps(st, now) && left == DeadIps(st', now)
    ensures Gone(st, st', x, now) <==> x in white && x !in left
  {
    hide DeadIps, DeadAt;
    DeadIpsAre(st, now, x);
    DeadIpsAre(st', now, x);
  }

  lemma {:induction false} WithoutIn(ips: seq<Ip>, gone: set<Ip>, x: Ip)
    ensures x in Without(ips, gone) <==> x in ips && x !in gone
  {
    if ips != [] {
      WithoutIn(ips[1..], gone, x);
      assert x in ips <==> x == ips[0] || x in ips[1..];
    }
  }

  lemma {:induction false} WithoutDistinct(ips: seq<Ip>, gone: set<Ip>)
    requires DistinctIps(ips)
    ensures DistinctIps(Without(ips, gone))
  {
    if ips != [] {
      WithoutDistinct(ips[1..], gone);
      WithoutIn(ips[1..], gone, ips[0]);
      assert ips[0] !in ips[1..];
    }
  }

  lemma {:induction false} WithoutNone(a: seq<Ip>)
    ensures Without(a, {}) == a
  {
    if a != [] {
      WithoutNone(a[1..]);
    }
  }

  lemma {:induction false} StillIn(st: State, st': State, ips: seq<Ip>, now: int, x: Ip)
    ensures x in Still(st, st', ips, now) <==> x in ips && !Gone(st, st', x, now)
  {
    hide Gone, DeadIps;
    WithoutIn(ips, DeadIps(st, now) - DeadIps(st', now), x);
    GoneIs(st, st', x, DeadIps(st, now), DeadIps(st', now), now);
  }

  /** After a visit the walk is ahead of the rest. */
  lemma {:induction false} StillAhead(env: Env, st: State, ips: seq<Ip>, now: int)
    requires Queue(st, now) && Ahead(st, ips, now) && ips != []
    requires Pending(st, ips[0]) && Returns(env, st, ips[0], now)
    ensures var st1 := Visited(env, st, ips[0], now); Ahead(st1, Still(st, st1, ips[1..], now), now)
  {
    var st1 := Visited(env, st, ips[0], now);
    VisitedSteps(env, st, ips[0], now);
    VisitedDead(env, st, ips[0], now);
    var left, rest := Left(env, st, ips[0], now), Still(st, st1, ips[1..], now);
    hide Visited, DeadIps, Left, Queue, Index, Returns, Without, Logged;
    assert DistinctIps(ips[1..]);
    WithoutDistinct(ips[1..], DeadIps(st, now) - DeadIps(st1, now));
    forall i | 0 <= i < |rest| ensures Pending(st1, rest[i]) {
      StillIn(st, st1, ips[1..], now, rest[i]);
      StillThere(st, st1, rest[i], DeadIps(st, now), left, now);
    }
    forall x | x in left ensures x in rest {
      StillIn(st, st1, ips[1..], now, x);
      assert x in ips && x != ips[0];
      DeadIpsAre(st1, now, x);
    }
  }

  lemma {:induction false} StillThere(st: State, st': State, x: Ip, white: set<Ip>, left: set<Ip>, now: int)
    requires StepAt(st, st', x, white, left, {}, now) && Pending(st, x) && !Gone(st, st', x, now)
    requires white == DeadIps(st, now) && left == DeadIps(st', now)
    ensures Pending(st', x)
  {
    hide Index, DeadIps, Logged;
    DeadIpsAre(st, now, x);
    DeadIpsAre(st', now, x);
  }

  /** What a sweep does to a hop: a dead one is given up, and every other one ahead is no longer due. */
  predicate SweptAt(st: State, st': State, x: Ip, ips: seq<Ip>, now: int) {
    if DeadAt(st, x, now) then Logged(st', x, now) && (Pending(st', x) ==> Born(RequestFor(st', x), x, now))
    else if Pending(st, x) then
      && Pending(st', x) && Touched(RequestFor(st, x), RequestFor(st', x), now)
      && (x in ips ==> !Due(RequestFor(st', x), now))
    else Pending(st', x) ==> Born(RequestFor(st', x), x, now)
  }

  lemma {:induction false} SweptTrans(
    a: State, b: State, c: State, x: Ip, ips: seq<Ip>, rest: seq<Ip>, white: set<Ip>, left: set<Ip>, now: int)
    requires StepAt(a, b, x, white, left, {}, now) && SweptAt(b, c, x, rest, now) && Grows(b, c)
    requires (x in white <==> DeadAt(a, x, now)) && left <= white && (x in left <==> DeadAt(b, x, now))
    requires x in ips ==> x in rest || DeadAt(a, x, now) || (Pending(b, x) && !Due(RequestFor(b, x), now))
    ensures SweptAt(a, c, x, ips, now)
  {
    hide Index;
  }

  /** The first visit leaves its hop no longer due. */
  lemma {:induction false} VisitedQuiet(env: Env, st: State, ip: Ip, now: int)
    requires Pending(st, ip) && !DeadAt(st, ip, now)
    ensures Pending(Visited(env, st, ip, now), ip) && !Due(RequestFor(Visited(env, st, ip, now), ip), now)
  {
    hide Index, Ask, GiveUpAll, DeadIps;
    if Due(RequestFor(st, ip), now) {
      AskEffect(st, ip, now, ip);
    }
  }

  /** A sweep that gets through gives up every dead request, asks each other due one ahead exactly
      once, and leaves the counters of the rest alone. */
  lemma {:induction false} WalkAt(env: Env, st: State, ips: seq<Ip>, now: int, x: Ip)
    requires Queue(st, now) && Ahead(st, ips, now) && Walk(env, st, ips, now).Done?
    ensures SweptAt(st, Walk(env, st, ips, now).st, x, ips, now)
    decreases |ips|
  {
    DeadIpsAre(st, now, x);
    if ips == [] {
      hide Index, DeadIps;
      assert !DeadAt(st, x, now);
    } else {
      assert Pending(st, ips[0]);
      var st1 := Visited(env, st, ips[0], now);
      VisitIsResult(env, st, ips[0], now, 0);
      var rest := Still(st, st1, ips[1..], now);
      hide Visited, Visit, Queue, Returns, DeadIps, StepAt, SweptAt, Gone, Left, Still, DeadAt;
      VisitedQueue(env, st, ips[0], now);
      StillAhead(env, st, ips, now);
      WalkAt(env, st1, rest, now, x);
      WalkGrows(env, st1, rest, now);
      VisitedSteps(env, st, ips[0], now);
      VisitedDead(env, st, ips[0], now);
      DeadIpsAre(st1, now, x);
      if x in ips {
        FirstOrRest(env, st, ips, now, x);
      }
      SweptTrans(st, st1, Walk(env, st1, rest, now).st, x, ips, rest,
        DeadIps(st, now), Left(env, st, ips[0], now), now);
    }
  }

  lemma {:induction false} FirstOrRest(env: Env, st: State, ips: seq<Ip>, now: int, x: Ip)
    requires ips != [] && Pending(st, ips[0]) && x in ips
    ensures var st1 := Visited(env, st, ips[0], now);
      x in Still(st, st1, ips[1..], now) || DeadAt(st, x, now) || (Pending(st1, x) && !Due(RequestFor(st1, x), now))
  {
    hide Visited, Still, Index;
    if !DeadAt(st, x, now) {
      if x == ips[0] {
        VisitedQuiet(env, st, x, now);
      } else {
        StillIn(st, Visited(env, st, ips[0], now), ips[1..], now, x);
      }
    }
  }

  lemma {:induction false} WalkGrows(env: Env, st: State, ips: seq<Ip>, now: int)
    requires Queue(st, now) && Ahead(st, ips, now) && Walk(env, st, ips, now).Done?
    ensures Grows(st, Walk(env, st, ips, now).st)
    decreases |ips|
  {
    if ips != [] {
      assert Pending(st, ips[0]);
      var st1 := Visited(env, st, ips[0], now);
      VisitIsResult(env, st, ips[0], now, 0);
      hide Visited, Visit, Queue, Returns, DeadIps, StepAt, Gone, Left, Still, DeadAt;
      VisitedQueue(env, st, ips[0], now);
      StillAhead(env, st, ips, now);
      VisitedSteps(env, st, ips[0], now);
      WalkGrows(env, st1, Still(st, st1, ips[1..], now), now);
    }
  }

  lemma {:induction false} WalkKeeps(env: Env, st: State, ips: seq<Ip>, now: int, extra: multiset<(Packet, Ip)>)
    requires Queue(st, now) && Ahead(st, ips, now) && Walk(env, st, ips, now).Done?
    requires Balance(st, extra) && Owed(env, st, multiset{}) && Backed(st)
    ensures var st' := Walk(env, st, ips, now).st; Queue(st', now) && Balance(st', extra) && Owed(env, st', multiset{})
    decreases |ips|
  {
    if ips != [] {
      assert Pending(st, ips[0]);
      var st1 := Visited(env, st, ips[0], now);
      VisitIsResult(env, st, ips[0], now, 0);
      hide Visited, Visit, Queue, Returns, DeadIps, StepAt, Gone, Left, Still, DeadAt, Balance, Owed, Ahead;
      VisitedQueue(env, st, ips[0], now);
      VisitedBalance(env, st, ips[0], now, extra);
      VisitedOwed(env, st, ips[0], now);
      StillAhead(env, st, ips, now);
      VisitedSteps(env, st, ips[0], now);
      StillBacked(st, st1, DeadIps(st, now), Left(env, st, ips[0], now), {}, now);
      WalkKeeps(env, st1, Still(st, st1, ips[1..], now), now, extra);
    }
  }

  // ---- When a sweep gets through -----------------------------------------------------------------------------

  datatype Verdict = Fine | Loops | Frees

  /** The sweep on hops alone: a search from each dead hop ahead, over those not reached before; it
      fails where a search fails, or where it reaches the very next hop of the list. */
  function Scan(env: Env, st: State, ips: seq<Ip>, white: set<Ip>): Verdict
    decreases |ips|
  {
    if ips == [] then Fine
    else if ips[0] !in white || !Pending(st, ips[0]) then Scan(env, st, ips[1..], white)
    else
      match Explore(env, st, RequestFor(st, ips[0]).packets, white - {ips[0]}, {ips[0]})
      case None => Loops
      case Some(left) =>
        if |ips| > 1 && ips[1] in white && ips[1] !in left then Frees
        else Scan(env, st, Without(ips[1..], white - left), left)
  }

  lemma {:induction false} ScanSame(env: Env, st: State, st': State, ips: seq<Ip>, white: set<Ip>)
    requires SameAt(st, st', white)
    ensures Scan(env, st', ips, white) == Scan(env, st, ips, white)
    decreases |ips|
  {
    hide Index, Explore, Without;
    if ips != [] {
      if ips[0] in white {
        var x := ips[0];
        SameLess(st, st', white, white - {x});
        ExploreSame(env, st, st', RequestFor(st, x).packets, white - {x}, {x});
        var f := Explore(env, st, RequestFor(st, x).packets, white - {x}, {x});
        if f.Some? {
          SameLess(st, st', white, f.value);
          ScanSame(env, st, st', Without(ips[1..], white - f.value), f.value);
        }
      } else {
        ScanSame(env, st, st', ips[1..], white);
      }
    }
  }

  predicate Agrees(o: Outcome, v: Verdict) { (o.Done? <==> v.Fine?) && (o.Endless? <==> v.Loops?) && (o.Dangling? <==> v.Frees?) }

  /** A sweep gets through, runs for ever or goes on with a freed request exactly as the scan says. */
  lemma {:induction false} WalkExact(env: Env, st: State, ips: seq<Ip>, now: int)
    requires Queue(st, now) && Ahead(st, ips, now)
    ensures Agrees(Walk(env, st, ips, now), Scan(env, st, ips, DeadIps(st, now)))
    decreases |ips|
  {
    if ips != [] {
      assert Pending(st, ips[0]);
      VisitIsResult(env, st, ips[0], now, 0);
      hide Visit, Visited, DeadIps, Queue, Index, Explore, Gone, Still, Ahead, Left, Scan, Walk, Agrees;
      if Returns(env, st, ips[0], now) {
        WalkStep(env, st, ips, now);
      } else {
        WalkLoops(env, st, ips, now);
      }
    }
  }

  lemma {:induction false} WalkLoops(env: Env, st: State, ips: seq<Ip>, now: int)
    requires ips != [] && Pending(st, ips[0]) && !Returns(env, st, ips[0], now) && Visit(env, st, ips[0], now) == None
    ensures Agrees(Walk(env, st, ips, now), Scan(env, st, ips, DeadIps(st, now)))
  {
    hide Visit, DeadIps, Index, Explore, Without;
    DeadIpsAre(st, now, ips[0]);
  }

  lemma {:induction false} WalkStep(env: Env, st: State, ips: seq<Ip>, now: int)
    requires Queue(st, now) && Ahead(st, ips, now) && ips != [] && Pending(st, ips[0])
    requires Returns(env, st, ips[0], now) && Visit(env, st, ips[0], now) == Some(Visited(env, st, ips[0], now))
    ensures Agrees(Walk(env, st, ips, now), Scan(env, st, ips, DeadIps(st, now)))
    decreases |ips|, 0
  {
    hide Visit, Visited, DeadIps, Queue, Index, Explore, Gone, Without, Ahead, Scan, Walk, GiveUpAll;
    var st1 := Visited(env, st, ips[0], now);
    var white, left := DeadIps(st, now), Left(env, st, ips[0], now);
    var rest := Still(st, st1, ips[1..], now);
    VisitedQueue(env, st, ips[0], now);
    VisitedSteps(env, st, ips[0], now);
    VisitedDead(env, st, ips[0], now);
    StillAhead(env, st, ips, now);
    assert rest == Without(ips[1..], white - left);
    LeftKept(st, st1, white, left, now);
    ScanSame(env, st, st1, rest, left);
    if |ips| > 1 {
      GoneIs(st, st1, ips[1], white, left, now);
    }
    WalkUnfold(env, st, ips, now, st1);
    ScanUnfold(env, st, ips, now, left);
    WalkExact(env, st1, rest, now);
  }

  lemma {:induction false} LeftKept(st: State, st': State, white: set<Ip>, left: set<Ip>, now: int)
    requires Steps(st, st', white, left, {}, now)
    ensures SameAt(st, st', left)
  {
    hide Index, Logged;
    forall x | x in left ensures Pending(st, x) && Pending(st', x) && RequestFor(st', x) == RequestFor(st, x) {
      assert StepAt(st, st', x, white, left, {}, now);
    }
  }

  lemma {:induction false} WalkUnfold(env: Env, st: State, ips: seq<Ip>, now: int, st1: State)
    requires ips != [] && Pending(st, ips[0]) && Visit(env, st, ips[0], now) == Some(st1)
    ensures Walk(env, st, ips, now) ==
      if |ips| > 1 && Gone(st, st1, ips[1], now) then Dangling else Walk(env, st1, Still(st, st1, ips[1..], now), now)
  {
    hide Visit, Gone, Still, Index;
  }

  lemma {:induction false} ScanUnfold(env: Env, st: State, ips: seq<Ip>, now: int, left: set<Ip>)
    requires ips != [] && Pending(st, ips[0])
    requires if DeadAt(st, ips[0], now)
      then Explore(env, st, RequestFor(st, ips[0]).packets, DeadIps(st, now) - {ips[0]}, {ips[0]}) == Some(left)
      else left == DeadIps(st, now)
    ensures var white := DeadIps(st, now);
      Scan(env, st, ips, white) ==
      if |ips| > 1 && ips[1] in white && ips[1] !in left then Frees else Scan(env, st, Without(ips[1..], white - left), left)
  {
    hide Explore, Without, Index, DeadIps;
    DeadIpsAre(st, now, ips[0]);
    var white := DeadIps(st, now);
    assert white - white == {};
    WithoutNone(ips[1..]);
  }

  // ---- An ARP reply -------------------------------------------------------------------------------

  lemma {:induction false} ReplyQueue(st: State, ip: Ip, mac: Mac, now: int)
    requires Queue(st, now)
    ensures Queue(Reply(st, ip, mac, now), now)
  {
    UnlinkKeeps(st.requests, ip, now);
    UnlinkSplit(st.requests, ip);
    hide GoodRequest, GoodDrop, FirstFree, Index, Unlink;
  }

  lemma {:induction false} ReplyBalance(st: State, ip: Ip, mac: Mac, now: int, extra: multiset<(Packet, Ip)>)
    requires Balance(st, extra)
    ensures Balance(Reply(st, ip, mac, now), extra)
  {
    hide FirstFree, Waiting, SentPairs, GivenPairs, SendAll, Index, PairsOf, Unlink;
    if Pending(st, ip) {
      var ps := RequestFor(st, ip).packets;
      SentPush(st.sent, ps, ip, mac);
      WaitingSplit(st.requests, Index(st.requests, ip));
      UnlinkSplit(st.requests, ip);
      var rest, sent, gone := Waiting(Unlink(st.requests, ip)), SentPairs(st.sent), GivenPairs(st.givenUp);
      assert rest + PairsOf(ps, ip) + sent + gone == rest + (sent + PairsOf(ps, ip)) + gone;
    }
  }

  lemma {:induction false} ReplyAt(st: State, ip: Ip, mac: Mac, now: int, x: Ip)
    requires Queue(st, now)
    ensures var st' := Reply(st, ip, mac, now);
      && (Pending(st', x) <==> x != ip && Pending(st, x))
      && (Pending(st', x) ==> RequestFor(st', x) == RequestFor(st, x))
  {
    hide Index, Unlink, FirstFree, GoodRequest, GoodDrop;
    if Pending(st, ip) {
      UnlinkOwn(st.requests, ip);
      if x != ip {
        UnlinkOther(st.requests, ip, x);
      }
    }
  }
}
