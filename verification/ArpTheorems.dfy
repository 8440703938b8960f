/** The theorems about the ARP queue and cache, over every run. */
module ArpTheorems {
  import opened Words
  import opened ArpSpec
  import opened ArpQueue
  import opened ArpSearch
  import opened ArpVisit
  import opened ArpGiveUp
  import opened ArpBalance
  import opened ArpReturn
  import opened ArpSweep
  import opened ArpRuns

  // ---- Where the packets are -----------------------------------------------------------------------

  /** Each accepted packet is in exactly one place: waiting under its next hop, sent once, or given up once. */
  lemma {:induction false} PacketsConserved(env: Env, run: Run, t: int, p: Packet, hop: Ip)
    requires Legal(env, Empty, run, t)
    ensures var st := After(env, Empty, run, t);
      st.accepted[(p, hop)]
        == Waiting(st.requests)[(p, hop)] + SentPairs(st.sent)[(p, hop)] + GivenPairs(st.givenUp)[(p, hop)]
  {
    var st := After(env, Empty, run, t);
    EmptyInv(env, t);
    RunKeepsInv(env, Empty, run, t);
    hide After, Legal, Queue, Owed, SentWell, CacheWell, Waiting, SentPairs, GivenPairs;
    assert st.accepted + multiset{} == st.accepted;
  }

  /**
   * What was sent carried the address of an accepted reply for that very hop. Each packet given up
   * is answered by exactly one host-unreachable error, unless there is no route back: the errors
   * sent at once are, in order, those about the packets whose return hop was known, and a packet was
   * accepted as often as forwarding brought it and an error was queued for one given up.
   */
  lemma {:induction false} SentAndAnswered(env: Env, run: Run, t: int, p: Packet, hop: Ip)
    requires Legal(env, Empty, run, t)
    ensures var st := After(env, Empty, run, t);
      && (forall i :: 0 <= i < |st.sent| ==> (st.sent[i].1, st.sent[i].2) in st.replies)
      && (forall i :: 0 <= i < |st.relayed| ==> (st.relayed[i].1, st.relayed[i].2) in st.replies)
      && st.errors == SentErrors(env, st.givenUp)
      && st.accepted[(p, hop)] == st.forwarded[(p, hop)] + QueuedErrors(env, st.givenUp)[(p, hop)]
      && (forall i :: 0 <= i < |st.givenUp| ==> FateOk(env, st.replies, st.givenUp[i]))
  {
    EmptyInv(env, t);
    RunKeepsInv(env, Empty, run, t);
    hide After, Legal, Queue, Balance, CacheWell, QueuedErrors, SentErrors, FateOk;
  }

  /** The number of errors: one for each packet given up that has a route back. */
  lemma {:induction false} ErrorsCounted(env: Env, log: seq<(Packet, Ip, Fate)>, replies: set<(Ip, Mac)>)
    requires forall i :: 0 <= i < |log| ==> FateOk(env, replies, log[i])
    ensures |QueuedErrors(env, log)| + |SentErrors(env, log)| + NoRoutes(log) == |log|
  {
    if log != [] {
      var g := log[|log| - 1];
      assert FateOk(env, replies, g);
      ErrorsCounted(env, log[..|log| - 1], replies);
    }
  }

  function NoRoutes(log: seq<(Packet, Ip, Fate)>): nat {
    if log == [] then 0 else NoRoutes(log[..|log| - 1]) + if log[|log| - 1].2.NoRouteBack? then 1 else 0
  }

  /** Pending hops are distinct, each with a packet; broadcasts are more than a second apart and at
      most five; a request was given up only after exactly five, more than a second after the last. */
  lemma {:induction false} QueueShape(env: Env, run: Run, t: int)
    requires Legal(env, Empty, run, t)
    ensures var st := After(env, Empty, run, t);
      && (forall i, j :: 0 <= i < j < |st.requests| ==> st.requests[i].ip != st.requests[j].ip)
      && (forall i :: 0 <= i < |st.requests| ==>
            && st.requests[i].packets != [] && Spaced(st.requests[i].asked)
            && st.requests[i].times == |st.requests[i].asked| <= 5)
      && (forall i :: 0 <= i < |st.dropped| ==> GoodDrop(st.dropped[i]))
  {
    EmptyInv(env, t);
    RunKeepsInv(env, Empty, run, t);
    hide After, Legal, Balance, CacheWell, SentWell, Owed, Spaced, GoodDrop;
  }

  // ---- When an event returns ---------------------------------------------------------------------------

  /** What the search over return hops says about an event. */
  function Foretold(env: Env, st: State, e: Event, now: int): Verdict {
    match e
    case Forwarding(p, gw) =>
      if Lookup(st.cache, gw).Some? || Returns(env, Queued(st, p, gw), gw, now) then Fine else Loops
    case Replying(_, _) => Fine
    case Sweeping =>
      var st1 := AgeCache(st, now);
      Scan(env, st1, Ips(st1.requests), DeadIps(st1, now))
  }

  /** An event returns, never returns, or goes on with freed memory, exactly as foretold. */
  lemma {:induction false} EventExact(env: Env, st: State, e: Event, now: int)
    requires Inv(env, st, now)
    ensures Agrees(Do(env, st, e, now), Foretold(env, st, e, now))
  {
    hide Queue, Balance, Owed, CacheWell, SentWell, Index, Lookup, Returns, DeadIps, Scan, Walk, Queued, Visited, Reply;
    hide Ahead, Ips, ExpireEntries;
    match e
    case Forwarding(p, gw) =>
      if Lookup(st.cache, gw).None? {
        QueuedKeeps(env, st, p, gw, now);
        ForwardIs(env, st, p, gw, now);
        hide Forward;
      }
    case Replying(_, _) =>
    case Sweeping =>
      var st1 := AgeCache(st, now);
      SameQueue(st, st1, now);
      SweptIps(st1, now);
      WalkExact(env, st1, Ips(st1.requests), now);
  }

  // ---- The cache -----------------------------------------------------------------------------------

  /** A stored reply for the address that was no older than 15 seconds at the latest sweep. */
  predicate Knows(st: State, ip: Ip, s: Stored) {
    s in st.stored && s.ip == ip && (st.swept.Some? ==> st.swept.value - s.at <= 15)
  }

  /** A lookup hits exactly when such a reply is known, and returns the address of one of them. */
  lemma {:induction false} LookupExact(env: Env, run: Run, t: int, ip: Ip)
    requires Legal(env, Empty, run, t)
    ensures var st := After(env, Empty, run, t);
      && (Lookup(st.cache, ip).Some? <==> exists s :: Knows(st, ip, s))
      && (Lookup(st.cache, ip).Some? ==> exists s :: Knows(st, ip, s) && s.mac == Lookup(st.cache, ip).value)
  {
    var st := After(env, Empty, run, t);
    EmptyInv(env, t);
    RunKeepsInv(env, Empty, run, t);
    hide After, Legal, Balance, SentWell, Owed, Queue, Lookup;
    LookupHit(st.cache, ip);
    if Lookup(st.cache, ip).Some? {
      var i :| 0 <= i < |st.cache| && st.cache[i].valid && st.cache[i].ip == ip
        && st.cache[i].mac == Lookup(st.cache, ip).value;
      assert Knows(st, ip, Stored(ip, st.cache[i].mac, st.cache[i].added));
    }
  }

  /** Where the known replies agree, the cache is the plain map from addresses to addresses. */
  lemma {:induction false} LookupAgrees(env: Env, run: Run, t: int, ip: Ip, mac: Mac)
    requires Legal(env, Empty, run, t)
    requires exists s :: Knows(After(env, Empty, run, t), ip, s)
    requires forall s :: Knows(After(env, Empty, run, t), ip, s) ==> s.mac == mac
    ensures Lookup(After(env, Empty, run, t).cache, ip) == Some(mac)
  {
    LookupExact(env, run, t, ip);
  }

  // ---- One hop over one event ------------------------------------------------------------------------

  /** The event visits the hop itself, not only through an error. */
  predicate Visits(st: State, e: Event, ip: Ip) {
    match e
    case Forwarding(_, gw) => gw == ip && Lookup(st.cache, gw).None?
    case Replying(_, _) => false
    case Sweeping => true
  }

  /** A dead hop is left alone or given up, and given up if visited; a live one is asked at most once
      and no longer due if visited; a new one has been asked. */
  predicate Moved(st: State, st': State, x: Ip, now: int, visited: bool) {
    if DeadAt(st, x, now) then
      if DeadAt(st', x, now) then
        !visited && Touched(RequestFor(st, x), RequestFor(st', x), now)
      else Logged(st', x, now) && (Pending(st', x) ==> Born(RequestFor(st', x), x, now))
    else if Pending(st, x) then
      && Pending(st', x) && Touched(RequestFor(st, x), RequestFor(st', x), now)
      && (visited ==> !Due(RequestFor(st', x), now))
    else Pending(st', x) ==> Born(RequestFor(st', x), x, now)
  }

  /** From before the packet is queued, over the visit. */
  lemma {:induction false} QueuedMoved(st: State, p: Packet, gw: Ip, st': State, x: Ip, white: set<Ip>, left: set<Ip>, now: int)
    requires StepAt(Queued(st, p, gw), st', x, white, left, {}, now)
    requires (x in white <==> DeadAt(st, x, now)) && (x in left <==> DeadAt(st', x, now)) && left <= white
    requires x == gw ==> x !in left && (DeadAt(st, x, now) || (Pending(st', x) && !Due(RequestFor(st', x), now)))
    ensures Moved(st, st', x, now, x == gw)
  {
    hide Index, Enqueue, Logged;
    var st0 := st.(forwarded := st.forwarded + multiset{(p, gw)});
    EnqueueOwn(st0, gw, p);
    if x != gw {
      EnqueueOthers(st0, gw, p, x);
    }
  }

  lemma {:induction false} QueuedDead(st: State, p: Packet, gw: Ip, now: int, x: Ip)
    ensures DeadAt(Queued(st, p, gw), x, now) <==> DeadAt(st, x, now)
  {
    hide Index, Enqueue;
    EnqueueDead(st.(forwarded := st.forwarded + multiset{(p, gw)}), gw, p, now, x);
  }

  lemma {:induction false} ForwardMoves(env: Env, st: State, p: Packet, gw: Ip, now: int, x: Ip)
    requires Inv(env, st, now) && Forward(env, st, p, gw, now).Done?
    ensures Moved(st, Forward(env, st, p, gw, now).st, x, now, Visits(st, Forwarding(p, gw), x))
  {
    hide Index, Lookup, Queued, Visited, Returns, DeadIps, Left, StepAt, DeadAt, Moved, Queue, Balance, Owed, CacheWell;
    hide Visit, Enqueue;
    if Lookup(st.cache, gw).None? {
      var st1 := Queued(st, p, gw);
      QueuedKeeps(env, st, p, gw, now);
      ForwardIs(env, st, p, gw, now);
      var st' := Visited(env, st1, gw, now);
      VisitedSteps(env, st1, gw, now);
      VisitedDead(env, st1, gw, now);
      QueuedDead(st, p, gw, now, x);
      DeadIpsAre(st1, now, x);
      DeadIpsAre(st', now, x);
      if !DeadAt(st1, gw, now) {
        VisitedQuiet(env, st1, gw, now);
      }
      QueuedMoved(st, p, gw, st', x, DeadIps(st1, now), Left(env, st1, gw, now), now);
    } else {
      SameMoves(st, Forward(env, st, p, gw, now).st, x, now);
    }
  }

  lemma {:induction false} SameMoves(st: State, st': State, x: Ip, now: int)
    requires st'.requests == st.requests && st'.dropped == st.dropped
    ensures Moved(st, st', x, now, false)
  {
    hide Index, Logged;
  }

  lemma {:induction false} SweepMoves(env: Env, st: State, now: int, x: Ip)
    requires Inv(env, st, now) && Sweep(env, st, now).Done?
    ensures Moved(st, Sweep(env, st, now).st, x, now, true)
  {
    hide Index, Walk, Queue, DeadIps, ExpireEntries, Balance, Owed, CacheWell, Logged;
    var st1 := AgeCache(st, now);
    SameQueue(st, st1, now);
    SweptIps(st1, now);
    WalkAt(env, st1, Ips(st1.requests), now, x);
  }

  lemma {:induction false} ReplyMoves(env: Env, st: State, ip: Ip, mac: Mac, now: int, x: Ip)
    requires Inv(env, st, now) && ip != x
    ensures Moved(st, Reply(st, ip, mac, now), x, now, false)
  {
    hide Index, Reply, Queue, Balance, Owed, CacheWell, Logged;
    ReplyAt(st, ip, mac, now, x);
  }

  lemma {:induction false} EventMoves(env: Env, st: State, e: Event, now: int, x: Ip)
    requires Inv(env, st, now) && Do(env, st, e, now).Done? && (e.Replying? ==> e.ip != x)
    ensures Moved(st, Do(env, st, e, now).st, x, now, Visits(st, e, x))
  {
    hide Inv, Forward, Reply, Sweep, Moved;
    match e
    case Forwarding(p, gw) => ForwardMoves(env, st, p, gw, now, x);
    case Replying(ip, mac) => ReplyMoves(env, st, ip, mac, now, x);
    case Sweeping => SweepMoves(env, st, now, x);
  }

  // ---- Asked at once ---------------------------------------------------------------------------------

  /** No request in the queue is left unasked. */
  ghost predicate AllAsked(st: State) {
    forall x: Ip :: Pending(st, x) ==> RequestFor(st, x).times >= 1
  }

  /** The event made the request: there was none, or it was given up first. */
  predicate Made(st: State, st': State, x: Ip, now: int) {
    Pending(st', x) && (!Pending(st, x) || Gone(st, st', x, now))
  }

  lemma {:induction false} ReplyEnds(env: Env, st: State, ip: Ip, mac: Mac, now: int)
    requires Inv(env, st, now)
    ensures Do(env, st, Replying(ip, mac), now).Done? && !Pending(Do(env, st, Replying(ip, mac), now).st, ip)
  {
    hide Index, Reply, Queue, Balance, Owed, CacheWell;
    ReplyAt(st, ip, mac, now, ip);
  }

  /** A request that was asked stays so, and one just made has been asked exactly when the clock is
      past one second, since a new request carries the time 0. */
  lemma {:induction false} AskedMoved(st: State, st': State, x: Ip, now: int, visited: bool)
    requires Moved(st, st', x, now, visited) && Pending(st', x)
    requires Pending(st, x) ==> RequestFor(st, x).times >= 1
    ensures RequestFor(st', x).times >= 1 <==> 1 < now || !Made(st, st', x, now)
  {
    hide Index, Logged;
  }

  lemma {:induction false} HopAsked(env: Env, st: State, e: Event, now: int, x: Ip)
    requires Inv(env, st, now) && Do(env, st, e, now).Done? && AllAsked(st) && Pending(Do(env, st, e, now).st, x)
    ensures var st' := Do(env, st, e, now).st;
      RequestFor(st', x).times >= 1 <==> 1 < now || !Made(st, st', x, now)
  {
    hide Inv, Do, Index, Made, Moved;
    if e.Replying? && e.ip == x {
      ReplyEnds(env, st, e.ip, e.mac, now);
    } else {
      EventMoves(env, st, e, now, x);
      AskedMoved(st, Do(env, st, e, now).st, x, now, Visits(st, e, x));
    }
  }

  lemma {:induction false} EventAsks(env: Env, st: State, e: Event, now: int)
    requires Inv(env, st, now) && Do(env, st, e, now).Done? && AllAsked(st)
    ensures var st' := Do(env, st, e, now).st;
      AllAsked(st') <==> 1 < now || forall x: Ip :: !Made(st, st', x, now)
  {
    var st' := Do(env, st, e, now).st;
    forall x: Ip | Pending(st', x)
      ensures RequestFor(st', x).times >= 1 <==> 1 < now || !Made(st, st', x, now) {
      HopAsked(env, st, e, now, x);
    }
    hide Inv, Do, Index, Gone;
  }

  ghost predicate AskedThroughout(env: Env, st: State, run: Run, t: int)
    requires Legal(env, st, run, t)
    decreases |run|
  {
    AllAsked(st) && (run == [] || AskedThroughout(env, Do(env, st, run[0].0, run[0].1).st, run[1..], run[0].1))
  }

  /** No request is made within one second of the clock's zero. */
  ghost predicate NoneEarly(env: Env, st: State, run: Run, t: int)
    requires Legal(env, st, run, t)
    decreases |run|
  {
    run == [] ||
    var st1 := Do(env, st, run[0].0, run[0].1).st;
    && (1 < run[0].1 || forall x: Ip :: !Made(st, st1, x, run[0].1))
    && NoneEarly(env, st1, run[1..], run[0].1)
  }

  /** Through a whole run every request in the queue has been broadcast, exactly when none is made
      before the clock is past one second. */
  lemma {:induction false} AskedAtOnce(env: Env, st: State, run: Run, t: int)
    requires Inv(env, st, t) && Legal(env, st, run, t) && AllAsked(st)
    ensures AskedThroughout(env, st, run, t) <==> NoneEarly(env, st, run, t)
    decreases |run|
  {
    if run != [] {
      var (e, now) := run[0];
      EventKeepsInv(env, st, e, t, now);
      InvLater(env, st, t, now);
      EventAsks(env, st, e, now);
      hide Inv, Do, AllAsked, Made;
      var st1 := Do(env, st, e, now).st;
      if AllAsked(st1) {
        AskedAtOnce(env, st1, run[1..], now);
      }
    }
  }

  lemma {:induction false} LateClock(env: Env, st: State, run: Run, t: int)
    requires Legal(env, st, run, t) && 1 < t
    ensures NoneEarly(env, st, run, t)
    decreases |run|
  {
    hide Do, Made;
    if run != [] {
      LateClock(env, Do(env, st, run[0].0, run[0].1).st, run[1..], run[0].1);
    }
  }

  // ---- Progress ------------------------------------------------------------------------------------

  /** A due visit is one more broadcast, or the end of the request after the fifth; a request ends
      only so, by a reply, or with a hop whose error it has to pass on. */
  predicate Progress(st: State, st': State, e: Event, ip: Ip, now: int)
    requires Pending(st, ip)
  {
    var r := RequestFor(st, ip);
    if Gone(st, st', ip, now) then r.times == 5 && Due(r, now) && Logged(st', ip, now)
    else
      && Pending(st', ip) && Touched(r, RequestFor(st', ip), now)
      && (Visits(st, e, ip) && Due(r, now) ==> r.times < 5 && RequestFor(st', ip).times == r.times + 1)
  }

  lemma {:induction false} TimesBound(st: State, ip: Ip, now: int)
    requires Queue(st, now) && Pending(st, ip)
    ensures RequestFor(st, ip).times <= 5
  {
    hide Spaced;
    assert GoodRequest(st.requests[Index(st.requests, ip)], now);
  }

  lemma {:induction false} EventProgress(env: Env, st: State, e: Event, ip: Ip, now: int)
    requires Inv(env, st, now) && Pending(st, ip) && Do(env, st, e, now).Done?
    requires e.Replying? ==> e.ip != ip
    ensures Progress(st, Do(env, st, e, now).st, e, ip, now)
  {
    hide Do, Index, Queue, Balance, Owed, CacheWell, SentWell, Logged, Visits;
    EventMoves(env, st, e, now, ip);
    TimesBound(st, ip, now);
  }

  /** The request stays in the queue, unanswered, through the whole run. */
  predicate Unanswered(env: Env, st: State, run: Run, t: int, ip: Ip)
    requires Legal(env, st, run, t)
    decreases |run|
  {
    && Pending(st, ip)
    && (run != [] ==>
          var st1 := Do(env, st, run[0].0, run[0].1).st;
          && !(run[0].0.Replying? && run[0].0.ip == ip) && !Gone(st, st1, ip, run[0].1)
          && Unanswered(env, st1, run[1..], run[0].1, ip))
  }

  /** How many events of the run visit the hop when it is due. */
  function DueVisits(env: Env, st: State, run: Run, t: int, ip: Ip): nat
    requires Legal(env, st, run, t)
    decreases |run|
  {
    if run == [] then 0 else
    var here := Pending(st, ip) && Visits(st, run[0].0, ip) && Due(RequestFor(st, ip), run[0].1);
    (if here then 1 else 0) + DueVisits(env, Do(env, st, run[0].0, run[0].1).st, run[1..], run[0].1, ip)
  }

  /** A request that stays in the queue unanswered is asked at every due visit, so it sees at most
      `5 - times` of them: the next due visit is the one that gives it up. */
  lemma {:induction false} DueVisitsBounded(env: Env, st: State, run: Run, t: int, ip: Ip)
    requires Inv(env, st, t) && Legal(env, st, run, t) && Unanswered(env, st, run, t, ip)
    ensures Pending(After(env, st, run, t), ip)
    ensures RequestFor(st, ip).times + DueVisits(env, st, run, t, ip)
      <= RequestFor(After(env, st, run, t), ip).times <= 5
    decreases |run|
  {
    TimesBound(st, ip, t);
    if run != [] {
      var e, now := run[0].0, run[0].1;
      InvLater(env, st, t, now);
      EventProgress(env, st, e, ip, now);
      EventKeepsInv(env, st, e, t, now);
      hide Inv, Do, Queue, Index, Visits, Gone;
      DueVisitsBounded(env, Do(env, st, e, now).st, run[1..], now, ip);
    }
  }

  lemma {:induction false} InvLater(env: Env, st: State, t: int, now: int)
    requires Inv(env, st, t) && t <= now
    ensures Inv(env, st, now)
  {
    hide Queue, Balance, Owed, CacheWell, SentWell;
    QueueLater(st, t, now);
  }
}
