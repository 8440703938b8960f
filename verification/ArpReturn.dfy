/** The recursion behind a visit returns exactly when the search does. */
module ArpReturn {
  import opened Words
  import opened ArpSpec
  import opened ArpQueue
  import opened ArpSearch
  import opened ArpVisit
  import opened ArpGiveUp
  import opened ArpBalance

  // ---- Enough nested calls -----------------------------------------------------------------------------

  lemma {:induction false} SubsetSize(a: set<Ip>, b: set<Ip>)
    requires a <= b
    ensures |a| <= |b|
    decreases b
  {
    if b != {} {
      var x :| x in b;
      SubsetSize(a - {x}, b - {x});
    }
  }

  lemma {:induction false} SeqSize(s: set<Ip>, q: seq<Ip>)
    requires forall x :: x in s ==> x in q
    ensures |s| <= |q|
  {
    if q != [] {
      SeqSize(s - {q[0]}, q[1..]);
    }
  }

  lemma {:induction false} DeadIpsSize(st: State, now: int)
    ensures |DeadIps(st, now)| <= |st.requests|
  {
    hide Index, DeadAt;
    var ips := Ips(st.requests);
    forall x | x in DeadIps(st, now) ensures x in ips {
      var i :| 0 <= i < |st.requests| && st.requests[i].ip == x;
      assert ips[i] == x;
    }
    SeqSize(DeadIps(st, now), ips);
  }

  lemma {:induction false} HandleLive(env: Env, st: State, ip: Ip, now: int, fuel: nat)
    requires Pending(st, ip) && !DeadAt(st, ip, now) && fuel > 0
    ensures Handle(env, st, ip, now, fuel) == Some(AskIfDue(st, ip, now))
  {
    hide AskIfDue, HandleAll, Index;
  }

  lemma {:induction false} HandleDead(env: Env, st: State, ip: Ip, now: int, fuel: nat)
    requires Pending(st, ip) && DeadAt(st, ip, now) && fuel > 0
    ensures var s := HandleAll(env, st, RequestFor(st, ip).packets, ip, now, fuel - 1);
      Handle(env, st, ip, now, fuel) == if s.None? then None else Some(Retire(s.value, ip, RequestFor(st, ip), now))
  {
    hide Retire, HandleAll, Index;
  }

  lemma {:induction false} SendErrorReturns(
    env: Env, st: State, p: Packet, hop: Ip, now: int, white: set<Ip>, gray: set<Ip>, fuel: nat)
    requires Queue(st, now) && Situation(st, white, gray, now) && Follow(env, st, p, white, gray).Some?
    requires fuel >= |white| + 1
    ensures SendError(env, st, p, hop, now, fuel) == Some(GiveUp(env, st, p, hop, now, white).0)
    decreases white, 0
  {
    hide Queue, Explore, GiveUpAll, HandleAll, Index, Lookup, AskIfDue, Retire, Handle, DeadAt, Grows, QueuedError;
    var w := WaitsAt(env, st.cache, p);
    if w.Some? {
      if w.value in white {
        DetourReturns(env, st, p, now, white, gray, fuel);
      } else {
        assert !DeadAt(st, w.value, now);
        QueuedErrorDead(env, st, p, now, w.value);
        HandleLive(env, QueuedError(env, st, p), w.value, now, fuel);
      }
    }
  }

  lemma {:induction false} DetourReturns(
    env: Env, st: State, p: Packet, now: int, white: set<Ip>, gray: set<Ip>, fuel: nat)
    requires Queue(st, now) && Situation(st, white, gray, now) && Follow(env, st, p, white, gray).Some?
    requires fuel >= |white| + 1 && WaitsIn(env, st.cache, p, white)
    ensures var x, st1 := WaitsAt(env, st.cache, p).value, QueuedError(env, st, p);
      var s := GiveUpAll(env, st1, RequestFor(st1, x).packets, x, now, white - {x});
      Handle(env, st1, x, now, fuel) == Some(Retire(s.0, x, RequestFor(st1, x), now))
    decreases white, 0, 0
  {
    hide Queue, Explore, GiveUpAll, HandleAll, Index, Lookup, Retire, Handle, DeadAt, Grows, QueuedError, Follow;
    var x, st1 := WaitsAt(env, st.cache, p).value, QueuedError(env, st, p);
    assert DeadAt(st, x, now);
    DeadPending(st, x, now);
    Detour(env, st, p, now, white, gray);
    assert DeadAt(st1, x, now);
    HandleDead(env, st1, x, now, fuel);
    HandleAllReturns(env, st1, RequestFor(st1, x).packets, x, now, white - {x}, gray + {x}, fuel - 1);
  }

  lemma {:induction false} DeadPending(st: State, x: Ip, now: int)
    requires DeadAt(st, x, now)
    ensures Pending(st, x)
  {
  }

  lemma {:induction false} QueuedErrorDead(env: Env, st: State, p: Packet, now: int, x: Ip)
    requires WaitsAt(env, st.cache, p).Some?
    ensures DeadAt(QueuedError(env, st, p), x, now) <==> DeadAt(st, x, now)
  {
    hide Index, Enqueue, Lookup;
    EnqueueDead(st, WaitsAt(env, st.cache, p).value, ErrorAbout(env, p, env.route(p.frame.src).value), now, x);
  }

  lemma {:induction false} EnqueueDead(st: State, ip: Ip, p: Packet, now: int, x: Ip)
    ensures DeadAt(Enqueue(st, ip, p), x, now) <==> DeadAt(st, x, now)
  {
    hide Enqueue, Index;
    EnqueueOwn(st, ip, p);
    if x != ip {
      EnqueueOthers(st, ip, p, x);
    }
  }

  lemma {:induction false} HandleAllReturns(
    env: Env, st: State, ps: seq<Packet>, hop: Ip, now: int, white: set<Ip>, gray: set<Ip>, fuel: nat)
    requires Queue(st, now) && Situation(st, white, gray, now) && Explore(env, st, ps, white, gray).Some?
    requires fuel >= |white| + 1
    ensures HandleAll(env, st, ps, hop, now, fuel) == Some(GiveUpAll(env, st, ps, hop, now, white).0)
    decreases white, |ps| + 1
  {
    if ps != [] {
      hide Queue, Situation, Steps, Follow, GiveUp, SendError;
      var s := GiveUp(env, st, ps[0], hop, now, white);
      GiveUpWorks(env, st, ps[0], hop, now, white, gray);
      SendErrorReturns(env, st, ps[0], hop, now, white, gray, fuel);
      LeftSame(env, st, s.0, ps[1..], white, s.1, gray, now);
      SubsetSize(s.1, white);
      HandleAllReturns(env, s.0, ps[1..], hop, now, s.1, gray, fuel);
    }
  }

  /** More nested calls than needed change nothing. */
  lemma {:induction false} MoreFuel(env: Env, st: State, ip: Ip, now: int, fuel: nat, more: nat)
    requires Pending(st, ip) && Handle(env, st, ip, now, fuel).Some? && fuel <= more
    ensures Handle(env, st, ip, now, more) == Handle(env, st, ip, now, fuel)
    decreases fuel, 0
  {
    if Dead(RequestFor(st, ip), now) {
      hide HandleAll, Index;
      MoreFuelAll(env, st, RequestFor(st, ip).packets, ip, now, fuel - 1, more - 1);
    }
  }

  lemma {:induction false} MoreFuelAll(env: Env, st: State, ps: seq<Packet>, hop: Ip, now: int, fuel: nat, more: nat)
    requires HandleAll(env, st, ps, hop, now, fuel).Some? && fuel <= more
    ensures HandleAll(env, st, ps, hop, now, more) == HandleAll(env, st, ps, hop, now, fuel)
    decreases fuel, |ps| + 1
  {
    if ps != [] {
      MoreFuelOne(env, st, ps[0], hop, now, fuel, more);
      hide SendError;
      MoreFuelAll(env, SendError(env, st, ps[0], hop, now, fuel).value, ps[1..], hop, now, fuel, more);
    }
  }

  lemma {:induction false} MoreFuelOne(env: Env, st: State, p: Packet, hop: Ip, now: int, fuel: nat, more: nat)
    requires SendError(env, st, p, hop, now, fuel).Some? && fuel <= more
    ensures SendError(env, st, p, hop, now, more) == SendError(env, st, p, hop, now, fuel)
    decreases fuel, 1
  {
    hide Handle, Index, Lookup;
    var w := WaitsAt(env, st.cache, p);
    if w.Some? {
      MoreFuel(env, QueuedError(env, st, p), w.value, now, fuel, more);
    }
  }

  // ---- A hop met again while it is in progress -----------------------------------------------------------

  predicate WaitsIn(env: Env, cache: seq<Entry>, q: Packet, g: set<Ip>) {
    var w := WaitsAt(env, cache, q);
    w.Some? && w.value in g
  }

  /** Some packet of the hop has an error that waits in the set. */
  predicate HasNext(env: Env, st: State, x: Ip, g: set<Ip>) {
    Pending(st, x) && exists q :: q in RequestFor(st, x).packets && WaitsIn(env, st.cache, q, g)
  }

  /** Dead hops each of which leads to another of them. */
  predicate Trap(env: Env, st: State, g: set<Ip>, now: int) {
    forall x :: x in g ==> DeadAt(st, x, now) && HasNext(env, st, x, g)
  }

  /** The hop still has the packets it had, and is still dead. */
  predicate Holds(st: State, st': State, x: Ip, now: int) {
    && Pending(st, x) && Pending(st', x) && DeadAt(st', x, now)
    && (forall q :: q in RequestFor(st, x).packets ==> q in RequestFor(st', x).packets)
  }

  lemma {:induction false} TrapHolds(env: Env, st: State, st': State, g: set<Ip>, now: int)
    requires Trap(env, st, g, now) && st'.cache == st.cache && (forall x :: x in g ==> Holds(st, st', x, now))
    ensures Trap(env, st', g, now)
  {
    hide Index, WaitsIn, DeadAt;
    forall x | x in g ensures DeadAt(st', x, now) && HasNext(env, st', x, g) {
      assert Holds(st, st', x, now);
      var q :| q in RequestFor(st, x).packets && WaitsIn(env, st.cache, q, g);
      assert q in RequestFor(st', x).packets;
    }
  }

  lemma {:induction false} TrapEnqueue(env: Env, st: State, g: set<Ip>, now: int, ip: Ip, p: Packet)
    requires Trap(env, st, g, now)
    ensures Trap(env, Enqueue(st, ip, p), g, now)
  {
    hide Index, Enqueue, HasNext;
    EnqueueFields(st, ip, p);
    EnqueueOwn(st, ip, p);
    forall x | x in g ensures Holds(st, Enqueue(st, ip, p), x, now) {
      assert DeadAt(st, x, now);
      EnqueueDead(st, ip, p, now, x);
      if x != ip {
        EnqueueOthers(st, ip, p, x);
      }
    }
    TrapHolds(env, st, Enqueue(st, ip, p), g, now);
  }

  lemma {:induction false} TrapAsk(env: Env, st: State, g: set<Ip>, now: int, ip: Ip)
    requires Trap(env, st, g, now) && Pending(st, ip) && ip !in g
    ensures Trap(env, AskIfDue(st, ip, now), g, now)
  {
    hide Index, Ask, HasNext;
    AskFields(st, ip, now);
    forall x | x in g ensures Holds(st, AskIfDue(st, ip, now), x, now) {
      assert DeadAt(st, x, now);
      AskEffect(st, ip, now, x);
    }
    TrapHolds(env, st, AskIfDue(st, ip, now), g, now);
  }

  lemma {:induction false} TrapRetire(env: Env, st: State, g: set<Ip>, now: int, ip: Ip, r: Request)
    requires Trap(env, st, g, now) && ip !in g
    ensures Trap(env, Retire(st, ip, r, now), g, now)
  {
    hide Index, Unlink, HasNext;
    forall x | x in g ensures Holds(st, Retire(st, ip, r, now), x, now) {
      assert DeadAt(st, x, now);
      UnlinkOther(st.requests, ip, x);
    }
    TrapHolds(env, st, Retire(st, ip, r, now), g, now);
  }

  lemma {:induction false} TrapSame(env: Env, st: State, st': State, g: set<Ip>, now: int)
    requires Trap(env, st, g, now) && st'.cache == st.cache && st'.requests == st.requests
    ensures Trap(env, st', g, now)
  {
    hide Index, HasNext;
    forall x | x in g ensures Holds(st, st', x, now) {
      assert DeadAt(st, x, now);
    }
    TrapHolds(env, st, st', g, now);
  }

  /** A visit in the trap does not return, and one that returns leaves the trap. */
  lemma {:induction false} TrapHandle(env: Env, st: State, g: set<Ip>, now: int, ip: Ip, fuel: nat)
    requires Trap(env, st, g, now) && Pending(st, ip)
    ensures var r := Handle(env, st, ip, now, fuel);
      if ip in g then r == None else r.Some? ==> Trap(env, r.value, g, now)
    decreases fuel, 0
  {
    hide HandleAll, Index, Trap, AskIfDue, Retire, WaitsIn, Handle, DeadAt;
    if fuel == 0 {
      HandleNone(env, st, ip, now);
    } else {
      var r := RequestFor(st, ip);
      TrapAt(env, st, g, now, ip);
      if DeadAt(st, ip, now) {
        HandleDead(env, st, ip, now, fuel);
        TrapAll(env, st, g, now, r.packets, ip, fuel - 1);
        var s := HandleAll(env, st, r.packets, ip, now, fuel - 1);
        if s.Some? && ip !in g {
          TrapRetire(env, s.value, g, now, ip, r);
        }
      } else {
        HandleLive(env, st, ip, now, fuel);
        TrapAsk(env, st, g, now, ip);
      }
    }
  }

  lemma {:induction false} HandleNone(env: Env, st: State, ip: Ip, now: int)
    requires Pending(st, ip)
    ensures Handle(env, st, ip, now, 0) == None
  {
  }

  lemma {:induction false} TrapAt(env: Env, st: State, g: set<Ip>, now: int, x: Ip)
    requires Trap(env, st, g, now)
    ensures x in g ==>
      (&& DeadAt(st, x, now) && Pending(st, x)
       && exists q :: q in RequestFor(st, x).packets && WaitsIn(env, st.cache, q, g))
  {
    hide Index, WaitsIn;
  }

  lemma {:induction false} TrapAll(env: Env, st: State, g: set<Ip>, now: int, ps: seq<Packet>, hop: Ip, fuel: nat)
    requires Trap(env, st, g, now)
    ensures var r := HandleAll(env, st, ps, hop, now, fuel);
      r.Some? ==> (&& Trap(env, r.value, g, now) && r.value.cache == st.cache
                   && forall q :: q in ps ==> !WaitsIn(env, st.cache, q, g))
    decreases fuel, |ps| + 1
  {
    if ps != [] {
      TrapSend(env, st, g, now, ps[0], hop, fuel);
      hide SendError, Trap, WaitsIn;
      var s := SendError(env, st, ps[0], hop, now, fuel);
      if s.Some? {
        TrapAll(env, s.value, g, now, ps[1..], hop, fuel);
        assert forall q :: q in ps ==> q == ps[0] || q in ps[1..];
      }
    }
  }

  lemma {:induction false} TrapSend(env: Env, st: State, g: set<Ip>, now: int, p: Packet, hop: Ip, fuel: nat)
    requires Trap(env, st, g, now)
    ensures var r := SendError(env, st, p, hop, now, fuel);
      r.Some? ==> Trap(env, r.value, g, now) && r.value.cache == st.cache && !WaitsIn(env, st.cache, p, g)
    decreases fuel, 1
  {
    hide Handle, Index, Lookup, Trap, Enqueue;
    var w := WaitsAt(env, st.cache, p);
    if w.None? {
      TrapSame(env, st, ErrorNow(env, st, p, hop), g, now);
    } else {
      var x, st1 := w.value, QueuedError(env, st, p);
      var e := ErrorAbout(env, p, env.route(p.frame.src).value);
      EnqueueFields(st, x, e);
      TrapEnqueue(env, st, g, now, x, e);
      TrapHandle(env, st1, g, now, x, fuel);
      var s := Handle(env, st1, x, now, fuel);
      if s.Some? {
        SameCache(env, st1, x, now, fuel);
        TrapSame(env, s.value, NoteQueued(s.value, p, hop, x), g, now);
      }
    }
  }

  // ---- The cache is left alone ---------------------------------------------------------------------------

  lemma {:induction false} SameCache(env: Env, st: State, ip: Ip, now: int, fuel: nat)
    requires Pending(st, ip) && Handle(env, st, ip, now, fuel).Some?
    ensures Handle(env, st, ip, now, fuel).value.cache == st.cache
    decreases fuel, 0
  {
    hide HandleAll, Index, Unlink;
    if Dead(RequestFor(st, ip), now) {
      SameCacheAll(env, st, RequestFor(st, ip).packets, ip, now, fuel - 1);
    }
  }

  lemma {:induction false} SameCacheAll(env: Env, st: State, ps: seq<Packet>, hop: Ip, now: int, fuel: nat)
    requires HandleAll(env, st, ps, hop, now, fuel).Some?
    ensures HandleAll(env, st, ps, hop, now, fuel).value.cache == st.cache
    decreases fuel, |ps| + 1
  {
    if ps != [] {
      hide Handle, Index, Lookup, Enqueue;
      var w := WaitsAt(env, st.cache, ps[0]);
      if w.Some? {
        EnqueueFields(st, w.value, ErrorAbout(env, ps[0], env.route(ps[0].frame.src).value));
        SameCache(env, QueuedError(env, st, ps[0]), w.value, now, fuel);
      }
      SameCacheAll(env, SendError(env, st, ps[0], hop, now, fuel).value, ps[1..], hop, now, fuel);
    }
  }

  // ---- Where the search fails ------------------------------------------------------------------------------

  /** Every hop in progress but the last leads to one in progress. */
  predicate OnPath(env: Env, st: State, gray: set<Ip>, hop: Ip) {
    hop in gray && forall x :: x in gray && x != hop ==> HasNext(env, st, x, gray)
  }

  predicate AllOf(st: State, hop: Ip, ps: seq<Packet>) {
    Pending(st, hop) && forall q :: q in ps ==> q in RequestFor(st, hop).packets
  }

  /** Meeting a hop in progress closes a trap. */
  lemma {:induction false} MetAgain(
    env: Env, st: State, p: Packet, hop: Ip, now: int, white: set<Ip>, gray: set<Ip>, fuel: nat)
    requires Situation(st, white, gray, now) && OnPath(env, st, gray, hop) && AllOf(st, hop, [p])
    requires WaitsIn(env, st.cache, p, gray)
    ensures SendError(env, st, p, hop, now, fuel) == None
  {
    hide SendError, Index, Lookup;
    assert p in [p];
    assert HasNext(env, st, hop, gray);
    forall x | x in gray ensures DeadAt(st, x, now) && HasNext(env, st, x, gray) {
      assert DeadAt(st, x, now) <==> x in white + gray;
    }
    TrapSend(env, st, gray, now, p, hop, fuel);
  }

  lemma {:induction false} PathEnters(
    env: Env, st: State, p: Packet, hop: Ip, x: Ip, e: Packet, white: set<Ip>, gray: set<Ip>, now: int)
    requires OnPath(env, st, gray, hop) && AllOf(st, hop, [p]) && x !in gray
    requires WaitsAt(env, st.cache, p) == Some(x)
    ensures OnPath(env, Enqueue(st, x, e), gray + {x}, x)
  {
    hide Index, Lookup, Enqueue, WaitsAt;
    var st1 := Enqueue(st, x, e);
    EnqueueFields(st, x, e);
    forall y | y in gray + {x} && y != x ensures HasNext(env, st1, y, gray + {x}) {
      EnqueueOthers(st, x, e, y);
      if y == hop {
        assert p in [p];
        assert p in RequestFor(st1, y).packets && WaitsIn(env, st1.cache, p, gray + {x});
      } else {
        assert HasNext(env, st, y, gray);
        var q :| q in RequestFor(st, y).packets && WaitsIn(env, st.cache, q, gray);
        assert q in RequestFor(st1, y).packets && WaitsIn(env, st1.cache, q, gray + {x});
      }
    }
  }

  lemma {:induction false} PathKept(
    env: Env, st: State, st': State, hop: Ip, ps: seq<Packet>, white: set<Ip>, left: set<Ip>, gray: set<Ip>, now: int)
    requires OnPath(env, st, gray, hop) && AllOf(st, hop, ps) && Steps(st, st', white, left, gray, now)
    ensures OnPath(env, st', gray, hop) && AllOf(st', hop, ps)
  {
    hide Index, WaitsIn, Logged;
    assert StepAt(st, st', hop, white, left, gray, now);
    forall x | x in gray && x != hop ensures HasNext(env, st', x, gray) {
      assert StepAt(st, st', x, white, left, gray, now);
    }
  }

  lemma {:induction false} HandleAllStuck(
    env: Env, st: State, ps: seq<Packet>, hop: Ip, now: int, white: set<Ip>, gray: set<Ip>, fuel: nat)
    requires Queue(st, now) && Situation(st, white, gray, now) && Explore(env, st, ps, white, gray).None?
    requires OnPath(env, st, gray, hop) && AllOf(st, hop, ps)
    ensures HandleAll(env, st, ps, hop, now, fuel) == None
    decreases white, |ps| + 1
  {
    hide Queue, Situation, Steps, Follow, GiveUp, SendError, OnPath, WaitsIn;
    var f, one := Follow(env, st, ps[0], white, gray), SendError(env, st, ps[0], hop, now, fuel);
    AllOfSplit(st, hop, ps);
    if f.None? {
      SendErrorStuck(env, st, ps[0], hop, now, white, gray, fuel);
    } else if one.Some? {
      var s := GiveUp(env, st, ps[0], hop, now, white);
      var enough := fuel + |white| + 1;
      MoreFuelOne(env, st, ps[0], hop, now, fuel, enough);
      SendErrorReturns(env, st, ps[0], hop, now, white, gray, enough);
      GiveUpWorks(env, st, ps[0], hop, now, white, gray);
      LeftSame(env, st, s.0, ps[1..], white, s.1, gray, now);
      PathKept(env, st, s.0, hop, ps[1..], white, s.1, gray, now);
      HandleAllStuck(env, s.0, ps[1..], hop, now, s.1, gray, fuel);
    }
  }

  lemma {:induction false} AllOfSplit(st: State, hop: Ip, ps: seq<Packet>)
    requires AllOf(st, hop, ps) && ps != []
    ensures AllOf(st, hop, [ps[0]]) && AllOf(st, hop, ps[1..])
  {
    hide Index;
  }

  lemma {:induction false} SendErrorStuck(
    env: Env, st: State, p: Packet, hop: Ip, now: int, white: set<Ip>, gray: set<Ip>, fuel: nat)
    requires Queue(st, now) && Situation(st, white, gray, now) && Follow(env, st, p, white, gray).None?
    requires OnPath(env, st, gray, hop) && AllOf(st, hop, [p])
    ensures SendError(env, st, p, hop, now, fuel) == None
    decreases white, 0
  {
    hide Queue, Index, Lookup, OnPath, AllOf, Explore, Handle, Enqueue, Situation, WaitsAt;
    var x := WaitsAt(env, st.cache, p).value;
    if x in gray {
      MetAgain(env, st, p, hop, now, white, gray, fuel);
    } else {
      DetourStuck(env, st, p, hop, now, white, gray, fuel);
    }
  }

  lemma {:induction false} DetourStuck(
    env: Env, st: State, p: Packet, hop: Ip, now: int, white: set<Ip>, gray: set<Ip>, fuel: nat)
    requires Queue(st, now) && Situation(st, white, gray, now) && Follow(env, st, p, white, gray).None?
    requires OnPath(env, st, gray, hop) && AllOf(st, hop, [p])
    requires WaitsAt(env, st.cache, p).Some? && WaitsAt(env, st.cache, p).value !in gray
    ensures Handle(env, QueuedError(env, st, p), WaitsAt(env, st.cache, p).value, now, fuel) == None
    decreases white, 0, 0
  {
    hide Queue, Index, Lookup, OnPath, AllOf, Explore, Handle, HandleAll, Enqueue, Situation, SameAt, Grows, DeadAt;
    var x := WaitsAt(env, st.cache, p).value;
    var e := ErrorAbout(env, p, env.route(p.frame.src).value);
    var st1 := Enqueue(st, x, e);
    if fuel == 0 {
      HandleNone(env, st1, x, now);
    } else {
      EnterWorks(st, x, e, white, gray, now);
      ExploreSame(env, st, st1, RequestFor(st1, x).packets, white - {x}, gray + {x});
      PathEnters(env, st, p, hop, x, e, white, gray, now);
      OwnPackets(st1, x);
      SituationDead(st1, white - {x}, gray + {x}, x, now);
      HandleDead(env, st1, x, now, fuel);
      HandleAllStuck(env, st1, RequestFor(st1, x).packets, x, now, white - {x}, gray + {x}, fuel - 1);
    }
  }

  lemma {:induction false} OwnPackets(st: State, x: Ip)
    requires Pending(st, x)
    ensures AllOf(st, x, RequestFor(st, x).packets)
  {
    hide Index;
  }

  lemma {:induction false} SituationDead(st: State, white: set<Ip>, gray: set<Ip>, x: Ip, now: int)
    requires Situation(st, white, gray, now) && x in gray
    ensures DeadAt(st, x, now)
  {
    hide DeadAt;
  }

  // ---- The exact condition -----------------------------------------------------------------------------------

  lemma {:induction false} Start(st: State, ip: Ip, now: int)
    requires DeadAt(st, ip, now)
    ensures Situation(st, DeadIps(st, now) - {ip}, {ip}, now)
  {
    hide DeadAt, DeadIps;
    forall x: Ip ensures DeadAt(st, x, now) <==> x in DeadIps(st, now) - {ip} + {ip} {
      DeadIpsAre(st, now, x);
    }
  }

  lemma {:induction false} VisitReturns(env: Env, st: State, ip: Ip, now: int, fuel: nat)
    requires Queue(st, now) && Pending(st, ip) && Returns(env, st, ip, now) && fuel >= |st.requests| + 2
    ensures Handle(env, st, ip, now, fuel) == Some(Visited(env, st, ip, now))
  {
    hide Queue, Index, Explore, Handle, HandleAll, GiveUpAll, DeadIps, Retire, AskIfDue;
    if DeadAt(st, ip, now) {
      var white := DeadIps(st, now) - {ip};
      Start(st, ip, now);
      DeadIpsSize(st, now);
      SubsetSize(white, DeadIps(st, now));
      HandleDead(env, st, ip, now, fuel);
      HandleAllReturns(env, st, RequestFor(st, ip).packets, ip, now, white, {ip}, fuel - 1);
    } else {
      HandleLive(env, st, ip, now, fuel);
    }
  }

  lemma {:induction false} VisitDiverges(env: Env, st: State, ip: Ip, now: int, fuel: nat)
    requires Queue(st, now) && Pending(st, ip) && !Returns(env, st, ip, now)
    ensures Handle(env, st, ip, now, fuel) == None
  {
    hide Queue, Index, Explore, Handle, HandleAll, DeadIps, DeadAt;
    if fuel == 0 {
      HandleNone(env, st, ip, now);
    } else {
      Start(st, ip, now);
      HandleDead(env, st, ip, now, fuel);
      OwnPackets(st, ip);
      HandleAllStuck(env, st, RequestFor(st, ip).packets, ip, now, DeadIps(st, now) - {ip}, {ip}, fuel - 1);
    }
  }

  /** `handle_arpreq` returns if and only if the search over return hops meets no hop in progress again. */
  lemma {:induction false} ReturnExact(env: Env, st: State, ip: Ip, now: int)
    requires Queue(st, now) && Pending(st, ip)
    ensures (exists fuel :: Handle(env, st, ip, now, fuel).Some?) <==> Returns(env, st, ip, now)
  {
    hide Handle, Returns, Queue;
    if Returns(env, st, ip, now) {
      VisitReturns(env, st, ip, now, |st.requests| + 2);
    } else {
      forall fuel: nat ensures Handle(env, st, ip, now, fuel) == None {
        VisitDiverges(env, st, ip, now, fuel);
      }
    }
  }

  /** `Visit` is its result: whatever number of nested calls is enough, they give `Visit`. */
  lemma {:induction false} VisitIsResult(env: Env, st: State, ip: Ip, now: int, fuel: nat)
    requires Queue(st, now) && Pending(st, ip)
    ensures Handle(env, st, ip, now, fuel).Some? ==> Handle(env, st, ip, now, fuel) == Visit(env, st, ip, now)
    ensures Visit(env, st, ip, now) == if Returns(env, st, ip, now) then Some(Visited(env, st, ip, now)) else None
  {
    hide Handle, Returns, Queue, Visited;
    if Returns(env, st, ip, now) {
      VisitReturns(env, st, ip, now, |st.requests| + 2);
      if Handle(env, st, ip, now, fuel).Some? {
        MoreFuel(env, st, ip, now, fuel, fuel + |st.requests| + 2);
        VisitReturns(env, st, ip, now, fuel + |st.requests| + 2);
      }
    } else {
      VisitDiverges(env, st, ip, now, fuel);
      VisitDiverges(env, st, ip, now, |st.requests| + 2);
    }
  }

  // ---- Two conditions without a search -----------------------------------------------------------------------

  /** No visit returns in a set of dead hops each of which has a packet whose error waits in the set. */
  lemma {:induction false} TrapNeverReturns(env: Env, st: State, g: set<Ip>, ip: Ip, now: int)
    requires Queue(st, now) && Trap(env, st, g, now) && ip in g
    ensures Pending(st, ip) && !Returns(env, st, ip, now)
  {
    hide Queue, Trap, Returns, Handle, Index, DeadAt, Visited, WaitsIn;
    TrapAt(env, st, g, now, ip);
    TrapHandle(env, st, g, now, ip, |st.requests| + 2);
    if Returns(env, st, ip, now) {
      VisitReturns(env, st, ip, now, |st.requests| + 2);
    }
  }

  /** The visit of a hop returns when no error about its packets waits for a hop being given up. */
  lemma {:induction false} ClearReturns(env: Env, st: State, ip: Ip, now: int)
    requires Pending(st, ip)
    requires forall p :: p in RequestFor(st, ip).packets ==> !WaitsIn(env, st.cache, p, DeadIps(st, now) + {ip})
    ensures Returns(env, st, ip, now)
  {
    hide Index, DeadIps, Explore, WaitsIn;
    ClearExplore(env, st, RequestFor(st, ip).packets, DeadIps(st, now) - {ip}, {ip}, DeadIps(st, now) + {ip});
  }

  lemma {:induction false} ClearExplore(
    env: Env, st: State, ps: seq<Packet>, white: set<Ip>, gray: set<Ip>, all: set<Ip>)
    requires white + gray <= all && forall p :: p in ps ==> !WaitsIn(env, st.cache, p, all)
    ensures Explore(env, st, ps, white, gray) == Some(white)
    decreases |ps|
  {
    if ps != [] {
      hide Index, Lookup;
      assert !WaitsIn(env, st.cache, ps[0], all);
      assert Follow(env, st, ps[0], white, gray) == Some(white);
      ClearExplore(env, st, ps[1..], white, gray, all);
    }
  }
}
