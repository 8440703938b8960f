/** Where the search returns, giving up keeps the queue, and reaches exactly the hops of the search. */
module ArpGiveUp {
  import opened Words
  import opened ArpSpec
  import opened ArpQueue
  import opened ArpSearch
  import opened ArpVisit

  // ---- The search looks at the unreached hops only ---------------------------------------------------

  /** The hops of a set have the same requests. */
  predicate SameAt(st: State, st': State, xs: set<Ip>) {
    st'.cache == st.cache &&
    forall x :: x in xs ==> Pending(st, x) && Pending(st', x) && RequestFor(st', x) == RequestFor(st, x)
  }

  lemma {:induction false} ExploreSame(
    env: Env, st: State, st': State, ps: seq<Packet>, white: set<Ip>, gray: set<Ip>)
    requires SameAt(st, st', white)
    ensures Explore(env, st', ps, white, gray) == Explore(env, st, ps, white, gray)
    decreases white, |ps| + 1
  {
    hide Index, Lookup;
    if ps != [] {
      FollowSame(env, st, st', ps[0], white, gray);
      hide Follow, SameAt;
      var f := Follow(env, st, ps[0], white, gray);
      if f.Some? {
        SameLess(st, st', white, f.value);
        ExploreSame(env, st, st', ps[1..], f.value, gray);
      }
    }
  }

  lemma {:induction false} SameLess(st: State, st': State, xs: set<Ip>, ys: set<Ip>)
    requires SameAt(st, st', xs) && ys <= xs
    ensures SameAt(st, st', ys)
  {
    hide Index;
  }

  lemma {:induction false} FollowSame(env: Env, st: State, st': State, p: Packet, white: set<Ip>, gray: set<Ip>)
    requires SameAt(st, st', white)
    ensures Follow(env, st', p, white, gray) == Follow(env, st, p, white, gray)
    decreases white, 0
  {
    hide Index, Lookup, Explore;
    var w := WaitsAt(env, st.cache, p);
    if w.Some? && w.value in white && w.value !in gray {
      var e := ErrorAbout(env, p, env.route(p.frame.src).value);
      SameLess(st, st', white, white - {w.value});
      ExploreSame(env, st, st', [e] + RequestFor(st, w.value).packets, white - {w.value}, gray + {w.value});
    }
  }

  // ---- Queueing and asking -----------------------------------------------------------------------------

  lemma {:induction false} QueueAndAskAt(
    st: State, ip: Ip, p: Packet, now: int, white: set<Ip>, gray: set<Ip>, x: Ip)
    requires Situation(st, white, gray, now) && ip !in white && ip !in gray
    ensures StepAt(st, AskIfDue(Enqueue(st, ip, p), ip, now), x, white, white, gray, now)
  {
    hide Enqueue, Ask, Index, Logged;
    var st1 := Enqueue(st, ip, p);
    assert DeadAt(st, x, now) <==> x in white + gray;
    assert !DeadAt(st, ip, now);
    EnqueueOwn(st, ip, p);
    if x != ip {
      EnqueueOthers(st, ip, p, x);
    }
    if Due(RequestFor(st1, ip), now) {
      AskEffect(st1, ip, now, x);
    }
  }

  lemma {:induction false} QueueAndAskQueue(st: State, ip: Ip, p: Packet, now: int)
    requires Queue(st, now) && !DeadAt(st, ip, now)
    ensures Queue(AskIfDue(Enqueue(st, ip, p), ip, now), now)
  {
    hide Enqueue, Ask, Index, Queue;
    EnqueueQueue(st, ip, p, now);
    EnqueueOwn(st, ip, p);
    if Due(RequestFor(Enqueue(st, ip, p), ip), now) {
      AskQueue(Enqueue(st, ip, p), ip, now);
    }
  }

  lemma {:induction false} QueueAndAskRest(st: State, ip: Ip, p: Packet, now: int)
    ensures var st' := AskIfDue(Enqueue(st, ip, p), ip, now);
      && st' == st.(requests := st'.requests, accepted := st.accepted + multiset{(p, ip)})
  {
    hide Enqueue, Ask, Index;
    EnqueueFields(st, ip, p);
    AskFields(Enqueue(st, ip, p), ip, now);
  }

  // ---- The three cases of an error ---------------------------------------------------------------------

  lemma {:induction false} SameSteps(st: State, st': State, white: set<Ip>, gray: set<Ip>, now: int)
    requires Situation(st, white, gray, now) && Grows(st, st') && st'.requests == st.requests
    ensures Steps(st, st', white, white, gray, now)
  {
    hide Index, Logged;
    forall x: Ip ensures StepAt(st, st', x, white, white, gray, now) {
      assert DeadAt(st, x, now) <==> x in white + gray;
    }
  }

  lemma {:induction false} NowWorks(env: Env, st: State, p: Packet, hop: Ip, white: set<Ip>, gray: set<Ip>, now: int)
    requires Queue(st, now) && Situation(st, white, gray, now) && WaitsAt(env, st.cache, p).None?
    ensures var st' := ErrorNow(env, st, p, hop);
      Queue(st', now) && Steps(st, st', white, white, gray, now)
  {
    hide Index, Logged, Lookup, GoodRequest, GoodDrop, Steps, Situation;
    SameSteps(st, ErrorNow(env, st, p, hop), white, gray, now);
  }

  /** The step from one state to the next does not depend on the logs. */
  lemma {:induction false} StepLog(
    st: State, a: State, b: State, x: Ip, white: set<Ip>, left: set<Ip>, gray: set<Ip>, now: int)
    requires StepAt(st, a, x, white, left, gray, now) && b.requests == a.requests && b.dropped == a.dropped
    ensures StepAt(st, b, x, white, left, gray, now)
  {
    hide Index;
  }

  lemma {:induction false} LiveWorks(env: Env, st: State, p: Packet, hop: Ip, white: set<Ip>, gray: set<Ip>, now: int)
    requires Queue(st, now) && Situation(st, white, gray, now) && WaitsAt(env, st.cache, p).Some?
    requires var x := WaitsAt(env, st.cache, p).value; x !in white && x !in gray
    ensures var x := WaitsAt(env, st.cache, p).value;
      var st' := NoteQueued(AskIfDue(QueuedError(env, st, p), x, now), p, hop, x);
      Queue(st', now) && Steps(st, st', white, white, gray, now)
  {
    var x := WaitsAt(env, st.cache, p).value;
    var e := ErrorAbout(env, p, env.route(p.frame.src).value);
    hide Index, Lookup, Enqueue, Ask, StepAt, GoodRequest, GoodDrop;
    assert !DeadAt(st, x, now);
    var st1 := AskIfDue(Enqueue(st, x, e), x, now);
    var st' := NoteQueued(st1, p, hop, x);
    QueueAndAskQueue(st, x, e, now);
    QueueAndAskRest(st, x, e, now);
    forall y: Ip ensures StepAt(st, st', y, white, white, gray, now) {
      QueueAndAskAt(st, x, e, now, white, gray, y);
      StepLog(st, st1, st', y, white, white, gray, now);
    }
  }

  /** Queueing the error at a dead hop makes it a hop in progress, and changes no other. */
  lemma {:induction false} EnterWorks(st: State, x: Ip, e: Packet, white: set<Ip>, gray: set<Ip>, now: int)
    requires Queue(st, now) && Situation(st, white, gray, now) && x in white
    ensures var st1 := Enqueue(st, x, e);
      && Queue(st1, now) && Situation(st1, white - {x}, gray + {x}, now) && SameAt(st, st1, white - {x})
      && Grows(st, st1) && Pending(st, x) && RequestFor(st1, x).packets == [e] + RequestFor(st, x).packets
  {
    hide Index, Enqueue, GoodRequest, GoodDrop;
    var st1 := Enqueue(st, x, e);
    EnqueueQueue(st, x, e, now);
    EnqueueFields(st, x, e);
    EnqueueOwn(st, x, e);
    assert DeadAt(st, x, now);
    forall y: Ip
      ensures DeadAt(st1, y, now) <==> y in (white - {x}) + (gray + {x})
      ensures y in white - {x} ==> Pending(st, y) && Pending(st1, y) && RequestFor(st1, y) == RequestFor(st, y)
    {
      assert DeadAt(st, y, now) <==> y in white + gray;
      if y != x {
        EnqueueOthers(st, x, e, y);
      }
    }
  }

  /** The whole detour through a dead hop, seen from one hop. */
  lemma {:induction false} DetourAt(
    st: State, x: Ip, e: Packet, st2: State, st3: State, y: Ip,
    white: set<Ip>, left: set<Ip>, gray: set<Ip>, now: int)
    requires Situation(st, white, gray, now) && x in white && left <= white - {x} && Distinct(st2.requests)
    requires var st1 := Enqueue(st, x, e);
      StepAt(st1, st2, y, white - {x}, left, gray + {x}, now)
      && Pending(st2, x) && st3.requests == Unlink(st2.requests, x)
      && st3.dropped == st2.dropped + [(RequestFor(st1, x), now)]
    ensures StepAt(st, st3, y, white, left, gray, now)
  {
    hide Index, Enqueue, Unlink;
    EnqueueOwn(st, x, e);
    assert DeadAt(st, y, now) <==> y in white + gray;
    UnlinkOwn(st2.requests, x);
    if y == x {
      var d := (RequestFor(Enqueue(st, x, e), x), now);
      assert d in st3.dropped && d.0.ip == x;
    } else {
      EnqueueOthers(st, x, e, y);
      UnlinkOther(st2.requests, x, y);
      LoggedMore(st2, st3, y, now);
    }
  }

  lemma {:induction false} LoggedMore(st: State, st': State, x: Ip, now: int)
    requires forall d :: d in st.dropped ==> d in st'.dropped
    ensures Logged(st, x, now) ==> Logged(st', x, now)
  {
  }

  // ---- All errors of a request -------------------------------------------------------------------------

  /** What a part of the giving up leaves, where the search over it found `left`. */
  ghost predicate Works(
    st: State, s: (State, set<Ip>), found: Option<set<Ip>>, white: set<Ip>, gray: set<Ip>, now: int)
  {
    && found == Some(s.1) && s.1 <= white && Queue(s.0, now) && Situation(s.0, s.1, gray, now)
    && Steps(st, s.0, white, s.1, gray, now)
  }

  lemma {:induction false} NoneWorks(st: State, white: set<Ip>, gray: set<Ip>, now: int)
    requires Queue(st, now) && Situation(st, white, gray, now)
    ensures Works(st, (st, white), Some(white), white, gray, now)
  {
    hide Queue, Situation, Steps;
    SameSteps(st, st, white, gray, now);
  }

  lemma {:induction false} WorksTrans(
    st: State, a: (State, set<Ip>), b: (State, set<Ip>), found: Option<set<Ip>>,
    white: set<Ip>, gray: set<Ip>, now: int)
    requires Works(st, a, Some(a.1), white, gray, now) && Works(a.0, b, found, a.1, gray, now)
    ensures Works(st, b, found, white, gray, now)
  {
    hide Queue, Situation, Steps;
    StepsTrans(st, a.0, b.0, white, a.1, b.1, gray, now);
  }

  lemma {:induction false} GiveUpAllWorks(
    env: Env, st: State, ps: seq<Packet>, hop: Ip, now: int, white: set<Ip>, gray: set<Ip>)
    requires Queue(st, now) && Situation(st, white, gray, now) && Explore(env, st, ps, white, gray).Some?
    ensures Works(st, GiveUpAll(env, st, ps, hop, now, white), Explore(env, st, ps, white, gray), white, gray, now)
    decreases white, |ps| + 1
  {
    if ps == [] {
      NoneWorks(st, white, gray, now);
    } else {
      hide Queue, Situation, Steps, Follow, GiveUp, WaitsAt;
      var s := GiveUp(env, st, ps[0], hop, now, white);
      GiveUpWorks(env, st, ps[0], hop, now, white, gray);
      LeftSame(env, st, s.0, ps[1..], white, s.1, gray, now);
      GiveUpAllWorks(env, s.0, ps[1..], hop, now, s.1, gray);
      WorksTrans(st, s, GiveUpAll(env, s.0, ps[1..], hop, now, s.1),
        Explore(env, st, ps, white, gray), white, gray, now);
    }
  }

  lemma {:induction false} LeftSame(
    env: Env, st: State, st': State, ps: seq<Packet>, white: set<Ip>, left: set<Ip>, gray: set<Ip>, now: int)
    requires Steps(st, st', white, left, gray, now)
    ensures SameAt(st, st', left) && Explore(env, st', ps, left, gray) == Explore(env, st, ps, left, gray)
  {
    hide Index, Explore, Logged;
    forall x | x in left ensures Pending(st, x) && Pending(st', x) && RequestFor(st', x) == RequestFor(st, x) {
      assert StepAt(st, st', x, white, left, gray, now);
    }
    ExploreSame(env, st, st', ps, left, gray);
  }

  lemma {:induction false} GiveUpWorks(
    env: Env, st: State, p: Packet, hop: Ip, now: int, white: set<Ip>, gray: set<Ip>)
    requires Queue(st, now) && Situation(st, white, gray, now) && Follow(env, st, p, white, gray).Some?
    ensures Works(st, GiveUp(env, st, p, hop, now, white), Follow(env, st, p, white, gray), white, gray, now)
    decreases white, 0
  {
    hide Queue, Steps, Explore, GiveUpAll, Index, Lookup;
    var w := WaitsAt(env, st.cache, p);
    if w.None? {
      NowWorks(env, st, p, hop, white, gray, now);
      StepsSituation(st, ErrorNow(env, st, p, hop), white, white, gray, now);
    } else if w.value !in white {
      var st' := NoteQueued(AskIfDue(QueuedError(env, st, p), w.value, now), p, hop, w.value);
      LiveWorks(env, st, p, hop, white, gray, now);
      StepsSituation(st, st', white, white, gray, now);
    } else {
      assert DeadAt(st, w.value, now);
      DetourWorks(env, st, p, hop, now, white, gray);
    }
  }

  lemma {:induction false} DetourWorks(
    env: Env, st: State, p: Packet, hop: Ip, now: int, white: set<Ip>, gray: set<Ip>)
    requires Queue(st, now) && Situation(st, white, gray, now) && Follow(env, st, p, white, gray).Some?
    requires var w := WaitsAt(env, st.cache, p); w.Some? && w.value in white && Pending(st, w.value)
    ensures Works(st, GiveUp(env, st, p, hop, now, white), Follow(env, st, p, white, gray), white, gray, now)
    decreases white, 0, 0
  {
    hide Queue, Explore, GiveUpAll, Index, Lookup, Enqueue, StepAt, DeadAt, SameAt;
    var x := WaitsAt(env, st.cache, p).value;
    var e := ErrorAbout(env, p, env.route(p.frame.src).value);
    var st1 := Enqueue(st, x, e);
    EnterWorks(st, x, e, white, gray, now);
    var r := RequestFor(st1, x);
    ExploreSame(env, st, st1, r.packets, white - {x}, gray + {x});
    GiveUpAllWorks(env, st1, r.packets, x, now, white - {x}, gray + {x});
    var s := GiveUpAll(env, st1, r.packets, x, now, white - {x});
    assert StepAt(st1, s.0, x, white - {x}, s.1, gray + {x}, now);
    KeptInProgress(st1, s.0, x, white - {x}, s.1, gray + {x}, now);
    assert DeadAt(s.0, x, now);
    QueueDistinct(s.0, now);
    UnlinkQueue(s.0, x, now);
    var st3 := GiveUp(env, st, p, hop, now, white).0;
    SameQueue(Retire(s.0, x, r, now), st3, now);
    forall y: Ip ensures StepAt(st, st3, y, white, s.1, gray, now) {
      assert StepAt(st1, s.0, y, white - {x}, s.1, gray + {x}, now);
      DetourAt(st, x, e, s.0, st3, y, white, s.1, gray, now);
    }
    StepsSituation(st, st3, white, s.1, gray, now);
  }

  lemma {:induction false} KeptInProgress(
    st: State, st': State, x: Ip, white: set<Ip>, left: set<Ip>, gray: set<Ip>, now: int)
    requires StepAt(st, st', x, white, left, gray, now) && x in gray
    ensures Pending(st, x) && Pending(st', x) && RequestFor(st', x) == RequestFor(st, x)
  {
  }

  lemma {:induction false} QueueDistinct(st: State, now: int)
    requires Queue(st, now)
    ensures Distinct(st.requests)
  {
  }

  lemma {:induction false} SameQueue(st: State, st': State, now: int)
    requires Queue(st, now) && st'.requests == st.requests && st'.dropped == st.dropped
    ensures Queue(st', now)
  {
    hide GoodRequest, GoodDrop;
  }
}
