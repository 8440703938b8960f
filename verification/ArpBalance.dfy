/** Giving up loses no packet and duplicates none, and makes exactly one error for each. */
module ArpBalance {
  import opened Words
  import opened ArpSpec
  import opened ArpQueue
  import opened ArpSearch
  import opened ArpVisit
  import opened ArpGiveUp

  // ---- Where the packets are ---------------------------------------------------------------------------

  lemma {:induction false} LogBalance(st: State, st': State, p: Packet, hop: Ip, f: Fate, extra: multiset<(Packet, Ip)>)
    requires Balance(st, extra) && st'.givenUp == st.givenUp + [(p, hop, f)]
    requires st'.requests == st.requests && st'.accepted == st.accepted && st'.sent == st.sent
    ensures Balance(st', extra + multiset{(p, hop)})
  {
    GivenPush(st.givenUp, p, hop, f);
    hide Waiting, SentPairs, GivenPairs;
    var one, rest := multiset{(p, hop)}, Waiting(st.requests) + SentPairs(st.sent);
    assert st.accepted + (extra + one) == st.accepted + extra + one;
    assert rest + (GivenPairs(st.givenUp) + one) == rest + GivenPairs(st.givenUp) + one;
  }

  lemma {:induction false} NowBalance(env: Env, st: State, p: Packet, hop: Ip, extra: multiset<(Packet, Ip)>)
    requires Balance(st, extra) && WaitsAt(env, st.cache, p).None?
    ensures Balance(ErrorNow(env, st, p, hop), extra + multiset{(p, hop)})
  {
    hide Balance, Lookup;
    var st' := ErrorNow(env, st, p, hop);
    LogBalance(st, st', p, hop, st'.givenUp[|st.givenUp|].2, extra);
  }

  lemma {:induction false} QueueAndAskBalance(st: State, ip: Ip, p: Packet, now: int, extra: multiset<(Packet, Ip)>)
    requires Balance(st, extra)
    ensures Balance(AskIfDue(Enqueue(st, ip, p), ip, now), extra)
  {
    hide Enqueue, Ask, Index, Balance;
    EnqueueBalance(st, ip, p, extra);
    if Due(RequestFor(Enqueue(st, ip, p), ip), now) {
      AskBalance(Enqueue(st, ip, p), ip, now, extra);
    }
  }

  lemma {:induction false} GiveUpAllBalance(
    env: Env, st: State, ps: seq<Packet>, hop: Ip, now: int, white: set<Ip>, gray: set<Ip>, extra: multiset<(Packet, Ip)>)
    requires Queue(st, now) && Situation(st, white, gray, now) && Explore(env, st, ps, white, gray).Some?
    requires Balance(st, extra)
    ensures Balance(GiveUpAll(env, st, ps, hop, now, white).0, extra + PairsOf(ps, hop))
    decreases white, |ps| + 1
  {
    if ps == [] {
      assert extra + PairsOf(ps, hop) == extra;
    } else {
      hide Queue, Situation, Steps, Follow, GiveUp, Balance, PairsOf;
      var s := GiveUp(env, st, ps[0], hop, now, white);
      GiveUpWorks(env, st, ps[0], hop, now, white, gray);
      GiveUpBalance(env, st, ps[0], hop, now, white, gray, extra);
      LeftSame(env, st, s.0, ps[1..], white, s.1, gray, now);
      GiveUpAllBalance(env, s.0, ps[1..], hop, now, s.1, gray, extra + multiset{(ps[0], hop)});
      PairsFirst(ps, hop, extra);
    }
  }

  lemma {:induction false} PairsFirst(ps: seq<Packet>, hop: Ip, extra: multiset<(Packet, Ip)>)
    requires ps != []
    ensures extra + PairsOf(ps, hop) == extra + multiset{(ps[0], hop)} + PairsOf(ps[1..], hop)
  {
  }

  lemma {:induction false} GiveUpBalance(
    env: Env, st: State, p: Packet, hop: Ip, now: int, white: set<Ip>, gray: set<Ip>, extra: multiset<(Packet, Ip)>)
    requires Queue(st, now) && Situation(st, white, gray, now) && Follow(env, st, p, white, gray).Some?
    requires Balance(st, extra)
    ensures Balance(GiveUp(env, st, p, hop, now, white).0, extra + multiset{(p, hop)})
    decreases white, 0
  {
    hide Queue, Explore, GiveUpAll, Index, Lookup, Enqueue, AskIfDue, Balance;
    var w := WaitsAt(env, st.cache, p);
    var st' := GiveUp(env, st, p, hop, now, white).0;
    if w.None? {
      NowBalance(env, st, p, hop, extra);
    } else {
      var e := ErrorAbout(env, p, env.route(p.frame.src).value);
      if w.value !in white {
        QueueAndAskBalance(st, w.value, e, now, extra);
        LogBalance(AskIfDue(Enqueue(st, w.value, e), w.value, now), st', p, hop, QueuedBack(w.value), extra);
      } else {
        assert DeadAt(st, w.value, now);
        DetourBalance(env, st, p, hop, now, white, gray, extra);
      }
    }
  }

  /** The state inside a detour through a dead hop, before its request is unlinked. */
  lemma {:induction false} Detour(
    env: Env, st: State, p: Packet, now: int, white: set<Ip>, gray: set<Ip>)
    requires Queue(st, now) && Situation(st, white, gray, now) && Follow(env, st, p, white, gray).Some?
    requires var w := WaitsAt(env, st.cache, p); w.Some? && w.value in white && Pending(st, w.value)
    ensures var x := WaitsAt(env, st.cache, p).value;
      var st1 := QueuedError(env, st, p);
      var s := GiveUpAll(env, st1, RequestFor(st1, x).packets, x, now, white - {x});
      && Queue(st1, now) && Situation(st1, white - {x}, gray + {x}, now)
      && Explore(env, st1, RequestFor(st1, x).packets, white - {x}, gray + {x}).Some?
      && Pending(s.0, x) && RequestFor(s.0, x) == RequestFor(st1, x)
      && Grows(st, s.0) && Grows(st1, s.0)
  {
    hide Queue, Explore, GiveUpAll, Index, Lookup, Enqueue, StepAt, DeadAt, SameAt;
    var x := WaitsAt(env, st.cache, p).value;
    var e := ErrorAbout(env, p, env.route(p.frame.src).value);
    var st1 := Enqueue(st, x, e);
    EnterWorks(st, x, e, white, gray, now);
    var r := RequestFor(st1, x);
    ExploreSame(env, st, st1, r.packets, white - {x}, gray + {x});
    GiveUpAllWorks(env, st1, r.packets, x, now, white - {x}, gray + {x});
    var s := GiveUpAll(env, st1, r.packets, x, now, white - {x});
    KeptInProgress(st1, s.0, x, white - {x}, s.1, gray + {x}, now);
  }

  lemma {:induction false} DetourBalance(
    env: Env, st: State, p: Packet, hop: Ip, now: int, white: set<Ip>, gray: set<Ip>, extra: multiset<(Packet, Ip)>)
    requires Queue(st, now) && Situation(st, white, gray, now) && Follow(env, st, p, white, gray).Some?
    requires var w := WaitsAt(env, st.cache, p); w.Some? && w.value in white && Pending(st, w.value)
    requires Balance(st, extra)
    ensures Balance(GiveUp(env, st, p, hop, now, white).0, extra + multiset{(p, hop)})
    decreases white, 0, 0
  {
    hide Queue, Explore, GiveUpAll, Index, Lookup, Enqueue, Situation, Balance, Unlink, Grows, PairsOf;
    var x := WaitsAt(env, st.cache, p).value;
    var st1 := QueuedError(env, st, p);
    Detour(env, st, p, now, white, gray);
    EnqueueBalance(st, x, ErrorAbout(env, p, env.route(p.frame.src).value), extra);
    var r := RequestFor(st1, x);
    GiveUpAllBalance(env, st1, r.packets, x, now, white - {x}, gray + {x}, extra);
    var s := GiveUpAll(env, st1, r.packets, x, now, white - {x}).0;
    var st3 := Retire(s, x, r, now);
    UnlinkBalance(s, st3, x, extra);
    LogBalance(st3, NoteQueued(st3, p, hop, x), p, hop, QueuedBack(x), extra);
  }

  // ---- One error for each --------------------------------------------------------------------------------

  /** What became of a packet that was given up is what the routes and the replies say. */
  predicate FateOk(env: Env, replies: set<(Ip, Mac)>, g: (Packet, Ip, Fate)) {
    var back := env.route(g.0.frame.src);
    match g.2
    case NoRouteBack => back.None?
    case SentBack(gw, mac) => back.Some? && gw == back.value.gw && (gw, mac) in replies
    case QueuedBack(gw) => back.Some? && gw == back.value.gw
  }

  /** The errors that were queued for these packets, one each. */
  function QueuedErrors(env: Env, log: seq<(Packet, Ip, Fate)>): multiset<(Packet, Ip)> {
    if log == [] then multiset{} else QueuedErrors(env, log[..|log| - 1]) + QueuedOne(env, log[|log| - 1])
  }

  function QueuedOne(env: Env, g: (Packet, Ip, Fate)): multiset<(Packet, Ip)> {
    var back := env.route(g.0.frame.src);
    if g.2.QueuedBack? && back.Some? then multiset{(ErrorAbout(env, g.0, back.value), g.2.gw)} else multiset{}
  }

  /** The errors that were sent at once for these packets, one each, in order. */
  function SentErrors(env: Env, log: seq<(Packet, Ip, Fate)>): seq<(Packet, Ip, Mac)> {
    if log == [] then [] else SentErrors(env, log[..|log| - 1]) + SentOne(env, log[|log| - 1])
  }

  function SentOne(env: Env, g: (Packet, Ip, Fate)): seq<(Packet, Ip, Mac)> {
    var back := env.route(g.0.frame.src);
    if g.2.SentBack? && back.Some? then [(ErrorAbout(env, g.0, back.value), g.2.gw, g.2.mac)] else []
  }

  /** What the queue accepted is what forwarding brought, the errors queued for the packets given up,
      and `pend`; what was sent at once are the errors for the others. */
  predicate Owed(env: Env, st: State, pend: multiset<(Packet, Ip)>) {
    && st.accepted == st.forwarded + QueuedErrors(env, st.givenUp) + pend
    && st.errors == SentErrors(env, st.givenUp)
    && (forall i :: 0 <= i < |st.givenUp| ==> FateOk(env, st.replies, st.givenUp[i]))
  }

  /** The valid entries of the cache are accepted replies. */
  predicate Backed(st: State) {
    forall i :: 0 <= i < |st.cache| && st.cache[i].valid ==> (st.cache[i].ip, st.cache[i].mac) in st.replies
  }

  lemma {:induction false} LookupHit(cache: seq<Entry>, ip: Ip)
    ensures Lookup(cache, ip).Some? ==>
      exists i :: 0 <= i < |cache| && cache[i].valid && cache[i].ip == ip && cache[i].mac == Lookup(cache, ip).value
    ensures Lookup(cache, ip).None? ==> forall i :: 0 <= i < |cache| ==> !(cache[i].valid && cache[i].ip == ip)
  {
    if cache != [] {
      LookupHit(cache[..|cache| - 1], ip);
    }
  }

  lemma {:induction false} NoteOwed(env: Env, st: State, st': State, g: (Packet, Ip, Fate), pend: multiset<(Packet, Ip)>)
    requires Owed(env, st, pend + QueuedOne(env, g)) && FateOk(env, st.replies, g)
    requires st'.givenUp == st.givenUp + [g] && st'.errors == st.errors + SentOne(env, g)
    requires st'.accepted == st.accepted && st'.forwarded == st.forwarded && st'.replies == st.replies
    ensures Owed(env, st', pend)
  {
    assert st'.givenUp[..|st'.givenUp| - 1] == st.givenUp;
    hide QueuedOne, SentOne, FateOk;
    assert QueuedErrors(env, st'.givenUp) == QueuedErrors(env, st.givenUp) + QueuedOne(env, g);
    assert SentErrors(env, st'.givenUp) == SentErrors(env, st.givenUp) + SentOne(env, g);
    hide QueuedErrors, SentErrors;
    assert st.forwarded + (QueuedErrors(env, st.givenUp) + QueuedOne(env, g)) + pend
        == st.forwarded + QueuedErrors(env, st.givenUp) + (pend + QueuedOne(env, g));
  }

  lemma {:induction false} NowOwed(env: Env, st: State, p: Packet, hop: Ip, pend: multiset<(Packet, Ip)>)
    requires Owed(env, st, pend) && Backed(st) && WaitsAt(env, st.cache, p).None?
    ensures Owed(env, ErrorNow(env, st, p, hop), pend)
  {
    var back := env.route(p.frame.src);
    var st' := ErrorNow(env, st, p, hop);
    hide Owed, Lookup;
    var g := st'.givenUp[|st.givenUp|];
    assert pend + QueuedOne(env, g) == pend;
    if back.Some? {
      LookupHit(st.cache, back.value.gw);
    }
    NoteOwed(env, st, st', g, pend);
  }

  lemma {:induction false} EnqueueOwed(env: Env, st: State, st': State, e: Packet, x: Ip, pend: multiset<(Packet, Ip)>)
    requires Owed(env, st, pend) && st'.accepted == st.accepted + multiset{(e, x)}
    requires st'.givenUp == st.givenUp && st'.errors == st.errors
    requires st'.forwarded == st.forwarded && st'.replies == st.replies
    ensures Owed(env, st', pend + multiset{(e, x)})
  {
    hide QueuedErrors, SentErrors, FateOk;
  }

  lemma {:induction false} SameOwed(env: Env, st: State, st': State, pend: multiset<(Packet, Ip)>)
    requires Owed(env, st, pend) && st'.accepted == st.accepted && st.replies <= st'.replies
    requires st'.givenUp == st.givenUp && st'.errors == st.errors && st'.forwarded == st.forwarded
    ensures Owed(env, st', pend)
  {
    hide QueuedErrors, SentErrors;
    forall i | 0 <= i < |st'.givenUp| ensures FateOk(env, st'.replies, st'.givenUp[i]) {
      assert FateOk(env, st.replies, st.givenUp[i]);
    }
  }

  lemma {:induction false} GiveUpAllOwed(
    env: Env, st: State, ps: seq<Packet>, hop: Ip, now: int, white: set<Ip>, gray: set<Ip>, pend: multiset<(Packet, Ip)>)
    requires Queue(st, now) && Situation(st, white, gray, now) && Explore(env, st, ps, white, gray).Some?
    requires Owed(env, st, pend) && Backed(st)
    ensures Owed(env, GiveUpAll(env, st, ps, hop, now, white).0, pend)
    decreases white, |ps| + 1
  {
    if ps != [] {
      hide Queue, Situation, Steps, Follow, GiveUp, Owed;
      var s := GiveUp(env, st, ps[0], hop, now, white);
      GiveUpWorks(env, st, ps[0], hop, now, white, gray);
      GiveUpOwed(env, st, ps[0], hop, now, white, gray, pend);
      LeftSame(env, st, s.0, ps[1..], white, s.1, gray, now);
      StillBacked(st, s.0, white, s.1, gray, now);
      GiveUpAllOwed(env, s.0, ps[1..], hop, now, s.1, gray, pend);
    }
  }

  lemma {:induction false} StillBacked(st: State, st': State, white: set<Ip>, left: set<Ip>, gray: set<Ip>, now: int)
    requires Steps(st, st', white, left, gray, now) && Backed(st)
    ensures Backed(st')
  {
    hide StepAt;
  }

  lemma {:induction false} GiveUpOwed(
    env: Env, st: State, p: Packet, hop: Ip, now: int, white: set<Ip>, gray: set<Ip>, pend: multiset<(Packet, Ip)>)
    requires Queue(st, now) && Situation(st, white, gray, now) && Follow(env, st, p, white, gray).Some?
    requires Owed(env, st, pend) && Backed(st)
    ensures Owed(env, GiveUp(env, st, p, hop, now, white).0, pend)
    decreases white, 0
  {
    hide Queue, Explore, GiveUpAll, Index, Lookup, Enqueue, AskIfDue, Owed, Unlink;
    var w := WaitsAt(env, st.cache, p);
    if w.None? {
      NowOwed(env, st, p, hop, pend);
    } else {
      var x := w.value;
      var e := ErrorAbout(env, p, env.route(p.frame.src).value);
      var st1 := Enqueue(st, x, e);
      var g := (p, hop, QueuedBack(x));
      EnqueueFields(st, x, e);
      assert QueuedOne(env, g) == multiset{(e, x)} && SentOne(env, g) == [];
      if x !in white {
        var st2 := AskIfDue(st1, x, now);
        QueueAndAskRest(st, x, e, now);
        EnqueueOwed(env, st, st2, e, x, pend);
        NoteOwed(env, st2, NoteQueued(st2, p, hop, x), g, pend);
      } else {
        assert DeadAt(st, x, now);
        Detour(env, st, p, now, white, gray);
        EnqueueOwed(env, st, st1, e, x, pend);
        GiveUpAllOwed(env, st1, RequestFor(st1, x).packets, x, now, white - {x}, gray + {x}, pend + multiset{(e, x)});
        var st2 := GiveUpAll(env, st1, RequestFor(st1, x).packets, x, now, white - {x}).0;
        var st3 := Retire(st2, x, RequestFor(st1, x), now);
        SameOwed(env, st2, st3, pend + multiset{(e, x)});
        NoteOwed(env, st3, NoteQueued(st3, p, hop, x), g, pend);
      }
    }
  }
}
