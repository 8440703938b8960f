/** What every event keeps: forwards, ARP replies and sweeps, over whole runs. */
module ArpRuns {
  import opened Words
  import opened ArpSpec
  import opened ArpQueue
  import opened ArpSearch
  import opened ArpVisit
  import opened ArpGiveUp
  import opened ArpBalance
  import opened ArpReturn
  import opened ArpSweep

  // ---- Runs ---------------------------------------------------------------------------------------

  datatype Event = Forwarding(p: Packet, gw: Ip) | Replying(ip: Ip, mac: Mac) | Sweeping

  function Do(env: Env, st: State, e: Event, now: int): Outcome {
    match e
    case Forwarding(p, gw) => Forward(env, st, p, gw, now)
    case Replying(ip, mac) => Done(Reply(st, ip, mac, now))
    case Sweeping => Sweep(env, st, now)
  }

  type Run = seq<(Event, int)>

  /** The clock never goes back and every event returns, so that there is a next one. */
  predicate Legal(env: Env, st: State, run: Run, t: int)
    decreases |run|
  {
    run == [] ||
    (&& t <= run[0].1 && Do(env, st, run[0].0, run[0].1).Done?
     && Legal(env, Do(env, st, run[0].0, run[0].1).st, run[1..], run[0].1))
  }

  function After(env: Env, st: State, run: Run, t: int): State
    requires Legal(env, st, run, t)
    decreases |run|
  {
    if run == [] then st else After(env, Do(env, st, run[0].0, run[0].1).st, run[1..], run[0].1)
  }

  function EndTime(run: Run, t: int): int { if run == [] then t else run[|run| - 1].1 }

  /** `sr_arpcache_init`: no entry is valid. */
  function NoEntries(): seq<Entry> { seq(CACHE_SIZE, _ => Entry(0, 0, 0, false)) }

  const Empty: State := State(NoEntries(), [], [], [], [], multiset{}, multiset{}, [], [], {}, [], None)

  // ---- The invariant -------------------------------------------------------------------------------

  /** Every packet that was sent, at once or after a wait, carried the address of an accepted reply for its
      next hop. */
  predicate SentWell(st: State) {
    && (forall i :: 0 <= i < |st.sent| ==> (st.sent[i].1, st.sent[i].2) in st.replies)
    && (forall i :: 0 <= i < |st.relayed| ==> (st.relayed[i].1, st.relayed[i].2) in st.replies)
  }

  predicate Fresh(s: Stored, swept: Option<int>) { swept.Some? ==> swept.value - s.at <= TIMEOUT }

  /** The valid entries are the stored replies that the last sweep found young enough. */
  predicate CacheWell(st: State) {
    && |st.cache| == CACHE_SIZE
    && (forall i :: 0 <= i < |st.cache| && st.cache[i].valid ==>
          var s := Stored(st.cache[i].ip, st.cache[i].mac, st.cache[i].added);
          s in st.stored && Fresh(s, st.swept) && (s.ip, s.mac) in st.replies)
    && (forall k :: 0 <= k < |st.stored| && Fresh(st.stored[k], st.swept) ==>
          Entry(st.stored[k].mac, st.stored[k].ip, st.stored[k].at, true) in st.cache)
  }

  predicate Inv(env: Env, st: State, now: int) {
    && Queue(st, now) && Balance(st, multiset{}) && Owed(env, st, multiset{}) && SentWell(st)
    && CacheWell(st) && (st.swept.Some? ==> st.swept.value <= now)
  }

  lemma {:induction false} EmptyInv(env: Env, t: int)
    ensures Inv(env, Empty, t)
  {
  }

  lemma {:induction false} QueueLater(st: State, t: int, now: int)
    requires Queue(st, t) && t <= now
    ensures Queue(st, now)
  {
    hide Spaced;
  }

  // ---- The cache -----------------------------------------------------------------------------------

  lemma {:induction false} SweepCache(st: State, now: int)
    requires CacheWell(st) && (st.swept.Some? ==> st.swept.value <= now)
    ensures CacheWell(AgeCache(st, now))
  {
    var st' := AgeCache(st, now);
    forall k | 0 <= k < |st.stored| && Fresh(st.stored[k], st'.swept)
      ensures Entry(st.stored[k].mac, st.stored[k].ip, st.stored[k].at, true) in st'.cache
    {
      var e := Entry(st.stored[k].mac, st.stored[k].ip, st.stored[k].at, true);
      assert Fresh(st.stored[k], st.swept);
      var i :| 0 <= i < |st.cache| && st.cache[i] == e;
      assert st'.cache[i] == e;
    }
  }

  /** A reply never overwrites a valid entry. */
  lemma {:induction false} ReplyCache(st: State, ip: Ip, mac: Mac, now: int)
    requires CacheWell(st) && (st.swept.Some? ==> st.swept.value <= now)
    ensures CacheWell(Reply(st, ip, mac, now))
  {
    var j := FirstFree(st.cache);
    hide FirstFree, Index, Unlink, SendAll;
    var st' := Reply(st, ip, mac, now);
    assert st'.swept == st.swept;
    if j < |st.cache| {
      var e := Entry(mac, ip, now, true);
      assert st'.cache == st.cache[j := e] && st'.stored == st.stored + [Stored(ip, mac, now)];
      assert st'.cache[j] == e && st'.stored[|st.stored|] == Stored(ip, mac, now);
      ReplyHolds(st.cache, st.stored, st.swept, j, Stored(ip, mac, now));
    }
  }

  lemma {:induction false} ReplyHolds(cache: seq<Entry>, stored: seq<Stored>, swept: Option<int>, j: nat, s: Stored)
    requires j < |cache| && !cache[j].valid
    requires forall k :: 0 <= k < |stored| && Fresh(stored[k], swept) ==>
      Entry(stored[k].mac, stored[k].ip, stored[k].at, true) in cache
    ensures var stored' := stored + [s];
      forall k :: 0 <= k < |stored'| && Fresh(stored'[k], swept) ==>
        Entry(stored'[k].mac, stored'[k].ip, stored'[k].at, true) in cache[j := Entry(s.mac, s.ip, s.at, true)]
  {
    var stored', cache' := stored + [s], cache[j := Entry(s.mac, s.ip, s.at, true)];
    forall k | 0 <= k < |stored'| && Fresh(stored'[k], swept)
      ensures Entry(stored'[k].mac, stored'[k].ip, stored'[k].at, true) in cache'
    {
      if k == |stored| {
        assert cache'[j] in cache';
      } else {
        var e := Entry(stored[k].mac, stored[k].ip, stored[k].at, true);
        var i :| 0 <= i < |cache| && cache[i] == e;
        assert cache'[i] == e;
      }
    }
  }

  lemma {:induction false} CacheBacked(st: State)
    requires CacheWell(st)
    ensures Backed(st)
  {
  }

  lemma {:induction false} CacheSame(st: State, st': State)
    requires CacheWell(st) && st'.cache == st.cache && st'.replies == st.replies
    requires st'.stored == st.stored && st'.swept == st.swept
    ensures CacheWell(st')
  {
  }

  // ---- The events keep the invariant ---------------------------------------------------------------

  /** The state in which a packet to forward has just been queued. */
  function Queued(st: State, p: Packet, gw: Ip): (r: State)
    ensures Pending(r, gw)
  {
    Enqueue(st.(forwarded := st.forwarded + multiset{(p, gw)}), gw, p)
  }

  lemma {:induction false} QueuedKeeps(env: Env, st: State, p: Packet, gw: Ip, now: int)
    requires Queue(st, now) && Balance(st, multiset{}) && Owed(env, st, multiset{})
    ensures var st1 := Queued(st, p, gw);
      Queue(st1, now) && Balance(st1, multiset{}) && Owed(env, st1, multiset{})
  {
    var st0 := st.(forwarded := st.forwarded + multiset{(p, gw)});
    SameQueue(st, st0, now);
    SameBalance(st, st0);
    EnqueueFields(st0, gw, p);
    EnqueueQueue(st0, gw, p, now);
    EnqueueBalance(st0, gw, p, multiset{});
    hide Enqueue, Queue, Balance, QueuedErrors, SentErrors, FateOk;
    var one, errs := multiset{(p, gw)}, QueuedErrors(env, st.givenUp);
    assert st.forwarded + errs + multiset{} + one == st.forwarded + one + errs + multiset{};
  }

  lemma {:induction false} SameBalance(st: State, st': State)
    requires Balance(st, multiset{}) && st'.requests == st.requests
    requires st'.accepted == st.accepted && st'.sent == st.sent && st'.givenUp == st.givenUp
    ensures Balance(st', multiset{})
  {
  }

  lemma {:induction false} QueuedFields(st: State, p: Packet, gw: Ip)
    ensures var st1 := Queued(st, p, gw);
      && st1.cache == st.cache && st1.sent == st.sent && st1.replies == st.replies && st1.dropped == st.dropped
      && st1.relayed == st.relayed
      && st1.stored == st.stored && st1.swept == st.swept
  {
    hide Enqueue;
    EnqueueFields(st.(forwarded := st.forwarded + multiset{(p, gw)}), gw, p);
  }

  /** What forwarding leaves, where it returns. */
  lemma {:induction false} ForwardIs(env: Env, st: State, p: Packet, gw: Ip, now: int)
    requires Queue(Queued(st, p, gw), now) && Lookup(st.cache, gw).None?
    ensures Forward(env, st, p, gw, now) ==
      if Returns(env, Queued(st, p, gw), gw, now) then Done(Visited(env, Queued(st, p, gw), gw, now)) else Endless
  {
    hide Enqueue, Visit, Visited, Returns, Queue, Lookup;
    VisitIsResult(env, Queued(st, p, gw), gw, now, 0);
  }

  lemma {:induction false} ForwardInv(env: Env, st: State, p: Packet, gw: Ip, now: int)
    requires Inv(env, st, now) && Forward(env, st, p, gw, now).Done?
    ensures Inv(env, Forward(env, st, p, gw, now).st, now)
  {
    hide Queued, Visited, Queue, Balance, Owed, Lookup, CacheWell, Returns, Visit, Enqueue, DeadIps, Left, StepAt;
    if Lookup(st.cache, gw).None? {
      var st1 := Queued(st, p, gw);
      QueuedKeeps(env, st, p, gw, now);
      QueuedFields(st, p, gw);
      ForwardIs(env, st, p, gw, now);
      CacheBacked(st);
      VisitedQueue(env, st1, gw, now);
      VisitedBalance(env, st1, gw, now, multiset{});
      VisitedOwed(env, st1, gw, now);
      VisitedSteps(env, st1, gw, now);
      CacheSame(st, Visited(env, st1, gw, now));
    } else {
      RelayedInv(env, st, p, gw, now);
    }
  }

  lemma {:induction false} RelayedInv(env: Env, st: State, p: Packet, gw: Ip, now: int)
    requires Inv(env, st, now) && Lookup(st.cache, gw).Some?
    ensures Inv(env, st.(relayed := st.relayed + [(p, gw, Lookup(st.cache, gw).value)]), now)
  {
    hide Queue, Balance, Owed, CacheWell, Lookup;
    var st' := st.(relayed := st.relayed + [(p, gw, Lookup(st.cache, gw).value)]);
    CacheBacked(st);
    LookupHit(st.cache, gw);
    SameQueue(st, st', now);
    SameBalance(st, st');
    SameOwed(env, st, st', multiset{});
    CacheSame(st, st');
  }

  lemma {:induction false} ReplyInv(env: Env, st: State, ip: Ip, mac: Mac, now: int)
    requires Inv(env, st, now)
    ensures Inv(env, Reply(st, ip, mac, now), now)
  {
    hide Queue, Balance, Owed, CacheWell, FirstFree, Index, Unlink, SentWell;
    var st' := Reply(st, ip, mac, now);
    ReplyQueue(st, ip, mac, now);
    ReplyBalance(st, ip, mac, now, multiset{});
    ReplyCache(st, ip, mac, now);
    ReplySent(st, ip, mac, now);
    SameOwed(env, st, st', multiset{});
  }

  lemma {:induction false} ReplySent(st: State, ip: Ip, mac: Mac, now: int)
    requires SentWell(st)
    ensures SentWell(Reply(st, ip, mac, now))
  {
    hide Index, Unlink, FirstFree;
    var st' := Reply(st, ip, mac, now);
    if Pending(st, ip) {
      var more := SendAll(RequestFor(st, ip).packets, ip, mac);
      assert st'.sent == st.sent + more;
    }
  }

  lemma {:induction false} SweepInv(env: Env, st: State, now: int)
    requires Inv(env, st, now) && Sweep(env, st, now).Done?
    ensures Inv(env, Sweep(env, st, now).st, now)
  {
    hide Queue, Balance, Owed, CacheWell, ExpireEntries, Ips, Walk, Ahead;
    var st1 := AgeCache(st, now);
    var ips := Ips(st1.requests);
    SameQueue(st, st1, now);
    SweptIps(st1, now);
    SweepCache(st, now);
    SameOwed(env, st, st1, multiset{});
    CacheBacked(st1);
    SameBalance(st, st1);
    WalkKeeps(env, st1, ips, now, multiset{});
    WalkGrows(env, st1, ips, now);
    CacheSame(st1, Sweep(env, st, now).st);
  }

  lemma {:induction false} EventKeepsInv(env: Env, st: State, e: Event, t: int, now: int)
    requires Inv(env, st, t) && t <= now && Do(env, st, e, now).Done?
    ensures Inv(env, Do(env, st, e, now).st, now)
  {
    hide Queue, Balance, SentWell, Owed, CacheWell, Forward, Reply, Sweep;
    QueueLater(st, t, now);
    match e
    case Forwarding(p, gw) => ForwardInv(env, st, p, gw, now);
    case Replying(ip, mac) => ReplyInv(env, st, ip, mac, now);
    case Sweeping => SweepInv(env, st, now);
  }

  lemma {:induction false} RunKeepsInv(env: Env, st: State, run: Run, t: int)
    requires Inv(env, st, t) && Legal(env, st, run, t)
    ensures Inv(env, After(env, st, run, t), EndTime(run, t))
    decreases |run|
  {
    hide Inv, Do;
    if run != [] {
      EventKeepsInv(env, st, run[0].0, t, run[0].1);
      RunKeepsInv(env, Do(env, st, run[0].0, run[0].1).st, run[1..], run[0].1);
    }
  }
}
