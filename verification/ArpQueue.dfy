/** What queueing for a hop and asking for it do to the request queue. */
module ArpQueue {
  import opened Words
  import opened ArpSpec

  // ---- Where the packets are ------------------------------------------------------------------

  function PairsOf(ps: seq<Packet>, ip: Ip): multiset<(Packet, Ip)> {
    if ps == [] then multiset{} else multiset{(ps[0], ip)} + PairsOf(ps[1..], ip)
  }

  function Waiting(rs: seq<Request>): multiset<(Packet, Ip)> {
    if rs == [] then multiset{} else PairsOf(rs[0].packets, rs[0].ip) + Waiting(rs[1..])
  }

  function SentPairs(log: seq<(Packet, Ip, Mac)>): multiset<(Packet, Ip)> {
    if log == [] then multiset{} else SentPairs(log[..|log| - 1]) + multiset{(log[|log| - 1].0, log[|log| - 1].1)}
  }

  function GivenPairs(log: seq<(Packet, Ip, Fate)>): multiset<(Packet, Ip)> {
    if log == [] then multiset{} else GivenPairs(log[..|log| - 1]) + multiset{(log[|log| - 1].0, log[|log| - 1].1)}
  }

  /** Every packet accepted, together with `extra`, is in one place. */
  predicate Balance(st: State, extra: multiset<(Packet, Ip)>) {
    st.accepted + extra == Waiting(st.requests) + SentPairs(st.sent) + GivenPairs(st.givenUp)
  }

  lemma {:induction false} WaitingConcat(a: seq<Request>, b: seq<Request>)
    ensures Waiting(a + b) == Waiting(a) + Waiting(b)
  {
    if a == [] {
      assert a + b == b;
    } else {
      assert (a + b)[0] == a[0] && (a + b)[1..] == a[1..] + b;
      WaitingConcat(a[1..], b);
    }
  }

  lemma {:induction false} WaitingOne(r: Request)
    ensures Waiting([r]) == PairsOf(r.packets, r.ip)
  {
    assert [r][1..] == [];
  }

  lemma {:induction false} WaitingSplit(rs: seq<Request>, i: nat)
    requires i < |rs|
    ensures Waiting(rs) == Waiting(rs[..i] + rs[i + 1..]) + PairsOf(rs[i].packets, rs[i].ip)
  {
    assert rs == rs[..i] + ([rs[i]] + rs[i + 1..]);
    WaitingConcat(rs[..i], [rs[i]] + rs[i + 1..]);
    WaitingConcat([rs[i]], rs[i + 1..]);
    WaitingConcat(rs[..i], rs[i + 1..]);
    WaitingOne(rs[i]);
  }

  lemma {:induction false} Cancel<T>(a: multiset<T>, b: multiset<T>, c: multiset<T>)
    requires a + c == b + c
    ensures a == b
  {
    assert a == (a + c) - c && b == (b + c) - c;
  }

  lemma {:induction false} WaitingUpdate(rs: seq<Request>, i: nat, r: Request)
    requires i < |rs|
    ensures Waiting(rs[i := r]) + PairsOf(rs[i].packets, rs[i].ip) == Waiting(rs) + PairsOf(r.packets, r.ip)
  {
    WaitingSplit(rs, i);
    WaitingSplit(rs[i := r], i);
    assert rs[i := r][..i] == rs[..i] && rs[i := r][i + 1..] == rs[i + 1..];
  }

  lemma {:induction false} SentPush(log: seq<(Packet, Ip, Mac)>, ps: seq<Packet>, hop: Ip, mac: Mac)
    ensures SentPairs(log + SendAll(ps, hop, mac)) == SentPairs(log) + PairsOf(ps, hop)
    decreases |ps|
  {
    if ps == [] {
      assert log + SendAll(ps, hop, mac) == log;
    } else {
      var first := log + [(ps[0], hop, mac)];
      assert first[..|first| - 1] == log;
      SentPush(first, ps[1..], hop, mac);
      assert log + SendAll(ps, hop, mac) == first + SendAll(ps[1..], hop, mac);
    }
  }

  lemma {:induction false} GivenPush(log: seq<(Packet, Ip, Fate)>, p: Packet, hop: Ip, f: Fate)
    ensures GivenPairs(log + [(p, hop, f)]) == GivenPairs(log) + multiset{(p, hop)}
  {
    var log' := log + [(p, hop, f)];
    assert log'[..|log'| - 1] == log;
  }

  // ---- The queue --------------------------------------------------------------------------------

  predicate Distinct(rs: seq<Request>) {
    forall i, j :: 0 <= i < j < |rs| ==> rs[i].ip != rs[j].ip
  }

  /** Broadcasts are more than a second apart. */
  predicate Spaced(asked: seq<int>) {
    forall i :: 0 < i < |asked| ==> asked[i] - asked[i - 1] > 1
  }

  predicate GoodRequest(r: Request, now: int) {
    && r.packets != [] && r.times == |r.asked| <= ATTEMPTS && Spaced(r.asked)
    && (r.times > 0 ==> r.sent == r.asked[r.times - 1] <= now)
    && (r.times == 0 ==> r.sent == 0)
  }

  /** A request was given up only after exactly five broadcasts, a second after the last. */
  predicate GoodDrop(d: (Request, int)) {
    && d.0.times == |d.0.asked| == ATTEMPTS && Spaced(d.0.asked) && d.1 - d.0.asked[ATTEMPTS - 1] > 1
  }

  predicate Queue(st: State, now: int) {
    && Distinct(st.requests)
    && (forall i :: 0 <= i < |st.requests| ==> GoodRequest(st.requests[i], now))
    && (forall i :: 0 <= i < |st.dropped| ==> GoodDrop(st.dropped[i]))
  }

  lemma {:induction false} IndexOf(rs: seq<Request>, i: nat)
    requires Distinct(rs) && i < |rs|
    ensures Index(rs, rs[i].ip) == i
  {
    var k := Index(rs, rs[i].ip);
    assert k <= i;
  }

  lemma {:induction false} IndexCons(r: Request, rs: seq<Request>, x: Ip)
    ensures Index([r] + rs, x) == if r.ip == x then 0 else 1 + Index(rs, x)
  {
    assert ([r] + rs)[1..] == rs;
  }

  lemma {:induction false} EnqueueQueue(st: State, ip: Ip, p: Packet, now: int)
    requires Queue(st, now)
    ensures Queue(Enqueue(st, ip, p), now)
  {
    var i := Index(st.requests, ip);
    if i == |st.requests| {
      var rs := Enqueue(st, ip, p).requests;
      assert forall k :: 0 < k < |rs| ==> rs[k] == st.requests[k - 1];
    }
  }

  lemma {:induction false} Prepend(rs: seq<Request>, ip: Ip, p: Packet)
    ensures Waiting([Request(ip, 0, 0, [p], [])] + rs) == Waiting(rs) + multiset{(p, ip)}
  {
    WaitingConcat([Request(ip, 0, 0, [p], [])], rs);
    WaitingOne(Request(ip, 0, 0, [p], []));
    assert [p][1..] == [];
    assert PairsOf([p], ip) == multiset{(p, ip)} + PairsOf([], ip);
  }

  lemma {:induction false} Attach(rs: seq<Request>, i: nat, p: Packet)
    requires i < |rs|
    ensures Waiting(rs[i := rs[i].(packets := [p] + rs[i].packets)]) == Waiting(rs) + multiset{(p, rs[i].ip)}
  {
    var r := rs[i];
    var r' := r.(packets := [p] + r.packets);
    WaitingUpdate(rs, i, r');
    assert ([p] + r.packets)[1..] == r.packets;
    assert PairsOf(r'.packets, r.ip) == multiset{(p, r.ip)} + PairsOf(r.packets, r.ip);
    Cancel(Waiting(rs[i := r']), Waiting(rs) + multiset{(p, r.ip)}, PairsOf(r.packets, r.ip));
  }

  lemma {:induction false} EnqueueWaiting(st: State, ip: Ip, p: Packet)
    ensures Waiting(Enqueue(st, ip, p).requests) == Waiting(st.requests) + multiset{(p, ip)}
  {
    hide Waiting;
    var i := Index(st.requests, ip);
    if i < |st.requests| {
      Attach(st.requests, i, p);
    } else {
      Prepend(st.requests, ip, p);
    }
  }

  lemma {:induction false} EnqueueBalance(st: State, ip: Ip, p: Packet, extra: multiset<(Packet, Ip)>)
    requires Balance(st, extra)
    ensures Balance(Enqueue(st, ip, p), extra)
  {
    EnqueueFields(st, ip, p);
    EnqueueWaiting(st, ip, p);
    hide Waiting, SentPairs, GivenPairs, Enqueue;
    var one := multiset{(p, ip)};
    assert st.accepted + one + extra == st.accepted + extra + one;
    assert Waiting(st.requests) + one + SentPairs(st.sent) + GivenPairs(st.givenUp)
        == Waiting(st.requests) + SentPairs(st.sent) + GivenPairs(st.givenUp) + one;
  }

  /** The other requests stay where they are when one is queued for. */
  lemma {:induction false} EnqueueOthers(st: State, ip: Ip, p: Packet, x: Ip)
    requires x != ip
    ensures var st' := Enqueue(st, ip, p);
      && (Pending(st', x) <==> Pending(st, x)) && (Pending(st, x) ==> RequestFor(st', x) == RequestFor(st, x))
  {
    var i := Index(st.requests, ip);
    if i < |st.requests| {
      var r := st.requests[i];
      IndexUpdate(st.requests, i, r.(packets := [p] + r.packets), x);
    } else {
      IndexCons(Request(ip, 0, 0, [p], []), st.requests, x);
    }
  }

  /** The request queued for is the old one with the packet in front, or a new one. */
  lemma {:induction false} EnqueueOwn(st: State, ip: Ip, p: Packet)
    ensures RequestFor(Enqueue(st, ip, p), ip) ==
      if Pending(st, ip) then RequestFor(st, ip).(packets := [p] + RequestFor(st, ip).packets)
      else Request(ip, 0, 0, [p], [])
  {
    var i := Index(st.requests, ip);
    if i < |st.requests| {
      var r := st.requests[i];
      IndexUpdate(st.requests, i, r.(packets := [p] + r.packets), ip);
    }
  }

  lemma {:induction false} AskEffect(st: State, ip: Ip, now: int, x: Ip)
    requires Pending(st, ip)
    ensures var st' := Ask(st, ip, now);
      && (Pending(st', x) <==> Pending(st, x))
      && (x != ip && Pending(st, x) ==> RequestFor(st', x) == RequestFor(st, x))
      && (x == ip ==>
            RequestFor(st', x) ==
            RequestFor(st, x).(sent := now, times := RequestFor(st, x).times + 1, asked := RequestFor(st, x).asked + [now]))
  {
    var i := Index(st.requests, ip);
    var r := st.requests[i];
    IndexUpdate(st.requests, i, r.(sent := now, times := r.times + 1, asked := r.asked + [now]), x);
    assert x != ip && Pending(st, x) ==> Index(st.requests, x) != i;
  }

  lemma {:induction false} AskQueue(st: State, ip: Ip, now: int)
    requires Queue(st, now) && Pending(st, ip) && Due(RequestFor(st, ip), now) && RequestFor(st, ip).times < ATTEMPTS
    ensures Queue(Ask(st, ip, now), now)
  {
    var i := Index(st.requests, ip);
    var r := st.requests[i];
    var r' := r.(sent := now, times := r.times + 1, asked := r.asked + [now]);
    assert GoodRequest(r, now);
    assert Spaced(r'.asked);
    assert GoodRequest(r', now);
  }

  lemma {:induction false} AskBalance(st: State, ip: Ip, now: int, extra: multiset<(Packet, Ip)>)
    requires Balance(st, extra) && Pending(st, ip)
    ensures Balance(Ask(st, ip, now), extra)
  {
    var i := Index(st.requests, ip);
    var r := st.requests[i];
    var r' := r.(sent := now, times := r.times + 1, asked := r.asked + [now]);
    WaitingUpdate(st.requests, i, r');
    Cancel(Waiting(st.requests[i := r']), Waiting(st.requests), PairsOf(r.packets, r.ip));
  }

  lemma {:induction false} EnqueueFields(st: State, ip: Ip, p: Packet)
    ensures var st' := Enqueue(st, ip, p);
      st' == st.(requests := st'.requests, accepted := st.accepted + multiset{(p, ip)})
  {
  }

  lemma {:induction false} AskFields(st: State, ip: Ip, now: int)
    requires Pending(st, ip)
    ensures Ask(st, ip, now) == st.(requests := Ask(st, ip, now).requests)
  {
  }
}
