/** What the errors about the packets of dead requests do: to the other requests and to the queue. */
module ArpVisit {
  import opened Words
  import opened ArpSpec
  import opened ArpQueue
  import opened ArpSearch

  // ---- Unlinking a request -------------------------------------------------------------------------

  lemma {:induction false} CutCons<T>(s: seq<T>, i: nat)
    requires i + 1 < |s|
    ensures s[..i + 1] + s[i + 2..] == [s[0]] + (s[1..][..i] + s[1..][i + 1..])
  {
  }

  lemma {:induction false} UnlinkSplit(rs: seq<Request>, ip: Ip)
    ensures Index(rs, ip) < |rs| ==> Unlink(rs, ip) == rs[..Index(rs, ip)] + rs[Index(rs, ip) + 1..]
    ensures Index(rs, ip) == |rs| ==> Unlink(rs, ip) == rs
  {
    if rs != [] && rs[0].ip != ip {
      var i := Index(rs[1..], ip);
      UnlinkSplit(rs[1..], ip);
      if i + 1 < |rs| {
        CutCons(rs, i);
      }
    }
  }

  lemma {:induction false} UnlinkOther(rs: seq<Request>, ip: Ip, x: Ip)
    requires x != ip
    ensures var rs' := Unlink(rs, ip);
      && (Index(rs', x) < |rs'| <==> Index(rs, x) < |rs|)
      && (Index(rs, x) < |rs| ==> rs'[Index(rs', x)] == rs[Index(rs, x)])
  {
    if rs != [] {
      if rs[0].ip != ip {
        UnlinkOther(rs[1..], ip, x);
        IndexCons(rs[0], Unlink(rs[1..], ip), x);
      }
    }
  }

  lemma {:induction false} UnlinkOwn(rs: seq<Request>, ip: Ip)
    requires Distinct(rs)
    ensures Index(Unlink(rs, ip), ip) == |Unlink(rs, ip)|
  {
    var i, rs' := Index(rs, ip), Unlink(rs, ip);
    UnlinkSplit(rs, ip);
    hide Index, Unlink;
    if i < |rs| {
      assert forall k :: 0 <= k < |rs'| ==> rs'[k] == if k < i then rs[k] else rs[k + 1];
    }
  }

  lemma {:induction false} UnlinkKeeps(rs: seq<Request>, ip: Ip, now: int)
    requires Distinct(rs) && (forall i :: 0 <= i < |rs| ==> GoodRequest(rs[i], now))
    ensures var rs' := Unlink(rs, ip);
      Distinct(rs') && forall i :: 0 <= i < |rs'| ==> GoodRequest(rs'[i], now)
  {
    hide GoodRequest;
    if rs != [] && rs[0].ip != ip {
      UnlinkKeeps(rs[1..], ip, now);
      var rest := Unlink(rs[1..], ip);
      forall k | 0 <= k < |rest| ensures rest[k].ip != rs[0].ip {
        UnlinkFrom(rs[1..], ip, k);
      }
    }
  }

  lemma {:induction false} UnlinkFrom(rs: seq<Request>, ip: Ip, k: nat)
    requires k < |Unlink(rs, ip)|
    ensures Unlink(rs, ip)[k] in rs
  {
    if rs[0].ip != ip && k > 0 {
      UnlinkFrom(rs[1..], ip, k - 1);
    }
  }

  lemma {:induction false} UnlinkQueue(st: State, ip: Ip, now: int)
    requires Queue(st, now) && DeadAt(st, ip, now)
    ensures Queue(st.(requests := Unlink(st.requests, ip), dropped := st.dropped + [(RequestFor(st, ip), now)]), now)
  {
    UnlinkKeeps(st.requests, ip, now);
    hide Index, Unlink;
    assert GoodRequest(RequestFor(st, ip), now);
    assert GoodDrop((RequestFor(st, ip), now));
  }

  lemma {:induction false} UnlinkBalance(st: State, st': State, ip: Ip, extra: multiset<(Packet, Ip)>)
    requires Pending(st, ip) && Balance(st, extra + PairsOf(RequestFor(st, ip).packets, ip))
    requires st'.requests == Unlink(st.requests, ip) && st'.accepted == st.accepted
    requires st'.sent == st.sent && st'.givenUp == st.givenUp
    ensures Balance(st', extra)
  {
    WaitingSplit(st.requests, Index(st.requests, ip));
    UnlinkSplit(st.requests, ip);
    hide Waiting, SentPairs, GivenPairs, Index, Unlink, PairsOf;
    var ps := PairsOf(RequestFor(st, ip).packets, ip);
    assert st.accepted + extra + ps == st.accepted + (extra + ps);
    Cancel(st.accepted + extra, Waiting(st'.requests) + SentPairs(st.sent) + GivenPairs(st.givenUp), ps);
  }


  // ---- One hop before and after ----------------------------------------------------------------------

  /** The counters of a request moved by at most one broadcast at `now`, and only when it was due. */
  predicate Touched(r: Request, r': Request, now: int) {
    || (r'.sent == r.sent && r'.times == r.times && r'.asked == r.asked)
    || (Due(r, now) && r.times < ATTEMPTS && r'.sent == now && r'.times == r.times + 1 && r'.asked == r.asked + [now])
  }

  /** A request made at `now` has been asked, unless the clock stands within a second of zero. */
  predicate Born(r: Request, x: Ip, now: int) { Touched(Request(x, 0, 0, [], []), r, now) && !Due(r, now) }

  /** A request for the hop was given up at `now`. */
  predicate Logged(st: State, x: Ip, now: int) { exists d :: d in st.dropped && d.0.ip == x && d.1 == now }

  /** A hop in progress and a dead one not reached are untouched; one that was reached is given up;
      a live one is asked at most once. */
  predicate StepAt(st: State, st': State, x: Ip, white: set<Ip>, left: set<Ip>, gray: set<Ip>, now: int) {
    if x in gray || x in left then Pending(st, x) && Pending(st', x) && RequestFor(st', x) == RequestFor(st, x)
    else if x in white then Logged(st', x, now) && (Pending(st', x) ==> Born(RequestFor(st', x), x, now))
    else if Pending(st, x) then Pending(st', x) && Touched(RequestFor(st, x), RequestFor(st', x), now)
    else Pending(st', x) ==> Born(RequestFor(st', x), x, now)
  }

  predicate SameRest(st: State, st': State) {
    && st'.cache == st.cache && st'.sent == st.sent && st'.replies == st.replies
    && st'.stored == st.stored && st'.swept == st.swept && st'.forwarded == st.forwarded && st'.relayed == st.relayed
  }

  predicate Grows(st: State, st': State) {
    SameRest(st, st') && (forall d :: d in st.dropped ==> d in st'.dropped)
  }

  ghost predicate Steps(st: State, st': State, white: set<Ip>, left: set<Ip>, gray: set<Ip>, now: int) {
    Grows(st, st') && forall x: Ip :: StepAt(st, st', x, white, left, gray, now)
  }

  /** The dead hops are those not yet reached and those in progress. */
  ghost predicate Situation(st: State, white: set<Ip>, gray: set<Ip>, now: int) {
    white !! gray && forall x: Ip :: DeadAt(st, x, now) <==> x in white + gray
  }

  lemma {:induction false} StepTrans(
    a: State, b: State, c: State, x: Ip, white: set<Ip>, mid: set<Ip>, left: set<Ip>, gray: set<Ip>, now: int)
    requires StepAt(a, b, x, white, mid, gray, now) && StepAt(b, c, x, mid, left, gray, now)
    requires left <= mid <= white && Grows(b, c)
    ensures StepAt(a, c, x, white, left, gray, now)
  {
    hide Index;
  }

  lemma {:induction false} StepDead(
    st: State, st': State, x: Ip, white: set<Ip>, left: set<Ip>, gray: set<Ip>, now: int)
    requires StepAt(st, st', x, white, left, gray, now) && left <= white
    requires DeadAt(st, x, now) <==> x in white + gray
    ensures DeadAt(st', x, now) <==> x in left + gray
  {
    hide Index, Logged;
  }

  lemma {:induction false} StepsSituation(
    st: State, st': State, white: set<Ip>, left: set<Ip>, gray: set<Ip>, now: int)
    requires Situation(st, white, gray, now) && Steps(st, st', white, left, gray, now) && left <= white
    ensures Situation(st', left, gray, now)
  {
    hide StepAt, DeadAt;
    forall x: Ip ensures DeadAt(st', x, now) <==> x in left + gray {
      StepDead(st, st', x, white, left, gray, now);
    }
  }

  lemma {:induction false} StepsTrans(
    a: State, b: State, c: State, white: set<Ip>, mid: set<Ip>, left: set<Ip>, gray: set<Ip>, now: int)
    requires left <= mid <= white && Steps(a, b, white, mid, gray, now) && Steps(b, c, mid, left, gray, now)
    ensures Steps(a, c, white, left, gray, now)
  {
    hide StepAt;
    forall x: Ip ensures StepAt(a, c, x, white, left, gray, now) {
      StepTrans(a, b, c, x, white, mid, left, gray, now);
    }
  }
}
