/** What the host-unreachable errors carry and which way they go, over every run. */
module ArpErrors {
  import opened Words
  import opened ArpSpec
  import opened ArpQueue
  import opened ArpBalance
  import opened ArpRuns
  import opened ArpTheorems

  /** `e`, bound for `gw`, is the error about a packet that was given up: it is about that packet's
      frame, carries the address of the interface on which the packet waited, and takes the gateway
      and the interface of the route to the frame's source. */
  predicate ErrorFor(env: Env, e: Packet, gw: Ip, given: Packet) {
    && e.frame.IcmpError? && e.frame.about == given.frame && e.frame.src == env.address(given.iface)
    && env.route(given.frame.src) == Some(Hop(gw, e.iface))
  }

  /** The errors sent at once are those about the packets given up so, in order. */
  predicate Paired(env: Env, errors: seq<(Packet, Ip, Mac)>, log: seq<(Packet, Ip, Fate)>)
    decreases |log|
  {
    if log == [] then errors == [] else
    var n := |log| - 1;
    if log[n].2.SentBack? then
      errors != [] &&
      var (e, gw, mac) := errors[|errors| - 1];
      && log[n].2 == SentBack(gw, mac) && ErrorFor(env, e, gw, log[n].0)
      && Paired(env, errors[..|errors| - 1], log[..n])
    else Paired(env, errors, log[..n])
  }

  /** How many packets were given up whose error is `e`, queued for `gw`. */
  function Answers(env: Env, log: seq<(Packet, Ip, Fate)>, e: Packet, gw: Ip): nat {
    if log == [] then 0 else
    var n := |log| - 1;
    Answers(env, log[..n], e, gw) + if log[n].2 == QueuedBack(gw) && ErrorFor(env, e, gw, log[n].0) then 1 else 0
  }

  predicate AllOk(env: Env, replies: set<(Ip, Mac)>, log: seq<(Packet, Ip, Fate)>) {
    forall i :: 0 <= i < |log| ==> FateOk(env, replies, log[i])
  }

  lemma {:induction false} SentArePaired(env: Env, replies: set<(Ip, Mac)>, log: seq<(Packet, Ip, Fate)>)
    requires AllOk(env, replies, log)
    ensures Paired(env, SentErrors(env, log), log)
  {
    if log != [] {
      var n := |log| - 1;
      assert FateOk(env, replies, log[n]);
      SentArePaired(env, replies, log[..n]);
      var before := SentErrors(env, log[..n]);
      if log[n].2.SentBack? {
        var one := SentOne(env, log[n]);
        assert (before + one)[..|before + one| - 1] == before;
      } else {
        assert before + [] == before;
      }
    }
  }

  lemma {:induction false} QueuedAreAnswers(
    env: Env, replies: set<(Ip, Mac)>, log: seq<(Packet, Ip, Fate)>, e: Packet, gw: Ip)
    requires AllOk(env, replies, log)
    ensures QueuedErrors(env, log)[(e, gw)] == Answers(env, log, e, gw)
  {
    if log != [] {
      var n := |log| - 1;
      assert FateOk(env, replies, log[n]);
      QueuedAreAnswers(env, replies, log[..n], e, gw);
      OneAnswer(env, replies, log[n], e, gw);
      hide FateOk, ErrorFor, QueuedOne;
    }
  }

  lemma {:induction false} OneAnswer(env: Env, replies: set<(Ip, Mac)>, g: (Packet, Ip, Fate), e: Packet, gw: Ip)
    requires FateOk(env, replies, g)
    ensures QueuedOne(env, g)[(e, gw)] == if g.2 == QueuedBack(gw) && ErrorFor(env, e, gw, g.0) then 1 else 0
  {
  }

  /**
   * Over every run: the errors sent at once answer, in order, the packets given up whose return hop
   * was known; and a packet was accepted for a hop as often as forwarding brought it there and as
   * it is the error about a packet given up whose way back goes through that hop.
   */
  lemma {:induction false} ErrorsExact(env: Env, run: Run, t: int, p: Packet, hop: Ip)
    requires Legal(env, Empty, run, t)
    ensures var st := After(env, Empty, run, t);
      && Paired(env, st.errors, st.givenUp)
      && st.accepted[(p, hop)] == st.forwarded[(p, hop)] + Answers(env, st.givenUp, p, hop)
  {
    hide After, Legal, FateOk, QueuedErrors, SentErrors, Paired, Answers;
    SentAndAnswered(env, run, t, p, hop);
    var st := After(env, Empty, run, t);
    SentArePaired(env, st.replies, st.givenUp);
    QueuedAreAnswers(env, st.replies, st.givenUp, p, hop);
  }

  // ---- Each error on its way ---------------------------------------------------------------------------

  ghost predicate IsOwed(env: Env, st: State, e: Packet, gw: Ip) {
    exists k :: 0 <= k < |st.givenUp| && ErrorFor(env, e, gw, st.givenUp[k].0)
  }

  lemma {:induction false} AnswerIsOwed(env: Env, log: seq<(Packet, Ip, Fate)>, e: Packet, gw: Ip)
    requires Answers(env, log, e, gw) > 0
    ensures exists k :: 0 <= k < |log| && ErrorFor(env, e, gw, log[k].0)
  {
    hide ErrorFor;
    var n := |log| - 1;
    if !ErrorFor(env, e, gw, log[n].0) {
      AnswerIsOwed(env, log[..n], e, gw);
      var k :| 0 <= k < n && ErrorFor(env, e, gw, log[..n][k].0);
      assert ErrorFor(env, e, gw, log[k].0);
    }
  }

  lemma {:induction false} PairedIsOwed(env: Env, errors: seq<(Packet, Ip, Mac)>, log: seq<(Packet, Ip, Fate)>, i: nat)
    requires Paired(env, errors, log) && i < |errors|
    ensures exists k :: 0 <= k < |log| && ErrorFor(env, errors[i].0, errors[i].1, log[k].0)
    decreases |log|
  {
    hide ErrorFor;
    var n := |log| - 1;
    var e, gw := errors[i].0, errors[i].1;
    if log[n].2.SentBack? && i == |errors| - 1 {
      assert ErrorFor(env, e, gw, log[n].0);
    } else {
      PairedIsOwed(env, if log[n].2.SentBack? then errors[..|errors| - 1] else errors, log[..n], i);
      var k :| 0 <= k < n && ErrorFor(env, e, gw, log[..n][k].0);
      assert ErrorFor(env, e, gw, log[k].0);
    }
  }

  lemma {:induction false} InPairs(ps: seq<Packet>, ip: Ip, i: nat)
    requires i < |ps|
    ensures (ps[i], ip) in PairsOf(ps, ip)
  {
    if i > 0 {
      InPairs(ps[1..], ip, i - 1);
    }
  }

  lemma {:induction false} InWaiting(rs: seq<Request>, j: nat, i: nat)
    requires j < |rs| && i < |rs[j].packets|
    ensures (rs[j].packets[i], rs[j].ip) in Waiting(rs)
  {
    if j > 0 {
      InWaiting(rs[1..], j - 1, i);
    } else {
      InPairs(rs[0].packets, rs[0].ip, i);
    }
  }

  lemma {:induction false} InSent(log: seq<(Packet, Ip, Mac)>, i: nat)
    requires i < |log|
    ensures (log[i].0, log[i].1) in SentPairs(log)
  {
    if i < |log| - 1 {
      InSent(log[..|log| - 1], i);
    }
  }

  /** Each error that was sent at once, and each packet that waits or was sent after a wait unless
      forwarding brought it, is the error about a packet given up and is on the way back to its source. */
  lemma {:induction false} EachErrorOnItsWay(env: Env, run: Run, t: int)
    requires Legal(env, Empty, run, t)
    ensures var st := After(env, Empty, run, t);
      && (forall i :: 0 <= i < |st.errors| ==> IsOwed(env, st, st.errors[i].0, st.errors[i].1))
      && (forall i :: 0 <= i < |st.sent| ==>
            (st.sent[i].0, st.sent[i].1) in st.forwarded || IsOwed(env, st, st.sent[i].0, st.sent[i].1))
      && (forall j, i :: 0 <= j < |st.requests| && 0 <= i < |st.requests[j].packets| ==>
            var r := st.requests[j];
            (r.packets[i], r.ip) in st.forwarded || IsOwed(env, st, r.packets[i], r.ip))
  {
    hide After, Legal, Paired, Answers, ErrorFor, Waiting, SentPairs, GivenPairs;
    var st := After(env, Empty, run, t);
    forall i | 0 <= i < |st.errors| ensures IsOwed(env, st, st.errors[i].0, st.errors[i].1) {
      ErrorsExact(env, run, t, st.errors[i].0, st.errors[i].1);
      PairedIsOwed(env, st.errors, st.givenUp, i);
    }
    forall i | 0 <= i < |st.sent|
      ensures (st.sent[i].0, st.sent[i].1) in st.forwarded || IsOwed(env, st, st.sent[i].0, st.sent[i].1) {
      InSent(st.sent, i);
      AcceptedIsOwed(env, run, t, st.sent[i].0, st.sent[i].1);
    }
    forall j, i | 0 <= j < |st.requests| && 0 <= i < |st.requests[j].packets|
      ensures var r := st.requests[j];
        (r.packets[i], r.ip) in st.forwarded || IsOwed(env, st, r.packets[i], r.ip) {
      InWaiting(st.requests, j, i);
      AcceptedIsOwed(env, run, t, st.requests[j].packets[i], st.requests[j].ip);
    }
  }

  lemma {:induction false} AcceptedIsOwed(env: Env, run: Run, t: int, p: Packet, hop: Ip)
    requires Legal(env, Empty, run, t)
    requires var st := After(env, Empty, run, t); (p, hop) in Waiting(st.requests) || (p, hop) in SentPairs(st.sent)
    ensures var st := After(env, Empty, run, t); (p, hop) in st.forwarded || IsOwed(env, st, p, hop)
  {
    hide After, Legal, Paired, Answers, ErrorFor, Waiting, SentPairs, GivenPairs;
    var st := After(env, Empty, run, t);
    PacketsConserved(env, run, t, p, hop);
    ErrorsExact(env, run, t, p, hop);
    if (p, hop) !in st.forwarded {
      AnswerIsOwed(env, st.givenUp, p, hop);
    }
  }
}
