/** What the invariant gives for every run of the two-endpoint system. */
module StcpTheorems {
  import opened Words
  import opened StcpEndpoint
  import opened StcpSystem
  import opened StcpInvariant

  // ---- Delivery: any run, any stream length --------------------------------------------------

  /** The data in flight. */
  function Payload(ch: seq<Packet>): seq<Byte> {
    if ch == [] then [] else (if ch[0].Segment? then ch[0].data else []) + Payload(ch[1..])
  }

  /** What is left of the stream from position `pos` on. */
  function Rest(stream: seq<Byte>, pos: nat): seq<Byte>
    requires 1 <= pos
  {
    if pos <= |stream| + 1 then stream[pos - 1..] else []
  }

  lemma {:induction false} FitsPayload(p: Packet, iss: Word32, stream: seq<Byte>, pos: nat)
    requires Fits(p, iss, stream, pos) && 1 <= pos
    ensures Payload([p]) + Rest(stream, pos + Width(p)) == Rest(stream, pos)
  {
    assert [p][1..] == [];
    if p.Segment? && p.data != [] {
      var n := |p.data|;
      assert stream[pos - 1..] == stream[pos - 1..pos - 1 + n] + stream[pos - 1 + n..];
    }
  }

  lemma {:induction false} TilesPayload(ch: seq<Packet>, iss: Word32, stream: seq<Byte>, pos: nat, end: nat)
    requires Tiles(ch, iss, stream, pos, end) && 1 <= pos && |stream| + 1 <= end
    ensures Payload(ch) == Rest(stream, pos)
  {
    hide Fits;
    if ch != [] {
      FitsPayload(ch[0], iss, stream, pos);
      TilesPayload(ch[1..], iss, stream, pos + Width(ch[0]), end);
      assert [ch[0]][1..] == [];
    }
  }

  lemma {:induction false} FlowBefore(x: Host, y: Host, xy: seq<Packet>)
    requires Core(x) && Core(y) && Carries(x, xy, Rcv(y)) && Rcv(y) == 0
    ensures Delivered(y) == [] && Payload(xy) == x.sent
  {
    hide Wrap32, Machine;
    if xy == [] {
      assert Snd(x) == 0;
    } else {
      CarriesPop(x, xy, 0);
      assert xy[0].Segment? && xy[0].flags.syn;
      assert Width(xy[0]) == 1;
      TilesPayload(xy[1..], x.e.ctx.iss, x.sent, 1, Snd(x));
    }
  }

  lemma {:induction false} FlowDuring(x: Host, y: Host, xy: seq<Packet>)
    requires Carries(x, xy, Rcv(y)) && Tracks(x, y) && Rcv(y) > 0
    ensures Delivered(y) + Payload(xy) == x.sent
  {
    hide Wrap32, Tiles, Fits, Payload, Flatten;
    TilesOrder(xy, x.e.ctx.iss, x.sent, Rcv(y), Snd(x));
    TilesPayload(xy, x.e.ctx.iss, x.sent, Rcv(y), Snd(x));
  }

  /** What has been passed up, followed by what is in flight, is what has been taken from
      the application. */
  lemma {:induction false} FlowConserves(x: Host, y: Host, xy: seq<Packet>, yx: seq<Packet>)
    requires Local(x) && Local(y) && Flow(x, y, xy, yx)
    ensures Delivered(y) + Payload(xy) == x.sent
  {
    hide Core, AppSide, EofLast, Carries, Tracks, AckChain, Rcv, Payload, Flatten;
    if Rcv(y) == 0 {
      FlowBefore(x, y, xy);
    } else {
      FlowDuring(x, y, xy);
    }
  }

  /** In every run and in both directions: the bytes passed up are a prefix of the bytes the
      other application writes, and the segments in flight tile exactly the gap to what the
      other transport has taken. */
  lemma {:induction false} Delivery(issA: Word32, issB: Word32, scriptA: seq<seq<Byte>>, scriptB: seq<seq<Byte>>, steps: seq<Label>)
    requires Legal(Initial(issA, issB, scriptA, scriptB), steps)
    ensures var s := After(Initial(issA, issB, scriptA, scriptB), steps);
      && Delivered(s.b) + Payload(s.ab) == s.a.sent && s.a.sent <= s.a.plan && s.a.plan == Flatten(scriptA)
      && Delivered(s.a) + Payload(s.ba) == s.b.sent && s.b.sent <= s.b.plan && s.b.plan == Flatten(scriptB)
  {
    hide Wrap32;
    var s0 := Initial(issA, issB, scriptA, scriptB);
    InitialInv(issA, issB, scriptA, scriptB);
    RunKeepsInv(s0, steps);
    var s := After(s0, steps);
    PlanFixed(s0, steps);
    FlowConserves(s.a, s.b, s.ab, s.ba);
    FlowConserves(s.b, s.a, s.ba, s.ab);
  }

  lemma {:induction false} StepFixesPlan(h: Host, inbox: seq<Packet>, act: Action)
    requires Enabled(h, inbox, act)
    ensures Perform(h, inbox, act).h.plan == h.plan
  {
  }

  lemma {:induction false} PlanFixed(s0: System, steps: seq<Label>)
    requires Legal(s0, steps)
    ensures After(s0, steps).a.plan == s0.a.plan && After(s0, steps).b.plan == s0.b.plan
    decreases |steps|
  {
    if steps != [] {
      var n := |steps| - 1;
      PlanFixed(s0, steps[..n]);
      var s, l := After(s0, steps[..n]), steps[n];
      if l.side == A { StepFixesPlan(s.a, s.ba, l.act); } else { StepFixesPlan(s.b, s.ab, l.act); }
    }
  }

  /** The segment about to be received is the next one expected: the out-of-order branch is
      never taken, the receive buffer is empty at each send, and the window is always whole. */
  predicate InOrder(y: Host, xy: seq<Packet>) {
    && y.e.ctx.recvUsed == 0 && y.e.ctx.peerWindow == 3072 && MaxToSend(y.e.ctx) == 536
    && (y.e.loc == Running && !y.e.ctx.finReceived ==> y.e.ctx.nextExpected == y.e.ctx.ackNum)
    && (y.e.loc == Running && xy != [] && xy[0].Segment? ==>
          && xy[0].win == 3072 && |xy[0].data| <= 536
          && xy[0].seqno == y.e.ctx.ackNum
          && (xy[0].data != [] ==> !xy[0].flags.fin && !y.e.ctx.finReceived))
  }

  lemma {:induction false} WindowWhole(y: Host)
    requires Core(y)
    ensures y.e.ctx.recvUsed == 0 && y.e.ctx.peerWindow == 3072 && MaxToSend(y.e.ctx) == 536
  {
    hide Machine, Quiet, Snd;
  }

  lemma {:induction false} FlowInOrder(x: Host, y: Host, xy: seq<Packet>, yx: seq<Packet>)
    requires Local(x) && Local(y) && Flow(x, y, xy, yx)
    ensures InOrder(y, xy)
  {
    hide Wrap32, Machine, AckChain, AppSide, EofLast, MaxToSend;
    WindowWhole(y);
    if xy != [] {
      CarriesPop(x, xy, Rcv(y));
    }
  }

  lemma {:induction false} AlwaysInOrder(issA: Word32, issB: Word32, scriptA: seq<seq<Byte>>, scriptB: seq<seq<Byte>>, steps: seq<Label>)
    requires Legal(Initial(issA, issB, scriptA, scriptB), steps)
    ensures var s := After(Initial(issA, issB, scriptA, scriptB), steps); InOrder(s.b, s.ab) && InOrder(s.a, s.ba)
  {
    hide Wrap32;
    var s0 := Initial(issA, issB, scriptA, scriptB);
    InitialInv(issA, issB, scriptA, scriptB);
    RunKeepsInv(s0, steps);
    var s := After(s0, steps);
    FlowInOrder(s.a, s.b, s.ab, s.ba);
    FlowInOrder(s.b, s.a, s.ba, s.ab);
  }

  // ---- Acknowledgement of the FIN --------------------------------------------------------------

  /** Fewer than 2^32 sequence units of either side are unacknowledged. */
  predicate FewUnacked(s: System) {
    Snd(s.a) - s.a.acked < 0x1_0000_0000 && Snd(s.b) - s.b.acked < 0x1_0000_0000
  }

  /** Every state passed through has few unacknowledged bytes. */
  ghost predicate Bounded(s0: System, steps: seq<Label>)
    requires Legal(s0, steps)
    decreases |steps|
  {
    FewUnacked(After(s0, steps)) && (steps == [] || Bounded(s0, steps[..|steps| - 1]))
  }

  /** The FIN counts as acknowledged exactly when the peer has acknowledged everything. */
  predicate AckedRight(h: Host) {
    h.e.ctx.finAcked <==> h.e.ctx.finSent && h.acked == Snd(h)
  }

  lemma {:induction false} WrapEqual(base: int, k: nat, n: nat)
    requires k <= n
    ensures Wrap32(base + k) == Wrap32(base + n) <==> (n - k) % 0x1_0000_0000 == 0
  {
  }

  /** The test `recv_ack == sequence_num` on the packet about to be received succeeds exactly
      when the true number of unacknowledged units is a multiple of 2^32. */
  lemma {:induction false} AckTestExact(x: Host, y: Host, xy: seq<Packet>, yx: seq<Packet>)
    requires Local(y) && Flow(x, y, xy, yx) && Flow(y, x, yx, xy)
    requires xy != [] && xy[0].Segment? && xy[0].flags.ack
    ensures NoteAck(y, xy[0]) <= Snd(y)
    ensures xy[0].ackno == y.e.ctx.seqNum <==> (Snd(y) - NoteAck(y, xy[0])) % 0x1_0000_0000 == 0
  {
    hide Wrap32;
    Head(x, y, xy, yx);
    WrapEqual(y.e.ctx.iss, NoteAck(y, xy[0]), Snd(y));
  }

  /** What receiving does to the FIN flags. */
  lemma {:induction false} DeliverEffect(x: Host, y: Host, xy: seq<Packet>, yx: seq<Packet>)
    requires Local(x) && Local(y) && Flow(x, y, xy, yx) && Flow(y, x, yx, xy)
    requires Enabled(y, xy, Deliver) && y.e.loc == Running
    ensures var c, c' := y.e.ctx, OnPacket(y.e, xy[0]).e.ctx;
      && c'.finSent == c.finSent && OnPacket(y.e, xy[0]).e.loc == Running
      && (c'.finAcked <==>
            (c.finAcked || (c.finSent && xy[0].Segment? && xy[0].flags.ack && xy[0].ackno == c.seqNum)))
  {
    hide Wrap32;
    var p := xy[0];
    Head(x, y, xy, yx);
    if p.Hangup? {
      StepHangupSeen(x, y, xy, yx);
    } else if p.flags.fin {
      FinLocal(y, p, 0);
    } else if p.data == [] {
      PureAckLocal(y, p, 0);
      AckEffect(y.e.ctx, p);
    } else {
      DataLocal(y, p, 0);
    }
  }

  /** Few unacknowledged bytes make the test exact. */
  lemma {:induction false} AckTestRight(x: Host, y: Host, xy: seq<Packet>, yx: seq<Packet>)
    requires Local(y) && Flow(x, y, xy, yx) && Flow(y, x, yx, xy) && Snd(y) - y.acked < 0x1_0000_0000
    requires xy != [] && xy[0].Segment? && xy[0].flags.ack
    ensures xy[0].ackno == y.e.ctx.seqNum <==> NoteAck(y, xy[0]) == Snd(y)
  {
    hide Wrap32;
    Head(x, y, xy, yx);
    AckTestExact(x, y, xy, yx);
    var d := Snd(y) - NoteAck(y, xy[0]);
    assert 0 <= d < 0x1_0000_0000;
    assert d % 0x1_0000_0000 == d;
  }

  lemma {:induction false} DeliverKeepsAcked(x: Host, y: Host, xy: seq<Packet>, yx: seq<Packet>)
    requires Local(x) && Local(y) && Flow(x, y, xy, yx) && Flow(y, x, yx, xy) && y.e.loc == Running
    requires Enabled(y, xy, Deliver) && AckedRight(y) && Snd(y) - y.acked < 0x1_0000_0000
    ensures AckedRight(Perform(y, xy, Deliver).h)
  {
    hide Wrap32;
    Head(x, y, xy, yx);
    DeliverEffect(x, y, xy, yx);
    if xy[0].Segment? && xy[0].flags.ack {
      AckTestRight(x, y, xy, yx);
    }
  }

  lemma {:induction false} HandshakeKeepsAcked(y: Host, xy: seq<Packet>)
    requires Local(y) && Enabled(y, xy, Deliver) && y.e.loc != Running
    ensures AckedRight(Perform(y, xy, Deliver).h)
  {
  }

  lemma {:induction false} OtherKeepsAcked(x: Host, y: Host, xy: seq<Packet>, yx: seq<Packet>, act: Action)
    requires Local(x) && Flow(x, y, xy, yx)
    requires act != Deliver && Enabled(x, yx, act) && AckedRight(x)
    ensures AckedRight(Perform(x, yx, act).h)
  {
    hide Wrap32;
    if act == Finish {
      AckChainOrder(yx, x.e.ctx.iss, x.acked, Rcv(y));
      TilesOrder(xy, x.e.ctx.iss, x.sent, Rcv(y), Snd(x));
    }
  }

  lemma {:induction false} RunKeepsAcked(s0: System, steps: seq<Label>)
    requires Inv(s0) && AckedRight(s0.a) && AckedRight(s0.b) && Legal(s0, steps) && Bounded(s0, steps)
    ensures AckedRight(After(s0, steps).a) && AckedRight(After(s0, steps).b)
    decreases |steps|
  {
    hide Wrap32;
    if steps != [] {
      var n := |steps| - 1;
      var s, l := After(s0, steps[..n]), steps[n];
      RunKeepsAcked(s0, steps[..n]);
      RunKeepsInv(s0, steps[..n]);
      if l.side == A {
        if l.act == Deliver && s.a.e.loc != Running { HandshakeKeepsAcked(s.a, s.ba); }
        else if l.act == Deliver { DeliverKeepsAcked(s.b, s.a, s.ba, s.ab); }
        else { OtherKeepsAcked(s.a, s.b, s.ab, s.ba, l.act); }
      } else {
        if l.act == Deliver && s.b.e.loc != Running { HandshakeKeepsAcked(s.b, s.ab); }
        else if l.act == Deliver { DeliverKeepsAcked(s.a, s.b, s.ab, s.ba); }
        else { OtherKeepsAcked(s.b, s.a, s.ba, s.ab, l.act); }
      }
    }
  }

  // ---- Completeness at close -------------------------------------------------------------------

  /** The peer's application queue holds the whole stream of `x`, then the EOF marker. */
  predicate Complete(x: Host, y: Host) {
    && y.e.ctx.finReceived && y.e.appOut != []
    && y.e.appOut[|y.e.appOut| - 1] == []
    && (forall i :: 0 <= i < |y.e.appOut| - 1 ==> y.e.appOut[i] != [])
    && Delivered(y) == x.plan
  }

  lemma {:induction false} AckedIsComplete(x: Host, y: Host, xy: seq<Packet>, yx: seq<Packet>)
    requires Local(x) && Local(y) && Flow(x, y, xy, yx)
    requires x.e.ctx.finSent && x.acked == Snd(x)
    ensures Complete(x, y)
  {
    hide Wrap32;
    AckChainOrder(yx, x.e.ctx.iss, x.acked, Rcv(y));
    TilesOrder(xy, x.e.ctx.iss, x.sent, Rcv(y), Snd(x));
    assert |Delivered(y)| <= |x.sent|;
    assert x.plan == x.sent + Flatten(x.e.appIn) + Flatten(x.script);
    assert Flatten<Byte>([]) == [];
  }

  /** A run's states satisfy everything above. */
  ghost predicate Good(s: System) {
    Inv(s) && FewUnacked(s) && AckedRight(s.a) && AckedRight(s.b)
  }

  lemma {:induction false} RunIsGood(issA: Word32, issB: Word32, scriptA: seq<seq<Byte>>, scriptB: seq<seq<Byte>>, steps: seq<Label>)
    requires Legal(Initial(issA, issB, scriptA, scriptB), steps)
    requires Bounded(Initial(issA, issB, scriptA, scriptB), steps)
    ensures Good(After(Initial(issA, issB, scriptA, scriptB), steps))
  {
    hide Wrap32;
    var s0 := Initial(issA, issB, scriptA, scriptB);
    InitialInv(issA, issB, scriptA, scriptB);
    RunKeepsInv(s0, steps);
    RunKeepsAcked(s0, steps);
  }

  /** `done` means that both FINs have been exchanged and acknowledged, and an acknowledged
      FIN means that the peer's application has the whole stream and its end. */
  lemma {:induction false} CloseIsComplete(issA: Word32, issB: Word32, scriptA: seq<seq<Byte>>, scriptB: seq<seq<Byte>>, steps: seq<Label>)
    requires Legal(Initial(issA, issB, scriptA, scriptB), steps)
    requires Bounded(Initial(issA, issB, scriptA, scriptB), steps)
    ensures var s := After(Initial(issA, issB, scriptA, scriptB), steps);
      && (s.a.e.ctx.done ==> s.a.e.ctx.finSent && s.a.e.ctx.finReceived && s.a.e.ctx.finAcked)
      && (s.b.e.ctx.done ==> s.b.e.ctx.finSent && s.b.e.ctx.finReceived && s.b.e.ctx.finAcked)
      && (s.a.e.ctx.finAcked ==> Complete(s.a, s.b))
      && (s.b.e.ctx.finAcked ==> Complete(s.b, s.a))
  {
    hide Wrap32;
    RunIsGood(issA, issB, scriptA, scriptB, steps);
    var s := After(Initial(issA, issB, scriptA, scriptB), steps);
    if s.a.e.ctx.finAcked { AckedIsComplete(s.a, s.b, s.ab, s.ba); }
    if s.b.e.ctx.finAcked { AckedIsComplete(s.b, s.a, s.ba, s.ab); }
  }

  // ---- No deadlock -------------------------------------------------------------------------------

  /** A peer that has finished leaves nothing for `y` to wait for. */
  lemma {:induction false} NothingLeft(x: Host, y: Host, xy: seq<Packet>, yx: seq<Packet>)
    requires Local(x) && Local(y) && Flow(x, y, xy, yx) && Flow(y, x, yx, xy) && AckedRight(y)
    requires x.e.ctx.finSent && y.e.ctx.finSent && y.e.loc == Running
    requires x.e.ctx.finReceived && (xy == [] || xy[0].Hangup?)
    ensures y.e.ctx.done
  {
    hide Wrap32;
    if xy != [] {
      CarriesPop(x, xy, Rcv(y));
      AcksPop(x, y, xy, yx);
      assert xy == [Hangup] && xy[1..] == [];
    }
    assert y.acked == Rcv(x);
    assert Rcv(y) == Snd(x) && |Delivered(y)| <= |x.sent|;
    assert y.e.ctx.finReceived;
    assert x.e.loc == Running && Rcv(x) == Snd(y);
  }

  /** The empty buffer of a closed socket is never processed by an endpoint that is not done:
      the connection-error exit of `control_loop` is not reachable. */
  lemma {:induction false} HangupOnlyWhenDone(x: Host, y: Host, xy: seq<Packet>, yx: seq<Packet>)
    requires Local(x) && Local(y) && Flow(x, y, xy, yx) && Flow(y, x, yx, xy) && AckedRight(x) && AckedRight(y)
    requires xy != [] && xy[0].Hangup? && y.e.loc == Running
    ensures y.e.ctx.done
  {
    hide Wrap32;
    CarriesPop(x, xy, Rcv(y));
    assert x.e.ctx.done;
    AckedIsComplete(x, y, xy, yx);
    assert y.e.ctx.finReceived && x.e.ctx.finReceived;
    assert y.e.ctx.finSent;
    NothingLeft(x, y, xy, yx);
  }

  /** An application event is pending for `h`. */
  predicate AppReady(h: Host) {
    h.e.loc == Running && (h.script != [] || !h.closed || (!h.e.ctx.done && (h.e.appIn != [] || h.e.closeRequested)))
  }

  lemma {:induction false} AppCanStep(h: Host, inbox: seq<Packet>)
    requires AppReady(h)
    ensures exists act :: Enabled(h, inbox, act)
  {
    var act := if h.script != [] then Write else if !h.closed then Close else if h.e.appIn != [] then Take else Finish;
    assert Enabled(h, inbox, act);
  }

  lemma {:induction false} FinArrived(x: Host, y: Host, xy: seq<Packet>, yx: seq<Packet>)
    requires Local(x) && Flow(x, y, xy, yx) && x.e.ctx.finSent && y.e.loc == Running && xy == []
    ensures y.e.ctx.finReceived
  {
    assert Rcv(y) == Snd(x) && |Delivered(y)| <= |x.sent|;
  }

  /** Once both threads are in `control_loop`, a state where neither can act is final. */
  lemma {:induction false} QuietIsDone(s: System)
    requires Good(s) && s.a.e.loc == Running && s.b.e.loc == Running
    requires !AppReady(s.a) && !AppReady(s.b)
    requires s.a.e.ctx.done || s.ba == []
    requires s.b.e.ctx.done || s.ab == []
    ensures s.a.e.ctx.done && s.b.e.ctx.done
  {
    hide Wrap32;
    if s.ab == [] { FinArrived(s.a, s.b, s.ab, s.ba); }
    if s.ba == [] { FinArrived(s.b, s.a, s.ba, s.ab); }
    if s.ab == [] { NothingLeft(s.a, s.b, s.ab, s.ba); }
    if s.ba == [] { NothingLeft(s.b, s.a, s.ba, s.ab); }
  }

  /** During the handshake some side can always act. */
  lemma {:induction false} HandshakeCanStep(s: System)
    requires Good(s) && !(s.a.e.loc == Running && s.b.e.loc == Running)
    ensures exists l :: CanStep(s, l)
  {
    hide Wrap32;
    if s.a.e.loc == Fresh {
      assert CanStep(s, Label(A, Open));
    } else if s.ab != [] {
      assert CanStep(s, Label(B, Deliver));
    } else {
      assert s.a.e.loc == AwaitSynAck && s.b.e.loc == AwaitAck;
      assert s.ba != [];
      assert CanStep(s, Label(A, Deliver));
    }
  }

  /** No reachable state is stuck unless both sides are done. */
  lemma {:induction false} NoDeadlock(s: System)
    requires Good(s) && !(s.a.e.ctx.done && s.b.e.ctx.done)
    ensures exists l :: CanStep(s, l)
  {
    hide Wrap32;
    if !(s.a.e.loc == Running && s.b.e.loc == Running) {
      HandshakeCanStep(s);
    } else if AppReady(s.a) {
      AppCanStep(s.a, s.ba);
      var act :| Enabled(s.a, s.ba, act);
      assert CanStep(s, Label(A, act));
    } else if AppReady(s.b) {
      AppCanStep(s.b, s.ab);
      var act :| Enabled(s.b, s.ab, act);
      assert CanStep(s, Label(B, act));
    } else if !s.a.e.ctx.done && s.ba != [] {
      assert CanStep(s, Label(A, Deliver));
    } else if !s.b.e.ctx.done && s.ab != [] {
      assert CanStep(s, Label(B, Deliver));
    } else {
      QuietIsDone(s);
    }
  }
}
