/** Every step of the two-endpoint system keeps the invariant of StcpSystem. */
module StcpInvariant {
  import opened Words
  import opened StcpEndpoint
  import opened StcpSystem

  // ---- Channels ----------------------------------------------------------------------------

  lemma {:induction false} TilesOrder(ch: seq<Packet>, iss: Word32, stream: seq<Byte>, pos: nat, end: nat)
    requires Tiles(ch, iss, stream, pos, end)
    ensures pos <= end
  {
    if ch != [] {
      TilesOrder(ch[1..], iss, stream, pos + Width(ch[0]), end);
    }
  }

  /** A packet that continues the tiling may be appended. */
  lemma {:induction false} TilesPush(ch: seq<Packet>, iss: Word32, stream: seq<Byte>, pos: nat, end: nat, p: Packet)
    requires Tiles(ch, iss, stream, pos, end) && Hangup !in ch
    requires Fits(p, iss, stream, end)
    ensures Tiles(ch + [p], iss, stream, pos, end + Width(p))
  {
    hide Fits, Width;
    if ch == [] {
      assert ch + [p] == [p] && [p][1..] == [];
    } else {
      TilesPush(ch[1..], iss, stream, pos + Width(ch[0]), end, p);
      assert (ch + [p])[0] == ch[0] && (ch + [p])[1..] == ch[1..] + [p];
    }
  }

  lemma {:induction false} FitsGrows(p: Packet, iss: Word32, stream: seq<Byte>, pos: nat, more: seq<Byte>)
    requires Fits(p, iss, stream, pos) && pos + Width(p) <= |stream| + 1
    ensures Fits(p, iss, stream + more, pos)
  {
    if p.Segment? && !p.flags.syn && !p.flags.fin && p.data != [] {
      var n := |p.data|;
      assert (stream + more)[pos - 1..pos - 1 + n] == stream[pos - 1..pos - 1 + n];
    }
  }

  /** Until a FIN is sent the stream may grow. */
  lemma {:induction false} TilesGrow(ch: seq<Packet>, iss: Word32, stream: seq<Byte>, pos: nat, end: nat, more: seq<Byte>)
    requires Tiles(ch, iss, stream, pos, end) && end <= |stream| + 1
    ensures Tiles(ch, iss, stream + more, pos, end)
  {
    if ch != [] {
      var next := pos + Width(ch[0]);
      TilesOrder(ch[1..], iss, stream, next, end);
      FitsGrows(ch[0], iss, stream, pos, more);
      TilesGrow(ch[1..], iss, stream, next, end, more);
    }
  }

  lemma {:induction false} AckChainOrder(ch: seq<Packet>, iss: Word32, lo: nat, hi: nat)
    requires AckChain(ch, iss, lo, hi)
    ensures lo <= hi
  {
    if ch != [] {
      AckChainOrder(ch[1..], iss, if ch[0].Segment? && ch[0].flags.ack then Unwrap(iss, lo, ch[0].ackno) else lo, hi);
    }
  }

  /** Unwrapping inverts wrapping for positions less than 2^32 ahead. */
  lemma {:induction false} UnwrapWrap(iss: Word32, lo: nat, k: nat)
    requires lo <= k < lo + 0x1_0000_0000
    ensures Unwrap(iss, lo, Wrap32(iss + k)) == k
  {
    assert Wrap32(Wrap32(iss + k) - iss - lo) == Wrap32(k - lo);
  }

  lemma {:induction false} WrapUnwrap(iss: Word32, lo: nat, a: Word32)
    ensures Wrap32(iss + Unwrap(iss, lo, a)) == a
  {
    assert Wrap32(iss + (lo + Wrap32(a - iss - lo))) == Wrap32(a);
  }

  lemma {:induction false} AckChainAppend(ch: seq<Packet>, iss: Word32, lo: nat, hi: nat, p: Packet, hi': nat)
    requires AckChain(ch, iss, lo, hi)
    requires if p.Segment? && p.flags.ack
             then hi <= hi' < hi + 0x1_0000_0000 && 1 <= hi' && p.ackno == Wrap32(iss + hi')
             else hi == hi'
    ensures AckChain(ch + [p], iss, lo, hi')
  {
    if ch == [] {
      assert ch + [p] == [p];
      if p.Segment? && p.flags.ack {
        UnwrapWrap(iss, hi, hi');
      }
    } else {
      assert (ch + [p])[0] == ch[0] && (ch + [p])[1..] == ch[1..] + [p];
      var k := if ch[0].Segment? && ch[0].flags.ack then Unwrap(iss, lo, ch[0].ackno) else lo;
      AckChainAppend(ch[1..], iss, k, hi, p, hi');
    }
  }

  // ---- What a step does to a flow ------------------------------------------------------------

  /** Both flows after a step of `x`, whose peer is `y`. */
  ghost predicate Kept(m: Move, y: Host, xy: seq<Packet>) {
    && Local(m.h)
    && Flow(m.h, y, xy + m.out, m.inbox) && Flow(y, m.h, m.inbox, xy + m.out)
  }

  /** The part of a host that the flow towards it depends on. */
  predicate SameReceiver(h: Host, h': Host) {
    && h'.e.ctx.ackNum == h.e.ctx.ackNum && h'.e.ctx.nextExpected == h.e.ctx.nextExpected
    && h'.e.appOut == h.e.appOut && h'.e.ctx.finReceived == h.e.ctx.finReceived && Rcv(h') == Rcv(h)
  }

  /** The part of a host that the flow from it depends on. */
  predicate SameSender(h: Host, h': Host) {
    && h'.active == h.active && h'.hung == h.hung && h'.e.ctx.iss == h.e.ctx.iss
    && h'.sent == h.sent && h'.e.ctx.finSent == h.e.ctx.finSent
  }

  lemma {:induction false} CarriesPush(x: Host, x': Host, xy: seq<Packet>, from: nat, p: Packet)
    requires Carries(x, xy, from) && !x.hung
    requires x'.active == x.active && x'.e.ctx.iss == x.e.ctx.iss && x'.sent == x.sent
    requires p.Segment? && (p.flags.ack || (p.flags.syn && x.active))
    requires Fits(p, x.e.ctx.iss, x.sent, Snd(x)) && Snd(x') == Snd(x) + Width(p)
    ensures Carries(x', xy + [p], from)
  {
    TilesPush(xy, x.e.ctx.iss, x.sent, from, Snd(x), p);
  }

  lemma {:induction false} CarriesData(x: Host, x': Host, xy: seq<Packet>, from: nat, data: seq<Byte>, p: Packet)
    requires Carries(x, xy, from) && !x.hung && Snd(x) == |x.sent| + 1
    requires x'.active == x.active && x'.e.ctx.iss == x.e.ctx.iss && x'.sent == x.sent + data
    requires p.Segment? && p.flags == ACK && p.win == WINDOW && p.data == data && 0 < |data| <= MSS
    requires p.seqno == Wrap32(x.e.ctx.iss + Snd(x)) && Snd(x') == Snd(x) + |data|
    ensures Carries(x', xy + [p], from)
  {
    TilesGrow(xy, x.e.ctx.iss, x.sent, from, Snd(x), data);
    assert (x.sent + data)[|x.sent|..|x.sent| + |data|] == data;
    TilesPush(xy, x.e.ctx.iss, x.sent + data, from, Snd(x), p);
  }

  lemma {:induction false} CarriesHangup(x: Host, x': Host, xy: seq<Packet>, from: nat)
    requires Carries(x, xy, from) && !x.hung && x' == x.(hung := true)
    ensures Carries(x', xy + [Hangup], from)
  {
    TilesPush(xy, x.e.ctx.iss, x.sent, from, Snd(x), Hangup);
  }

  /** The head of a channel fits the receiver's position; the tail carries the rest. */
  lemma {:induction false} CarriesPop(x: Host, xy: seq<Packet>, from: nat)
    requires Carries(x, xy, from) && xy != []
    ensures Fits(xy[0], x.e.ctx.iss, x.sent, from) && from + Width(xy[0]) <= Snd(x)
    ensures Carries(x, xy[1..], from + Width(xy[0]))
    ensures xy[0].Segment? && !xy[0].flags.ack ==> xy[0].flags.syn && x.active
    ensures xy[0].Hangup? ==> x.hung && from == Snd(x)
  {
    TilesOrder(xy[1..], x.e.ctx.iss, x.sent, from + Width(xy[0]), Snd(x));
    forall i | 0 <= i < |xy[1..]|
      ensures xy[1..][i] == xy[i + 1]
    {
    }
  }

  /** The acknowledgement at the head of a channel is a position already reached. */
  lemma {:induction false} AcksPop(x: Host, y: Host, xy: seq<Packet>, yx: seq<Packet>)
    requires AckChain(xy, y.e.ctx.iss, y.acked, Rcv(x)) && Carries(y, yx, Rcv(x)) && xy != []
    ensures AckChain(xy[1..], y.e.ctx.iss, NoteAck(y, xy[0]), Rcv(x))
    ensures y.acked <= NoteAck(y, xy[0]) <= Rcv(x) <= Snd(y)
    ensures xy[0].Segment? && xy[0].flags.ack ==>
      NoteAck(y, xy[0]) >= 1 && xy[0].ackno == Wrap32(y.e.ctx.iss + NoteAck(y, xy[0]))
  {
    AckChainOrder(xy[1..], y.e.ctx.iss, NoteAck(y, xy[0]), Rcv(x));
    TilesOrder(yx, y.e.ctx.iss, y.sent, Rcv(x), Snd(y));
    if xy[0].Segment? && xy[0].flags.ack {
      WrapUnwrap(y.e.ctx.iss, y.acked, xy[0].ackno);
    }
  }

  /** What is known of the packet about to be received. */
  lemma {:induction false} Head(x: Host, y: Host, xy: seq<Packet>, yx: seq<Packet>)
    requires Flow(x, y, xy, yx) && Flow(y, x, yx, xy) && xy != []
    ensures Fits(xy[0], x.e.ctx.iss, x.sent, Rcv(y)) && Rcv(y) + Width(xy[0]) <= Snd(x)
    ensures xy[0].Segment? && !xy[0].flags.ack ==> xy[0].flags.syn && x.active
    ensures xy[0].Hangup? ==> x.hung && Rcv(y) == Snd(x)
    ensures y.acked <= NoteAck(y, xy[0]) <= Rcv(x) <= Snd(y)
    ensures xy[0].Segment? && xy[0].flags.ack ==>
      NoteAck(y, xy[0]) >= 1 && xy[0].ackno == Wrap32(y.e.ctx.iss + NoteAck(y, xy[0]))
  {
    hide Wrap32;
    CarriesPop(x, xy, Rcv(y));
    AcksPop(x, y, xy, yx);
  }

  /** `x` becomes `x'` by sending `p`, with no new data. */
  lemma {:induction false} SendFlow(x: Host, x': Host, y: Host, xy: seq<Packet>, yx: seq<Packet>, p: Packet)
    requires Flow(x, y, xy, yx) && Flow(y, x, yx, xy) && SameReceiver(x, x')
    requires !x.hung && x'.acked == x.acked && x'.active == x.active && x'.e.ctx.iss == x.e.ctx.iss
    requires x'.sent == x.sent && (x.e.ctx.finSent ==> x'.e.ctx.finSent)
    requires p.Segment? && Fits(p, x.e.ctx.iss, x.sent, Snd(x)) && Snd(x') == Snd(x) + Width(p)
    requires if p.flags.ack then Rcv(x) > 0 && p.ackno == x.e.ctx.ackNum else p.flags.syn && x.active
    ensures Flow(x', y, xy + [p], yx) && Flow(y, x', yx, xy + [p])
  {
    CarriesPush(x, x', xy, Rcv(y), p);
    AckChainAppend(xy, y.e.ctx.iss, y.acked, Rcv(x), p, Rcv(x));
  }

  /** `x` becomes `x'` by taking `data` from its application and sending it. */
  lemma {:induction false} SendData(x: Host, x': Host, y: Host, xy: seq<Packet>, yx: seq<Packet>, data: seq<Byte>, p: Packet)
    requires Flow(x, y, xy, yx) && Flow(y, x, yx, xy) && SameReceiver(x, x')
    requires !x.hung && !x.e.ctx.finSent && Snd(x) == |x.sent| + 1 && Rcv(x) > 0
    requires x'.acked == x.acked && x'.active == x.active && x'.e.ctx.iss == x.e.ctx.iss && x'.sent == x.sent + data
    requires p == Segment(Wrap32(x.e.ctx.iss + Snd(x)), x.e.ctx.ackNum, ACK, WINDOW, data) && 0 < |data| <= MSS
    requires Snd(x') == Snd(x) + |data|
    ensures Flow(x', y, xy + [p], yx) && Flow(y, x', yx, xy + [p])
  {
    CarriesData(x, x', xy, Rcv(y), data, p);
    AckChainAppend(xy, y.e.ctx.iss, y.acked, Rcv(x), p, Rcv(x));
    assert Delivered(y) <= x.sent <= x'.sent;
  }

  /** Nothing is sent or received. */
  lemma {:induction false} IdleFlow(x: Host, x': Host, y: Host, xy: seq<Packet>, yx: seq<Packet>)
    requires Flow(x, y, xy, yx) && Flow(y, x, yx, xy) && SameReceiver(x, x') && SameSender(x, x')
    requires x'.acked == x.acked && Snd(x') == Snd(x)
    ensures Flow(x', y, xy, yx) && Flow(y, x', yx, xy)
  {
  }

  /** `y` becomes `y'` by receiving the head `p` of `xy`. */
  predicate Receives(x: Host, y: Host, p: Packet, y': Host) {
    SameSender(y, y') && y'.acked == NoteAck(y, p) && Rcv(y') == Rcv(y) + Width(p) && Tracks(x, y')
  }

  /** A packet received without reply took no sequence space. */
  lemma {:induction false} ReceiveFlow(x: Host, y: Host, y': Host, xy: seq<Packet>, yx: seq<Packet>)
    requires Flow(x, y, xy, yx) && xy != []
    requires Rcv(y') == Rcv(y) && Tracks(x, y') && Width(xy[0]) == 0
    ensures Flow(x, y', xy[1..], yx)
  {
    CarriesPop(x, xy, Rcv(y));
  }

  lemma {:induction false} ReceiveAck(x: Host, y: Host, y': Host, xy: seq<Packet>, yx: seq<Packet>)
    requires Flow(y, x, yx, xy) && xy != []
    requires SameSender(y, y') && y'.acked == NoteAck(y, xy[0]) && Snd(y') == Snd(y)
    ensures Flow(y', x, yx, xy[1..])
  {
    AcksPop(x, y, xy, yx);
  }

  /** A packet received and answered by the segment `q`: what happens to the flow received... */
  lemma {:induction false} ReplyAcks(x: Host, y: Host, y': Host, xy: seq<Packet>, yx: seq<Packet>, q: Packet)
    requires Flow(x, y, xy, yx) && xy != []
    requires Rcv(y') == Rcv(y) + Width(xy[0]) && Tracks(x, y') && Width(xy[0]) <= MSS
    requires q.Segment? && q.flags.ack && q.ackno == y'.e.ctx.ackNum && Rcv(y') > 0
    ensures Flow(x, y', xy[1..], yx + [q])
  {
    CarriesPop(x, xy, Rcv(y));
    AckChainAppend(yx, x.e.ctx.iss, x.acked, Rcv(y), q, Rcv(y'));
  }

  /** ... and to the flow that the reply is part of. */
  lemma {:induction false} ReplyCarried(x: Host, y: Host, y': Host, xy: seq<Packet>, yx: seq<Packet>, q: Packet)
    requires Flow(y, x, yx, xy) && xy != [] && !y.hung
    requires SameSender(y, y') && y'.acked == NoteAck(y, xy[0])
    requires q.Segment? && q.flags.ack && Fits(q, y.e.ctx.iss, y.sent, Snd(y)) && Snd(y') == Snd(y) + Width(q)
    ensures Flow(y', x, yx + [q], xy[1..])
  {
    AcksPop(x, y, xy, yx);
    CarriesPush(y, y', yx, Rcv(x), q);
  }

  lemma {:induction false} ReplyFlow(x: Host, y: Host, y': Host, xy: seq<Packet>, yx: seq<Packet>, q: Packet)
    requires Flow(x, y, xy, yx) && Flow(y, x, yx, xy) && xy != [] && !y.hung
    requires Receives(x, y, xy[0], y') && Width(xy[0]) <= MSS
    requires q.Segment? && q.flags.ack && q.ackno == y'.e.ctx.ackNum && Rcv(y') > 0
    requires Fits(q, y.e.ctx.iss, y.sent, Snd(y)) && Snd(y') == Snd(y) + Width(q)
    ensures Flow(x, y', xy[1..], yx + [q]) && Flow(y', x, yx + [q], xy[1..])
  {
    ReplyAcks(x, y, y', xy, yx, q);
    ReplyCarried(x, y, y', xy, yx, q);
  }

  // ---- Steps that receive nothing --------------------------------------------------------------

  lemma {:induction false} StepOpen(x: Host, y: Host, xy: seq<Packet>, yx: seq<Packet>)
    requires Local(x) && Flow(x, y, xy, yx) && Flow(y, x, yx, xy)
    requires Enabled(x, yx, Open)
    ensures Kept(Perform(x, yx, Open), y, xy)
  {
    hide Wrap32;
    WrapAdd(x.e.ctx.iss, 1);
    var m := Perform(x, yx, Open);
    var p := Segment(x.e.ctx.seqNum, x.e.ctx.ackNum, SYN, WINDOW, []);
    assert m.out == [p];
    SendFlow(x, m.h, y, xy, yx, p);
  }

  lemma {:induction false} WriteLocal(x: Host, yx: seq<Packet>)
    requires Local(x) && Enabled(x, yx, Write)
    ensures Local(Perform(x, yx, Write).h)
  {
    FlattenPush(x.e.appIn, x.script[0]);
    var in', script' := Flatten(x.e.appIn), Flatten(x.script[1..]);
    assert x.sent + (in' + x.script[0]) + script' == x.sent + in' + (x.script[0] + script');
  }

  lemma {:induction false} StepWrite(x: Host, y: Host, xy: seq<Packet>, yx: seq<Packet>)
    requires Local(x) && Flow(x, y, xy, yx) && Flow(y, x, yx, xy)
    requires Enabled(x, yx, Write)
    ensures Kept(Perform(x, yx, Write), y, xy)
  {
    hide Wrap32;
    WriteLocal(x, yx);
    var m := Perform(x, yx, Write);
    assert xy + m.out == xy;
    IdleFlow(x, m.h, y, xy, yx);
  }

  lemma {:induction false} StepClose(x: Host, y: Host, xy: seq<Packet>, yx: seq<Packet>)
    requires Local(x) && Flow(x, y, xy, yx) && Flow(y, x, yx, xy)
    requires Enabled(x, yx, Close)
    ensures Kept(Perform(x, yx, Close), y, xy)
  {
    hide Wrap32;
    var m := Perform(x, yx, Close);
    assert xy + m.out == xy;
    IdleFlow(x, m.h, y, xy, yx);
  }

  lemma {:induction false} ReadFrontSplits<T>(q: seq<seq<T>>, max: nat)
    requires q != []
    ensures Flatten(q) == ReadFront(q, max).0 + Flatten(ReadFront(q, max).1)
  {
    if |q[0]| > max {
      FlattenCons(q[0][max..], q[1..]);
      assert q[0] == q[0][..max] + q[0][max..];
    }
  }

  /** What the APP_DATA branch does to the host. */
  lemma {:induction false} TakeEffect(x: Host, yx: seq<Packet>, data: seq<Byte>, rest: seq<seq<Byte>>)
    requires Core(x) && Enabled(x, yx, Take) && ReadFront(x.e.appIn, MSS) == (data, rest)
    ensures var m := Perform(x, yx, Take);
      && |data| <= MSS
      && m.h == x.(e := x.e.(ctx := x.e.ctx.(seqNum := Wrap32(x.e.ctx.seqNum + |data|)), appIn := rest), sent := x.sent + data)
      && m.out == (if data == [] then [] else [Segment(x.e.ctx.seqNum, x.e.ctx.ackNum, ACK, WINDOW, data)])
  {
    assert MaxToSend(x.e.ctx) == MSS;
    assert data == [] ==> x.sent + data == x.sent;
  }

  lemma {:induction false} TakeAppSide(x: Host, x': Host, data: seq<Byte>, rest: seq<seq<Byte>>)
    requires AppSide(x) && x.e.appIn != [] && ReadFront(x.e.appIn, MSS) == (data, rest)
    requires x'.plan == x.plan && x'.sent == x.sent + data && x'.e.appIn == rest && x'.script == x.script
    requires x'.closed == x.closed && x'.e.closeRequested == x.e.closeRequested && x'.e.ctx.finSent == x.e.ctx.finSent
    ensures AppSide(x')
  {
    ReadFrontSplits(x.e.appIn, MSS);
    var rest', script' := Flatten(rest), Flatten(x.script);
    assert x.sent + (data + rest') + script' == (x.sent + data) + rest' + script';
  }

  lemma {:induction false} TakeCore(x: Host, x': Host, data: seq<Byte>, rest: seq<seq<Byte>>)
    requires Core(x) && x.e.loc == Running
    requires x' == x.(e := x.e.(ctx := x.e.ctx.(seqNum := Wrap32(x.e.ctx.seqNum + |data|)), appIn := rest), sent := x.sent + data)
    ensures Core(x') && Snd(x') == Snd(x) + |data|
  {
    assert Snd(x') == Snd(x) + |data|;
    WrapAdd(x.e.ctx.iss + Snd(x), |data|);
  }

  lemma {:induction false} TakeLocal(x: Host, yx: seq<Packet>, data: seq<Byte>, rest: seq<seq<Byte>>)
    requires Local(x) && Enabled(x, yx, Take) && ReadFront(x.e.appIn, MSS) == (data, rest)
    ensures var x' := Perform(x, yx, Take).h; Local(x') && Snd(x') == Snd(x) + |data|
  {
    TakeEffect(x, yx, data, rest);
    var x' := Perform(x, yx, Take).h;
    TakeAppSide(x, x', data, rest);
    TakeCore(x, x', data, rest);
  }

  lemma {:induction false} StepTake(x: Host, y: Host, xy: seq<Packet>, yx: seq<Packet>)
    requires Local(x) && Flow(x, y, xy, yx) && Flow(y, x, yx, xy)
    requires Enabled(x, yx, Take)
    ensures Kept(Perform(x, yx, Take), y, xy)
  {
    hide Wrap32;
    var (data, rest) := ReadFront(x.e.appIn, MSS);
    TakeEffect(x, yx, data, rest);
    TakeLocal(x, yx, data, rest);
    var m := Perform(x, yx, Take);
    if data == [] {
      assert xy + m.out == xy;
      IdleFlow(x, m.h, y, xy, yx);
    } else {
      SendData(x, m.h, y, xy, yx, data, m.out[0]);
    }
  }

  /** What the APP_CLOSE_REQUESTED branch does to the host. */
  lemma {:induction false} FinishLocal(x: Host, yx: seq<Packet>)
    requires Local(x) && Enabled(x, yx, Finish)
    ensures var m := Perform(x, yx, Finish);
      && Local(m.h) && SameReceiver(x, m.h) && Snd(m.h) == Snd(x) + 1
      && m.h.active == x.active && m.h.acked == x.acked && m.h.sent == x.sent && m.h.e.ctx.iss == x.e.ctx.iss
      && m.h.e.ctx.finSent
      && m.out == [Segment(x.e.ctx.seqNum, x.e.ctx.ackNum, FIN_ACK, WINDOW, [])]
  {
  }

  lemma {:induction false} StepFinish(x: Host, y: Host, xy: seq<Packet>, yx: seq<Packet>)
    requires Local(x) && Flow(x, y, xy, yx) && Flow(y, x, yx, xy)
    requires Enabled(x, yx, Finish)
    ensures Kept(Perform(x, yx, Finish), y, xy)
  {
    hide Wrap32;
    FinishLocal(x, yx);
    var m := Perform(x, yx, Finish);
    SendFlow(x, m.h, y, xy, yx, m.out[0]);
  }

  lemma {:induction false} StepHangUp(x: Host, y: Host, xy: seq<Packet>, yx: seq<Packet>)
    requires Local(x) && Flow(x, y, xy, yx) && Flow(y, x, yx, xy)
    requires Enabled(x, yx, HangUp)
    ensures Kept(Perform(x, yx, HangUp), y, xy)
  {
    hide Wrap32;
    CarriesHangup(x, Perform(x, yx, HangUp).h, xy, Rcv(y));
    AckChainAppend(xy, y.e.ctx.iss, y.acked, Rcv(x), Hangup, Rcv(x));
  }

  // ---- Receiving: transport_init -------------------------------------------------------------

  /** The active side gets its SYN-ACK. */
  lemma {:induction false} SynAckLocal(y: Host, p: Packet, k: nat)
    requires Local(y) && y.e.loc == AwaitSynAck
    requires p.Segment? && p.flags.syn && p.flags.ack && p.ackno == y.e.ctx.seqNum && p.win == WINDOW
    ensures var r := OnPacket(y.e, p);
      var n := Wrap32(p.seqno + 1);
      && r.out == [Segment(y.e.ctx.seqNum, n, ACK, WINDOW, [])]
      && r.e == y.e.(loc := Running, ctx := y.e.ctx.(ackNum := n, nextExpected := n, state := ESTABLISHED))
      && Local(y.(e := r.e, acked := k))
  {
    assert y.e.ctx.(peerWindow := p.win) == y.e.ctx;
  }

  lemma {:induction false} StepSynAck(x: Host, y: Host, xy: seq<Packet>, yx: seq<Packet>)
    requires Local(y) && Flow(x, y, xy, yx) && Flow(y, x, yx, xy)
    requires Enabled(y, xy, Deliver) && y.e.loc == AwaitSynAck && !x.active
    requires x.hung ==> Snd(x) > 0
    ensures var m := Perform(y, xy, Deliver);
      && Kept(m, x, yx)
      && m.h.e.loc == Running && m.out != [] && m.out[0].Segment? && m.out[0].flags == ACK && m.out[0].data == []
  {
    hide Wrap32;
    Head(x, y, xy, yx);
    var p := xy[0];
    assert Snd(y) == 1 && Rcv(y) == 0;
    assert p.Segment? && p.flags.syn && p.flags.ack && NoteAck(y, p) == 1;
    WrapAdd(x.e.ctx.iss, 1);
    SynAckLocal(y, p, 1);
    var m := Perform(y, xy, Deliver);
    ReplyFlow(x, y, m.h, xy, yx, m.out[0]);
  }

  /** The passive side gets its SYN. */
  lemma {:induction false} SynLocal(y: Host, p: Packet)
    requires Local(y) && y.e.loc == AwaitSyn && p.Segment? && p.flags.syn && p.win == WINDOW
    ensures var r := OnPacket(y.e, p);
      var n := Wrap32(p.seqno + 1);
      && r.out == [Segment(y.e.ctx.seqNum, n, SYN_ACK, WINDOW, [])]
      && r.e == y.e.(loc := AwaitAck, ctx := y.e.ctx.(ackNum := n, nextExpected := n, state := SYN_RCVD,
                                                      seqNum := Wrap32(y.e.ctx.seqNum + 1)))
      && Local(y.(e := r.e))
  {
    assert y.e.ctx.(peerWindow := p.win) == y.e.ctx;
  }

  lemma {:induction false} StepSyn(x: Host, y: Host, xy: seq<Packet>, yx: seq<Packet>)
    requires Local(y) && Flow(x, y, xy, yx) && Flow(y, x, yx, xy)
    requires Enabled(y, xy, Deliver) && y.e.loc == AwaitSyn
    requires x.hung ==> Snd(x) > 0
    ensures var m := Perform(y, xy, Deliver);
      && Kept(m, x, yx)
      && m.h.e.loc == AwaitAck
  {
    Head(x, y, xy, yx);
    var p := xy[0];
    assert Snd(y) == 0 && Rcv(y) == 0;
    assert p.Segment? && p.flags.syn && NoteAck(y, p) == 0;
    SynLocal(y, p);
    var m := Perform(y, xy, Deliver);
    assert m.h == y.(e := m.h.e);
    ReplyFlow(x, y, m.h, xy, yx, m.out[0]);
  }

  /** The passive side gets the acknowledgement of its SYN. */
  lemma {:induction false} StepHandshakeAck(x: Host, y: Host, xy: seq<Packet>, yx: seq<Packet>)
    requires Local(y) && Flow(x, y, xy, yx) && Flow(y, x, yx, xy)
    requires Enabled(y, xy, Deliver) && y.e.loc == AwaitAck
    requires xy[0].Segment? && xy[0].flags == ACK && xy[0].data == []
    ensures var m := Perform(y, xy, Deliver);
      && Kept(m, x, yx)
      && m.h.e.loc == Running
  {
    hide Wrap32;
    Head(x, y, xy, yx);
    assert NoteAck(y, xy[0]) == 1;
    var m := Perform(y, xy, Deliver);
    assert yx + m.out == yx;
    ReceiveFlow(x, y, m.h, xy, yx);
    ReceiveAck(x, y, m.h, xy, yx);
  }

  // ---- Receiving: control_loop ---------------------------------------------------------------

  /** The hang-up of a finished peer comes after its FIN, so it never hits ESTABLISHED. */
  lemma {:induction false} StepHangupSeen(x: Host, y: Host, xy: seq<Packet>, yx: seq<Packet>)
    requires Local(x) && Local(y) && Flow(x, y, xy, yx) && Flow(y, x, yx, xy)
    requires Enabled(y, xy, Deliver) && y.e.loc == Running && xy[0].Hangup?
    ensures var m := Perform(y, xy, Deliver);
      m.h == y && m.out == [] && Kept(m, x, yx)
  {
    hide Wrap32;
    Head(x, y, xy, yx);
    assert x.e.ctx.finSent;
    assert |Delivered(y)| <= |x.sent|;
    assert y.e.ctx.finReceived;
    var m := Perform(y, xy, Deliver);
    assert yx + m.out == yx;
    ReceiveFlow(x, y, m.h, xy, yx);
    ReceiveAck(x, y, m.h, xy, yx);
  }

  /** The ACK branch changes only the FIN-acknowledged flag, the state and `done`. */
  lemma {:induction false} AckEffect(c: Context, p: Packet)
    requires Machine(c) && !c.done && p.Segment?
    ensures var c' := OnAck(c, p);
      && Machine(c')
      && c' == c.(finAcked := c'.finAcked, state := c'.state, done := c'.done)
      && (c'.finAcked <==> c.finAcked || (c.finSent && p.flags.ack && p.ackno == c.seqNum))
  {
  }

  lemma {:induction false} PureAckLocal(y: Host, p: Packet, k: nat)
    requires Local(y) && y.e.loc == Running && !y.e.ctx.done
    requires p.Segment? && !p.flags.fin && p.data == [] && p.win == WINDOW
    ensures var r := OnPacket(y.e, p);
      && r.out == [] && r.e == y.e.(ctx := OnAck(y.e.ctx, p)) && Local(y.(e := r.e, acked := k))
  {
    assert y.e.ctx.(peerWindow := WINDOW) == y.e.ctx;
    AckEffect(y.e.ctx, p);
  }

  /** A segment that carries neither FIN nor data. */
  lemma {:induction false} StepPureAck(x: Host, y: Host, xy: seq<Packet>, yx: seq<Packet>)
    requires Local(y) && Flow(x, y, xy, yx) && Flow(y, x, yx, xy)
    requires Enabled(y, xy, Deliver) && y.e.loc == Running
    requires xy[0].Segment? && !xy[0].flags.fin && xy[0].data == []
    ensures Kept(Perform(y, xy, Deliver), x, yx)
  {
    hide Wrap32;
    Head(x, y, xy, yx);
    PureAckLocal(y, xy[0], NoteAck(y, xy[0]));
    AckEffect(y.e.ctx, xy[0]);
    var m := Perform(y, xy, Deliver);
    assert yx + m.out == yx;
    ReceiveFlow(x, y, m.h, xy, yx);
    ReceiveAck(x, y, m.h, xy, yx);
  }

  /** What a FIN does to a host that has not had one. */
  lemma {:induction false} FinLocal(y: Host, p: Packet, k: nat)
    requires Local(y) && y.e.loc == Running && !y.e.ctx.done && !y.e.ctx.finReceived
    requires p.Segment? && p.flags.fin && p.data == [] && p.win == WINDOW
    ensures var r := OnPacket(y.e, p);
      var c, c' := y.e.ctx, r.e.ctx;
      var n := Wrap32(p.seqno + 1);
      && r.out == [Segment(c.seqNum, n, ACK, WINDOW, [])]
      && c' == c.(finReceived := true, ackNum := n, finAcked := c'.finAcked, state := c'.state, done := c'.done)
      && (c'.finAcked <==> c.finAcked || (c.finSent && p.flags.ack && p.ackno == c.seqNum))
      && r.e == y.e.(ctx := c', appOut := y.e.appOut + [[]])
      && Local(y.(e := r.e, acked := k))
  {
    assert y.e.ctx.(peerWindow := WINDOW) == y.e.ctx;
    FlattenPush(y.e.appOut, []);
  }

  lemma {:induction false} FinTracks(x: Host, y: Host, y': Host, p: Packet)
    requires Tracks(x, y) && y.e.loc == y'.e.loc == Running && !y.e.ctx.finReceived && Rcv(y) == |x.sent| + 1
    requires p.Segment? && p.flags.fin && p.seqno == Wrap32(x.e.ctx.iss + Rcv(y)) && x.e.ctx.finSent
    requires y'.e.ctx.finReceived && y'.e.ctx.ackNum == Wrap32(p.seqno + 1) && y'.e.appOut == y.e.appOut + [[]]
    ensures Tracks(x, y') && Rcv(y') == Rcv(y) + 1
  {
    hide Wrap32;
    WrapAdd(x.e.ctx.iss + Rcv(y), 1);
    FlattenPush(y.e.appOut, []);
  }

  /** `y` becomes `y'` by receiving a FIN and acknowledging it with `q`. */
  lemma {:induction false} FinFlow(x: Host, y: Host, y': Host, xy: seq<Packet>, yx: seq<Packet>, q: Packet)
    requires Flow(x, y, xy, yx) && Flow(y, x, yx, xy) && xy != [] && !y.hung
    requires y.e.loc == y'.e.loc == Running && !y.e.ctx.finReceived && y'.e.ctx.finReceived
    requires xy[0].Segment? && xy[0].flags.fin && Fits(xy[0], x.e.ctx.iss, x.sent, Rcv(y)) && x.e.ctx.finSent
    requires SameSender(y, y') && y'.acked == NoteAck(y, xy[0]) && y'.e.appOut == y.e.appOut + [[]]
    requires y'.e.ctx.ackNum == Wrap32(xy[0].seqno + 1)
    requires q == Segment(Wrap32(y.e.ctx.iss + Snd(y)), y'.e.ctx.ackNum, ACK, WINDOW, [])
    ensures Flow(x, y', xy[1..], yx + [q]) && Flow(y', x, yx + [q], xy[1..])
  {
    FinTracks(x, y, y', xy[0]);
    ReplyFlow(x, y, y', xy, yx, q);
  }

  lemma {:induction false} StepFin(x: Host, y: Host, xy: seq<Packet>, yx: seq<Packet>)
    requires Local(y) && Flow(x, y, xy, yx) && Flow(y, x, yx, xy)
    requires Enabled(y, xy, Deliver) && y.e.loc == Running
    requires xy[0].Segment? && xy[0].flags.fin
    ensures Kept(Perform(y, xy, Deliver), x, yx)
  {
    hide Wrap32;
    Head(x, y, xy, yx);
    assert !y.e.ctx.finReceived && x.e.ctx.finSent;
    FinLocal(y, xy[0], NoteAck(y, xy[0]));
    var r := OnPacket(y.e, xy[0]);
    var y' := y.(e := r.e, acked := NoteAck(y, xy[0]));
    FinFlow(x, y, y', xy, yx, r.out[0]);
  }

  /** What in-order data does to a host. */
  lemma {:induction false} DataLocal(y: Host, p: Packet, k: nat)
    requires Local(y) && y.e.loc == Running && !y.e.ctx.done && !y.e.ctx.finReceived
    requires p.Segment? && !p.flags.fin && 0 < |p.data| <= MSS && p.win == WINDOW
    requires p.seqno == y.e.ctx.ackNum == y.e.ctx.nextExpected
    ensures var r := OnPacket(y.e, p);
      var c, c' := y.e.ctx, r.e.ctx;
      var n := Wrap32(p.seqno + |p.data|);
      && r.out == [Segment(c.seqNum, n, ACK, WINDOW, [])]
      && c' == c.(ackNum := n, nextExpected := n, finAcked := c'.finAcked, state := c'.state, done := c'.done)
      && (c'.finAcked <==> c.finAcked || (c.finSent && p.flags.ack && p.ackno == c.seqNum))
      && r.e == y.e.(ctx := c', appOut := y.e.appOut + [p.data])
      && Local(y.(e := r.e, acked := k))
  {
    assert y.e.ctx.(peerWindow := WINDOW) == y.e.ctx;
    AckEffect(y.e.ctx, p);
  }

  lemma {:induction false} DataTracks(x: Host, y: Host, y': Host, p: Packet)
    requires Tracks(x, y) && y.e.loc == y'.e.loc == Running && !y.e.ctx.finReceived && !y'.e.ctx.finReceived
    requires p.Segment? && p.data != [] && !p.flags.fin && !p.flags.syn && Fits(p, x.e.ctx.iss, x.sent, Rcv(y))
    requires y'.e.ctx.ackNum == y'.e.ctx.nextExpected == Wrap32(p.seqno + |p.data|)
    requires y'.e.appOut == y.e.appOut + [p.data]
    ensures Tracks(x, y') && Rcv(y') == Rcv(y) + |p.data|
  {
    hide Wrap32;
    FlattenPush(y.e.appOut, p.data);
    WrapAdd(x.e.ctx.iss + Rcv(y), |p.data|);
    var k, n := Rcv(y) - 1, |p.data|;
    assert x.sent[..k] + x.sent[k..k + n] == x.sent[..k + n];
  }

  /** `y` becomes `y'` by receiving data in order and acknowledging it with `q`. */
  lemma {:induction false} DataFlow(x: Host, y: Host, y': Host, xy: seq<Packet>, yx: seq<Packet>, q: Packet)
    requires Flow(x, y, xy, yx) && Flow(y, x, yx, xy) && xy != [] && !y.hung
    requires y.e.loc == y'.e.loc == Running && !y.e.ctx.finReceived && !y'.e.ctx.finReceived
    requires xy[0].Segment? && !xy[0].flags.fin && xy[0].data != [] && Fits(xy[0], x.e.ctx.iss, x.sent, Rcv(y))
    requires SameSender(y, y') && y'.acked == NoteAck(y, xy[0]) && y'.e.appOut == y.e.appOut + [xy[0].data]
    requires y'.e.ctx.ackNum == y'.e.ctx.nextExpected == Wrap32(xy[0].seqno + |xy[0].data|)
    requires q == Segment(Wrap32(y.e.ctx.iss + Snd(y)), y'.e.ctx.ackNum, ACK, WINDOW, [])
    ensures Flow(x, y', xy[1..], yx + [q]) && Flow(y', x, yx + [q], xy[1..])
  {
    DataTracks(x, y, y', xy[0]);
    ReplyFlow(x, y, y', xy, yx, q);
  }

  lemma {:induction false} StepData(x: Host, y: Host, xy: seq<Packet>, yx: seq<Packet>)
    requires Local(y) && Flow(x, y, xy, yx) && Flow(y, x, yx, xy)
    requires Enabled(y, xy, Deliver) && y.e.loc == Running
    requires xy[0].Segment? && !xy[0].flags.fin && xy[0].data != []
    ensures Kept(Perform(y, xy, Deliver), x, yx)
  {
    hide Wrap32;
    Head(x, y, xy, yx);
    var p := xy[0];
    assert !y.e.ctx.finReceived && p.seqno == y.e.ctx.ackNum == y.e.ctx.nextExpected;
    DataLocal(y, p, NoteAck(y, p));
    var r := OnPacket(y.e, p);
    var y' := y.(e := r.e, acked := NoteAck(y, p));
    DataFlow(x, y, y', xy, yx, r.out[0]);
  }

  /** Whatever `control_loop` receives next, it keeps both flows. */
  lemma {:induction false} StepReceive(x: Host, y: Host, xy: seq<Packet>, yx: seq<Packet>)
    requires Local(x) && Local(y) && Flow(x, y, xy, yx) && Flow(y, x, yx, xy)
    requires Enabled(y, xy, Deliver) && y.e.loc == Running
    ensures var m := Perform(y, xy, Deliver);
      && Kept(m, x, yx)
      && m.h.e.loc == Running
  {
    hide Wrap32;
    if xy[0].Hangup? {
      StepHangupSeen(x, y, xy, yx);
    } else if xy[0].flags.fin {
      StepFin(x, y, xy, yx);
    } else if xy[0].data == [] {
      StepPureAck(x, y, xy, yx);
    } else {
      StepData(x, y, xy, yx);
    }
  }

  // ---- The whole system ----------------------------------------------------------------------

  lemma {:induction false} StepLocal(x: Host, y: Host, xy: seq<Packet>, yx: seq<Packet>, act: Action)
    requires Local(x) && Local(y) && Flow(x, y, xy, yx) && Flow(y, x, yx, xy)
    requires act != Deliver && Enabled(x, yx, act)
    ensures Kept(Perform(x, yx, act), y, xy)
  {
    hide Wrap32;
    match act
    case Open => StepOpen(x, y, xy, yx);
    case Write => StepWrite(x, y, xy, yx);
    case Close => StepClose(x, y, xy, yx);
    case Take => StepTake(x, y, xy, yx);
    case Finish => StepFinish(x, y, xy, yx);
    case HangUp => StepHangUp(x, y, xy, yx);
  }

  lemma {:induction false} StepOfA(s: System, act: Action)
    requires Inv(s) && Enabled(s.a, s.ba, act)
    ensures Kept(Perform(s.a, s.ba, act), s.b, s.ab)
  {
    hide Wrap32;
    if act != Deliver {
      StepLocal(s.a, s.b, s.ab, s.ba, act);
    } else if s.a.e.loc == AwaitSynAck {
      StepSynAck(s.b, s.a, s.ba, s.ab);
    } else {
      StepReceive(s.b, s.a, s.ba, s.ab);
    }
  }

  lemma {:induction false} StepOfB(s: System, act: Action)
    requires Inv(s) && Enabled(s.b, s.ab, act)
    ensures Kept(Perform(s.b, s.ab, act), s.a, s.ba)
  {
    hide Wrap32;
    if act != Deliver {
      StepLocal(s.b, s.a, s.ba, s.ab, act);
    } else if s.b.e.loc == AwaitSyn {
      StepSyn(s.a, s.b, s.ab, s.ba);
    } else if s.b.e.loc == AwaitAck {
      StepHandshakeAck(s.a, s.b, s.ab, s.ba);
    } else {
      StepReceive(s.a, s.b, s.ab, s.ba);
    }
  }

  lemma {:induction false} RunningStays(h: Host, inbox: seq<Packet>, act: Action)
    requires Enabled(h, inbox, act) && h.e.loc == Running
    ensures Perform(h, inbox, act).h.e.loc == Running && Perform(h, inbox, act).h.active == h.active
  {
    hide Wrap32;
  }

  lemma {:induction false} HandshakeOfA(s: System, act: Action)
    requires Inv(s) && Enabled(s.a, s.ba, act)
    ensures Handshake(Next(s, Label(A, act)))
  {
    hide Wrap32;
    var m := Perform(s.a, s.ba, act);
    if s.a.e.loc == Running {
      RunningStays(s.a, s.ba, act);
      assert s.ab != [] ==> (s.ab + m.out)[0] == s.ab[0];
    } else if s.a.e.loc == AwaitSynAck {
      SynAckComesSecond(s);
      StepSynAck(s.b, s.a, s.ba, s.ab);
      assert (s.ab + m.out)[0] == m.out[0];
    }
  }

  /** No SYN-ACK is in flight before the SYN has been received. */
  lemma {:induction false} SynAckComesSecond(s: System)
    requires Inv(s) && s.a.e.loc == AwaitSynAck && s.ba != []
    ensures s.b.e.loc == AwaitAck && s.ab == []
  {
    Head(s.b, s.a, s.ba, s.ab);
  }

  lemma {:induction false} HandshakeOfB(s: System, act: Action)
    requires Inv(s) && Enabled(s.b, s.ab, act)
    ensures Handshake(Next(s, Label(B, act)))
  {
    hide Wrap32, AppSide, EofLast, Machine, AckChain, Tracks;
    if act == Deliver && s.b.e.loc == AwaitSyn {
      StepSyn(s.a, s.b, s.ab, s.ba);
    } else if act == Deliver && s.b.e.loc == AwaitAck {
      StepHandshakeAck(s.a, s.b, s.ab, s.ba);
    }
  }

  lemma {:induction false} StepKeepsInv(s: System, l: Label)
    requires Inv(s) && CanStep(s, l)
    ensures Inv(Next(s, l))
  {
    if l.side == A {
      StepOfA(s, l.act);
      HandshakeOfA(s, l.act);
    } else {
      StepOfB(s, l.act);
      HandshakeOfB(s, l.act);
    }
  }

  lemma {:induction false} InitialInv(issA: Word32, issB: Word32, scriptA: seq<seq<Byte>>, scriptB: seq<seq<Byte>>)
    ensures Inv(Initial(issA, issB, scriptA, scriptB))
  {
  }

  lemma {:induction false} Extend(s0: System, steps: seq<Label>, l: Label)
    requires Legal(s0, steps) && CanStep(After(s0, steps), l)
    ensures Legal(s0, steps + [l]) && After(s0, steps + [l]) == Next(After(s0, steps), l)
  {
    assert (steps + [l])[..|steps|] == steps;
  }

  /** The invariant holds after every run. */
  lemma {:induction false} RunKeepsInv(s0: System, steps: seq<Label>)
    requires Inv(s0) && Legal(s0, steps)
    ensures Inv(After(s0, steps))
    decreases |steps|
  {
    if steps != [] {
      var n := |steps| - 1;
      RunKeepsInv(s0, steps[..n]);
      StepKeepsInv(After(s0, steps[..n]), steps[n]);
    }
  }
}
