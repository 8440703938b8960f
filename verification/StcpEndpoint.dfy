/**
 * One STCP endpoint: the `context_t` record of transport.c, the application queues of
 * its mysocket context, and what each event handler does to them.
 *
 * The functions here are the specification of the class in StcpTransport.dfy and the
 * transition functions of the two-endpoint system in StcpSystem.dfy.
 */
module StcpEndpoint {
  import opened Words

  const WINDOW: int := 3072 // RECEIVER_WINDOW_SIZE
  const MSS: int := 536     // STCP_MSS

  datatype ConnState =
    | CLOSED | SYN_SENT | SYN_RCVD | ESTABLISHED | FIN_WAIT_1 | FIN_WAIT_2 | CLOSING | CLOSE_WAIT | LAST_ACK

  datatype Flags = Flags(syn: bool, ack: bool, fin: bool)

  const SYN := Flags(true, false, false)
  const SYN_ACK := Flags(true, true, false)
  const ACK := Flags(false, true, false)
  const FIN_ACK := Flags(false, true, true)

  /** A buffer of the network receive queue: a segment, or the empty buffer that the
      network thread enqueues when the peer's socket is closed. */
  datatype Packet =
    | Segment(seqno: Word32, ackno: Word32, flags: Flags, win: Word16, data: seq<Byte>)
    | Hangup

  /** The fields of `context_t`. */
  datatype Context = Context(
    done: bool, state: ConnState,
    iss: Word32, seqNum: Word32, ackNum: Word32,
    finSent: bool, finReceived: bool, finAcked: bool,
    recvWindow: Word16, recvUsed: Word16, nextExpected: Word32,
    peerWindow: Word16, lastAck: Word32, lastSent: Word32)

  /** Where the transport thread is: about to send the SYN, in one of the three waits of
      `transport_init`, in `control_loop`, or returned with ECONNREFUSED. */
  datatype Location = Fresh | AwaitSynAck | AwaitSyn | AwaitAck | Running | Refused

  /** Transport thread plus the application side of the mysocket context: buffers written
      and not yet taken, the close flag, and every buffer passed up (empty means EOF). */
  datatype Endpoint = Endpoint(
    loc: Location, ctx: Context,
    appIn: seq<seq<Byte>>, closeRequested: bool, appOut: seq<seq<Byte>>)

  /** A handler's result: the new endpoint and the packets it handed to the network. */
  datatype Reply = Reply(e: Endpoint, out: seq<Packet>)

  function NewContext(iss: Word32): Context {
    Context(false, CLOSED, iss, iss, 0, false, false, false, WINDOW, 0, 0, WINDOW, iss, iss)
  }

  function NewEndpoint(active: bool, iss: Word32): Endpoint {
    Endpoint(if active then Fresh else AwaitSyn, NewContext(iss), [], false, [])
  }

  /** `send_packet`: the header is filled from the context. */
  function MakeSegment(c: Context, data: seq<Byte>, flags: Flags): Packet {
    Segment(c.seqNum, c.ackNum, flags, Wrap16(c.recvWindow - c.recvUsed), data)
  }

  // ---- transport_init ----------------------------------------------------------------

  function OpenActive(e: Endpoint): Reply {
    var c := e.ctx.(state := SYN_SENT);
    Reply(e.(loc := AwaitSynAck, ctx := c.(seqNum := Wrap32(c.seqNum + 1))), [MakeSegment(c, [], SYN)])
  }

  function Refuse(e: Endpoint): Reply { Reply(e.(loc := Refused), []) }

  function OnSynAck(e: Endpoint, p: Packet): Reply {
    if p.Segment? && p.flags.syn && p.flags.ack && p.ackno == e.ctx.seqNum then
      var c := e.ctx.(ackNum := Wrap32(p.seqno + 1), peerWindow := p.win, nextExpected := Wrap32(p.seqno + 1));
      Reply(e.(loc := Running, ctx := c.(state := ESTABLISHED)), [MakeSegment(c, [], ACK)])
    else Refuse(e)
  }

  function OnSyn(e: Endpoint, p: Packet): Reply {
    if p.Segment? && p.flags.syn then
      var c := e.ctx.(ackNum := Wrap32(p.seqno + 1), state := SYN_RCVD,
                      nextExpected := Wrap32(p.seqno + 1), peerWindow := p.win);
      Reply(e.(loc := AwaitAck, ctx := c.(seqNum := Wrap32(c.seqNum + 1))), [MakeSegment(c, [], SYN_ACK)])
    else Refuse(e)
  }

  function OnHandshakeAck(e: Endpoint, p: Packet): Reply {
    if p.Segment? && p.flags.ack && p.ackno == e.ctx.seqNum then
      Reply(e.(loc := Running, ctx := e.ctx.(peerWindow := p.win, state := ESTABLISHED)), [])
    else Refuse(e)
  }

  // ---- control_loop ------------------------------------------------------------------

  /** `max_to_send`; the subtraction is unsigned 32-bit. */
  function MaxToSend(c: Context): nat {
    var m := Wrap32(c.peerWindow - Wrap32(c.lastSent - c.lastAck));
    if m > MSS then MSS else m
  }

  /** `_mysock_dequeue_buffer` with partial removal: what is read and what stays queued. */
  function ReadFront<T>(q: seq<seq<T>>, max: nat): (seq<T>, seq<seq<T>>)
    requires q != []
  {
    if |q[0]| > max then (q[0][..max], [q[0][max..]] + q[1..]) else (q[0], q[1..])
  }

  function OnAppData(e: Endpoint): Reply
    requires e.appIn != []
  {
    var m := MaxToSend(e.ctx);
    if m == 0 then Reply(e, []) else
    var (data, rest) := ReadFront(e.appIn, m);
    var e1 := e.(appIn := rest);
    if data == [] then Reply(e1, []) else
    Reply(e1.(ctx := e.ctx.(seqNum := Wrap32(e.ctx.seqNum + |data|))), [MakeSegment(e.ctx, data, ACK)])
  }

  /** Of the first buffer as many bytes are taken as the window and 536 allow; they are one segment,
      and what is left of the buffer stays in front. */
  predicate Takes(e: Endpoint, r: Reply)
    requires e.appIn != []
  {
    var front, c := e.appIn[0], e.ctx;
    var window: nat := Wrap32(c.peerWindow - Wrap32(c.lastSent - c.lastAck));
    var n := Min(Min(536, window), |front|);
    if window == 0 then r == Reply(e, []) else
    var left := (if n < |front| then [front[n..]] else []) + e.appIn[1..];
    if n == 0 then r == Reply(e.(appIn := left), []) else
    r == Reply(e.(appIn := left, ctx := c.(seqNum := Wrap32(c.seqNum + n))),
               [Segment(c.seqNum, c.ackNum, ACK, Wrap16(c.recvWindow - c.recvUsed), front[..n])])
  }

  lemma {:induction false} AppDataTakes(e: Endpoint)
    requires e.appIn != []
    ensures Takes(e, OnAppData(e))
  {
    hide Wrap32, Wrap16;
    assert e.appIn[0][..|e.appIn[0]|] == e.appIn[0] && [] + e.appIn[1..] == e.appIn[1..];
  }

  function OnFin(e: Endpoint, p: Packet): Reply
    requires p.Segment?
  {
    if !p.flags.fin then Reply(e, []) else
    var c := e.ctx.(finReceived := true, ackNum := Wrap32(p.seqno + 1));
    var c' := match c.state
      case ESTABLISHED => c.(state := CLOSE_WAIT)
      case FIN_WAIT_1 => c.(state := CLOSING)
      case FIN_WAIT_2 => c.(done := true)
      case _ => c;
    Reply(e.(ctx := c', appOut := e.appOut + [[]]), [MakeSegment(c, [], ACK)])
  }

  function OnAck(c: Context, p: Packet): Context
    requires p.Segment?
  {
    if !p.flags.ack || p.ackno != c.seqNum then c else
    match c.state
    case FIN_WAIT_1 => c.(finAcked := true, state := FIN_WAIT_2)
    case CLOSING => c.(finAcked := true, done := true)
    case LAST_ACK => c.(finAcked := true, state := CLOSED, done := true)
    case _ => c
  }

  function OnData(e: Endpoint, p: Packet): Reply
    requires p.Segment?
  {
    var n := |p.data|;
    var c := e.ctx;
    if n == 0 then Reply(e, [])
    else if p.seqno == c.ackNum then
      var used := Wrap16(c.recvUsed + n);
      var inOrder := p.seqno == c.nextExpected;
      var c' := c.(recvUsed := if inOrder then Wrap16(used - n) else used,
                   nextExpected := if inOrder then Wrap32(p.seqno + n) else c.nextExpected,
                   ackNum := Wrap32(c.ackNum + n));
      Reply(e.(ctx := c', appOut := if inOrder then e.appOut + [p.data] else e.appOut), [MakeSegment(c', [], ACK)])
    else Reply(e, [MakeSegment(c, [], ACK)])
  }

  function OnNetwork(e: Endpoint, p: Packet): Reply {
    if p.Hangup? then
      if e.ctx.state == ESTABLISHED then Reply(e.(ctx := e.ctx.(state := CLOSED, done := true)), [])
      else Reply(e, [])
    else
      var r1 := OnFin(e.(ctx := e.ctx.(peerWindow := p.win)), p);
      var r2 := OnData(r1.e.(ctx := OnAck(r1.e.ctx, p)), p);
      Reply(r2.e, r1.out + r2.out)
  }

  /** The close event is consumed by `stcp_wait_for_event`, then handled. */
  function OnClose(e: Endpoint): Reply {
    var e0 := e.(closeRequested := false);
    var c := e.ctx;
    if c.finSent then Reply(e0, []) else
    var c' := c.(finSent := true, seqNum := Wrap32(c.seqNum + 1), state := match c.state
      case ESTABLISHED => FIN_WAIT_1
      case CLOSE_WAIT => LAST_ACK
      case _ => c.state);
    Reply(e0.(ctx := c'), [MakeSegment(c, [], FIN_ACK)])
  }

  /** A packet reaches the endpoint, wherever its transport thread is waiting. */
  function OnPacket(e: Endpoint, p: Packet): Reply {
    match e.loc
    case AwaitSynAck => OnSynAck(e, p)
    case AwaitSyn => OnSyn(e, p)
    case AwaitAck => OnHandshakeAck(e, p)
    case Running => OnNetwork(e, p)
    case _ => Reply(e, [])
  }

  // ---- Packets that no run brings ---------------------------------------------------------------

  lemma {:induction false} WindowKept(e: Endpoint, p: Packet)
    requires p.Segment?
    ensures OnFin(e, p).e.ctx.peerWindow == e.ctx.peerWindow && OnData(e, p).e.ctx.peerWindow == e.ctx.peerWindow
    ensures OnAck(e.ctx, p).peerWindow == e.ctx.peerWindow
  {
    hide Wrap32, Wrap16, MakeSegment;
  }

  /** Whatever the endpoint and the packet: a hang-up ends an established connection and does nothing else; a
      segment's window is taken over. */
  lemma {:induction false} OffPath(e: Endpoint, p: Packet)
    ensures var r := OnNetwork(e, p);
      && (p.Segment? ==> r.e.ctx.peerWindow == p.win)
      && (p.Hangup? ==> r.out == [])
      && (p.Hangup? ==> r.e == (if e.ctx.state == ESTABLISHED then e.(ctx := e.ctx.(state := CLOSED, done := true)) else e))
  {
    hide OnFin, OnAck, OnData;
    if p.Segment? {
      var e1 := e.(ctx := e.ctx.(peerWindow := p.win));
      WindowKept(e1, p);
      var e2 := OnFin(e1, p).e;
      WindowKept(e2, p);
      WindowKept(e2.(ctx := OnAck(e2.ctx, p)), p);
    }
  }

  /** Data that is not at `ackNum` is only acknowledged, as before; data that is there but not expected next
      is acknowledged and kept from the application. */
  lemma {:induction false} OffPathData(e: Endpoint, p: Packet)
    requires p.Segment? && !p.flags.fin && p.data != []
    requires p.seqno != e.ctx.ackNum || p.seqno != e.ctx.nextExpected
    ensures var r := OnNetwork(e, p);
      && r.e.appOut == e.appOut && r.e.ctx.nextExpected == e.ctx.nextExpected
      && |r.out| == 1 && r.out[0].Segment? && r.out[0].flags == ACK && r.out[0].ackno == r.e.ctx.ackNum
      && r.e.ctx.ackNum == (if p.seqno == e.ctx.ackNum then Wrap32(p.seqno + |p.data|) else e.ctx.ackNum)
      && r.e.ctx.recvUsed == (if p.seqno == e.ctx.ackNum then Wrap16(e.ctx.recvUsed + |p.data|) else e.ctx.recvUsed)
  {
    hide Wrap32, Wrap16;
  }

  /** The handshake goes on exactly with the packets that it waits for, and is refused without an answer
      by every other. */
  lemma {:induction false} Refusals(e: Endpoint, p: Packet)
    requires e.loc == AwaitSynAck || e.loc == AwaitSyn || e.loc == AwaitAck
    ensures var r := OnPacket(e, p);
      && (r.e.loc != Refused <==>
            && p.Segment? && (e.loc != AwaitAck ==> p.flags.syn) && (e.loc != AwaitSyn ==> p.flags.ack)
            && (e.loc != AwaitSyn ==> p.ackno == e.ctx.seqNum))
      && (r.e.loc == Refused ==> r.out == [] && r.e == e.(loc := Refused))
      && (r.e.loc != Refused ==> r.e.ctx.peerWindow == p.win)
  {
    hide Wrap32, Wrap16;
  }

  // ---- One pass of control_loop ----------------------------------------------------------

  /** `stcp_wait_for_event` returns: some event is ready. */
  predicate Ready(e: Endpoint, inbox: seq<Packet>) {
    e.appIn != [] || inbox != [] || e.closeRequested
  }

  /** The event mask is taken once, then its branches run in the order of the source; an
      empty buffer from the network skips the close branch. */
  function Pass(e: Endpoint, inbox: seq<Packet>): Reply {
    var close := e.closeRequested && e.appIn == [];
    var e0 := if close then e.(closeRequested := false) else e;
    var r1 := if e.appIn != [] then OnAppData(e0) else Reply(e0, []);
    var r2 := if inbox != [] then OnNetwork(r1.e, inbox[0]) else Reply(r1.e, []);
    var r3 := if close && (inbox == [] || inbox[0].Segment?) then OnClose(r2.e) else Reply(r2.e, []);
    Reply(r3.e, r1.out + r2.out + r3.out)
  }

  /** A pass stays in the loop and never sets the close flag. */
  lemma {:induction false} PassKeeps(e: Endpoint, inbox: seq<Packet>)
    ensures Pass(e, inbox).e.loc == e.loc
    ensures Pass(e, inbox).e.closeRequested ==> e.closeRequested
  {
    hide Wrap32, Wrap16;
  }

  // ---- The loop around the passes ----------------------------------------------------------

  function Tail(inbox: seq<Packet>): seq<Packet> { if inbox == [] then [] else inbox[1..] }

  /** What can happen at an endpoint in `control_loop`: packets arrive, its application writes or
      closes, or its transport thread looks for an event. */
  datatype Event = Incoming(packets: seq<Packet>) | Written(buf: seq<Byte>) | Closed | Wake

  /** An endpoint, the packets waiting for it, and all it has handed to the network. */
  datatype Thread = Thread(e: Endpoint, inbox: seq<Packet>, network: seq<Packet>)

  function React(t: Thread, v: Event): Thread {
    match v
    case Incoming(ps) => t.(inbox := t.inbox + ps)
    case Written(buf) => t.(e := t.e.(appIn := t.e.appIn + [buf]))
    case Closed => t.(e := t.e.(closeRequested := true))
    case Wake =>
      if t.e.ctx.done || !Ready(t.e, t.inbox) then t else
      var r := Pass(t.e, t.inbox);
      Thread(r.e, Tail(t.inbox), t.network + r.out)
  }

  function ReactAll(t: Thread, vs: seq<Event>): Thread {
    if vs == [] then t else React(ReactAll(t, vs[..|vs| - 1]), vs[|vs| - 1])
  }
}
