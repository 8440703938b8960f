/**
 * Two STCP endpoints, an active one (`a`) and a passive one (`b`), joined by two FIFO
 * packet channels, each driven by an application that writes a finite list of buffers
 * and then closes. Every step of either side may be taken at any time.
 */
module StcpSystem {
  import opened Words
  import opened StcpEndpoint

  /**
   * An endpoint with its application. `script` is what the application has still to
   * write and `closed` says it has called `myclose`; `hung` says the finished endpoint's
   * socket is closed. History: `plan` is all the application ever writes, `sent` what
   * the transport has taken from it, and `acked` how many sequence units of this side
   * the peer has been seen to acknowledge.
   */
  datatype Host = Host(
    active: bool, e: Endpoint, script: seq<seq<Byte>>, closed: bool, hung: bool,
    plan: seq<Byte>, sent: seq<Byte>, acked: nat)

  /** `ab` holds the packets from `a` to `b` not yet processed, `ba` the converse. */
  datatype System = System(a: Host, b: Host, ab: seq<Packet>, ba: seq<Packet>)

  datatype Action =
    | Open      // the active side sends its SYN
    | Deliver   // the endpoint processes the packet at the head of its channel
    | Write     // mywrite
    | Close     // myclose
    | Take      // APP_DATA branch
    | Finish    // APP_CLOSE_REQUESTED branch
    | HangUp    // the finished endpoint's socket is closed

  datatype Side = A | B
  datatype Label = Label(side: Side, act: Action)
  datatype Move = Move(h: Host, inbox: seq<Packet>, out: seq<Packet>)

  function NewHost(active: bool, iss: Word32, script: seq<seq<Byte>>): Host {
    Host(active, NewEndpoint(active, iss), script, false, false, Flatten(script), [], 0)
  }

  function Initial(issA: Word32, issB: Word32, scriptA: seq<seq<Byte>>, scriptB: seq<seq<Byte>>): System {
    System(NewHost(true, issA, scriptA), NewHost(false, issB, scriptB), [], [])
  }

  predicate Enabled(h: Host, inbox: seq<Packet>, act: Action) {
    match act
    case Open => h.e.loc == Fresh
    case Deliver => h.e.loc != Fresh && h.e.loc != Refused && !h.e.ctx.done && inbox != []
    case Write => h.e.loc == Running && h.script != []
    case Close => h.e.loc == Running && h.script == [] && !h.closed
    case Take => h.e.loc == Running && !h.e.ctx.done && h.e.appIn != []
    case Finish => h.e.loc == Running && !h.e.ctx.done && h.e.closeRequested && h.e.appIn == []
    case HangUp => h.e.ctx.done && !h.hung
  }

  /** The position that the 32-bit acknowledgement number `a` denotes, at or after `lo`. */
  function Unwrap(iss: Word32, lo: nat, a: Word32): nat {
    lo + Wrap32(a - iss - lo)
  }

  function NoteAck(h: Host, p: Packet): nat {
    if p.Segment? && p.flags.ack then Unwrap(h.e.ctx.iss, h.acked, p.ackno) else h.acked
  }

  function Perform(h: Host, inbox: seq<Packet>, act: Action): Move
    requires Enabled(h, inbox, act)
  {
    match act
    case Open => var r := OpenActive(h.e); Move(h.(e := r.e), inbox, r.out)
    case Deliver =>
      var r := OnPacket(h.e, inbox[0]);
      Move(h.(e := r.e, acked := NoteAck(h, inbox[0])), inbox[1..], r.out)
    case Write => Move(h.(e := h.e.(appIn := h.e.appIn + [h.script[0]]), script := h.script[1..]), inbox, [])
    case Close => Move(h.(e := h.e.(closeRequested := true), closed := true), inbox, [])
    case Take =>
      var r := OnAppData(h.e);
      var got := if r.out == [] then [] else ReadFront(h.e.appIn, MaxToSend(h.e.ctx)).0;
      Move(h.(e := r.e, sent := h.sent + got), inbox, r.out)
    case Finish => var r := OnClose(h.e); Move(h.(e := r.e), inbox, r.out)
    case HangUp => Move(h.(hung := true), inbox, [Hangup])
  }

  function HostOf(s: System, side: Side): Host { if side == A then s.a else s.b }

  predicate CanStep(s: System, l: Label) {
    if l.side == A then Enabled(s.a, s.ba, l.act) else Enabled(s.b, s.ab, l.act)
  }

  function Next(s: System, l: Label): System
    requires CanStep(s, l)
  {
    if l.side == A then
      var m := Perform(s.a, s.ba, l.act);
      s.(a := m.h, ba := m.inbox, ab := s.ab + m.out)
    else
      var m := Perform(s.b, s.ab, l.act);
      s.(b := m.h, ab := m.inbox, ba := s.ba + m.out)
  }

  /** `steps` can be taken one after the other from `s0`. */
  predicate Legal(s0: System, steps: seq<Label>)
    decreases |steps|, 0
  {
    steps == [] ||
    var n := |steps| - 1;
    Legal(s0, steps[..n]) && CanStep(After(s0, steps[..n]), steps[n])
  }

  function After(s0: System, steps: seq<Label>): System
    requires Legal(s0, steps)
    decreases |steps|, 1
  {
    if steps == [] then s0 else
    var n := |steps| - 1;
    Next(After(s0, steps[..n]), steps[n])
  }

  // ---- Positions in the two sequence spaces ---------------------------------------------

  /** Sequence units this side has sent: its SYN, the bytes taken, its FIN. */
  function Snd(h: Host): nat {
    if h.e.loc == Fresh || h.e.loc == AwaitSyn then 0
    else 1 + |h.sent| + if h.e.ctx.finSent then 1 else 0
  }

  /** Bytes this side has passed up to its application. */
  function Delivered(h: Host): seq<Byte> { Flatten(h.e.appOut) }

  /** Sequence units this side has received in order. */
  function Rcv(h: Host): nat {
    if h.e.loc == Fresh || h.e.loc == AwaitSyn || h.e.loc == AwaitSynAck then 0
    else 1 + |Delivered(h)| + if h.e.ctx.finReceived then 1 else 0
  }

  /** Sequence units a packet takes up. */
  function Width(p: Packet): nat {
    if p.Hangup? then 0 else if p.flags.syn || p.flags.fin then 1 else |p.data|
  }

  /** The packet is what a sender at position `pos` of `stream` may send: a segment carries
      exactly the bytes that its sequence number stands for. */
  predicate Fits(p: Packet, iss: Word32, stream: seq<Byte>, pos: nat) {
    p.Hangup? ||
    var n := |p.data|;
    && p.seqno == Wrap32(iss + pos) && p.win == WINDOW && n <= MSS
    && if p.flags.syn then pos == 0 && n == 0 && !p.flags.fin
       else if p.flags.fin then pos == |stream| + 1 && n == 0
       else 1 <= pos && (n > 0 ==> pos - 1 + n <= |stream| && p.data == stream[pos - 1..pos - 1 + n])
  }

  /** The packets of a channel, from position `pos`, cover the sender's sequence space up to
      `end` without gap or overlap, and nothing follows a hang-up. */
  ghost predicate Tiles(ch: seq<Packet>, iss: Word32, stream: seq<Byte>, pos: nat, end: nat) {
    if ch == [] then pos == end else
    && (ch[0].Hangup? ==> |ch| == 1)
    && Fits(ch[0], iss, stream, pos)
    && Tiles(ch[1..], iss, stream, pos + Width(ch[0]), end)
  }

  /** The acknowledgements in a channel denote a non-decreasing chain of positions of the
      other side's sequence space, from `lo` to exactly `hi`. */
  ghost predicate AckChain(ch: seq<Packet>, iss: Word32, lo: nat, hi: nat) {
    if ch == [] then lo == hi
    else if ch[0].Segment? && ch[0].flags.ack then
      var k := Unwrap(iss, lo, ch[0].ackno);
      k >= 1 && AckChain(ch[1..], iss, k, hi)
    else AckChain(ch[1..], iss, lo, hi)
  }

  // ---- The invariant ---------------------------------------------------------------------

  /** What connects the connection state with the FIN flags. */
  predicate Machine(c: Context) {
    && c.done == (c.finSent && c.finReceived && c.finAcked)
    && match c.state
       case ESTABLISHED => !c.finSent && !c.finReceived && !c.finAcked
       case FIN_WAIT_1 => c.finSent && !c.finReceived && !c.finAcked
       case FIN_WAIT_2 => c.finSent && c.finAcked
       case CLOSING => c.finSent && c.finReceived
       case CLOSE_WAIT => !c.finSent && c.finReceived && !c.finAcked
       case LAST_ACK => c.finSent && c.finReceived && !c.finAcked
       case CLOSED => c.done
       case _ => false
  }

  /** The buffers passed up are non-empty, except the EOF marker, which is last. */
  predicate EofLast(e: Endpoint) {
    && (e.ctx.finReceived ==> e.appOut != [])
    && forall i :: 0 <= i < |e.appOut| ==> (e.appOut[i] == [] <==> e.ctx.finReceived && i == |e.appOut| - 1)
  }

  /** Before `control_loop` nothing has been exchanged with the application. */
  predicate Quiet(h: Host) {
    var c := h.e.ctx;
    && !c.done && !c.finSent && !c.finReceived && !c.finAcked
    && h.e.appIn == [] && h.e.appOut == [] && h.sent == [] && h.acked == 0
    && !h.closed && !h.e.closeRequested
  }

  /** The context of a host: its thread is where its role allows, its windows are never
      used up, and its FIN flags agree with its state. */
  predicate Core(h: Host) {
    var c := h.e.ctx;
    && h.e.loc != Refused
    && (h.active ==> h.e.loc != AwaitSyn && h.e.loc != AwaitAck)
    && (!h.active ==> h.e.loc != Fresh && h.e.loc != AwaitSynAck)
    && c.recvWindow == WINDOW && c.recvUsed == 0 && c.peerWindow == WINDOW && c.lastSent == c.lastAck
    && c.seqNum == Wrap32(c.iss + Snd(h))
    && (if h.e.loc == Running then Machine(c) else Quiet(h))
    && (h.hung ==> c.done)
  }

  /** What is taken from the application is a prefix of what it writes, and the close flag
      and the FIN follow the last byte. */
  predicate AppSide(h: Host) {
    var c := h.e.ctx;
    && h.plan == h.sent + Flatten(h.e.appIn) + Flatten(h.script)
    && (h.closed ==> h.script == [])
    && (h.e.closeRequested ==> h.closed && !c.finSent)
    && (h.closed && !h.e.closeRequested ==> c.finSent)
    && (c.finSent ==> h.closed && h.e.appIn == [])
  }

  /** What holds of one host on its own. */
  predicate Local(h: Host) { Core(h) && AppSide(h) && EofLast(h.e) }

  /** `xy` carries the rest of what `x` has sent, from position `from` on. */
  ghost predicate Carries(x: Host, xy: seq<Packet>, from: nat) {
    && Tiles(xy, x.e.ctx.iss, x.sent, from, Snd(x))
    && (Hangup in xy ==> x.hung)
    && (forall i :: 0 <= i < |xy| && xy[i].Segment? && !xy[i].flags.ack ==> xy[i].flags.syn && x.active)
  }

  /** What `y` has received is what `x` has sent, as far as `y` has got. */
  predicate Tracks(x: Host, y: Host) {
    && Delivered(y) <= x.sent
    && (y.e.ctx.finReceived ==> x.e.ctx.finSent && Delivered(y) == x.sent)
    && (Rcv(y) > 0 ==> y.e.ctx.ackNum == Wrap32(x.e.ctx.iss + Rcv(y)))
    && (Rcv(y) > 0 && !y.e.ctx.finReceived ==> y.e.ctx.nextExpected == y.e.ctx.ackNum)
  }

  /** The flow of bytes from `x` to `y`: `xy` carries them, `yx` the acknowledgements. */
  ghost predicate Flow(x: Host, y: Host, xy: seq<Packet>, yx: seq<Packet>) {
    Carries(x, xy, Rcv(y)) && Tracks(x, y) && AckChain(yx, x.e.ctx.iss, x.acked, Rcv(y))
  }

  /** The two threads advance through `transport_init` in step. */
  predicate Handshake(s: System) {
    && s.a.active && !s.b.active
    && match s.a.e.loc
       case Fresh => s.ab == [] && s.b.e.loc == AwaitSyn
       case AwaitSynAck => (s.b.e.loc == AwaitSyn && |s.ab| == 1) || (s.b.e.loc == AwaitAck && s.ab == [])
       case Running =>
         || s.b.e.loc == Running
         || (s.b.e.loc == AwaitAck && s.ab != [] && s.ab[0].Segment? && s.ab[0].flags == ACK && s.ab[0].data == [])
       case _ => false
  }

  /** The invariant of every run, whatever the streams and their length. */
  ghost predicate Inv(s: System) {
    && Local(s.a) && Local(s.b) && Handshake(s)
    && Flow(s.a, s.b, s.ab, s.ba) && Flow(s.b, s.a, s.ba, s.ab)
  }
}
