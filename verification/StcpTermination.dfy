/** Every run of the two-endpoint system is finite and ends with both streams delivered. */
module StcpTermination {
  import opened Words
  import opened StcpEndpoint
  import opened StcpSystem
  import opened StcpInvariant
  import opened StcpTheorems

  /** A packet weighs one more than the replies it can cause in `control_loop`. */
  function PacketWeight(p: Packet): nat {
    if p.Hangup? then 1 else
    1 + (if p.flags.fin then 1 else 0) + (if p.data != [] then 1 else 0)
  }

  function ChannelWeight(ch: seq<Packet>): nat {
    if ch == [] then 0 else PacketWeight(ch[0]) + ChannelWeight(ch[1..])
  }

  /** Each byte may become a segment of its own; each buffer costs `each` more. */
  function BufferWeight(bufs: seq<seq<Byte>>, each: nat): nat {
    if bufs == [] then 0 else each + 3 * |bufs[0]| + BufferWeight(bufs[1..], each)
  }

  /** What a thread has still to send in `transport_init`. */
  function HandshakeWeight(e: Endpoint): nat {
    match e.loc
    case Fresh => 4
    case AwaitSynAck => 2
    case AwaitSyn => 2
    case _ => 0
  }

  function HostWeight(h: Host): nat {
    HandshakeWeight(h.e)
    + BufferWeight(h.script, 2) + BufferWeight(h.e.appIn, 1)
    + (if h.closed then 0 else 4) + (if h.e.closeRequested then 3 else 0) + (if h.hung then 0 else 2)
  }

  function Rank(s: System): nat {
    HostWeight(s.a) + HostWeight(s.b) + ChannelWeight(s.ab) + ChannelWeight(s.ba)
  }

  lemma {:induction false} ChannelWeightConcat(a: seq<Packet>, b: seq<Packet>)
    ensures ChannelWeight(a + b) == ChannelWeight(a) + ChannelWeight(b)
  {
    if a == [] {
      assert a + b == b;
    } else {
      assert (a + b)[0] == a[0] && (a + b)[1..] == a[1..] + b;
      ChannelWeightConcat(a[1..], b);
    }
  }

  lemma {:induction false} BufferWeightPush(bufs: seq<seq<Byte>>, x: seq<Byte>, each: nat)
    ensures BufferWeight(bufs + [x], each) == BufferWeight(bufs, each) + each + 3 * |x|
  {
    if bufs == [] {
      assert bufs + [x] == [x];
    } else {
      assert (bufs + [x])[0] == bufs[0] && (bufs + [x])[1..] == bufs[1..] + [x];
      BufferWeightPush(bufs[1..], x, each);
    }
  }

  lemma {:induction false} TakeWeight(q: seq<seq<Byte>>, max: nat)
    requires q != [] && max > 0
    ensures var (data, rest) := ReadFront(q, max);
      if data == [] then BufferWeight(rest, 1) < BufferWeight(q, 1)
      else BufferWeight(rest, 1) + 3 <= BufferWeight(q, 1)
  {
    var (data, rest) := ReadFront(q, max);
    if |q[0]| > max {
      assert rest[0] == q[0][max..] && rest[1..] == q[1..];
    }
  }

  /** What a step gives off weighs less than what it uses up. */
  ghost predicate Lighter(h: Host, inbox: seq<Packet>, m: Move) {
    HostWeight(m.h) + ChannelWeight(m.inbox) + ChannelWeight(m.out) < HostWeight(h) + ChannelWeight(inbox)
  }

  lemma {:induction false} PacketReplies(e: Endpoint, p: Packet)
    requires e.loc != Fresh && e.loc != Refused
    ensures ChannelWeight(OnPacket(e, p).out) + HandshakeWeight(OnPacket(e, p).e) < PacketWeight(p) + HandshakeWeight(e)
    ensures OnPacket(e, p).e.appIn == e.appIn && OnPacket(e, p).e.closeRequested == e.closeRequested
  {
    hide Wrap32;
    if e.loc == Running && p.Segment? {
      NetworkReplies(e, p);
    } else {
      forall q: Packet ensures ChannelWeight([q]) == PacketWeight(q) {
        assert [q][1..] == [];
      }
    }
  }

  lemma {:induction false} NetworkReplies(e: Endpoint, p: Packet)
    requires p.Segment?
    ensures ChannelWeight(OnNetwork(e, p).out) < PacketWeight(p)
  {
    hide Wrap32;
    var r1 := OnFin(e.(ctx := e.ctx.(peerWindow := p.win)), p);
    var r2 := OnData(r1.e.(ctx := OnAck(r1.e.ctx, p)), p);
    ChannelWeightConcat(r1.out, r2.out);
    forall q: Packet ensures ChannelWeight([q]) == PacketWeight(q) {
      assert [q][1..] == [];
    }
    assert ChannelWeight(r1.out) == if p.flags.fin then 1 else 0;
    assert ChannelWeight(r2.out) == if p.data != [] then 1 else 0;
  }

  lemma {:induction false} StepLighter(h: Host, inbox: seq<Packet>, act: Action)
    requires Local(h) && Enabled(h, inbox, act)
    ensures Lighter(h, inbox, Perform(h, inbox, act))
  {
    var m := Perform(h, inbox, act);
    match act
    case Deliver => PacketReplies(h.e, inbox[0]);
    case Write => BufferWeightPush(h.e.appIn, h.script[0], 1);
    case Take =>
      var (data, rest) := ReadFront(h.e.appIn, MSS);
      TakeEffect(h, inbox, data, rest);
      TakeWeight(h.e.appIn, MSS);
      if data != [] {
        assert m.out[1..] == [];
      }
    case Close =>
    case _ => assert m.out[1..] == [];
  }

  /** The rank decreases with every step of a run. */
  lemma {:induction false} RankDecreases(s: System, l: Label)
    requires Inv(s) && CanStep(s, l)
    ensures Rank(Next(s, l)) < Rank(s)
  {
    if l.side == A {
      StepLighter(s.a, s.ba, l.act);
      ChannelWeightConcat(s.ab, Perform(s.a, s.ba, l.act).out);
    } else {
      StepLighter(s.b, s.ab, l.act);
      ChannelWeightConcat(s.ba, Perform(s.b, s.ab, l.act).out);
    }
  }

  /** No run takes more steps than the rank of its first state. */
  lemma {:induction false} RunsAreFinite(s0: System, steps: seq<Label>)
    requires Inv(s0) && Legal(s0, steps)
    ensures |steps| + Rank(After(s0, steps)) <= Rank(s0)
    decreases |steps|
  {
    if steps != [] {
      var n := |steps| - 1;
      RunsAreFinite(s0, steps[..n]);
      RunKeepsInv(s0, steps[..n]);
      RankDecreases(After(s0, steps[..n]), steps[n]);
    }
  }

  /** Whatever the interleaving, simultaneous close included: a run cannot go on for ever, and
      where it stops both endpoints are done and both applications have the other's whole
      stream followed by EOF. */
  lemma {:induction false} EveryRunCompletes(issA: Word32, issB: Word32, scriptA: seq<seq<Byte>>, scriptB: seq<seq<Byte>>, steps: seq<Label>)
    requires Legal(Initial(issA, issB, scriptA, scriptB), steps)
    requires Bounded(Initial(issA, issB, scriptA, scriptB), steps)
    ensures var s0 := Initial(issA, issB, scriptA, scriptB);
      var s := After(s0, steps);
      && |steps| <= Rank(s0)
      && ((exists l :: CanStep(s, l)) ||
          (s.a.e.ctx.done && s.b.e.ctx.done && Complete(s.a, s.b) && Complete(s.b, s.a)))
  {
    var s0 := Initial(issA, issB, scriptA, scriptB);
    InitialInv(issA, issB, scriptA, scriptB);
    RunsAreFinite(s0, steps);
    RunIsGood(issA, issB, scriptA, scriptB, steps);
    var s := After(s0, steps);
    if s.a.e.ctx.done && s.b.e.ctx.done {
      CloseIsComplete(issA, issB, scriptA, scriptB, steps);
    } else {
      NoDeadlock(s);
    }
  }

  // ---- Streams shorter than 2^32 need no hypothesis ---------------------------------------------

  lemma {:induction false} ShortIsFew(s: System)
    requires Inv(s) && |s.a.plan| < 0xffff_fffe && |s.b.plan| < 0xffff_fffe
    ensures FewUnacked(s)
  {
  }

  lemma {:induction false} ShortIsBounded(s0: System, steps: seq<Label>)
    requires Inv(s0) && Legal(s0, steps) && |s0.a.plan| < 0xffff_fffe && |s0.b.plan| < 0xffff_fffe
    ensures Bounded(s0, steps)
    decreases |steps|
  {
    RunKeepsInv(s0, steps);
    PlanFixed(s0, steps);
    ShortIsFew(After(s0, steps));
    if steps != [] {
      ShortIsBounded(s0, steps[..|steps| - 1]);
    }
  }

  lemma {:induction false} ShortRunsComplete(issA: Word32, issB: Word32, scriptA: seq<seq<Byte>>, scriptB: seq<seq<Byte>>, steps: seq<Label>)
    requires |Flatten(scriptA)| < 0xffff_fffe && |Flatten(scriptB)| < 0xffff_fffe
    requires Legal(Initial(issA, issB, scriptA, scriptB), steps)
    requires !exists l :: CanStep(After(Initial(issA, issB, scriptA, scriptB), steps), l)
    ensures var s := After(Initial(issA, issB, scriptA, scriptB), steps);
      && s.a.e.ctx.done && s.b.e.ctx.done
      && Delivered(s.b) == Flatten(scriptA) && Delivered(s.a) == Flatten(scriptB)
  {
    var s0 := Initial(issA, issB, scriptA, scriptB);
    InitialInv(issA, issB, scriptA, scriptB);
    ShortIsBounded(s0, steps);
    EveryRunCompletes(issA, issB, scriptA, scriptB, steps);
    PlanFixed(s0, steps);
  }
}
