/**
 * The bound on unacknowledged bytes cannot be dropped: with 2^32 sequence units
 * outstanding, the acknowledgement of the SYN passes for the acknowledgement of the FIN.
 */
module StcpAliasing {
  import opened Words
  import opened StcpEndpoint
  import opened StcpSystem
  import opened StcpInvariant
  import opened StcpTheorems
  import opened StcpTermination

  /** `t` differs from `s` only in what `a` has sent of its application's data. */
  predicate OnlySent(s: System, t: System) {
    && t.b == s.b && t.ba == s.ba
    && t.a == s.a.(e := s.a.e.(appIn := t.a.e.appIn, ctx := s.a.e.ctx.(seqNum := t.a.e.ctx.seqNum)), sent := t.a.sent)
  }

  /** `a` takes all its application has written while nothing else happens. */
  lemma {:induction false} TakeAll(s0: System, steps: seq<Label>) returns (more: seq<Label>)
    requires Inv(s0) && Legal(s0, steps)
    requires After(s0, steps).a.e.loc == Running && !After(s0, steps).a.e.ctx.done
    ensures Legal(s0, more) && OnlySent(After(s0, steps), After(s0, more)) && After(s0, more).a.e.appIn == []
    decreases BufferWeight(After(s0, steps).a.e.appIn, 1)
  {
    hide Inv;
    var s := After(s0, steps);
    if s.a.e.appIn == [] {
      more := steps;
    } else {
      var l := Label(A, Take);
      RunKeepsInv(s0, steps);
      Extend(s0, steps, l);
      var (data, rest) := ReadFront(s.a.e.appIn, MSS);
      LocalOfA(s);
      TakeEffect(s.a, s.ba, data, rest);
      TakeWeight(s.a.e.appIn, MSS);
      more := TakeAll(s0, steps + [l]);
    }
  }

  lemma {:induction false} LocalOfA(s: System)
    requires Inv(s)
    ensures Local(s.a)
  {
  }

  /** The stages of the handshake. */
  function SynSent(big: seq<Byte>): System {
    var s0 := Initial(0, 0, [big], [[0]]);
    s0.(a := s0.a.(e := s0.a.e.(loc := AwaitSynAck, ctx := NewContext(0).(state := SYN_SENT, seqNum := 1))),
        ab := [Segment(0, 0, SYN, WINDOW, [])])
  }

  function SynAckSent(big: seq<Byte>): System {
    var s0 := Initial(0, 0, [big], [[0]]);
    s0.(a := s0.a.(e := s0.a.e.(loc := AwaitSynAck, ctx := NewContext(0).(state := SYN_SENT, seqNum := 1))),
        b := s0.b.(e := s0.b.e.(loc := AwaitAck,
                                ctx := NewContext(0).(state := SYN_RCVD, seqNum := 1, ackNum := 1, nextExpected := 1))),
        ba := [Segment(0, 1, SYN_ACK, WINDOW, [])])
  }

  function AckSent(big: seq<Byte>): System {
    var s := SynAckSent(big);
    var c := NewContext(0).(state := ESTABLISHED, seqNum := 1, ackNum := 1, nextExpected := 1);
    s.(a := s.a.(e := s.a.e.(loc := Running, ctx := c), acked := 1),
       ab := [Segment(1, 1, ACK, WINDOW, [])], ba := [])
  }

  function Connected(big: seq<Byte>): System {
    var s0 := Initial(0, 0, [big], [[0]]);
    var c := NewContext(0).(state := ESTABLISHED, seqNum := 1, ackNum := 1, nextExpected := 1);
    s0.(a := s0.a.(e := s0.a.e.(loc := Running, ctx := c), acked := 1),
        b := s0.b.(e := s0.b.e.(loc := Running, ctx := c), acked := 1))
  }

  lemma {:induction false} StepToSynSent(big: seq<Byte>)
    ensures var s0 := Initial(0, 0, [big], [[0]]); CanStep(s0, Label(A, Open)) && Next(s0, Label(A, Open)) == SynSent(big)
  {
    var syn := Segment(0, 0, SYN, WINDOW, []);
    assert [] + [syn] == [syn];
  }

  lemma {:induction false} StepToSynAckSent(big: seq<Byte>)
    ensures CanStep(SynSent(big), Label(B, Deliver)) && Next(SynSent(big), Label(B, Deliver)) == SynAckSent(big)
  {
    var s := SynSent(big);
    assert s.ab[1..] == [];
    var r := OnPacket(s.b.e, s.ab[0]);
    assert r.out == [Segment(0, 1, SYN_ACK, WINDOW, [])];
    assert s.ba + r.out == r.out;
  }

  lemma {:induction false} StepToAckSent(big: seq<Byte>)
    ensures CanStep(SynAckSent(big), Label(A, Deliver))
    ensures Next(SynAckSent(big), Label(A, Deliver)) == AckSent(big)
  {
    var s := SynAckSent(big);
    assert s.ba[1..] == [];
    var r := OnPacket(s.a.e, s.ba[0]);
    assert r.out == [Segment(1, 1, ACK, WINDOW, [])];
    assert s.ab + r.out == r.out;
    assert NoteAck(s.a, s.ba[0]) == 1;
  }

  lemma {:induction false} StepToConnected(big: seq<Byte>)
    ensures CanStep(AckSent(big), Label(B, Deliver))
    ensures Next(AckSent(big), Label(B, Deliver)) == Connected(big)
  {
    var s := AckSent(big);
    assert s.ab[1..] == [];
    assert s.ba + [] == [];
    assert NoteAck(s.b, s.ab[0]) == 1;
  }

  lemma {:induction false} ToConnected(s0: System, big: seq<Byte>) returns (steps: seq<Label>)
    requires s0 == Initial(0, 0, [big], [[0]])
    ensures Legal(s0, steps) && After(s0, steps) == Connected(big)
  {
    hide SynSent, SynAckSent, AckSent, Connected, Next, CanStep, Initial;
    StepToSynSent(big);
    StepToSynAckSent(big);
    StepToAckSent(big);
    StepToConnected(big);
    steps := [];
    Extend(s0, steps, Label(A, Open));
    steps := steps + [Label(A, Open)];
    Extend(s0, steps, Label(B, Deliver));
    steps := steps + [Label(B, Deliver)];
    Extend(s0, steps, Label(A, Deliver));
    steps := steps + [Label(A, Deliver)];
    Extend(s0, steps, Label(B, Deliver));
    steps := steps + [Label(B, Deliver)];
  }

  /** `b` then sends one byte, which acknowledges only the SYN of `a`, and the application of
      `a` writes. */
  predicate AboutToSend(s: System, big: seq<Byte>) {
    && s.a == Connected(big).a.(script := [], e := Connected(big).a.e.(appIn := [big]))
    && s.b.e.loc == Running && !s.b.e.ctx.finReceived && s.b.e.appOut == []
    && s.ba == [Segment(1, 1, ACK, WINDOW, [0])]
  }

  function Written(big: seq<Byte>): System {
    var s := Connected(big);
    s.(b := s.b.(e := s.b.e.(appIn := [[0]]), script := []))
  }

  lemma {:induction false} StepToWritten(big: seq<Byte>)
    ensures CanStep(Connected(big), Label(B, Write)) && Next(Connected(big), Label(B, Write)) == Written(big)
  {
    var s := Connected(big);
    assert s.b.script[1..] == [] && s.b.e.appIn + [s.b.script[0]] == [[0]];
    assert s.ba + [] == s.ba;
  }

  lemma {:induction false} StepsToAboutToSend(big: seq<Byte>)
    ensures CanStep(Written(big), Label(B, Take))
    ensures var t := Next(Written(big), Label(B, Take)); CanStep(t, Label(A, Write)) && AboutToSend(Next(t, Label(A, Write)), big)
  {
    var s := Written(big);
    var r := OnAppData(s.b.e);
    assert MaxToSend(s.b.e.ctx) == MSS;
    assert r.out == [Segment(1, 1, ACK, WINDOW, [0])];
    assert s.ba + r.out == r.out && r.out + [] == r.out;
    assert [] + [big] == [big];
  }

  lemma {:induction false} Prelude(s0: System, big: seq<Byte>) returns (steps: seq<Label>)
    requires s0 == Initial(0, 0, [big], [[0]])
    ensures Legal(s0, steps) && AboutToSend(After(s0, steps), big)
  {
    hide Written, Connected, Next, CanStep, Initial, AboutToSend;
    steps := ToConnected(s0, big);
    StepToWritten(big);
    StepsToAboutToSend(big);
    Extend(s0, steps, Label(B, Write));
    steps := steps + [Label(B, Write)];
    Extend(s0, steps, Label(B, Take));
    steps := steps + [Label(B, Take)];
    Extend(s0, steps, Label(A, Write));
    steps := steps + [Label(A, Write)];
  }

  /** `a` closes after its application's last byte has been taken. */
  lemma {:induction false} ToFinSent(s0: System, steps: seq<Label>) returns (more: seq<Label>)
    requires Legal(s0, steps)
    requires var a := After(s0, steps).a;
      && a.e.loc == Running && !a.e.ctx.done && !a.e.ctx.finSent && a.script == [] && !a.closed && a.e.appIn == []
    ensures Legal(s0, more)
    ensures var s, t := After(s0, steps), After(s0, more);
      t.b == s.b && t.ba == s.ba && t.a.e.loc == Running && t.a.e.ctx.finSent && !t.a.e.ctx.done &&
      t.a.e.ctx.iss == s.a.e.ctx.iss
  {
    Extend(s0, steps, Label(A, Close));
    Extend(s0, steps + [Label(A, Close)], Label(A, Finish));
    more := steps + [Label(A, Close)] + [Label(A, Finish)];
  }

  /** `a` holds its FIN for acknowledged although `b` has received neither the FIN nor any of
      the bytes before it. */
  predicate FalselyAcked(s: System) {
    s.a.e.ctx.finAcked && !s.b.e.ctx.finReceived && Delivered(s.b) == []
  }

  /** Some legal run with 2^32 - 1 bytes outstanding ends so. */
  lemma {:induction false} BoundIsNeeded(s0: System, big: seq<Byte>)
    requires |big| == 0xffff_ffff && s0 == Initial(0, 0, [big], [[0]])
    ensures exists steps :: Legal(s0, steps) && FalselyAcked(After(s0, steps))
  {
    hide Inv;
    InitialInv(0, 0, [big], [[0]]);
    var steps := Prelude(s0, big);
    steps := TakeAll(s0, steps);
    steps := ToFinSent(s0, steps);
    RunKeepsInv(s0, steps);
    PlanFixed(s0, steps);
    Extend(s0, steps, Label(A, Deliver));
    MistakesAck(After(s0, steps), big);
    assert Legal(s0, steps + [Label(A, Deliver)]);
  }

  lemma {:induction false} MistakesAck(s: System, big: seq<Byte>)
    requires Inv(s) && s.a.plan == Flatten([big]) && |big| == 0xffff_ffff && s.a.e.ctx.iss == 0
    requires s.a.e.loc == Running && s.a.e.ctx.finSent && !s.a.e.ctx.done
    requires s.ba == [Segment(1, 1, ACK, WINDOW, [0])] && !s.b.e.ctx.finReceived && s.b.e.appOut == []
    ensures FalselyAcked(Next(s, Label(A, Deliver)))
  {
    Finished(s, big);
    DeliverEffect(s.b, s.a, s.ba, s.ab);
  }

  lemma {:induction false} Finished(s: System, big: seq<Byte>)
    requires Inv(s) && s.a.plan == Flatten([big]) && |big| == 0xffff_ffff && s.a.e.ctx.iss == 0
    requires s.a.e.loc == Running && s.a.e.ctx.finSent
    ensures s.a.e.ctx.seqNum == 1
  {
    hide Handshake, Flow, EofLast, Machine, Quiet;
    FlattenPush([], big);
    assert [] + [big] == [big];
    assert Flatten<Byte>([]) == [];
    assert s.a.sent == s.a.plan;
    assert Snd(s.a) == 0x1_0000_0001;
  }
}
