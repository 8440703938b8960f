/**
 * The two endpoints run by their loops: whole passes of `control_loop` at either end, in any order,
 * with the applications and the handshake between them.
 */
module StcpLoop {
  import opened Words
  import opened StcpEndpoint
  import opened StcpSystem
  import opened StcpInvariant
  import opened StcpTheorems
  import opened StcpTermination
  import opened StcpRefinement

  /** A pass of the loop at one end, or a step outside the loop. */
  datatype Turn = OnePass(side: Side) | Outside(l: Label)

  function InboxOf(s: System, side: Side): seq<Packet> { if side == A then s.ba else s.ab }

  predicate CanTurn(s: System, g: Turn) {
    match g
    case OnePass(side) =>
      var e := HostOf(s, side).e;
      e.loc == Running && !e.ctx.done && Ready(e, InboxOf(s, side))
    case Outside(l) =>
      && CanStep(s, l) && l.act != Take && l.act != Finish
      && (l.act == Deliver ==> HostOf(s, l.side).e.loc != Running)
  }

  /** The histories are left as they are. */
  function Turned(s: System, g: Turn): System
    requires CanTurn(s, g)
  {
    match g
    case OnePass(A) =>
      var r := Pass(s.a.e, s.ba);
      s.(a := s.a.(e := r.e), ba := Tail(s.ba), ab := s.ab + r.out)
    case OnePass(B) =>
      var r := Pass(s.b.e, s.ab);
      s.(b := s.b.(e := r.e), ab := Tail(s.ab), ba := s.ba + r.out)
    case Outside(l) => Next(s, l)
  }

  predicate LegalTurns(s0: System, gs: seq<Turn>)
    decreases |gs|, 0
  {
    gs == [] ||
    var n := |gs| - 1;
    LegalTurns(s0, gs[..n]) && CanTurn(AfterTurns(s0, gs[..n]), gs[n])
  }

  function AfterTurns(s0: System, gs: seq<Turn>): System
    requires LegalTurns(s0, gs)
    decreases |gs|, 1
  {
    if gs == [] then s0 else
    var n := |gs| - 1;
    Turned(AfterTurns(s0, gs[..n]), gs[n])
  }

  // ---- Turns are runs ----------------------------------------------------------------------------

  /** Equal but for the histories. */
  predicate Same(s: System, t: System) {
    SameApp(s.a, t.a) && SameApp(s.b, t.b) && s.ab == t.ab && s.ba == t.ba && s.a.e == t.a.e && s.b.e == t.b.e
  }

  lemma {:induction false} SamePerform(h: Host, h': Host, inbox: seq<Packet>, act: Action)
    requires SameApp(h, h') && h.e == h'.e && Enabled(h, inbox, act)
    ensures Enabled(h', inbox, act)
    ensures var m, m' := Perform(h, inbox, act), Perform(h', inbox, act);
      SameApp(m.h, m'.h) && m.h.e == m'.h.e && m.inbox == m'.inbox && m.out == m'.out
  {
    hide OpenActive, OnPacket, OnAppData, OnClose, ReadFront, MaxToSend, NoteAck;
  }

  lemma {:induction false} SameStep(s: System, t: System, l: Label)
    requires Same(s, t) && CanStep(s, l)
    ensures CanStep(t, l) && Same(Next(s, l), Next(t, l))
  {
    hide Enabled, Perform;
    if l.side == A {
      SamePerform(s.a, t.a, s.ba, l.act);
    } else {
      SamePerform(s.b, t.b, s.ab, l.act);
    }
  }

  /** A turn is one step of the system or more, from every state that runs reach. */
  lemma {:induction false} TurnIsSteps(s0: System, steps: seq<Label>, s: System, g: Turn) returns (more: seq<Label>)
    requires Legal(s0, steps) && Good(After(s0, steps)) && Same(s, After(s0, steps)) && CanTurn(s, g)
    ensures Legal(s0, more) && |more| > |steps| && Same(Turned(s, g), After(s0, more))
  {
    hide Pass, Enabled, Perform, Good;
    match g
    case OnePass(A) => more := PassOfA(s0, steps);
    case OnePass(B) => more := PassOfB(s0, steps);
    case Outside(l) =>
      SameStep(s, After(s0, steps), l);
      Extend(s0, steps, l);
      more := steps + [l];
  }

  /** Short streams, as the application may write them. */
  predicate Short(script: seq<seq<Byte>>) { |Flatten(script)| < 0xffff_fffe }

  lemma {:induction false} ShortIsGood(issA: Word32, issB: Word32, scriptA: seq<seq<Byte>>, scriptB: seq<seq<Byte>>, steps: seq<Label>)
    requires Short(scriptA) && Short(scriptB) && Legal(Initial(issA, issB, scriptA, scriptB), steps)
    ensures Good(After(Initial(issA, issB, scriptA, scriptB), steps))
  {
    hide Inv, Good, Bounded;
    InitialInv(issA, issB, scriptA, scriptB);
    ShortIsBounded(Initial(issA, issB, scriptA, scriptB), steps);
    RunIsGood(issA, issB, scriptA, scriptB, steps);
  }

  /** Whatever the loops do, the system could have done. */
  lemma {:induction false} TurnsAreRuns(issA: Word32, issB: Word32, scriptA: seq<seq<Byte>>, scriptB: seq<seq<Byte>>, gs: seq<Turn>)
    returns (steps: seq<Label>)
    requires Short(scriptA) && Short(scriptB) && LegalTurns(Initial(issA, issB, scriptA, scriptB), gs)
    ensures var s0 := Initial(issA, issB, scriptA, scriptB);
      Legal(s0, steps) && |steps| >= |gs| && Same(AfterTurns(s0, gs), After(s0, steps))
    decreases |gs|
  {
    hide CanTurn, Turned, Initial, Short, Good;
    var s0 := Initial(issA, issB, scriptA, scriptB);
    if gs == [] {
      steps := [];
    } else {
      var n := |gs| - 1;
      var before := TurnsAreRuns(issA, issB, scriptA, scriptB, gs[..n]);
      ShortIsGood(issA, issB, scriptA, scriptB, before);
      steps := TurnIsSteps(s0, before, AfterTurns(s0, gs[..n]), gs[n]);
    }
  }

  /** Where no turn is possible, no step is. */
  lemma {:induction false} NoTurnNoStep(s: System, t: System)
    requires Same(s, t) && !exists g :: CanTurn(s, g)
    ensures !exists l :: CanStep(t, l)
  {
    forall l | CanStep(t, l) ensures false {
      SameStep(t, s, l);
      StepGivesTurn(s, l);
    }
  }

  lemma {:induction false} StepGivesTurn(s: System, l: Label)
    requires CanStep(s, l)
    ensures CanTurn(s, Outside(l)) || CanTurn(s, OnePass(l.side))
  {
  }

  /** The loops end: in whatever order their passes, the handshake and the applications take turns,
      there are no more turns than the rank, and where no more is possible both loops have ended by
      `done` and each application has been given the other's whole stream, then EOF. */
  lemma {:induction false} LoopsComplete(issA: Word32, issB: Word32, scriptA: seq<seq<Byte>>, scriptB: seq<seq<Byte>>, gs: seq<Turn>)
    requires Short(scriptA) && Short(scriptB) && LegalTurns(Initial(issA, issB, scriptA, scriptB), gs)
    ensures var s0 := Initial(issA, issB, scriptA, scriptB);
      var s := AfterTurns(s0, gs);
      && |gs| <= Rank(s0)
      && ((exists g :: CanTurn(s, g)) ||
          (&& s.a.e.ctx.done && s.b.e.ctx.done
           && Delivered(s.b) == Flatten(scriptA) && Delivered(s.a) == Flatten(scriptB)
           && Ended(s.a.e) && Ended(s.b.e)))
  {
    hide CanTurn, CanStep, Initial, Rank, Delivered, Inv;
    var s0 := Initial(issA, issB, scriptA, scriptB);
    var s := AfterTurns(s0, gs);
    var steps := TurnsAreRuns(issA, issB, scriptA, scriptB, gs);
    InitialInv(issA, issB, scriptA, scriptB);
    RunsAreFinite(s0, steps);
    if !exists g :: CanTurn(s, g) {
      NoTurnNoStep(s, After(s0, steps));
      ShortRunsComplete(issA, issB, scriptA, scriptB, steps);
      RunKeepsInv(s0, steps);
      DoneEnded(After(s0, steps));
      SameDelivered(s.a, After(s0, steps).a);
      SameDelivered(s.b, After(s0, steps).b);
    }
  }

  /** One marker, at the end of what is passed up. */
  predicate Ended(e: Endpoint) {
    e.appOut != [] && forall i :: 0 <= i < |e.appOut| ==> (e.appOut[i] == [] <==> i == |e.appOut| - 1)
  }

  lemma {:induction false} DoneEnded(s: System)
    requires Inv(s) && s.a.e.ctx.done && s.b.e.ctx.done
    ensures Ended(s.a.e) && Ended(s.b.e)
  {
    hide Flow, Handshake, AppSide;
  }

  lemma {:induction false} SameDelivered(h: Host, h': Host)
    requires h.e == h'.e
    ensures Delivered(h) == Delivered(h')
  {
  }

  // ---- One loop among the turns ----------------------------------------------------------------

  /** What a turn is for the endpoint at one end. */
  function EventOf(s: System, g: Turn, side: Side): Event
    requires CanTurn(s, g)
  {
    var sent := |InboxOf(s, side)|;
    match g
    case OnePass(x) =>
      if x == side then Wake else Incoming(InboxOf(Turned(s, g), side)[sent..])
    case Outside(l) =>
      if l.side != side then Incoming(InboxOf(Turned(s, g), side)[sent..]) else
      match l.act
      case Write => Written(HostOf(s, side).script[0])
      case Close => Closed
      case _ => Incoming([])
  }

  function EventsOf(s0: System, gs: seq<Turn>, side: Side): (vs: seq<Event>)
    requires LegalTurns(s0, gs)
    ensures |vs| == |gs|
    decreases |gs|
  {
    if gs == [] then [] else
    var n := |gs| - 1;
    EventsOf(s0, gs[..n], side) + [EventOf(AfterTurns(s0, gs[..n]), gs[n], side)]
  }

  function Other(side: Side): Side { if side == A then B else A }

  /** The packets that arrive, in order. */
  function Arrived(vs: seq<Event>): seq<Packet> {
    if vs == [] then [] else
    var v := vs[|vs| - 1];
    Arrived(vs[..|vs| - 1]) + if v.Incoming? then v.packets else []
  }

  /** What the system itself puts after the last packet of a loop: the hang-up of its socket. */
  function HungUp(h: Host, h': Host): seq<Packet> { if h'.hung && !h.hung then [Hangup] else [] }

  /** What a turn does at one end is what its event does to the loop there, and what the other end
      gets is what the loop put out. */
  predicate TurnAt(s: System, g: Turn, side: Side, net: seq<Packet>)
    requires CanTurn(s, g)
  {
    var s' := Turned(s, g);
    var (h, h') := (HostOf(s, side), HostOf(s', side));
    var t' := React(Thread(h.e, InboxOf(s, side), net), EventOf(s, g, side));
    var v := EventOf(s, g, Other(side));
    && h'.e.loc == Running && t'.e == h'.e && t'.inbox == InboxOf(s', side)
    && t'.network + HungUp(h, h') == net + (if v.Incoming? then v.packets else [])
    && (h.hung ==> h'.hung) && (h'.hung && !h.hung ==> h.e.ctx.done)
    && (h.e.ctx.done ==> h'.e.ctx.done && t'.network == net)
  }

  lemma {:induction false} Appended(a: seq<Packet>, b: seq<Packet>)
    ensures (a + b)[|a|..] == b && a + [] == a
  {
  }

  lemma {:induction false} OwnPass(s: System, side: Side, net: seq<Packet>)
    requires CanTurn(s, OnePass(side)) && HostOf(s, side).e.loc == Running
    ensures TurnAt(s, OnePass(side), side, net)
  {
    hide Pass, Ready;
    PassKeeps(HostOf(s, side).e, InboxOf(s, side));
    Appended(InboxOf(s, Other(side)), Pass(HostOf(s, side).e, InboxOf(s, side)).out);
    Appended(net + Pass(HostOf(s, side).e, InboxOf(s, side)).out, []);
  }

  lemma {:induction false} OwnStep(s: System, l: Label, net: seq<Packet>)
    requires CanTurn(s, Outside(l)) && HostOf(s, l.side).e.loc == Running
    ensures TurnAt(s, Outside(l), l.side, net)
  {
    hide OnPacket, OnAppData, OnClose, OpenActive, Ready, Pass;
    var side := l.side;
    Appended(InboxOf(s, side), []);
    Appended(InboxOf(s, Other(side)), Perform(HostOf(s, side), InboxOf(s, side), l.act).out);
    Appended(net, []);
  }

  lemma {:induction false} TheirPass(s: System, side: Side, net: seq<Packet>)
    requires CanTurn(s, OnePass(Other(side))) && HostOf(s, side).e.loc == Running
    ensures TurnAt(s, OnePass(Other(side)), side, net)
  {
    hide Pass, Ready;
    Appended(InboxOf(s, side), Pass(HostOf(s, Other(side)).e, InboxOf(s, Other(side))).out);
    Appended(net, []);
  }

  lemma {:induction false} TheirStep(s: System, l: Label, net: seq<Packet>)
    requires CanTurn(s, Outside(l)) && HostOf(s, Other(l.side)).e.loc == Running
    ensures TurnAt(s, Outside(l), Other(l.side), net)
  {
    hide Perform, Enabled, Ready, Pass;
    var m := Perform(HostOf(s, l.side), InboxOf(s, l.side), l.act);
    Appended(InboxOf(s, Other(l.side)), m.out);
    Appended(net, []);
  }

  lemma {:induction false} OneTurn(s: System, g: Turn, side: Side, net: seq<Packet>)
    requires CanTurn(s, g) && HostOf(s, side).e.loc == Running
    ensures TurnAt(s, g, side, net)
  {
    hide TurnAt, CanTurn, HostOf;
    match g
    case OnePass(x) =>
      if x == side {
        OwnPass(s, side, net);
      } else {
        TheirPass(s, side, net);
      }
    case Outside(l) =>
      if l.side == side {
        OwnStep(s, l, net);
      } else {
        TheirStep(s, l, net);
      }
  }

  function PacketsOf(v: Event): seq<Packet> { if v.Incoming? then v.packets else [] }

  /** Where a loop stands: `h0` is its endpoint's host at the start, `arrived` what the other end got. */
  predicate Standing(h0: Host, h: Host, inbox: seq<Packet>, t: Thread, arrived: seq<Packet>) {
    && t.e == h.e && h.e.loc == Running && t.inbox == inbox && t.network + HungUp(h0, h) == arrived
    && (h.hung ==> h.e.ctx.done) && (h0.hung ==> h.hung)
  }

  lemma {:induction false} StillStanding(s: System, g: Turn, side: Side, h0: Host, t: Thread, arrived: seq<Packet>)
    requires CanTurn(s, g) && Standing(h0, HostOf(s, side), InboxOf(s, side), t, arrived)
    requires TurnAt(s, g, side, t.network)
    ensures var s' := Turned(s, g);
      Standing(h0, HostOf(s', side), InboxOf(s', side), React(t, EventOf(s, g, side)),
               arrived + PacketsOf(EventOf(s, g, Other(side))))
  {
    hide CanTurn, Turned, EventOf, React, HostOf, InboxOf;
    var h, h' := HostOf(s, side), HostOf(Turned(s, g), side);
    assert t == Thread(h.e, InboxOf(s, side), t.network);
    Assoc(t.network, HungUp(h0, h), PacketsOf(EventOf(s, g, Other(side))));
    Appended(t.network, []);
    Appended(arrived, []);
  }

  /** Among any turns, the loop at one end goes as `ReactAll` says on what happens to it, and the
      packets that arrive at the other end are those that it has handed to the network, in order,
      then the hang-up of its socket. */
  lemma {:induction false} LoopAmongTurns(s0: System, gs: seq<Turn>, side: Side)
    requires LegalTurns(s0, gs) && HostOf(s0, side).e.loc == Running
    requires HostOf(s0, side).hung ==> HostOf(s0, side).e.ctx.done
    ensures var s := AfterTurns(s0, gs);
      var t := ReactAll(Thread(HostOf(s0, side).e, InboxOf(s0, side), []), EventsOf(s0, gs, side));
      Standing(HostOf(s0, side), HostOf(s, side), InboxOf(s, side), t, Arrived(EventsOf(s0, gs, Other(side))))
    decreases |gs|
  {
    var t0 := Thread(HostOf(s0, side).e, InboxOf(s0, side), []);
    if gs == [] {
      hide CanTurn, Turned, EventOf, React;
      Appended([], []);
    } else {
      hide CanTurn, Turned, EventOf, React, Standing, TurnAt, HostOf, InboxOf;
      var n := |gs| - 1;
      LoopAmongTurns(s0, gs[..n], side);
      var s := AfterTurns(s0, gs[..n]);
      var t := ReactAll(t0, EventsOf(s0, gs[..n], side));
      StandingRuns(HostOf(s0, side), HostOf(s, side), InboxOf(s, side), t, Arrived(EventsOf(s0, gs[..n], Other(side))));
      OneTurn(s, gs[n], side, t.network);
      StillStanding(s, gs[n], side, HostOf(s0, side), t, Arrived(EventsOf(s0, gs[..n], Other(side))));
      EventsPush(s0, gs, side);
      EventsPush(s0, gs, Other(side));
    }
  }

  lemma {:induction false} StandingRuns(h0: Host, h: Host, inbox: seq<Packet>, t: Thread, arrived: seq<Packet>)
    requires Standing(h0, h, inbox, t, arrived)
    ensures h.e.loc == Running
  {
  }

  lemma {:induction false} EventsPush(s0: System, gs: seq<Turn>, side: Side)
    requires gs != [] && LegalTurns(s0, gs)
    ensures var n := |gs| - 1;
      var v := EventOf(AfterTurns(s0, gs[..n]), gs[n], side);
      && EventsOf(s0, gs, side)[..n] == EventsOf(s0, gs[..n], side) && EventsOf(s0, gs, side)[n] == v
  {
    hide CanTurn, Turned, EventOf;
  }
}
