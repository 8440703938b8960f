/** A whole pass of `control_loop` is a run of the two-endpoint system. */
module StcpRefinement {
  import opened Words
  import opened StcpEndpoint
  import opened StcpSystem
  import opened StcpInvariant
  import opened StcpTheorems

  /** Actions that a host can perform one after the other. */
  predicate Can(h: Host, inbox: seq<Packet>, acts: seq<Action>)
    decreases |acts|
  {
    acts == [] || (Enabled(h, inbox, acts[0]) &&
      var m := Perform(h, inbox, acts[0]); Can(m.h, m.inbox, acts[1..]))
  }

  function PerformAll(h: Host, inbox: seq<Packet>, acts: seq<Action>): Move
    requires Can(h, inbox, acts)
    decreases |acts|
  {
    if acts == [] then Move(h, inbox, []) else
    var m := Perform(h, inbox, acts[0]);
    var m' := PerformAll(m.h, m.inbox, acts[1..]);
    m'.(out := m.out + m'.out)
  }

  /** The branches that a pass takes, as actions of the system. */
  function Branches(e: Endpoint, inbox: seq<Packet>): seq<Action> {
    if e.appIn != [] then (if inbox != [] then [Take, Deliver] else [Take])
    else if e.closeRequested then (if inbox != [] then [Deliver, Finish] else [Finish])
    else if inbox != [] then [Deliver] else []
  }

  /** A step of the thread changes the endpoint and the histories alone. */
  predicate SameApp(h: Host, h': Host) { h' == h.(e := h'.e, sent := h'.sent, acked := h'.acked) }

  /** `acts` carries out the pass. */
  predicate CarriesOut(h: Host, inbox: seq<Packet>, acts: seq<Action>) {
    && Can(h, inbox, acts)
    && var m := PerformAll(h, inbox, acts);
    && m.h.e == Pass(h.e, inbox).e && m.inbox == Tail(inbox) && m.out == Pass(h.e, inbox).out
    && SameApp(h, m.h)
  }

  lemma {:induction false} Once(h: Host, inbox: seq<Packet>, a: Action)
    requires Enabled(h, inbox, a)
    ensures Can(h, inbox, [a]) && PerformAll(h, inbox, [a]) == Perform(h, inbox, a)
  {
    hide Enabled, Perform;
    var m := Perform(h, inbox, a);
    assert [a][1..] == [];
    assert Can(m.h, m.inbox, [a][1..]);
    assert m.out + [] == m.out;
  }

  lemma {:induction false} Twice(h: Host, inbox: seq<Packet>, a: Action, b: Action)
    requires Enabled(h, inbox, a) && Enabled(Perform(h, inbox, a).h, Perform(h, inbox, a).inbox, b)
    ensures Can(h, inbox, [a, b])
    ensures var m := Perform(h, inbox, a);
      var m' := Perform(m.h, m.inbox, b);
      PerformAll(h, inbox, [a, b]) == m'.(out := m.out + m'.out)
  {
    hide Enabled, Perform;
    var m := Perform(h, inbox, a);
    Once(m.h, m.inbox, b);
    assert [a, b][1..] == [b];
  }

  lemma {:induction false} PassTake(h: Host, inbox: seq<Packet>)
    requires h.e.loc == Running && !h.e.ctx.done && h.e.appIn != []
    ensures CarriesOut(h, inbox, Branches(h.e, inbox))
  {
    hide Wrap32, OnNetwork, OnAppData, Can, PerformAll;
    TakeRuns(h, inbox);
    var m := Perform(h, inbox, Take);
    if inbox == [] {
      Once(h, inbox, Take);
      assert m.out == m.out + [] + [];
    } else {
      Twice(h, inbox, Take, Deliver);
      var m2 := Perform(m.h, inbox, Deliver);
      assert m.out + m2.out == m.out + m2.out + [];
    }
  }

  lemma {:induction false} TakeRuns(h: Host, inbox: seq<Packet>)
    requires Enabled(h, inbox, Take)
    ensures var m := Perform(h, inbox, Take);
      m.h.e.loc == Running && !m.h.e.ctx.done && m.inbox == inbox && m.h.e == OnAppData(h.e).e && m.out == OnAppData(h.e).out
  {
  }

  /** The handler ignores the close flag. */
  lemma {:induction false} NetworkIgnoresClose(e: Endpoint, p: Packet)
    ensures OnNetwork(e.(closeRequested := false), p).out == OnNetwork(e, p).out
    ensures OnNetwork(e.(closeRequested := false), p).e == OnNetwork(e, p).e.(closeRequested := false)
    ensures OnNetwork(e, p).e.appIn == e.appIn && OnNetwork(e, p).e.closeRequested == e.closeRequested
    ensures OnNetwork(e, p).e.loc == e.loc
  {
    hide Wrap32, Wrap16, MakeSegment, OnAck;
  }

  lemma {:induction false} CloseIgnoresFlag(e: Endpoint)
    ensures OnClose(e.(closeRequested := false)) == OnClose(e)
  {
  }

  /** A close that is waiting survives the packet handled before it. */
  lemma {:induction false} NotDoneYet(x: Host, y: Host, xy: seq<Packet>, yx: seq<Packet>)
    requires Local(x) && Local(y) && Flow(x, y, xy, yx) && Flow(y, x, yx, xy)
    requires Enabled(y, xy, Deliver) && y.e.loc == Running && y.e.closeRequested
    ensures !Perform(y, xy, Deliver).h.e.ctx.done
  {
    hide Wrap32;
    StepReceive(x, y, xy, yx);
    DeliverEffect(x, y, xy, yx);
  }

  lemma {:induction false} PassClose(x: Host, y: Host, xy: seq<Packet>, yx: seq<Packet>)
    requires Local(x) && Local(y) && Flow(x, y, xy, yx) && Flow(y, x, yx, xy)
    requires y.e.loc == Running && !y.e.ctx.done && y.e.appIn == [] && y.e.closeRequested
    requires xy == [] || xy[0].Segment?
    ensures CarriesOut(y, xy, Branches(y.e, xy))
  {
    hide Wrap32, OnNetwork, OnClose, Local, Flow, Can, PerformAll;
    CloseIgnoresFlag(y.e);
    if xy == [] {
      Once(y, xy, Finish);
      var m := Perform(y, xy, Finish);
      assert m.out == [] + [] + m.out;
    } else {
      NotDoneYet(x, y, xy, yx);
      NetworkIgnoresClose(y.e, xy[0]);
      var m := Perform(y, xy, Deliver);
      CloseIgnoresFlag(m.h.e);
      Twice(y, xy, Deliver, Finish);
      var m2 := Perform(m.h, m.inbox, Finish);
      assert m.out + m2.out == [] + m.out + m2.out;
    }
  }

  lemma {:induction false} PassNetwork(h: Host, inbox: seq<Packet>)
    requires h.e.loc == Running && !h.e.ctx.done && h.e.appIn == [] && !h.e.closeRequested
    ensures CarriesOut(h, inbox, Branches(h.e, inbox))
  {
    hide Wrap32, OnNetwork;
    if inbox != [] {
      Once(h, inbox, Deliver);
      var m := Perform(h, inbox, Deliver);
      assert m.out == [] + m.out + [];
    }
  }

  /** From any reachable state, the pass of a running endpoint is no step, one or two. */
  lemma {:induction false} PassIsSteps(x: Host, y: Host, xy: seq<Packet>, yx: seq<Packet>)
    requires Local(x) && Local(y) && Flow(x, y, xy, yx) && Flow(y, x, yx, xy) && AckedRight(x) && AckedRight(y)
    requires y.e.loc == Running && !y.e.ctx.done
    ensures CarriesOut(y, xy, Branches(y.e, xy))
  {
    hide CarriesOut;
    if y.e.appIn != [] {
      PassTake(y, xy);
    } else if y.e.closeRequested {
      if xy != [] && xy[0].Hangup? {
        HangupOnlyWhenDone(x, y, xy, yx);
      }
      PassClose(x, y, xy, yx);
    } else {
      PassNetwork(y, xy);
    }
  }

  // ---- In the system -----------------------------------------------------------------------

  lemma {:induction false} RunOfA(s0: System, steps: seq<Label>, acts: seq<Action>) returns (more: seq<Label>)
    requires Legal(s0, steps) && Can(After(s0, steps).a, After(s0, steps).ba, acts)
    ensures Legal(s0, more) && |more| == |steps| + |acts|
    ensures var s, t := After(s0, steps), After(s0, more);
      var m := PerformAll(s.a, s.ba, acts);
      t == s.(a := m.h, ba := m.inbox, ab := s.ab + m.out)
    decreases |acts|
  {
    hide Enabled, Perform;
    var s := After(s0, steps);
    if acts == [] {
      more := steps;
      assert s.ab + [] == s.ab;
    } else {
      var l := Label(A, acts[0]);
      Extend(s0, steps, l);
      more := RunOfA(s0, steps + [l], acts[1..]);
      var m := Perform(s.a, s.ba, acts[0]);
      var m' := PerformAll(m.h, m.inbox, acts[1..]);
      assert s.ab + m.out + m'.out == s.ab + (m.out + m'.out);
    }
  }

  lemma {:induction false} RunOfB(s0: System, steps: seq<Label>, acts: seq<Action>) returns (more: seq<Label>)
    requires Legal(s0, steps) && Can(After(s0, steps).b, After(s0, steps).ab, acts)
    ensures Legal(s0, more) && |more| == |steps| + |acts|
    ensures var s, t := After(s0, steps), After(s0, more);
      var m := PerformAll(s.b, s.ab, acts);
      t == s.(b := m.h, ab := m.inbox, ba := s.ba + m.out)
    decreases |acts|
  {
    hide Enabled, Perform;
    var s := After(s0, steps);
    if acts == [] {
      more := steps;
      assert s.ba + [] == s.ba;
    } else {
      var l := Label(B, acts[0]);
      Extend(s0, steps, l);
      more := RunOfB(s0, steps + [l], acts[1..]);
      var m := Perform(s.b, s.ab, acts[0]);
      var m' := PerformAll(m.h, m.inbox, acts[1..]);
      assert s.ba + m.out + m'.out == s.ba + (m.out + m'.out);
    }
  }

  /** A pass of `control_loop` in a reachable state extends the run that led there. */
  lemma {:induction false} PassOfA(s0: System, steps: seq<Label>) returns (more: seq<Label>)
    requires Legal(s0, steps) && Good(After(s0, steps))
    requires After(s0, steps).a.e.loc == Running && !After(s0, steps).a.e.ctx.done
    ensures Legal(s0, more) && |more| == |steps| + |Branches(After(s0, steps).a.e, After(s0, steps).ba)|
    ensures var s, t := After(s0, steps), After(s0, more);
      var r := Pass(s.a.e, s.ba);
      t.b == s.b && t.a.e == r.e && SameApp(s.a, t.a) && t.ba == Tail(s.ba) && t.ab == s.ab + r.out
  {
    hide Pass;
    var s := After(s0, steps);
    PassIsSteps(s.b, s.a, s.ba, s.ab);
    more := RunOfA(s0, steps, Branches(s.a.e, s.ba));
  }

  lemma {:induction false} PassOfB(s0: System, steps: seq<Label>) returns (more: seq<Label>)
    requires Legal(s0, steps) && Good(After(s0, steps))
    requires After(s0, steps).b.e.loc == Running && !After(s0, steps).b.e.ctx.done
    ensures Legal(s0, more) && |more| == |steps| + |Branches(After(s0, steps).b.e, After(s0, steps).ab)|
    ensures var s, t := After(s0, steps), After(s0, more);
      var r := Pass(s.b.e, s.ab);
      t.a == s.a && t.b.e == r.e && SameApp(s.b, t.b) && t.ab == Tail(s.ab) && t.ba == s.ba + r.out
  {
    hide Pass;
    var s := After(s0, steps);
    PassIsSteps(s.a, s.b, s.ab, s.ba);
    more := RunOfB(s0, steps, Branches(s.b.e, s.ab));
  }
}
