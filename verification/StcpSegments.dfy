/** How the bytes that an application writes are cut into segments, over every run. */
module StcpSegments {
  import opened Words
  import opened StcpEndpoint
  import opened StcpSystem
  import opened StcpInvariant
  import opened StcpTheorems

  /** The data of the segments that carry any. */
  function Payloads(ps: seq<Packet>): seq<seq<Byte>> {
    if ps == [] then [] else
    var p := ps[|ps| - 1];
    Payloads(ps[..|ps| - 1]) + if p.Segment? && p.data != [] then [p.data] else []
  }

  /** What one side hands to the network in a step. */
  function Put(s: System, l: Label, side: Side): seq<Packet>
    requires CanStep(s, l)
  {
    if l.side != side then []
    else if side == A then Perform(s.a, s.ba, l.act).out else Perform(s.b, s.ab, l.act).out
  }

  /** Every packet that one side has handed to the network. */
  function Emitted(s0: System, steps: seq<Label>, side: Side): seq<Packet>
    requires Legal(s0, steps)
    decreases |steps|
  {
    if steps == [] then [] else
    var n := |steps| - 1;
    Emitted(s0, steps[..n], side) + Put(After(s0, steps[..n]), steps[n], side)
  }

  /** Where the `k`-th buffer ends in the stream. */
  function EndOf(bufs: seq<seq<Byte>>, k: nat): nat
    requires k <= |bufs|
  {
    |Flatten(bufs[..k])|
  }

  /** The piece from `from` to `to` has 536 bytes or ends with a buffer, and has no end of a buffer inside. */
  ghost predicate Piece(bufs: seq<seq<Byte>>, from: nat, to: nat) {
    && from < to <= from + 536
    && (to == from + 536 || exists k :: 0 <= k <= |bufs| && to == EndOf(bufs, k))
    && forall k :: 0 <= k <= |bufs| ==> !(from < EndOf(bufs, k) < to)
  }

  ghost predicate Cutting(ps: seq<seq<Byte>>, bufs: seq<seq<Byte>>) {
    forall i :: 0 <= i < |ps| ==> Piece(bufs, EndOf(ps, i), EndOf(ps, i + 1))
  }

  /** What is left to send: the last buffers, the first of them perhaps begun. */
  predicate Begun(bufs: seq<seq<Byte>>, rest: seq<seq<Byte>>) {
    |rest| <= |bufs| &&
    (rest != [] ==>
       var j := |bufs| - |rest|;
       && rest[1..] == bufs[j + 1..] && |rest[0]| <= |bufs[j]|)
  }

  ghost predicate CutSoFar(h: Host, bufs: seq<seq<Byte>>, ps: seq<seq<Byte>>) {
    Begun(bufs, h.e.appIn + h.script) && Flatten(ps) == h.sent && Cutting(ps, bufs)
  }

  // ---- Ends of buffers -----------------------------------------------------------------------------

  lemma {:induction false} EndsOrdered(bufs: seq<seq<Byte>>, j: nat, k: nat)
    requires j <= k <= |bufs|
    ensures EndOf(bufs, k) == EndOf(bufs, j) + |Flatten(bufs[j..k])|
  {
    assert bufs[..k] == bufs[..j] + bufs[j..k];
    FlattenConcat(bufs[..j], bufs[j..k]);
  }

  lemma {:induction false} EndNext(bufs: seq<seq<Byte>>, j: nat)
    requires j < |bufs|
    ensures EndOf(bufs, j + 1) == EndOf(bufs, j) + |bufs[j]|
  {
    EndsOrdered(bufs, j, j + 1);
    assert bufs[j..j + 1] == [bufs[j]];
    FlattenCons(bufs[j], []);
    assert [bufs[j]] + [] == [bufs[j]];
  }

  /** Where the sender stands in the first buffer that is left. */
  lemma {:induction false} Standing(bufs: seq<seq<Byte>>, rest: seq<seq<Byte>>, sent: nat)
    requires Begun(bufs, rest) && rest != [] && |Flatten(bufs)| == sent + |Flatten(rest)|
    ensures sent == EndOf(bufs, |bufs| - |rest| + 1) - |rest[0]|
  {
    var j := |bufs| - |rest|;
    EndsOrdered(bufs, j + 1, |bufs|);
    assert bufs[..|bufs|] == bufs && bufs[j + 1..|bufs|] == rest[1..];
  }

  lemma {:induction false} PieceTaken(bufs: seq<seq<Byte>>, rest: seq<seq<Byte>>, sent: nat, n: nat)
    requires Begun(bufs, rest) && rest != [] && |Flatten(bufs)| == sent + |Flatten(rest)|
    requires 0 < n == Min(536, |rest[0]|)
    ensures Piece(bufs, sent, sent + n)
  {
    hide Flatten;
    var j := |bufs| - |rest|;
    Standing(bufs, rest, sent);
    EndNext(bufs, j);
    assert n < 536 ==> sent + n == EndOf(bufs, j + 1);
    forall k | 0 <= k <= |bufs| ensures !(sent < EndOf(bufs, k) < sent + n) {
      if k <= j {
        EndsOrdered(bufs, k, j);
      } else {
        EndsOrdered(bufs, j + 1, k);
      }
    }
  }

  lemma {:induction false} CuttingGrows(ps: seq<seq<Byte>>, bufs: seq<seq<Byte>>, d: seq<Byte>)
    requires Cutting(ps, bufs) && Piece(bufs, |Flatten(ps)|, |Flatten(ps)| + |d|)
    ensures Cutting(ps + [d], bufs) && Flatten(ps + [d]) == Flatten(ps) + d
  {
    hide Piece, Flatten;
    var ps' := ps + [d];
    FlattenPush(ps, d);
    assert ps'[..|ps'|] == ps' && ps'[..|ps|] == ps;
    forall i | 0 <= i < |ps'| ensures Piece(bufs, EndOf(ps', i), EndOf(ps', i + 1)) {
      if i < |ps| {
        assert ps'[..i] == ps[..i] && ps'[..i + 1] == ps[..i + 1];
        assert Piece(bufs, EndOf(ps, i), EndOf(ps, i + 1));
      }
    }
  }

  // ---- Payloads --------------------------------------------------------------------------------------

  lemma {:induction false} PayloadsConcat(a: seq<Packet>, b: seq<Packet>)
    ensures Payloads(a + b) == Payloads(a) + Payloads(b)
    decreases |b|
  {
    if b == [] {
      assert a + b == a;
    } else {
      assert (a + b)[..|a + b| - 1] == a + b[..|b| - 1];
      PayloadsConcat(a, b[..|b| - 1]);
    }
  }

  predicate NoData(ps: seq<Packet>) { forall i :: 0 <= i < |ps| ==> ps[i].Segment? ==> ps[i].data == [] }

  lemma {:induction false} NoPayload(ps: seq<Packet>)
    requires NoData(ps)
    ensures Payloads(ps) == []
  {
    if ps != [] {
      NoPayload(ps[..|ps| - 1]);
    }
  }

  lemma {:induction false} RepliesNoData(e: Endpoint, p: Packet)
    ensures NoData(OnPacket(e, p).out) && OnPacket(e, p).e.appIn == e.appIn
  {
    hide Wrap32, Wrap16;
  }

  lemma {:induction false} OnlyTakeSends(h: Host, inbox: seq<Packet>, act: Action)
    requires Enabled(h, inbox, act) && act != Take
    ensures NoData(Perform(h, inbox, act).out)
  {
    hide Wrap32, Wrap16, OnPacket;
    if act == Deliver {
      RepliesNoData(h.e, inbox[0]);
    }
  }

  // ---- One step ----------------------------------------------------------------------------------------

  lemma {:induction false} RestKept(h: Host, inbox: seq<Packet>, act: Action)
    requires Enabled(h, inbox, act) && act != Take
    ensures var h' := Perform(h, inbox, act).h;
      h'.e.appIn + h'.script == h.e.appIn + h.script && h'.sent == h.sent
  {
    hide OnPacket, OnAppData, NoteAck, Wrap32, Wrap16;
    if act == Deliver {
      RepliesNoData(h.e, inbox[0]);
    } else if act == Write {
      assert h.script == [h.script[0]] + h.script[1..];
      Assoc(h.e.appIn, [h.script[0]], h.script[1..]);
    }
  }

  lemma {:induction false} TakeRest(q: seq<seq<Byte>>, script: seq<seq<Byte>>, bufs: seq<seq<Byte>>)
    requires q != [] && Begun(bufs, q + script)
    ensures var (data, left) := ReadFront(q, MSS);
      Begun(bufs, left + script) && data == q[0][..Min(536, |q[0]|)]
  {
    var rest := q + script;
    assert rest[1..] == q[1..] + script;
    var j := |bufs| - |rest|;
    if |q[0]| > MSS {
      var rest' := [q[0][MSS..]] + q[1..] + script;
      assert rest'[1..] == rest[1..];
    } else {
      assert rest[1..] != [] ==> rest[1..][0] == bufs[j + 1] && rest[1..][1..] == bufs[j + 2..];
    }
  }

  lemma {:induction false} StepCuts(h: Host, inbox: seq<Packet>, act: Action, bufs: seq<seq<Byte>>, ps: seq<seq<Byte>>)
    requires Local(h) && Enabled(h, inbox, act) && h.plan == Flatten(bufs) && CutSoFar(h, bufs, ps)
    ensures var m := Perform(h, inbox, act); CutSoFar(m.h, bufs, ps + Payloads(m.out))
  {
    var m := Perform(h, inbox, act);
    if act == Take {
      TakeCuts(h, inbox, bufs, ps);
    } else {
      hide Perform, Cutting, Begun, Flatten, Payloads, NoData;
      OnlyTakeSends(h, inbox, act);
      NoPayload(m.out);
      RestKept(h, inbox, act);
      assert ps + [] == ps;
    }
  }

  lemma {:induction false} TakeCuts(h: Host, inbox: seq<Packet>, bufs: seq<seq<Byte>>, ps: seq<seq<Byte>>)
    requires Local(h) && Enabled(h, inbox, Take) && h.plan == Flatten(bufs) && CutSoFar(h, bufs, ps)
    ensures var m := Perform(h, inbox, Take); CutSoFar(m.h, bufs, ps + Payloads(m.out))
  {
    var (data, left) := ReadFront(h.e.appIn, MSS);
    TakeEffect(h, inbox, data, left);
    TakeRest(h.e.appIn, h.script, bufs);
    var m := Perform(h, inbox, Take);
    hide Perform, Cutting, Piece, Begun, Flatten, Core, EofLast, ReadFront;
    if data == [] {
      assert Payloads(m.out) == [] && ps + [] == ps && h.sent + [] == h.sent;
    } else {
      assert m.out[..0] == [];
      assert Payloads(m.out) == [data];
      FlattenConcat(h.e.appIn, h.script);
      PieceTaken(bufs, h.e.appIn + h.script, |h.sent|, |data|);
      CuttingGrows(ps, bufs, data);
    }
  }

  // ---- Every run -----------------------------------------------------------------------------------------

  function ScriptOf(side: Side, scriptA: seq<seq<Byte>>, scriptB: seq<seq<Byte>>): seq<seq<Byte>> {
    if side == A then scriptA else scriptB
  }

  lemma {:induction false} RunCuts(
    issA: Word32, issB: Word32, scriptA: seq<seq<Byte>>, scriptB: seq<seq<Byte>>, steps: seq<Label>, side: Side)
    requires Legal(Initial(issA, issB, scriptA, scriptB), steps)
    ensures var s0 := Initial(issA, issB, scriptA, scriptB);
      CutSoFar(HostOf(After(s0, steps), side), ScriptOf(side, scriptA, scriptB), Payloads(Emitted(s0, steps, side)))
    decreases |steps|
  {
    var s0, bufs := Initial(issA, issB, scriptA, scriptB), ScriptOf(side, scriptA, scriptB);
    if steps == [] {
      assert [] + bufs == bufs;
      assert |bufs| > 0 ==> bufs[|bufs| - |bufs|..] == bufs;
    } else {
      hide CutSoFar, Payloads, Initial, CanStep, Next, Inv;
      var n := |steps| - 1;
      RunCuts(issA, issB, scriptA, scriptB, steps[..n], side);
      InitialInv(issA, issB, scriptA, scriptB);
      InitialPlans(issA, issB, scriptA, scriptB);
      RunKeepsInv(s0, steps[..n]);
      PlanFixed(s0, steps[..n]);
      NextCuts(After(s0, steps[..n]), steps[n], side, bufs, Emitted(s0, steps[..n], side));
    }
  }

  lemma {:induction false} InitialPlans(issA: Word32, issB: Word32, scriptA: seq<seq<Byte>>, scriptB: seq<seq<Byte>>)
    ensures var s0 := Initial(issA, issB, scriptA, scriptB);
      s0.a.plan == Flatten(scriptA) && s0.b.plan == Flatten(scriptB)
  {
  }

  lemma {:induction false} NextCuts(s: System, l: Label, side: Side, bufs: seq<seq<Byte>>, before: seq<Packet>)
    requires Inv(s) && CanStep(s, l) && HostOf(s, side).plan == Flatten(bufs)
    requires CutSoFar(HostOf(s, side), bufs, Payloads(before))
    ensures CutSoFar(HostOf(Next(s, l), side), bufs, Payloads(before + Put(s, l, side)))
  {
    hide CutSoFar, Payloads, Perform, Enabled, Local, Flow, Handshake, Flatten;
    if l.side == side {
      var inbox := if side == A then s.ba else s.ab;
      StepCuts(HostOf(s, side), inbox, l.act, bufs, Payloads(before));
      PayloadsConcat(before, Put(s, l, side));
    } else {
      assert before + [] == before;
    }
  }

  /** Over every run: the segments with data carry, in order, what was taken from the application; each
      has exactly 536 bytes or ends with a buffer that the application wrote, and none goes on from
      one buffer into the next. */
  lemma {:induction false} SegmentsExact(
    issA: Word32, issB: Word32, scriptA: seq<seq<Byte>>, scriptB: seq<seq<Byte>>, steps: seq<Label>, side: Side)
    requires Legal(Initial(issA, issB, scriptA, scriptB), steps)
    ensures var s0 := Initial(issA, issB, scriptA, scriptB);
      var ps, bufs := Payloads(Emitted(s0, steps, side)), if side == A then scriptA else scriptB;
      Flatten(ps) == HostOf(After(s0, steps), side).sent <= Flatten(bufs) && Cutting(ps, bufs)
  {
    hide Cutting, Begun, Flatten, Flow, Handshake;
    var s0 := Initial(issA, issB, scriptA, scriptB);
    RunCuts(issA, issB, scriptA, scriptB, steps, side);
    InitialInv(issA, issB, scriptA, scriptB);
    RunKeepsInv(s0, steps);
    PlanFixed(s0, steps);
  }
}
