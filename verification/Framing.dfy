/** Packets over a byte stream: a 16-bit length before each, written and read in short pieces. */
module Framing {
  import opened Words
  import opened Octets

  type Bytes = seq<Octet>

  // ---- The format --------------------------------------------------------------------------------

  /** The length in network order, as the low 16 bits of it. */
  function LengthField(n: nat): Bytes {
    var w := Wrap16(n);
    StoredBytes(w);
    [w / 256, w % 256]
  }

  function Frame(p: Bytes): Bytes { LengthField(|p|) + p }

  function Frames(ps: seq<Bytes>): Bytes {
    if ps == [] then [] else Frame(ps[0]) + Frames(ps[1..])
  }

  /** What a read of one packet gives on a stream that ends after `input`: the length announced,
      the bytes that fit the buffer and the rest of the stream, or a return value of 0. */
  datatype Received = Packet(len: nat, data: Bytes, rest: Bytes) | Zero(left: Bytes)

  function Receive(input: Bytes, max: nat): Received {
    if |input| < 2 then Zero([]) else
    var len := BigEndian(input[0], input[1]);
    var body := input[2..];
    var m := Min(len, max);
    if m == 0 then Zero(body)
    else if |body| < m then Zero([])
    else Packet(len, body[..m], body[Min(len, |body|)..])
  }

  /** The packets that the receiving thread takes in until a read returns 0. */
  function ReceiveAll(input: Bytes, max: nat): seq<(nat, Bytes)>
    decreases |input|
  {
    match Receive(input, max)
    case Zero(_) => []
    case Packet(len, data, rest) => [(len, data)] + ReceiveAll(rest, max)
  }

  lemma {:induction false} FieldReads(n: nat)
    ensures |LengthField(n)| == 2 && BigEndian(LengthField(n)[0], LengthField(n)[1]) == Wrap16(n)
  {
    BytesOf(Wrap16(n));
  }

  /** A frame is read back, and the stream left at the next one, exactly for packets of 1 to 65535
      bytes and a buffer that is not empty; what does not fit the buffer is dropped. */
  lemma {:induction false} FrameExact(p: Bytes, rest: Bytes, max: nat)
    ensures Receive(Frame(p) + rest, max) == Packet(|p|, p[..Min(|p|, max)], rest)
      <==> 1 <= |p| <= 65535 && max > 0
  {
    FieldReads(|p|);
    hide BigEndian, LengthField;
    var input := Frame(p) + rest;
    var body := input[2..];
    assert input[0] == LengthField(|p|)[0] && input[1] == LengthField(|p|)[1];
    assert body == p + rest;
    if 1 <= |p| <= 65535 && max > 0 {
      assert body[..Min(|p|, max)] == p[..Min(|p|, max)];
      assert body[|p|..] == rest;
    }
  }

  /** On the wire the high byte of the length comes first, then its low byte, then the packet. */
  lemma {:induction false} FrameOnWire(p: Bytes)
    ensures |Frame(p)| == 2 + |p| && Frame(p)[2..] == p
    ensures Frame(p)[0] == |p| / 256 % 256 && Frame(p)[1] == |p| % 256
  {
    var h := |p| / 256;
    LowWord(|p|, h / 256, h % 256 * 256 + |p| % 256);
  }

  predicate Sendable(ps: seq<Bytes>) { forall i :: 0 <= i < |ps| ==> 1 <= |ps[i]| <= 65535 }

  /** What arrives: every packet in order, cut to the buffer. */
  function Cut(ps: seq<Bytes>, max: nat): seq<(nat, Bytes)> {
    seq(|ps|, i requires 0 <= i < |ps| => (|ps[i]|, ps[i][..Min(|ps[i]|, max)]))
  }

  /** Any sequence of such packets is recovered, a frame longer than the buffer not disturbing the
      frames after it. */
  lemma {:induction false} FramesRecovered(ps: seq<Bytes>, max: nat)
    requires Sendable(ps) && max > 0
    ensures ReceiveAll(Frames(ps), max) == Cut(ps, max)
    decreases |ps|
  {
    if ps != [] {
      hide Receive, Frame, Cut, Min;
      FrameExact(ps[0], Frames(ps[1..]), max);
      FramesRecovered(ps[1..], max);
      CutFirst(ps, max);
    } else {
      assert Receive([], max) == Zero([]);
    }
  }

  lemma {:induction false} CutFirst(ps: seq<Bytes>, max: nat)
    requires ps != []
    ensures Cut(ps, max) == [(|ps[0]|, ps[0][..Min(|ps[0]|, max)])] + Cut(ps[1..], max)
  {
  }

  // ---- The socket --------------------------------------------------------------------------------

  /**
   * One end of a connection. `incoming` is what the peer will have written when it closes, as far
   * as not yet read; the n-th call of read or write moves as many bytes as `schedule` says, at
   * least one, or fails where it is negative.
   */
  class Socket {
    const schedule: nat -> int
    var calls: nat
    var incoming: Bytes
    var outgoing: Bytes

    constructor (schedule: nat -> int, incoming: Bytes)
      ensures this.schedule == schedule && this.incoming == incoming && outgoing == []
    {
      this.schedule := schedule;
      this.incoming := incoming;
      calls, outgoing := 0, [];
    }

    ghost predicate Reliable() reads this { forall n :: schedule(n) >= 0 }

    /** `write`: some of the bytes, at least one. */
    method Write(buf: Bytes) returns (rc: int)
      requires buf != []
      modifies this`calls, this`outgoing
      ensures rc < 0 ==> outgoing == old(outgoing) && !Reliable()
      ensures rc >= 0 ==> 1 <= rc <= |buf| && outgoing == old(outgoing) + buf[..rc]
    {
      var n := schedule(calls);
      calls := calls + 1;
      if n < 0 { return -1; }
      rc := 1 + n % |buf|;
      outgoing := outgoing + buf[..rc];
    }

    /** `read`: some of the bytes wanted, at least one unless the stream has ended. */
    method Read(count: nat) returns (rc: int, data: Bytes)
      requires count > 0
      modifies this`calls, this`incoming
      ensures rc < 0 ==> incoming == old(incoming) && data == [] && !Reliable()
      ensures rc == 0 ==> old(incoming) == [] && incoming == [] && data == []
      ensures rc > 0 ==> rc <= Min(count, |old(incoming)|)
      ensures rc > 0 ==> data == old(incoming)[..rc] && incoming == old(incoming)[rc..]
    {
      var n := schedule(calls);
      calls := calls + 1;
      if n < 0 { return -1, []; }
      if incoming == [] { return 0, []; }
      rc := 1 + n % Min(count, |incoming|);
      data := incoming[..rc];
      incoming := incoming[rc..];
    }

    /** `_tcp_io` with `write`. */
    method WriteAll(buf: Bytes) returns (rc: int)
      modifies this`calls, this`outgoing
      ensures rc >= 0 ==> rc == |buf| && outgoing == old(outgoing) + buf
      ensures rc < 0 ==> !Reliable()
    {
      var done := 0;
      while done < |buf|
        invariant 0 <= done <= |buf|
        invariant outgoing == old(outgoing) + buf[..done]
      {
        var n := Write(buf[done..]);
        if n <= 0 { return n; }
        assert buf[..done + n] == buf[..done] + buf[done..][..n];
        done := done + n;
      }
      rc := |buf|;
    }

    /** `_tcp_io` with `read`: the whole count, or 0 where the stream ends before. */
    method ReadAll(count: nat) returns (rc: int, data: Bytes)
      modifies this`calls, this`incoming
      ensures rc < 0 ==> !Reliable()
      ensures rc >= 0 && |old(incoming)| < count ==> rc == 0 && incoming == []
      ensures rc >= 0 && count <= |old(incoming)| ==>
        rc == count && data == old(incoming)[..count] && incoming == old(incoming)[count..]
    {
      var all := incoming;
      data := [];
      while |data| < count
        invariant |data| <= count && |data| <= |all|
        invariant data == all[..|data|] && incoming == all[|data|..]
        decreases count - |data|
      {
        var n, piece := Read(count - |data|);
        if n <= 0 { return n, data; }
        assert all[..|data| + n] == all[..|data|] + all[|data|..][..n];
        data := data + piece;
      }
      rc := count;
    }

    /** `_network_send_packet`. */
    method Send(p: Bytes) returns (rc: int)
      modifies this`calls, this`outgoing
      ensures rc < 0 ==> !Reliable()
      ensures rc >= 0 ==> rc == |p| && outgoing == old(outgoing) + Frame(p)
    {
      var n := WriteAll(LengthField(|p|));
      if n < 0 { return -1; }
      n := WriteAll(p);
      if n < 0 { return -1; }
      rc := |p|;
    }

    /** `_network_recv_packet` on a connected socket. */
    method Recv(max: nat) returns (rc: int, data: Bytes)
      modifies this`calls, this`incoming
      ensures rc < 0 ==> !Reliable()
      ensures rc == 0 ==> Receive(old(incoming), max).Zero? && incoming == Receive(old(incoming), max).left
      ensures rc > 0 ==>
        var r := Receive(old(incoming), max);
        r.Packet? && r.len == rc && r.data == data && (Reliable() ==> incoming == r.rest)
    {
      hide BigEndian;
      var n, field := ReadAll(2);
      if n <= 0 { return n, []; }
      var len := BigEndian(field[0], field[1]);
      n, data := ReadAll(Min(len, max));
      if n <= 0 { return n, data; }
      if len > max {
        var rest, _ := ReadAll(len - max);
      }
      rc := len;
    }

    /** The receiving thread: what it queues is the packets until a read returns 0, then the empty
        buffer that tells the transport. */
    method Drain(max: nat) returns (got: seq<(nat, Bytes)>)
      requires Reliable()
      modifies this`calls, this`incoming
      ensures got == ReceiveAll(old(incoming), max) + [END]
    {
      hide Receive;
      got := [];
      while true
        invariant got + ReceiveAll(incoming, max) == ReceiveAll(old(incoming), max)
        decreases |incoming|
      {
        var before := incoming;
        ReceiveShrinks(before, max);
        var rc, data := Recv(max);
        if rc <= 0 { return got + [END]; }
        assert ReceiveAll(before, max) == [(rc, data)] + ReceiveAll(incoming, max);
        got := got + [(rc, data)];
      }
    }
  }

  lemma {:induction false} ReceiveShrinks(input: Bytes, max: nat)
    ensures Receive(input, max).Packet? ==> |Receive(input, max).rest| < |input|
  {
    hide BigEndian;
  }

  /** The empty buffer. A packet that is received is never empty. */
  const END: (nat, Bytes) := (0, [])

  lemma {:induction false} EndIsLast(input: Bytes, max: nat)
    ensures END !in ReceiveAll(input, max)
    decreases |input|
  {
    hide BigEndian;
    if Receive(input, max).Packet? {
      EndIsLast(Receive(input, max).rest, max);
    }
  }

  /** End to end, for any schedules of short writing and short reads: the receiver gets the packets
      that were sent, in order, then the empty buffer. */
  method Transfer(ps: seq<Bytes>, max: nat, writing: nat -> int, reading: nat -> int) returns (got: seq<(nat, Bytes)>)
    requires Sendable(ps) && max > 0
    requires (forall n :: writing(n) >= 0) && (forall n :: reading(n) >= 0)
    ensures got == Cut(ps, max) + [END]
  {
    var sender := new Socket(writing, []);
    for i := 0 to |ps|
      invariant fresh(sender) && sender.Reliable()
      invariant sender.outgoing + Frames(ps[i..]) == Frames(ps)
    {
      hide Frame;
      assert ps[i..][1..] == ps[i + 1..];
      var rc := sender.Send(ps[i]);
    }
    assert sender.outgoing == Frames(ps);
    var receiver := new Socket(reading, sender.outgoing);
    got := receiver.Drain(max);
    FramesRecovered(ps, max);
  }
}
