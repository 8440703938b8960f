/** One router: from the bytes of an IP header to the packet that goes out or waits in the ARP queue. */
module Router {
  import opened Words
  import opened Octets
  import opened IpForward
  import Prefix = LongestPrefix
  import Arp = ArpSpec
  import Queue = ArpQueue
  import Search = ArpSearch
  import Runs = ArpRuns
  import Theorems = ArpTheorems
  import Cache = ArpCache

  const SRC := 12
  const DST := 16
  const PROTOCOL := 9
  const ICMP: Octet := 1

  /** The four bytes of an address as a little-endian host loads them, and the word as a number. */
  function WordAt(h: Header, i: nat): Prefix.Word
    requires i + 4 <= 20
  {
    Word(h[i] as bv8, h[i + 1] as bv8, h[i + 2] as bv8, h[i + 3] as bv8)
  }

  function Word(b0: bv8, b1: bv8, b2: bv8, b3: bv8): Prefix.Word {
    (b0 as bv32) | ((b1 as bv32) << 8) | ((b2 as bv32) << 16) | ((b3 as bv32) << 24)
  }

  function IpOf(w: Prefix.Word): Arp.Ip { w as int }

  function WordOf(ip: Arp.Ip): Prefix.Word { ip as bv32 }

  /** `sr_get_interface`: an interface is its position; a route may name one that is not there. */
  datatype Config = Config(table: seq<Prefix.Route>, addresses: seq<Prefix.Word>)

  /** Where a packet for an address goes: the best entry's gateway and interface. */
  function NextHop(c: Config, ip: Prefix.Word): Option<Arp.Hop> {
    match Prefix.Best(c.table, ip)
    case NoRoute => None
    case Found(k) =>
      if c.table[k].iface < |c.addresses| then Some(Arp.Hop(IpOf(c.table[k].gw), c.table[k].iface)) else None
  }

  function EnvOf(c: Config): Arp.Env {
    Arp.Env((ip: Arp.Ip) => NextHop(c, WordOf(ip)), (i: nat) => if i < |c.addresses| then IpOf(c.addresses[i]) else 0)
  }

  predicate Ours(c: Config, ip: Prefix.Word) { ip in c.addresses }

  /** A packet and the hop it is for, or nothing. */
  datatype Sending = Nothing | Through(p: Arp.Packet, gw: Arp.Ip)

  function Via(hop: Option<Arp.Hop>, frame: Arp.Frame): Sending {
    if hop.None? then Nothing else Through(Arp.Packet(frame, hop.value.iface), hop.value.gw)
  }

  /** The datagram of a header that came in on an interface, and the ICMP error about it. */
  function Incoming(h: Header, id: nat): Arp.Frame { Arp.Datagram(id, IpOf(WordAt(h, SRC))) }

  function Complaint(c: Config, h: Header, id: nat, from: nat): Sending {
    Via(NextHop(c, WordAt(h, SRC)), Arp.IcmpError(Incoming(h, id), EnvOf(c).address(from)))
  }

  /**
   * What the router does with a header that came in on the interface `from`: the verdict, and what
   * is handed to the ARP layer. `echo` says whether an ICMP packet is an echo request.
   */
  function React(c: Config, h: Header, id: nat, from: nat, echo: bool): (Verdict, Sending) {
    if !Accepts(h) then (Rejected, Nothing)
    else if Ours(c, WordAt(h, DST)) then
      if h[PROTOCOL] != ICMP then (Local, Complaint(c, h, id, from))
      else if echo then (Local, Via(NextHop(c, WordAt(h, SRC)), Arp.Datagram(id, IpOf(WordAt(h, DST)))))
      else (Local, Nothing)
    else if Decremented(h[TTL]) == 0 then (Expired, Complaint(c, h, id, from))
    else
      match Prefix.Best(c.table, WordAt(h, DST))
      case NoRoute => (Unroutable, Complaint(c, h, id, from))
      case Found(_) =>
        var hop := NextHop(c, WordAt(h, DST));
        if hop.None? then (NoInterface, Nothing) else (Sent, Via(hop, Incoming(h, id)))
  }

  /** The verdict alone. */
  predicate Judged(c: Config, h: Header, v: Verdict) {
    var ours, hop := Ours(c, WordAt(h, DST)), NextHop(c, WordAt(h, DST));
    && (v.Rejected? <==> !Accepts(h)) && (v.Local? <==> Accepts(h) && ours)
    && (v.Expired? <==> Accepts(h) && !ours && h[TTL] == 1)
    && (v.Unroutable? <==> Accepts(h) && !ours && h[TTL] != 1 && Prefix.Best(c.table, WordAt(h, DST)).NoRoute?)
    && (v.Sent? <==> Accepts(h) && !ours && h[TTL] != 1 && hop.Some?)
  }

  /** What is handed on, given the verdict. */
  function Answer(c: Config, h: Header, id: nat, from: nat, echo: bool, v: Verdict): Sending {
    if v.Sent? then Via(NextHop(c, WordAt(h, DST)), Incoming(h, id))
    else if v.Local? && h[PROTOCOL] == ICMP then
      if echo then Via(NextHop(c, WordAt(h, SRC)), Arp.Datagram(id, IpOf(WordAt(h, DST)))) else Nothing
    else if v.Local? || v.Expired? || v.Unroutable? then Complaint(c, h, id, from)
    else Nothing
  }

  lemma {:induction false} ReactIs(c: Config, h: Header, id: nat, from: nat, echo: bool, v: Verdict)
    requires Judged(c, h, v)
    ensures React(c, h, id, from, echo) == (v, Answer(c, h, id, from, echo, v))
  {
    hide Accepts, WordAt, Prefix.Best, Complaint, Incoming;
  }

  /** The header that is left in the buffer. */
  function Rewritten(h: Header, v: Verdict): Header {
    if v.Rejected? || v.Local? then h else if v.Expired? then h[TTL := 0] else Forwarded(h)
  }

  class Router {
    const config: Config
    const arp: Cache.ArpCache

    constructor (config: Config)
      ensures this.config == config && arp.env == EnvOf(config) && fresh(arp) && fresh(arp.entries)
      ensures arp.View() == Runs.Empty
    {
      this.config := config;
      arp := new Cache.ArpCache(EnvOf(config));
    }

    /** The loop over the interfaces. */
    method ForUs(ip: Prefix.Word) returns (ours: bool)
      ensures ours <==> Ours(config, ip)
    {
      for i := 0 to |config.addresses|
        invariant ip !in config.addresses[..i]
      {
        if config.addresses[i] == ip { return true; }
      }
      assert config.addresses[..|config.addresses|] == config.addresses;
      return false;
    }

    /** The route and the interface of it. */
    method Lookup(ip: Prefix.Word) returns (routed: bool, hop: Option<Arp.Hop>)
      ensures routed == Prefix.Best(config.table, ip).Found? && hop == NextHop(config, ip)
    {
      var m := Prefix.Walk(config.table, ip);
      if m.NoRoute? { return false, None; }
      var r := config.table[m.index];
      return true, if r.iface < |config.addresses| then Some(Arp.Hop(IpOf(r.gw), r.iface)) else None;
    }

    /** `sr_handlepacket` for an IP packet, where the ARP layer returns. */
    method Receive(h: array<Octet>, id: nat, from: nat, echo: bool, now: int) returns (v: Verdict)
      requires h.Length == 20 && arp.env == EnvOf(config) && Queue.Queue(arp.View(), now)
      requires var s := React(config, h[..], id, from, echo).1;
        s.Through? ==> Arp.Forward(arp.env, arp.View(), s.p, s.gw, now).Done?
      modifies h, arp
      ensures v == React(config, old(h[..]), id, from, echo).0 && h[..] == Rewritten(old(h[..]), v)
      ensures var s := React(config, old(h[..]), id, from, echo).1;
        if s.Nothing? then arp.View() == old(arp.View())
        else Arp.Forward(arp.env, old(arp.View()), s.p, s.gw, now) == Arp.Done(arp.View())
    {
      hide Accepts, Forwarded, WordAt, Prefix.Best, Queue.Queue, EnvOf, Answer, React, Judged, Rewritten;
      var head: Header := h[..];
      v := Judge(h);
      ReactIs(config, head, id, from, echo, v);
      Emit(Answer(config, head, id, from, echo, v), now);
    }

    /** The part of `Receive` that works on the header. */
    method Judge(h: array<Octet>) returns (v: Verdict)
      requires h.Length == 20
      modifies h
      ensures Judged(config, old(h[..]), v) && h[..] == Rewritten(old(h[..]), v)
    {
      hide Accepts, Forwarded, WordAt, Prefix.Best;
      var head: Header := h[..];
      var ours := ForUs(WordAt(head, DST));
      var routed, hop := Lookup(WordAt(head, DST));
      v := HandleIp(h, ours, routed, hop.Some?);
    }

    /** Handing a packet to the ARP layer. */
    method Emit(s: Sending, now: int)
      requires Queue.Queue(arp.View(), now)
      requires s.Through? ==> Arp.Forward(arp.env, arp.View(), s.p, s.gw, now).Done?
      modifies arp
      ensures if s.Nothing? then arp.View() == old(arp.View())
        else Arp.Forward(arp.env, old(arp.View()), s.p, s.gw, now) == Arp.Done(arp.View())
    {
      if s.Through? {
        Returning(arp.env, arp.View(), s.p, s.gw, now);
        arp.Send(s.p, s.gw, now);
      }
    }
  }

  lemma {:induction false} Returning(env: Arp.Env, st: Arp.State, p: Arp.Packet, gw: Arp.Ip, now: int)
    requires Queue.Queue(st, now) && Arp.Forward(env, st, p, gw, now).Done?
    ensures Arp.Lookup(st.cache, gw).None? ==> Search.Returns(env, Runs.Queued(st, p, gw), gw, now)
  {
    hide Arp.Lookup, Queue.Queue, Runs.Queued, Arp.Forward, Search.Returns;
    if Arp.Lookup(st.cache, gw).None? {
      QueuedWell(st, p, gw, now);
      Runs.ForwardIs(env, st, p, gw, now);
    }
  }

  lemma {:induction false} QueuedWell(st: Arp.State, p: Arp.Packet, gw: Arp.Ip, now: int)
    requires Queue.Queue(st, now)
    ensures Queue.Queue(Runs.Queued(st, p, gw), now)
  {
    Queue.EnqueueQueue(st.(forwarded := st.forwarded + multiset{(p, gw)}), gw, p, now);
  }

  /** The route of greatest prefix length among those that agree with the address, the last of them. */
  ghost predicate Longest(c: Config, lengths: seq<Prefix.Length>, ip: Prefix.Word, k: int)
    requires |lengths| == |c.table|
  {
    && Prefix.Hits(c.table, lengths, ip, k)
    && forall j :: Prefix.Hits(c.table, lengths, ip, j) ==>
         && Prefix.Bits(lengths[j]) <= Prefix.Bits(lengths[k])
         && (j > k ==> Prefix.Bits(lengths[j]) < Prefix.Bits(lengths[k]))
  }

  /**
   * From header bytes to the next hop, for contiguous masks: a datagram is handed on exactly when
   * the header is valid, is not for the router, does not run out of time, and the longest prefix
   * that agrees with its destination names an interface that is there. It goes to that route's
   * gateway, with a header that the next router accepts and one hop less to live.
   */
  lemma {:induction false} SentByLongestPrefix(
    c: Config, lengths: seq<Prefix.Length>, h: Header, id: nat, from: nat, echo: bool)
    requires Prefix.Contiguous(c.table, lengths)
    ensures var r := React(c, h, id, from, echo);
      var to := WordAt(h, DST);
      && (r.0.Sent? <==>
            && WordSum(h) % 65535 == 0 && Field(h) != 0 && !Ours(c, to) && h[TTL] != 1
            && exists k :: Longest(c, lengths, to, k) && c.table[k].iface < |c.addresses|)
      && (r.0.Sent? ==>
            && (exists k :: Longest(c, lengths, to, k)
                  && r.1 == Through(Arp.Packet(Incoming(h, id), c.table[k].iface), IpOf(c.table[k].gw)))
            && Accepts(Rewritten(h, r.0)) && Rewritten(h, r.0)[TTL] == Decremented(h[TTL]))
  {
    assert |lengths| == |c.table|;
    hide Accepts, WordAt, Prefix.Best, Complaint, Incoming, WordSum, Field, Longest, Prefix.Contiguous, IpOf, Forwarded;
    AcceptsExact(h);
    BestIsLongest(c, lengths, WordAt(h, DST));
    SentHeader(h);
  }

  lemma {:induction false} SentHeader(h: Header)
    ensures Accepts(Forwarded(h)) && Forwarded(h)[TTL] == Decremented(h[TTL])
  {
    hide Accepts, Seal;
    SealAccepted(h[TTL := Decremented(h[TTL])]);
    ForwardedBytes(h, TTL);
  }

  lemma {:induction false} BestIsLongest(c: Config, lengths: seq<Prefix.Length>, ip: Prefix.Word)
    requires Prefix.Contiguous(c.table, lengths)
    ensures |lengths| == |c.table|
    ensures forall k: int :: Longest(c, lengths, ip, k) <==>
      Prefix.Best(c.table, ip).Found? && k == Prefix.Best(c.table, ip).index
  {
    assert |lengths| == |c.table|;
    hide Prefix.Best, Prefix.Hits, Prefix.Contiguous, Prefix.Bits;
    var best := Prefix.Best(c.table, ip);
    Prefix.LongestMatch(c.table, lengths, ip);
    if best.Found? {
      forall k: int | Longest(c, lengths, ip, k) ensures k == best.index {
        OneLongest(c, lengths, ip, k, best.index);
      }
    } else {
      NoLongest(c, lengths, ip);
    }
  }

  lemma {:induction false} OneLongest(c: Config, lengths: seq<Prefix.Length>, ip: Prefix.Word, j: int, k: int)
    requires |lengths| == |c.table| && Longest(c, lengths, ip, j) && Longest(c, lengths, ip, k)
    ensures j == k
  {
    hide Prefix.Bits, Prefix.Agree;
  }

  lemma {:induction false} NoLongest(c: Config, lengths: seq<Prefix.Length>, ip: Prefix.Word)
    requires |lengths| == |c.table| && forall j :: 0 <= j < |c.table| ==> !Prefix.Hits(c.table, lengths, ip, j)
    ensures forall k :: !Longest(c, lengths, ip, k)
  {
    hide Prefix.Bits, Prefix.Agree;
  }
}
