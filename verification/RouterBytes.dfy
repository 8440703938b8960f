/** What one router does with a datagram, on the bytes of its header and of the routing table. */
module RouterBytes {
  import opened Words
  import opened Octets
  import opened IpForward
  import opened Router
  import Prefix = LongestPrefix
  import Arp = ArpSpec

  // ---- Addresses ------------------------------------------------------------------------------------------

  /** Four bytes in the order of memory and of the wire. */
  datatype Quad = Quad(a: bv8, b: bv8, c: bv8, d: bv8)

  function BytesAt(h: Header, i: nat): Quad
    requires i + 4 <= 20
  {
    Quad(h[i] as bv8, h[i + 1] as bv8, h[i + 2] as bv8, h[i + 3] as bv8)
  }

  /** The bytes of a word in the memory of a little-endian host. */
  function Memory(w: Prefix.Word): Quad {
    Quad((w & 0xff) as bv8, ((w >> 8) & 0xff) as bv8, ((w >> 16) & 0xff) as bv8, ((w >> 24) & 0xff) as bv8)
  }

  /** The `k`-th bit, the most significant bit of the first byte being the first. */
  function Bit(q: Quad, k: bv32): bv32 {
    if k < 8 then (q.a as bv32 >> (7 - k)) & 1
    else if k < 16 then (q.b as bv32 >> (15 - k)) & 1
    else if k < 24 then (q.c as bv32 >> (23 - k)) & 1
    else if k < 32 then (q.d as bv32 >> (31 - k)) & 1
    else 0
  }

  /** Two addresses agree bit for bit in the first `n` bits. */
  ghost predicate SameBits(q: Quad, r: Quad, n: Prefix.Length) { forall k: bv32 :: k < n ==> Bit(q, k) == Bit(r, k) }

  lemma WordMemory(h: Header, i: nat)
    requires i + 4 <= 20
    ensures Memory(WordAt(h, i)) == BytesAt(h, i)
  {
    hide Word, Memory;
    BytesOfWord(h[i] as bv8, h[i + 1] as bv8, h[i + 2] as bv8, h[i + 3] as bv8);
  }

  lemma BytesOfWord(b0: bv8, b1: bv8, b2: bv8, b3: bv8)
    ensures Memory(Word(b0, b1, b2, b3)) == Quad(b0, b1, b2, b3)
  {
  }

  function WordBit(x: bv32, k: bv32): bv32
    requires k < 32
  {
    (x >> (31 - k)) & 1
  }

  lemma BitOfWord(w: Prefix.Word, k: bv32)
    requires k < 32
    ensures Bit(Memory(w), k) == WordBit(Prefix.Swap(w), k)
  {
  }

  lemma MemoryExact(v: Prefix.Word, w: Prefix.Word)
    ensures Memory(v) == Memory(w) <==> v == w
  {
  }

  function Halved(x: bv32): bv32 { x >> 1 }

  function Last(x: bv32): bv32 { x & 1 }

  lemma HalvedAndLast(x: bv32, y: bv32)
    ensures x == y <==> Halved(x) == Halved(y) && Last(x) == Last(y)
  {
  }

  lemma PrefixStep(x: bv32, n: bv32, m: bv32)
    requires m < 32 && n == m + 1
    ensures Prefix.Prefix(x, m) == Halved(Prefix.Prefix(x, n)) && WordBit(x, m) == Last(Prefix.Prefix(x, n))
  {
  }

  /** One bit more. */
  lemma {:induction false} OneMoreBit(x: bv32, y: bv32, n: Prefix.Length, m: Prefix.Length)
    requires m < 32 && n == m + 1
    ensures Prefix.Agree(x, y, n) <==> Prefix.Agree(x, y, m) && WordBit(x, m) == WordBit(y, m)
  {
    hide Prefix.Prefix, Halved, Last, WordBit;
    PrefixStep(x, n, m);
    PrefixStep(y, n, m);
    HalvedAndLast(Prefix.Prefix(x, n), Prefix.Prefix(y, n));
  }

  lemma NoBits(x: bv32, y: bv32)
    ensures Prefix.Agree(x, y, 0) && BitsAgree(x, y, 0)
  {
  }

  lemma Below(k: bv32, m: bv32)
    requires m < 32
    ensures k < m + 1 <==> k < m || k == m
  {
  }

  ghost predicate BitsAgree(x: Prefix.Word, y: Prefix.Word, n: Prefix.Length) {
    forall k: bv32 :: k < n ==> WordBit(x, k) == WordBit(y, k)
  }

  lemma {:induction false} OneMoreAgrees(x: Prefix.Word, y: Prefix.Word, n: Prefix.Length, m: Prefix.Length)
    requires m < 32 && n == m + 1
    ensures BitsAgree(x, y, n) <==> BitsAgree(x, y, m) && WordBit(x, m) == WordBit(y, m)
  {
    Below(m, m);
    if BitsAgree(x, y, n) {
      forall k: bv32 | k < m ensures WordBit(x, k) == WordBit(y, k) {
        Below(k, m);
        assert k < n;
      }
    }
    if BitsAgree(x, y, m) && WordBit(x, m) == WordBit(y, m) {
      forall k: bv32 | k < n ensures WordBit(x, k) == WordBit(y, k) {
        Below(k, m);
      }
    }
  }

  /** Agreement of the numbers is agreement of their bits. */
  lemma {:induction false} AgreeBits(x: Prefix.Word, y: Prefix.Word, n: Prefix.Length)
    ensures Prefix.Agree(x, y, n) <==> BitsAgree(x, y, n)
    decreases n
  {
    hide Prefix.Agree, BitsAgree;
    if n == 0 {
      NoBits(x, y);
    } else {
      Previous(n);
      var m: Prefix.Length := n - 1;
      AgreeBits(x, y, m);
      OneMoreBit(x, y, n, m);
      OneMoreAgrees(x, y, n, m);
    }
  }

  lemma Previous(n: bv32)
    requires 0 < n <= 32
    ensures n - 1 < 32 && n == n - 1 + 1 && n - 1 < n
  {
  }

  lemma {:induction false} SameIsAgree(v: Prefix.Word, w: Prefix.Word, n: Prefix.Length)
    ensures SameBits(Memory(v), Memory(w), n) <==> Prefix.Agree(Prefix.Swap(v), Prefix.Swap(w), n)
  {
    AgreeBits(Prefix.Swap(v), Prefix.Swap(w), n);
    forall k: bv32 | k < n
      ensures Bit(Memory(v), k) == WordBit(Prefix.Swap(v), k) && Bit(Memory(w), k) == WordBit(Prefix.Swap(w), k)
    {
      BitOfWord(v, k);
      BitOfWord(w, k);
    }
    hide Bit, Memory, Prefix.Swap, Prefix.Agree, WordBit;
  }

  // ---- Routes ---------------------------------------------------------------------------------------------

  /** The entry of greatest prefix length among those that agree with the address, the last of them. */
  ghost predicate RouteFor(c: Config, lengths: seq<Prefix.Length>, q: Quad, k: int)
    requires |lengths| == |c.table|
  {
    && 0 <= k < |c.table| && SameBits(q, Memory(c.table[k].dest), lengths[k])
    && forall j :: 0 <= j < |c.table| && SameBits(q, Memory(c.table[j].dest), lengths[j]) ==>
         && lengths[j] as nat <= lengths[k] as nat && (j > k ==> lengths[j] as nat < lengths[k] as nat)
  }

  lemma {:induction false} RouteIsLongest(c: Config, lengths: seq<Prefix.Length>, w: Prefix.Word, k: int)
    requires |lengths| == |c.table|
    ensures RouteFor(c, lengths, Memory(w), k) <==> Longest(c, lengths, w, k)
  {
    forall j | 0 <= j < |c.table|
      ensures SameBits(Memory(w), Memory(c.table[j].dest), lengths[j]) <==> Prefix.Hits(c.table, lengths, w, j)
    {
      SameIsAgree(w, c.table[j].dest, lengths[j]);
    }
    hide SameBits, Memory, Prefix.Agree, Prefix.Swap;
  }

  /** The interface that the route names is there. */
  ghost predicate Usable(c: Config, lengths: seq<Prefix.Length>, q: Quad)
    requires |lengths| == |c.table|
  {
    exists k :: RouteFor(c, lengths, q, k) && c.table[k].iface < |c.addresses|
  }

  /** One packet is handed on by the route for the address, exactly when that is usable. */
  ghost predicate GoesBy(c: Config, lengths: seq<Prefix.Length>, q: Quad, s: Sending)
    requires |lengths| == |c.table|
  {
    && (s.Through? <==> Usable(c, lengths, q))
    && (s.Through? ==> exists k :: RouteFor(c, lengths, q, k) && s.p.iface == c.table[k].iface && s.gw == c.table[k].gw as int)
  }

  lemma {:induction false} HopGoes(c: Config, lengths: seq<Prefix.Length>, w: Prefix.Word, frame: Arp.Frame)
    requires Prefix.Contiguous(c.table, lengths)
    ensures |lengths| == |c.table|
    ensures var s := Via(NextHop(c, w), frame);
      GoesBy(c, lengths, Memory(w), s) && (s.Through? ==> s.p.frame == frame)
  {
    BestIsLongest(c, lengths, w);
    forall k: int ensures RouteFor(c, lengths, Memory(w), k) <==> Longest(c, lengths, w, k) {
      RouteIsLongest(c, lengths, w, k);
    }
    hide RouteFor, Longest, Memory, Prefix.Best, Prefix.Contiguous;
    var best := Prefix.Best(c.table, w);
    if best.Found? {
      assert RouteFor(c, lengths, Memory(w), best.index);
    }
  }

  lemma {:induction false} BestRoutes(c: Config, lengths: seq<Prefix.Length>, w: Prefix.Word)
    requires Prefix.Contiguous(c.table, lengths)
    ensures |lengths| == |c.table|
    ensures Prefix.Best(c.table, w).Found? <==> exists k :: RouteFor(c, lengths, Memory(w), k)
  {
    BestIsLongest(c, lengths, w);
    hide RouteFor, Longest, Memory, Prefix.Best, Prefix.Contiguous;
    if Prefix.Best(c.table, w).Found? {
      RouteIsLongest(c, lengths, w, Prefix.Best(c.table, w).index);
    }
    if k :| RouteFor(c, lengths, Memory(w), k) {
      RouteIsLongest(c, lengths, w, k);
    }
  }

  // ---- The verdict and what is handed on --------------------------------------------------------------------

  predicate IsOurs(c: Config, q: Quad) { exists i :: 0 <= i < |c.addresses| && Memory(c.addresses[i]) == q }

  predicate IsValid(h: Header) { Number(h) % 65535 == 0 && !(h[10] == 0 && h[11] == 0) }

  /** The datagram with an address as its source. */
  predicate IsDatagram(f: Arp.Frame, id: nat, q: Quad) { f.Datagram? && f.id == id && Memory(f.src as bv32) == q }

  /** The error about a datagram that came in on `from`: it carries that interface's address. */
  predicate IsErrorAbout(c: Config, f: Arp.Frame, h: Header, id: nat, from: nat) {
    && f.IcmpError? && IsDatagram(f.about, id, BytesAt(h, 12))
    && f.src == if from < |c.addresses| then c.addresses[from] as int else 0
  }

  ghost predicate VerdictOnBytes(c: Config, lengths: seq<Prefix.Length>, h: Header, v: Verdict)
    requires |lengths| == |c.table|
  {
    var live := IsValid(h) && !IsOurs(c, BytesAt(h, 16)) && h[8] != 1;
    var routed := exists k :: RouteFor(c, lengths, BytesAt(h, 16), k);
    && (v.Rejected? <==> !IsValid(h)) && (v.Local? <==> IsValid(h) && IsOurs(c, BytesAt(h, 16)))
    && (v.Expired? <==> IsValid(h) && !IsOurs(c, BytesAt(h, 16)) && h[8] == 1)
    && (v.Unroutable? <==> live && !routed) && (v.Sent? <==> live && Usable(c, lengths, BytesAt(h, 16)))
  }

  ghost predicate SendingOnBytes(
    c: Config, lengths: seq<Prefix.Length>, h: Header, id: nat, from: nat, echo: bool, v: Verdict, s: Sending)
    requires |lengths| == |c.table|
  {
    var back, forth := BytesAt(h, 12), BytesAt(h, 16);
    if v.Sent? then GoesBy(c, lengths, forth, s) && s.Through? && IsDatagram(s.p.frame, id, back)
    else if v.Expired? || v.Unroutable? || (v.Local? && h[9] != 1) then
      GoesBy(c, lengths, back, s) && (s.Through? ==> IsErrorAbout(c, s.p.frame, h, id, from))
    else if v.Local? && echo then GoesBy(c, lengths, back, s) && (s.Through? ==> IsDatagram(s.p.frame, id, forth))
    else s.Nothing?
  }

  lemma {:induction false} OursIs(c: Config, h: Header)
    ensures Ours(c, WordAt(h, 16)) <==> IsOurs(c, BytesAt(h, 16))
  {
    WordMemory(h, 16);
    var w := WordAt(h, 16);
    forall i | 0 <= i < |c.addresses| ensures Memory(c.addresses[i]) == Memory(w) <==> c.addresses[i] == w {
      MemoryExact(c.addresses[i], w);
    }
    hide Memory, WordAt;
  }

  lemma NumberBack(w: Prefix.Word)
    ensures 0 <= w as int < 0x1_0000_0000 && (w as int) as bv32 == w
  {
  }

  lemma {:induction false} DatagramFrom(h: Header, i: nat, id: nat)
    requires i + 4 <= 20
    ensures IsDatagram(Arp.Datagram(id, IpOf(WordAt(h, i))), id, BytesAt(h, i))
  {
    WordMemory(h, i);
    NumberBack(WordAt(h, i));
    hide Memory, WordAt;
  }

  lemma {:induction false} ErrorFrom(c: Config, h: Header, id: nat, from: nat)
    ensures IsErrorAbout(c, Arp.IcmpError(Incoming(h, id), EnvOf(c).address(from)), h, id, from)
  {
    DatagramFrom(h, 12, id);
    hide WordAt, IsDatagram;
  }

  /** A packet handed on by the address at a place of the header. */
  lemma {:induction false} GoesAt(c: Config, lengths: seq<Prefix.Length>, h: Header, i: nat, frame: Arp.Frame)
    requires Prefix.Contiguous(c.table, lengths) && i + 4 <= 20
    ensures |lengths| == |c.table|
    ensures var s := Via(NextHop(c, WordAt(h, i)), frame);
      GoesBy(c, lengths, BytesAt(h, i), s) && (s.Through? ==> s.p.frame == frame)
  {
    WordMemory(h, i);
    HopGoes(c, lengths, WordAt(h, i), frame);
    hide WordAt, Memory, BytesAt, NextHop, GoesBy, Prefix.Contiguous;
  }

  lemma {:induction false} RoutedAt(c: Config, lengths: seq<Prefix.Length>, h: Header)
    requires Prefix.Contiguous(c.table, lengths)
    ensures |lengths| == |c.table|
    ensures Prefix.Best(c.table, WordAt(h, 16)).Found? <==> exists k :: RouteFor(c, lengths, BytesAt(h, 16), k)
    ensures NextHop(c, WordAt(h, 16)).Some? <==> Usable(c, lengths, BytesAt(h, 16))
  {
    WordMemory(h, 16);
    BestRoutes(c, lengths, WordAt(h, 16));
    HopGoes(c, lengths, WordAt(h, 16), Incoming(h, 0));
    hide WordAt, Memory, BytesAt, NextHop, Prefix.Best, Prefix.Contiguous, RouteFor, Usable, Incoming;
  }

  lemma {:induction false} VerdictIs(c: Config, lengths: seq<Prefix.Length>, h: Header, v: Verdict)
    requires Prefix.Contiguous(c.table, lengths) && Judged(c, h, v)
    ensures |lengths| == |c.table| && VerdictOnBytes(c, lengths, h, v)
  {
    hide Accepts, WordAt, BytesAt, Prefix.Best, NextHop, Ours, IsOurs, Number, Prefix.Contiguous, Usable, RouteFor, Field, WordSum;
    AcceptsExact(h);
    OursIs(c, h);
    RoutedAt(c, lengths, h);
  }

  lemma {:induction false} ReactJudged(c: Config, h: Header, id: nat, from: nat, echo: bool)
    ensures Judged(c, h, React(c, h, id, from, echo).0)
  {
    hide Accepts, WordAt, Prefix.Best, Complaint, Incoming, Ours;
  }

  /** The sending that goes with a verdict. */
  lemma {:induction false} AnswerIs(
    c: Config, lengths: seq<Prefix.Length>, h: Header, id: nat, from: nat, echo: bool, v: Verdict)
    requires Prefix.Contiguous(c.table, lengths) && Judged(c, h, v)
    ensures |lengths| == |c.table| && SendingOnBytes(c, lengths, h, id, from, echo, v, Answer(c, h, id, from, echo, v))
  {
    hide Accepts, WordAt, BytesAt, Prefix.Best, NextHop, Ours, GoesBy, IsDatagram, IsErrorAbout, Prefix.Contiguous, EnvOf, IpOf, Incoming;
    if v.Sent? {
      DatagramAt(h, id);
      GoesAt(c, lengths, h, 16, Incoming(h, id));
    } else if v.Local? && h[9] == 1 {
      DatagramFrom(h, 16, id);
      GoesAt(c, lengths, h, 12, Arp.Datagram(id, IpOf(WordAt(h, 16))));
    } else {
      ErrorFrom(c, h, id, from);
      GoesAt(c, lengths, h, 12, Arp.IcmpError(Incoming(h, id), EnvOf(c).address(from)));
    }
  }

  lemma {:induction false} DatagramAt(h: Header, id: nat)
    ensures IsDatagram(Incoming(h, id), id, BytesAt(h, 12))
  {
    DatagramFrom(h, 12, id);
  }

  /**
   * The whole reaction to a datagram, for contiguous masks, on the bytes of its header. Bytes 16 to 19
   * decide whether it is for the router and which route it is sent by; every answer goes by the route
   * for bytes 12 to 15: an error that carries the address of the arrival interface when the time is up,
   * there is no route, or the datagram is for the router and no ICMP, and the reply to an echo request.
   */
  lemma {:induction false} ReactsOnBytes(c: Config, lengths: seq<Prefix.Length>, h: Header, id: nat, from: nat, echo: bool)
    requires Prefix.Contiguous(c.table, lengths)
    ensures |lengths| == |c.table|
    ensures var (v, s) := React(c, h, id, from, echo);
      && VerdictOnBytes(c, lengths, h, v) && SendingOnBytes(c, lengths, h, id, from, echo, v, s)
  {
    var v := React(c, h, id, from, echo).0;
    ReactJudged(c, h, id, from, echo);
    ReactIs(c, h, id, from, echo, v);
    VerdictIs(c, lengths, h, v);
    AnswerIs(c, lengths, h, id, from, echo, v);
    hide React, VerdictOnBytes, SendingOnBytes, Judged, Answer;
  }

  /** The header that is left: the datagram's own where it is refused or for the router, byte 8 alone cleared
      where the time is up, and otherwise a valid one in which only bytes 8, 10 and 11 differ. */
  lemma {:induction false} HeaderLeft(h: Header, v: Verdict)
    ensures v.Rejected? || v.Local? ==> Rewritten(h, v) == h
    ensures v.Expired? ==> Rewritten(h, v) == h[8 := 0]
    ensures v.Sent? || v.Unroutable? || v.NoInterface? ==>
      var h' := Rewritten(h, v);
      && IsValid(h') && h'[8] == (if h[8] == 0 then 255 else h[8] - 1)
      && forall i :: 0 <= i < 20 && i != 8 && i != 10 && i != 11 ==> h'[i] == h[i]
  {
    if v.Sent? || v.Unroutable? || v.NoInterface? {
      SentHeader(h);
      AcceptsExact(Forwarded(h));
      forall i: nat | i < 20 && i != 10 && i != 11
        ensures Forwarded(h)[i] == if i == 8 then Decremented(h[8]) else h[i]
      {
        ForwardedBytes(h, i);
      }
      hide Forwarded, Accepts, Number, WordSum, Field;
    }
  }

  /** The routes that the ARP layer uses for its errors are those for the address of the frame. */
  lemma {:induction false} EnvOnBytes(c: Config, lengths: seq<Prefix.Length>, f: Arp.Frame, id: nat, q: Quad)
    requires Prefix.Contiguous(c.table, lengths) && IsDatagram(f, id, q)
    ensures |lengths| == |c.table|
    ensures var hop := EnvOf(c).route(f.src);
      && (hop.Some? <==> Usable(c, lengths, q))
      && (hop.Some? ==> exists k :: RouteFor(c, lengths, q, k) && hop.value == Arp.Hop(c.table[k].gw as int, c.table[k].iface))
  {
    var w := WordOf(f.src);
    HopGoes(c, lengths, w, f);
    hide Memory, RouteFor, Usable, NextHop, Prefix.Contiguous;
  }
}
