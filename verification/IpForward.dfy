/** The Internet checksum of the router, and IP forwarding: checksum test, TTL, rewritten header. */
module IpForward {
  import opened Words
  import opened Octets

  type Header = h: seq<Octet> | |h| == 20 witness seq(20, _ => 0)

  const TTL := 8
  const SUM := 10
  const IP_MAXPACKET := 65535

  // ---- The checksum -----------------------------------------------------------------------------

  lemma {:induction false} WordSumBound(data: seq<Octet>)
    ensures WordSum(data) <= (|data| + 1) / 2 * 65535
  {
    if |data| >= 2 {
      WordSumBound(data[2..]);
    }
  }

  /** Folding the carries keeps the sum modulo 65535, and makes it zero only from zero. */
  lemma {:induction false} FoldStep(sum: nat)
    requires sum > 0xffff
    ensures 0 < sum / 0x1_0000 + sum % 0x1_0000 < sum
    ensures (sum / 0x1_0000 + sum % 0x1_0000) % 65535 == sum % 65535
  {
    var q, r := sum / 0x1_0000, sum % 0x1_0000;
    assert sum == q * 65535 + (q + r);
  }

  /** The accumulating loops; the 32-bit sum does not wrap up to IP_MAXPACKET bytes. */
  method Accumulate(data: seq<Octet>) returns (sum: Word32)
    requires |data| <= IP_MAXPACKET
    ensures sum == WordSum(data)
  {
    var i := 0;
    sum := 0;
    WordSumBound(data);
    hide BigEndian;
    while i + 2 <= |data|
      invariant 0 <= i <= |data|
      invariant sum + WordSum(data[i..]) == WordSum(data)
    {
      assert data[i..][2..] == data[i + 2..];
      sum := Wrap32(sum + BigEndian(data[i], data[i + 1]));
      i := i + 2;
    }
    if i < |data| {
      sum := Wrap32(sum + BigEndian(data[i], 0));
    }
  }

  /** The folding loop ends, in a 16-bit number of the same class, which is zero only from zero. */
  method Fold(total: Word32) returns (sum: Word16)
    ensures sum % 65535 == total % 65535 && (sum == 0 <==> total == 0)
  {
    var s: Word32 := total;
    while s > 0xffff
      invariant s % 65535 == total % 65535 && (s == 0 <==> total == 0)
      decreases s
    {
      FoldStep(s);
      s := s / 0x1_0000 + s % 0x1_0000;
    }
    sum := s;
  }

  /** The number from 1 to 65535 that closes a sum: it makes the one's-complement total zero. */
  function Closing(total: nat): (c: Word16)
    ensures 1 <= c <= 65535
  {
    65535 - total % 65535
  }

  /** It does, and no other number does (section 1 of RFC 1071). */
  lemma {:induction false} ClosingExact(total: nat, c: Word16)
    ensures c == Closing(total) <==> c != 0 && (total + c) % 65535 == 0
  {
    var q, r := total / 65535, total % 65535;
    assert total + Closing(total) == (q + 1) * 65535;
    if c != 0 && (total + c) % 65535 == 0 {
      assert (r + c) % 65535 == 0;
    }
  }

  /** On the bytes: the closing number of data, as one number with the most significant byte first, makes it a
      multiple of 65535. */
  lemma {:induction false} ClosingOnBytes(data: seq<Octet>, c: Word16)
    ensures c == Closing(WordSum(data)) <==> c != 0 && (Number(Evened(data)) + c) % 65535 == 0
  {
    ClosingExact(WordSum(data), c);
    EvenedSum(data);
    NumberIsSum(Evened(data));
    var s, n := WordSum(data), Number(Evened(data));
    hide WordSum, Number, Closing, Evened;
    var q, r := s / 65535, n / 65535;
    assert n + c == s + c + 65535 * (r - q);
    Multiple(s + c, r - q);
  }

  lemma {:induction false} ClosingFolded(total: nat, sum: Word16)
    requires sum % 65535 == total % 65535 && (sum == 0 <==> total == 0)
    ensures Closing(total) == if sum == 65535 then 65535 else 65535 - sum
  {
  }

  /** `cksum`: the closing number of the data, in network order. */
  method Cksum(data: seq<Octet>) returns (r: Word16)
    requires |data| <= IP_MAXPACKET
    ensures Htons(r) == Closing(WordSum(data)) && r == Htons(Closing(WordSum(data)))
  {
    var total := Accumulate(data);
    var sum := Fold(total);
    hide WordSum, Htons, Closing;
    ClosingFolded(total, sum);
    var complement := Htons(65535 - sum);
    HtonsTwice(65535 - sum);
    HtonsTwice(65535);
    HtonsEnds(65535 - sum);
    r := if complement != 0 then complement else 0xffff;
  }

  // ---- The header --------------------------------------------------------------------------------

  function Zeroed(h: Header): Header { h[SUM := 0][SUM + 1 := 0] }

  /** The stored checksum, as the C code loads it. */
  function Field(h: Header): Word16 { Load(h[SUM], h[SUM + 1]) }

  /** The first test of `sr_handle_ip_packet`. */
  predicate Accepts(h: Header) { Field(h) == Htons(Closing(WordSum(Zeroed(h)))) }

  /** Zeroing the checksum field takes its value out of the sum. */
  lemma {:induction false} ZeroedSum(h: Header)
    ensures WordSum(h) == WordSum(Zeroed(h)) + BigEndian(h[SUM], h[SUM + 1])
  {
    var z := Zeroed(h);
    WordSumSplit(h, SUM);
    WordSumSplit(z, SUM);
    hide BigEndian;
    assert h[..SUM] == z[..SUM];
    var a, b := h[SUM..], z[SUM..];
    assert a[2..] == b[2..];
    assert BigEndian(0, 0) == 0 by { BigEndianZero(); }
  }

  /** Acceptance is exact up to one value: the one's-complement total is zero, and so the header read as
      one number is a multiple of 65535, and the checksum in bytes 10 and 11 is not 0. */
  lemma {:induction false} AcceptsExact(h: Header)
    ensures Accepts(h) <==> WordSum(h) % 65535 == 0 && Field(h) != 0
    ensures Accepts(h) <==> Number(h) % 65535 == 0 && !(h[10] == 0 && h[11] == 0)
  {
    NumberIsSum(h);
    FieldZero(h);
    var c := BigEndian(h[SUM], h[SUM + 1]);
    ZeroedSum(h);
    ClosingExact(WordSum(Zeroed(h)), c);
    LoadHtons(h[SUM], h[SUM + 1]);
    hide WordSum, Closing, Htons, Load, BigEndian;
    HtonsTwice(Closing(WordSum(Zeroed(h))));
    HtonsTwice(Field(h));
    HtonsEnds(Field(h));
  }

  lemma {:induction false} FieldZero(h: Header)
    ensures Field(h) == 0 <==> h[10] == 0 && h[11] == 0
  {
  }

  /** The header with its checksum field filled in, high byte first in memory. */
  function Seal(h: Header): Header {
    var c := Closing(WordSum(Zeroed(h)));
    Zeroed(h)[SUM := c / 256][SUM + 1 := c % 256]
  }

  /** Every header the router emits passes the next router's test. */
  lemma {:induction false} SealAccepted(h: Header)
    ensures Accepts(Seal(h))
  {
    var c := Closing(WordSum(Zeroed(h)));
    BytesOf(c);
    hide WordSum, Closing, BigEndian, Htons, Load;
    assert Zeroed(Seal(h)) == Zeroed(h);
    LoadHtons(c / 256, c % 256);
    HtonsTwice(Field(Seal(h)));
  }

  /** The decrement of an unsigned byte. */
  function Decremented(ttl: Octet): Octet { (ttl + 255) % 256 }

  function Forwarded(h: Header): Header { Seal(h[TTL := Decremented(h[TTL])]) }

  method SealInPlace(h: array<Octet>)
    requires h.Length == 20
    modifies h
    ensures h[..] == Seal(old(h[..]))
  {
    ghost var before: Header := h[..];
    h[SUM], h[SUM + 1] := 0, 0;
    assert h[..] == Zeroed(before);
    var sum := Cksum(h[..]);
    hide WordSum, Closing;
    StoredBytes(Closing(WordSum(h[..])));
    h[SUM], h[SUM + 1] := sum % 256, sum / 256;
  }

  datatype Verdict = Rejected | Local | Expired | Unroutable | NoInterface | Sent

  /**
   * `sr_handle_ip_packet` and `sr_forward_packet` on the header: the address test and the route
   * lookup for the destination are given. What is sent is accepted by the next router, whatever it was.
   */
  method HandleIp(h: array<Octet>, ours: bool, routed: bool, known: bool) returns (v: Verdict)
    requires h.Length == 20
    modifies h
    ensures v.Rejected? <==> !Accepts(old(h[..]))
    ensures v.Local? <==> Accepts(old(h[..])) && ours
    ensures v.Rejected? || v.Local? ==> h[..] == old(h[..])
    ensures v.Expired? <==> Accepts(old(h[..])) && !ours && old(h[8]) == 1
    ensures v.Expired? ==> h[..] == old(h[..])[8 := 0]
    ensures v.Sent? || v.Unroutable? || v.NoInterface? ==> Accepts(h[..]) && h[..] == Forwarded(old(h[..]))
    ensures v.Sent? <==> Accepts(old(h[..])) && !ours && old(h[8]) != 1 && routed && known
    ensures v.Unroutable? <==> Accepts(old(h[..])) && !ours && old(h[8]) != 1 && !routed
  {
    ghost var arrived: Header := h[..];
    var lo, hi := h[SUM], h[SUM + 1];
    var oldSum := Load(lo, hi);
    h[SUM], h[SUM + 1] := 0, 0;
    assert h[..] == Zeroed(arrived);
    var calculated := Cksum(h[..]);
    h[SUM], h[SUM + 1] := lo, hi;
    assert h[..] == arrived;
    hide WordSum, Closing, Htons, Load, Seal;
    if oldSum != calculated { return Rejected; }
    if ours { return Local; }
    h[TTL] := Decremented(h[TTL]);
    assert h[..] == arrived[TTL := Decremented(arrived[TTL])];
    if h[TTL] <= 0 { return Expired; }
    SealAccepted(h[..]);
    SealInPlace(h);
    if !routed { return Unroutable; }
    if !known { return NoInterface; }
    return Sent;
  }

  // ---- From router to router ---------------------------------------------------------------------

  predicate Hop(h: Header, h': Header) { Accepts(h) && Decremented(h[TTL]) != 0 && h' == Forwarded(h) }

  /** The headers of one packet as routers with any tables hand it on. */
  predicate Path(hs: seq<Header>) { forall i :: 0 < i < |hs| ==> Hop(hs[i - 1], hs[i]) }

  /** How often a packet can be forwarded: one less than its TTL, and 255 times when that is 0. */
  function Limit(ttl: Octet): nat { if ttl == 0 then 255 else ttl - 1 }

  lemma {:induction false} ForwardedBytes(h: Header, i: nat)
    requires i < 20
    ensures i != SUM && i != SUM + 1 ==> Forwarded(h)[i] == if i == TTL then Decremented(h[TTL]) else h[i]
  {
    var h1 := h[TTL := Decremented(h[TTL])];
    BytesOf(Closing(WordSum(Zeroed(h1))));
    hide WordSum, Closing;
  }

  /** No packet is forwarded more often than its limit, in loops included; every header on the way
      is accepted, and nothing but TTL and checksum changes. */
  lemma {:induction false} PathBound(hs: seq<Header>)
    requires Path(hs) && hs != []
    ensures |hs| - 1 <= if hs[0][8] == 0 then 255 else hs[0][8] - 1
    ensures forall i :: 0 < i < |hs| ==> Accepts(hs[i])
    ensures forall i, k :: 0 <= i < |hs| && 0 <= k < 20 && k != 8 && k != 10 && k != 11 ==> hs[i][k] == hs[0][k]
    decreases |hs|
  {
    if |hs| > 1 {
      hide Accepts, Seal;
      assert Hop(hs[0], hs[1]);
      SealAccepted(hs[0][TTL := Decremented(hs[0][TTL])]);
      forall k: nat | k < 20 && k != SUM && k != SUM + 1
        ensures hs[1][k] == if k == TTL then Decremented(hs[0][TTL]) else hs[0][k]
      {
        ForwardedBytes(hs[0], k);
      }
      var rest := hs[1..];
      assert forall i :: 0 <= i < |rest| ==> rest[i] == hs[i + 1];
      forall i | 0 < i < |rest| ensures Hop(rest[i - 1], rest[i]) {
        assert Hop(hs[i + 1 - 1], hs[i + 1]);
      }
      PathBound(rest);
      forall i | 0 < i < |hs| ensures Accepts(hs[i]) {
        assert i > 1 ==> Accepts(rest[i - 1]);
      }
      forall i, k | 0 <= i < |hs| && 0 <= k < 20 && k != TTL && k != SUM && k != SUM + 1 ensures hs[i][k] == hs[0][k] {
        assert i >= 1 ==> rest[i - 1][k] == rest[0][k];
      }
    }
  }

  lemma {:induction false} PathCons(h: Header, rest: seq<Header>)
    requires Path(rest) && rest != [] && Hop(h, rest[0])
    ensures Path([h] + rest)
  {
    hide Hop;
    var hs := [h] + rest;
    forall i | 0 < i < |hs| ensures Hop(hs[i - 1], hs[i]) {
      if i > 1 {
        assert Hop(rest[i - 1 - 1], rest[i - 1]);
      }
    }
  }

  /** One more hop, for an accepted header whose limit allows it. */
  lemma {:induction false} OneHop(h: Header)
    requires Accepts(h) && Limit(h[TTL]) > 0
    ensures Hop(h, Forwarded(h)) && Accepts(Forwarded(h)) && Limit(Forwarded(h)[TTL]) == Limit(h[TTL]) - 1
  {
    hide Accepts, Seal;
    SealAccepted(h[TTL := Decremented(h[TTL])]);
    ForwardedBytes(h, TTL);
  }

  /** The limit is reached: an accepted packet can be forwarded exactly that often. */
  lemma {:induction false} PathReached(h: Header, n: nat) returns (hs: seq<Header>)
    requires Accepts(h) && n <= if h[8] == 0 then 255 else h[8] - 1
    ensures Path(hs) && |hs| == n + 1 && hs[0] == h
    decreases n
  {
    if n == 0 {
      hs := [h];
    } else {
      hide Accepts, Path, Forwarded, Hop;
      var h' := Forwarded(h);
      OneHop(h);
      var rest := PathReached(h', n - 1);
      hs := [h] + rest;
      PathCons(h, rest);
    }
  }
}
