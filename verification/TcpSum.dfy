/** The TCP checksum: a 32-bit sum with its carries folded twice at the end. */
module TcpSum {
  import opened Words
  import opened Octets

  const FIELD := 16
  const HEADER := 20

  /** A length up to which the words of a segment, with the pseudo header, fit a signed 32-bit sum. */
  const LONGEST := 65522

  const IPPROTO_TCP: Octet := 6

  // ---- One's-complement addition ------------------------------------------------------------------

  /** 16-bit addition with end-around carry (section 2 of RFC 1071). */
  function AddCarry(a: Word16, b: Word16): Word16 {
    if a + b > 0xffff then a + b - 0xffff else a + b
  }

  function SumCarry(ws: seq<Word16>): Word16 {
    if ws == [] then 0 else AddCarry(SumCarry(ws[..|ws| - 1]), ws[|ws| - 1])
  }

  function Total(ws: seq<Word16>): nat {
    if ws == [] then 0 else Total(ws[..|ws| - 1]) + ws[|ws| - 1]
  }

  /** The 16-bit number that carrying reduces a sum to: zero only from zero. */
  function Reduced(t: nat): Word16 { if t == 0 then 0 else (t - 1) % 0xffff + 1 }

  lemma {:induction false} ReducedAdd(t: nat, b: Word16)
    ensures AddCarry(Reduced(t), b) == Reduced(t + b)
  {
    if t > 0 {
      var q, r := (t - 1) / 0xffff, (t - 1) % 0xffff;
      assert t + b - 1 == q * 0xffff + (r + b);
      if r + b >= 0xffff {
        assert t + b - 1 == (q + 1) * 0xffff + (r + b - 0xffff);
      }
    }
  }

  /** Carrying at every addition gives what reducing the plain sum gives. */
  lemma {:induction false} SumCarryReduced(ws: seq<Word16>)
    ensures SumCarry(ws) == Reduced(Total(ws))
  {
    if ws != [] {
      SumCarryReduced(ws[..|ws| - 1]);
      ReducedAdd(Total(ws[..|ws| - 1]), ws[|ws| - 1]);
    }
  }

  /** The two folds reduce every sum of 31 bits. */
  lemma {:induction false} TwoFolds(t: nat)
    requires t < 0x8000_0000
    ensures var f := t / 0x1_0000 + t % 0x1_0000; (f + f / 0x1_0000) % 0x1_0000 == Reduced(t)
  {
    var q, r := t / 0x1_0000, t % 0x1_0000;
    var f := q + r;
    assert t == q * 0xffff + f;
    if t > 0 {
      if f <= 0xffff {
        assert t - 1 == q * 0xffff + (f - 1);
        assert f == 0xffff ==> t - 1 == q * 0xffff + 0xfffe;
      } else {
        assert t - 1 == (q + 1) * 0xffff + (f - 0xffff - 1);
      }
    }
  }

  // ---- The words of a segment -----------------------------------------------------------------------

  /** The 16-bit words of a buffer as a little-endian host loads them, the last byte of an odd length alone. */
  function WordsOf(p: seq<Octet>): (ws: seq<Word16>)
    ensures |ws| == (|p| + 1) / 2
  {
    if p == [] then [] else if |p| == 1 then [Load(p[0], 0)] else [Load(p[0], p[1])] + WordsOf(p[2..])
  }

  /** The pseudo header: addresses, a zero byte, the protocol and the length. */
  function Pseudo(src: Word32, dst: Word32, len: nat): seq<Word16> {
    [src % 0x1_0000, src / 0x1_0000, dst % 0x1_0000, dst / 0x1_0000, Load(0, IPPROTO_TCP), Htons(Wrap16(len))]
  }

  /** The segment with a zero checksum field. */
  function Blank(p: seq<Octet>): (b: seq<Octet>)
    requires |p| >= HEADER
    ensures |b| == |p|
  {
    p[FIELD := 0][FIELD + 1 := 0]
  }

  /** Section 3.1 of RFC 793: the complement of the one's-complement sum of pseudo header and segment. */
  function Checksum(src: Word32, dst: Word32, p: seq<Octet>): Word16
    requires |p| >= HEADER
  {
    0xffff - SumCarry(Pseudo(src, dst, |p|) + WordsOf(Blank(p)))
  }

  lemma {:induction false} TotalConcat(a: seq<Word16>, b: seq<Word16>)
    ensures Total(a + b) == Total(a) + Total(b)
    decreases |b|
  {
    if b == [] {
      assert a + b == a;
    } else {
      assert (a + b)[..|a + b| - 1] == a + b[..|b| - 1];
      TotalConcat(a, b[..|b| - 1]);
    }
  }

  lemma {:induction false} TotalBound(ws: seq<Word16>)
    ensures Total(ws) <= |ws| * 0xffff
  {
    if ws != [] {
      TotalBound(ws[..|ws| - 1]);
    }
  }

  lemma {:induction false} TotalNext(p: seq<Octet>, i: nat)
    requires i + 2 <= |p|
    ensures Total(WordsOf(p[i..])) == Load(p[i], p[i + 1]) + Total(WordsOf(p[i + 2..]))
  {
    hide Load;
    var q := p[i..];
    assert q[2..] == p[i + 2..];
    TotalConcat([Load(q[0], q[1])], WordsOf(q[2..]));
    assert [Load(q[0], q[1])][..0] == [];
    assert Total([Load(q[0], q[1])]) == Load(q[0], q[1]);
  }

  lemma {:induction false} TotalLast(p: seq<Octet>, i: nat)
    requires i <= |p| <= i + 1
    ensures Total(WordsOf(p[i..])) == if i < |p| then Load(p[i], 0) else 0
  {
    hide Load;
    if i < |p| {
      assert [Load(p[i], 0)][..0] == [];
      assert Total([Load(p[i], 0)]) == Load(p[i], 0);
    }
  }

  predicate Fits(x: int) { -0x8000_0000 <= x < 0x8000_0000 }

  /** The word that the loop adds at `k`: nothing for the checksum field. */
  function WordAt(p: seq<Octet>, k: nat): nat
    requires HEADER <= |p| && 2 * k + 1 < |p|
  {
    if k == FIELD / 2 then 0 else Load(p[2 * k], p[2 * k + 1])
  }

  /** What the words of the blank segment from the `k`-th on add up to. */
  ghost function Remaining(p: seq<Octet>, k: nat): nat
    requires HEADER <= |p| && 2 * k <= |p|
  {
    Total(WordsOf(Blank(p)[2 * k..]))
  }

  lemma {:induction false} RemainingAll(p: seq<Octet>)
    requires HEADER <= |p|
    ensures Remaining(p, 0) == Total(WordsOf(Blank(p)))
  {
    assert Blank(p)[0..] == Blank(p);
  }

  lemma {:induction false} WordAtBlank(p: seq<Octet>, k: nat)
    requires HEADER <= |p| && 2 * k + 2 <= |p|
    ensures Remaining(p, k) == WordAt(p, k) + Remaining(p, k + 1)
  {
    hide Load, WordsOf, Total;
    TotalNext(Blank(p), 2 * k);
    LoadZero();
  }

  /** The loop over the words, skipping the checksum field; the signed sum never overflows. */
  method SumSegment(start: nat, p: seq<Octet>) returns (sum: int)
    requires HEADER <= |p| && start + Total(WordsOf(Blank(p))) < 0x8000_0000
    ensures sum == start + Total(WordsOf(Blank(p)))
  {
    hide Load, WordsOf, Total, Blank, Remaining;
    sum := start;
    RemainingAll(p);
    var n := |p| / 2;
    for k := 0 to n
      invariant 0 <= sum && sum + Remaining(p, k) == start + Total(WordsOf(Blank(p)))
    {
      WordAtBlank(p, k);
      if k == FIELD / 2 {
        continue;
      }
      sum := sum + Load(p[2 * k], p[2 * k + 1]);
      assert Fits(sum);
    }
    LastWord(p);
    if |p| % 2 == 1 {
      sum := sum + Load(p[|p| - 1], 0);
      assert Fits(sum);
    }
  }

  lemma {:induction false} LastWord(p: seq<Octet>)
    requires HEADER <= |p|
    ensures Remaining(p, |p| / 2) == if |p| % 2 == 1 then Load(p[|p| - 1], 0) else 0
  {
    hide Load, WordsOf, Total;
    TotalLast(Blank(p), 2 * (|p| / 2));
  }

  lemma {:induction false} LoadZero()
    ensures Load(0, 0) == 0
  {
  }

  lemma {:induction false} SumFits(src: Word32, dst: Word32, p: seq<Octet>)
    requires HEADER <= |p| <= LONGEST
    ensures Total(Pseudo(src, dst, |p|) + WordsOf(Blank(p)))
      == Total(Pseudo(src, dst, |p|)) + Total(WordsOf(Blank(p))) < 0x8000_0000
  {
    TotalConcat(Pseudo(src, dst, |p|), WordsOf(Blank(p)));
    TotalBound(Pseudo(src, dst, |p|) + WordsOf(Blank(p)));
  }

  /** `_mysock_tcp_checksum`: the deferred carries give the end-around-carry sum. */
  method TcpChecksum(src: Word32, dst: Word32, p: seq<Octet>) returns (r: Word16)
    requires src > 0 && dst > 0 && HEADER <= |p| <= LONGEST
    ensures r == Checksum(src, dst, p)
  {
    var pseudo := Pseudo(src, dst, |p|);
    SumFits(src, dst, p);
    var sum := 0;
    hide Pseudo, WordsOf, Load;
    for k := 0 to |pseudo|
      invariant sum == Total(pseudo[..k])
    {
      assert pseudo[..k + 1][..k] == pseudo[..k];
      sum := sum + pseudo[k];
    }
    assert pseudo[..|pseudo|] == pseudo;
    hide Total;
    sum := SumSegment(sum, p);
    ghost var t := sum;
    TwoFolds(t);
    SumCarryReduced(pseudo + WordsOf(Blank(p)));
    hide Reduced;
    sum := sum / 0x1_0000 + sum % 0x1_0000;
    sum := sum + sum / 0x1_0000;
    r := 0xffff - sum % 0x1_0000;
  }

  /** The checksum is the same whichever way round the addresses are given. */
  lemma {:induction false} ChecksumSwaps(src: Word32, dst: Word32, p: seq<Octet>)
    requires |p| >= HEADER
    ensures Checksum(src, dst, p) == Checksum(dst, src, p)
  {
    hide WordsOf, Load, Htons, Blank, Reduced;
    var ws := WordsOf(Blank(p));
    var rest := [Load(0, IPPROTO_TCP), Htons(Wrap16(|p|))];
    var a, b := [src % 0x1_0000, src / 0x1_0000], [dst % 0x1_0000, dst / 0x1_0000];
    assert Pseudo(src, dst, |p|) == a + b + rest && Pseudo(dst, src, |p|) == b + a + rest;
    hide Pseudo;
    TotalConcat(Pseudo(src, dst, |p|), ws);
    TotalConcat(Pseudo(dst, src, |p|), ws);
    TotalConcat(a + b, rest);
    TotalConcat(b + a, rest);
    TotalConcat(a, b);
    TotalConcat(b, a);
    SumCarryReduced(Pseudo(src, dst, |p|) + ws);
    SumCarryReduced(Pseudo(dst, src, |p|) + ws);
  }

  // ---- Setting and verifying ------------------------------------------------------------------------

  /** The segment with its checksum field filled in. */
  function Stamped(src: Word32, dst: Word32, p: seq<Octet>): seq<Octet>
    requires |p| >= HEADER
  {
    var c := Checksum(src, dst, p);
    p[FIELD := c % 256][FIELD + 1 := c / 256]
  }

  /** `_mysock_set_checksum`. */
  method SetChecksum(local: Word32, peer: Word32, p: array<Octet>)
    requires local > 0 && peer > 0 && HEADER <= p.Length <= LONGEST
    modifies p
    ensures p[..] == Stamped(local, peer, old(p[..]))
  {
    var sum := TcpChecksum(local, peer, p[..]);
    hide Checksum;
    p[FIELD], p[FIELD + 1] := sum % 256, sum / 256;
  }

  /** `_mysock_verify_checksum`, which gives the addresses the other way round. */
  method VerifyChecksum(local: Word32, peer: Word32, p: seq<Octet>) returns (ok: bool)
    requires local > 0 && peer > 0 && HEADER <= |p| <= LONGEST
    ensures ok <==> Load(p[FIELD], p[FIELD + 1]) == Checksum(peer, local, p)
  {
    var sum := TcpChecksum(peer, local, p);
    ok := sum == Load(p[FIELD], p[FIELD + 1]);
  }

  lemma {:induction false} LoadBytes(c: Word16)
    ensures 0 <= c / 256 < 256 && Load(c % 256, c / 256) == c
  {
  }

  /** What one end sets, the other end verifies: it sees the addresses swapped, and computes over
      the received bytes, in which only the field changed. */
  lemma {:induction false} SetVerifies(local: Word32, peer: Word32, p: seq<Octet>)
    requires |p| >= HEADER
    ensures var q := Stamped(local, peer, p);
      Load(q[FIELD], q[FIELD + 1]) == Checksum(local, peer, q) == Checksum(peer, local, q)
  {
    var c := Checksum(local, peer, p);
    LoadBytes(c);
    var q := Stamped(local, peer, p);
    assert Blank(q) == Blank(p);
    ChecksumSwaps(local, peer, q);
  }

  /** The field's share of the sum. */
  lemma {:induction false} FieldShare(p: seq<Octet>, i: nat)
    requires HEADER <= |p| && i <= FIELD && i % 2 == 0
    ensures Total(WordsOf(p[i..])) == Total(WordsOf(Blank(p)[i..])) + Load(p[FIELD], p[FIELD + 1])
    decreases FIELD - i
  {
    hide Load, WordsOf, Total;
    var b := Blank(p);
    TotalNext(p, i);
    TotalNext(b, i);
    if i == FIELD {
      assert p[i + 2..] == b[i + 2..];
      LoadZero();
    } else {
      assert p[i] == b[i] && p[i + 1] == b[i + 1];
      FieldShare(p, i + 2);
    }
  }

  lemma {:induction false} ReducedOnes(t: nat, f: Word16)
    requires t > 0
    ensures f == 0xffff - Reduced(t) <==> Reduced(t + f) == 0xffff && f != 0xffff
  {
    var q, r := (t - 1) / 0xffff, (t - 1) % 0xffff;
    assert t + f - 1 == q * 0xffff + (r + f);
    if r + f >= 0xffff {
      assert t + f - 1 == (q + 1) * 0xffff + (r + f - 0xffff);
    }
  }

  /** Verification is exact up to one value: the sum over everything, the field included, is all
      ones (section 3.1 of RFC 793), and the field is not the all-ones word, which is never set. */
  lemma {:induction false} VerifyExact(src: Word32, dst: Word32, p: seq<Octet>)
    requires |p| >= HEADER
    ensures var f := Load(p[FIELD], p[FIELD + 1]);
      f == Checksum(src, dst, p) <==> SumCarry(Pseudo(src, dst, |p|) + WordsOf(p)) == 0xffff && f != 0xffff
  {
    hide WordsOf, Load, Total, Reduced, Pseudo, SumCarry, Blank;
    var h := Pseudo(src, dst, |p|);
    var f, t := Load(p[FIELD], p[FIELD + 1]), Total(h + WordsOf(Blank(p)));
    PseudoPositive(src, dst, |p|);
    WholeShare(h, p);
    SumCarryReduced(h + WordsOf(p));
    SumCarryReduced(h + WordsOf(Blank(p)));
    ReducedOnes(t, f);
  }

  lemma {:induction false} WholeShare(h: seq<Word16>, p: seq<Octet>)
    requires HEADER <= |p|
    ensures Total(h + WordsOf(p)) == Total(h + WordsOf(Blank(p))) + Load(p[FIELD], p[FIELD + 1])
    ensures Total(h + WordsOf(Blank(p))) >= Total(h)
  {
    hide WordsOf, Load, Total;
    FieldShare(p, 0);
    assert p[0..] == p && Blank(p)[0..] == Blank(p);
    TotalConcat(h, WordsOf(p));
    TotalConcat(h, WordsOf(Blank(p)));
  }

  lemma {:induction false} PseudoPositive(src: Word32, dst: Word32, len: nat)
    ensures Total(Pseudo(src, dst, len)) > 0
  {
    var h := Pseudo(src, dst, len);
    hide Htons;
    assert h[4] == 1536;
    assert h == h[..4] + [h[4]] + [h[5]];
    TotalConcat(h[..4] + [h[4]], [h[5]]);
    TotalConcat(h[..4], [h[4]]);
    assert [h[4]][..0] == [];
  }

  // ---- On the bytes -----------------------------------------------------------------------------------

  /** The twelve bytes of the pseudo header in memory: the addresses as the words hold them, a zero byte, the
      protocol, and the length with its high byte first. */
  function PseudoBytes(src: Word32, dst: Word32, len: nat): seq<Octet> {
    [src % 256, src / 0x100 % 256, src / 0x1_0000 % 256, src / 0x100_0000,
     dst % 256, dst / 0x100 % 256, dst / 0x1_0000 % 256, dst / 0x100_0000,
     0, 6, len / 256 % 256, len % 256]
  }

  lemma {:induction false} WordsCons(a: Octet, b: Octet, rest: seq<Octet>)
    ensures WordsOf([a, b] + rest) == [Load(a, b)] + WordsOf(rest)
  {
    assert ([a, b] + rest)[2..] == rest;
  }

  lemma {:induction false} WordsConcat(a: seq<Octet>, b: seq<Octet>)
    requires |a| % 2 == 0
    ensures WordsOf(a + b) == WordsOf(a) + WordsOf(b)
  {
    hide Load;
    if a == [] {
      assert a + b == b;
    } else {
      WordsConcat(a[2..], b);
      WordsCons(a[0], a[1], a[2..]);
      WordsCons(a[0], a[1], a[2..] + b);
      hide WordsOf;
      assert a == [a[0], a[1]] + a[2..];
      Assoc([a[0], a[1]], a[2..], b);
      Assoc([Load(a[0], a[1])], WordsOf(a[2..]), WordsOf(b));
    }
  }

  lemma {:induction false} PseudoWord(x: Word32)
    ensures Load(x % 256, x / 0x100 % 256) == x % 0x1_0000
    ensures 0 <= x / 0x100_0000 < 256 && Load(x / 0x1_0000 % 256, x / 0x100_0000) == x / 0x1_0000
  {
    assert x / 0x1_0000 % 256 + 256 * (x / 0x100_0000) == x / 0x1_0000;
  }

  lemma {:induction false} PseudoLength(len: nat)
    ensures Load(len / 256 % 256, len % 256) == Htons(Wrap16(len))
  {
    var h, c := len / 256, len % 256;
    var w := h % 256 * 256 + c;
    LowWord(len, h / 256, w);
    assert w / 256 == h % 256 && w % 256 == c;
  }

  lemma {:induction false} PseudoOnBytes(src: Word32, dst: Word32, len: nat)
    ensures WordsOf(PseudoBytes(src, dst, len)) == Pseudo(src, dst, len)
  {
    PseudoWord(src);
    PseudoWord(dst);
    PseudoLength(len);
    hide Load, Htons;
    var b := PseudoBytes(src, dst, len);
    var t5 := [b[10], b[11]] + [];
    var t4 := [b[8], b[9]] + t5;
    var t3 := [b[6], b[7]] + t4;
    var t2 := [b[4], b[5]] + t3;
    var t1 := [b[2], b[3]] + t2;
    assert b == [b[0], b[1]] + t1;
    WordsCons(b[0], b[1], t1);
    WordsCons(b[2], b[3], t2);
    WordsCons(b[4], b[5], t3);
    WordsCons(b[6], b[7], t4);
    WordsCons(b[8], b[9], t5);
    WordsCons(b[10], b[11], []);
    assert WordsOf([]) == [];
    hide WordsOf;
  }

  /** The sum of the words as the host loads them and the sum of the words high byte first: one is 256
      times the other, modulo 65535 (section 2 B of RFC 1071). */
  lemma {:induction false} SwappedSum(p: seq<Octet>)
    ensures Total(WordsOf(p)) % 65535 == 256 * WordSum(p) % 65535
  {
    if |p| == 1 {
      assert p[0..] == p;
      TotalLast(p, 0);
      Multiple(Load(p[0], 0), p[0]);
    } else if |p| >= 2 {
      SwappedSum(p[2..]);
      assert p[0..] == p;
      TotalNext(p, 0);
      hide Total, WordsOf, WordSum;
      SwapClass(p[0], p[1], Total(WordsOf(p[2..])), WordSum(p[2..]));
    }
  }

  lemma {:induction false} SwapClass(a: Octet, b: Octet, t: nat, s: nat)
    requires t % 65535 == 256 * s % 65535
    ensures (Load(a, b) + t) % 65535 == 256 * (BigEndian(a, b) + s) % 65535
  {
    var x: int, y: int := a, b;
    var q, r := t / 65535, 256 * s / 65535;
    assert 256 * (BigEndian(a, b) + s) == Load(a, b) + t + 65535 * (x + r - q);
    Multiple(Load(a, b) + t, x + r - q);
  }

  lemma {:induction false} ZeroTogether(t: nat, s: nat)
    requires t % 65535 == 256 * s % 65535
    ensures t % 65535 == 0 <==> s % 65535 == 0
  {
    var k := s / 65535;
    if s % 65535 == 0 {
      Multiple(0, 256 * k);
    }
    if t % 65535 == 0 {
      var q := 256 * s / 65535;
      assert 256 * s == 65535 * q;
      assert s == 65535 * (256 * q - s);
      Multiple(0, 256 * q - s);
    }
  }

  /** What is summed: the pseudo header, the segment, and a zero byte after an odd length. */
  function Summed(src: Word32, dst: Word32, p: seq<Octet>): seq<Octet> { PseudoBytes(src, dst, |p|) + Evened(p) }

  lemma {:induction false} WordsPadded(p: seq<Octet>)
    ensures WordsOf(Evened(p)) == WordsOf(p)
  {
    hide Load;
    if |p| == 1 {
      assert Evened(p)[2..] == [];
    } else if |p| >= 2 {
      WordsPadded(p[2..]);
      assert Evened(p)[2..] == Evened(p[2..]);
    } else {
      assert p + [] == p;
    }
  }

  /**
   * Verification on the bytes: a segment verifies exactly when pseudo header and segment, read as one
   * number with the most significant byte first, are a multiple of 65535, and the checksum in bytes
   * 16 and 17 is not all ones.
   */
  lemma {:induction false} VerifyOnBytes(src: Word32, dst: Word32, p: seq<Octet>)
    requires |p| >= HEADER
    ensures Load(p[FIELD], p[FIELD + 1]) == Checksum(src, dst, p) <==>
      Number(Summed(src, dst, p)) % 65535 == 0 && !(p[16] == 255 && p[17] == 255)
  {
    hide WordsOf, Total, Reduced, PseudoBytes, Pseudo, SumCarry, Blank, Number, WordSum;
    VerifyExact(src, dst, p);
    var x := Summed(src, dst, p);
    PseudoOnBytes(src, dst, |p|);
    WordsPadded(p);
    assert |PseudoBytes(src, dst, |p|)| == 12 by { PseudoTwelve(src, dst, |p|); }
    WordsConcat(PseudoBytes(src, dst, |p|), Evened(p));
    SumCarryReduced(WordsOf(x));
    PseudoPositive(src, dst, |p|);
    TotalConcat(Pseudo(src, dst, |p|), WordsOf(p));
    ReducedFull(Total(WordsOf(x)));
    SwappedSum(x);
    NumberIsSum(x);
    ZeroTogether(Total(WordsOf(x)), WordSum(x));
  }

  lemma {:induction false} PseudoTwelve(src: Word32, dst: Word32, len: nat)
    ensures |PseudoBytes(src, dst, len)| == 12
  {
  }

  lemma {:induction false} ReducedFull(t: nat)
    requires t > 0
    ensures Reduced(t) == 0xffff <==> t % 65535 == 0
  {
    var q := (t - 1) / 0xffff;
    if Reduced(t) == 0xffff {
      assert t == 0xffff * (q + 1);
      Multiple(0, q + 1);
    }
    if t % 65535 == 0 {
      assert t - 1 == 0xffff * (t / 65535 - 1) + 0xfffe;
    }
  }
}
