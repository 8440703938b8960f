/** The Secure Hash Standard, FIPS PUB 180-1, on messages of whole octets: sections 3 to 7. */
module Sha1Spec {
  import opened Words

  /** The five chaining words H0..H4, and the five word buffers A..E of section 7. */
  datatype Regs = Regs(a: bv32, b: bv32, c: bv32, d: bv32, e: bv32)

  const H0 := Regs(0x67452301, 0xEFCDAB89, 0x98BADCFE, 0x10325476, 0xC3D2E1F0)

  /** Section 3: the circular left shift. */
  function Rotate(n: nat, x: bv32): bv32
    requires n <= 32
  {
    (x << n) | (x >> (32 - n))
  }

  /** Section 5: the three logical functions and the rounds they serve. */
  function Choose(b: bv32, c: bv32, d: bv32): bv32 { (b & c) | (!b & d) }
  function Parity(b: bv32, c: bv32, d: bv32): bv32 { b ^ c ^ d }
  function Majority(b: bv32, c: bv32, d: bv32): bv32 { (b & c) | (b & d) | (c & d) }

  function F(t: nat, b: bv32, c: bv32, d: bv32): bv32 {
    if t < 20 then Choose(b, c, d)
    else if t < 40 then Parity(b, c, d)
    else if t < 60 then Majority(b, c, d)
    else Parity(b, c, d)
  }

  /** Section 6. */
  function K(t: nat): bv32 {
    if t < 20 then 0x5A827999 else if t < 40 then 0x6ED9EBA1 else if t < 60 then 0x8F1BBCDC else 0xCA62C1D6
  }

  type Block = b: seq<Byte> | |b| == 64 witness seq(64, _ => 0)

  function BigEndianWord(b0: Byte, b1: Byte, b2: Byte, b3: Byte): bv32 {
    ((b0 as bv32) << 24) | ((b1 as bv32) << 16) | ((b2 as bv32) << 8) | (b3 as bv32)
  }

  function Feedback(a: bv32, b: bv32, c: bv32, d: bv32): bv32 { Rotate(1, a ^ b ^ c ^ d) }

  /** The words W(0)..W(n-1) of section 7, steps a and b. */
  function Schedule(block: Block, n: nat): (w: seq<bv32>)
    requires n <= 80
    ensures |w| == n
  {
    if n == 0 then [] else
    var w := Schedule(block, n - 1);
    var t := n - 1;
    w + [if t < 16 then BigEndianWord(block[4 * t], block[4 * t + 1], block[4 * t + 2], block[4 * t + 3])
         else Feedback(w[t - 3], w[t - 8], w[t - 14], w[t - 16])]
  }

  function Sum(a: bv32, b: bv32, c: bv32, d: bv32, e: bv32): bv32 { a + b + c + d + e }

  function Round(r: Regs, t: nat, w: bv32): Regs {
    Regs(Sum(Rotate(5, r.a), F(t, r.b, r.c, r.d), r.e, w, K(t)), r.a, Rotate(30, r.b), r.c, r.d)
  }

  /** The buffers after `n` rounds of step d. */
  function Rounds(h: Regs, w: seq<bv32>, n: nat): Regs
    requires n <= |w|
  {
    if n == 0 then h else Round(Rounds(h, w, n - 1), n - 1, w[n - 1])
  }

  /** Step e. */
  function Plus(h: Regs, r: Regs): Regs {
    Regs(h.a + r.a, h.b + r.b, h.c + r.c, h.d + r.d, h.e + r.e)
  }

  function Compress(h: Regs, block: Block): Regs {
    Plus(h, Rounds(h, Schedule(block, 80), 80))
  }

  /** The chaining value after the blocks of `m`, whose length is a multiple of 64. */
  function Absorb(h: Regs, m: seq<Byte>): Regs
    requires |m| % 64 == 0
    decreases |m|
  {
    if m == [] then h else Compress(Absorb(h, m[..|m| - 64]), m[|m| - 64..])
  }

  function Octet(x: nat): Byte { (x % 0x100) as Byte }

  /** The `n` low octets of a number, most significant first. */
  function BigEndian(x: nat, n: nat): (r: seq<Byte>)
    ensures |r| == n
  {
    if n == 0 then [] else BigEndian(x / 0x100, n - 1) + [Octet(x)]
  }

  function Zeros(n: nat): seq<Byte> { seq(n, _ => 0) }

  /** The fewest zero octets that, with one octet before and eight after, complete a block. */
  function ZeroCount(n: nat): (z: nat)
    ensures z < 64 && n + 9 + z == 64 * ((n + 72) / 64)
  {
    64 * ((n + 72) / 64) - n - 9
  }

  /** Section 4: a one bit, zeros, the length in bits as two words. */
  function Padding(n: nat): (t: seq<Byte>)
    ensures |t| == 9 + ZeroCount(n)
  {
    [0x80] + Zeros(ZeroCount(n)) + BigEndian(8 * n, 8)
  }

  lemma {:induction false} PadLength(n: nat)
    ensures var k := n + 9 + ZeroCount(n); k % 64 == 0 && n + 9 <= k < n + 73
  {
  }

  function Pad(m: seq<Byte>): (p: seq<Byte>)
    ensures |p| % 64 == 0
  {
    PadLength(|m|);
    m + Padding(|m|)
  }

  function Hash(m: seq<Byte>): Regs { Absorb(H0, Pad(m)) }
}
