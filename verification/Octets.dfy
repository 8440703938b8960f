/** Bytes as integers, and 16-bit fields of packets on a little-endian host. */
module Octets {
  import opened Words

  type Octet = x: int | 0 <= x < 256

  function BigEndian(hi: Octet, lo: Octet): Word16 {
    var h: int, l: int := hi, lo;
    h * 256 + l
  }

  /** `htons` on a little-endian host, and the load and store of a 16-bit field there. */
  function Htons(x: Word16): Word16 { x % 256 * 256 + x / 256 }

  function Load(lo: Octet, hi: Octet): Word16 { BigEndian(hi, lo) }

  lemma {:induction false} HtonsTwice(x: Word16)
    ensures Htons(Htons(x)) == x
  {
    var q, r := x / 256, x % 256;
    assert (r * 256 + q) / 256 == r && (r * 256 + q) % 256 == q;
  }

  lemma {:induction false} HtonsEnds(x: Word16)
    ensures (Htons(x) == 0 <==> x == 0) && Htons(65535) == 65535
  {
  }

  lemma {:induction false} LoadHtons(a: Octet, b: Octet)
    ensures Htons(Load(a, b)) == BigEndian(a, b)
  {
  }

  lemma {:induction false} BytesOf(c: Word16)
    ensures 0 <= c / 256 < 256 && BigEndian(c / 256, c % 256) == c
  {
  }

  lemma {:induction false} StoredBytes(c: Word16)
    ensures Htons(c) % 256 == c / 256 && Htons(c) / 256 == c % 256
    ensures 0 <= Htons(c) / 256 < 256
  {
  }

  lemma {:induction false} BigEndianZero()
    ensures BigEndian(0, 0) == 0
  {
  }

  /** The low word of a number. */
  lemma {:induction false} LowWord(x: nat, q: nat, w: nat)
    requires x == 0x1_0000 * q + w && w < 0x1_0000
    ensures Wrap16(x) == w
  {
  }

  // ---- Checksums over bytes -----------------------------------------------------------------------

  /** The sum of the big-endian words of the data, the last byte of an odd length padded with zero. */
  function WordSum(data: seq<Octet>): nat {
    if data == [] then 0
    else if |data| == 1 then BigEndian(data[0], 0)
    else BigEndian(data[0], data[1]) + WordSum(data[2..])
  }

  lemma {:induction false} WordSumSplit(data: seq<Octet>, i: nat)
    requires i <= |data| && i % 2 == 0
    ensures WordSum(data) == WordSum(data[..i]) + WordSum(data[i..])
    decreases i
  {
    if i == 0 {
      assert data[..0] == [] && data[0..] == data;
    } else {
      WordSumSplit(data[2..], i - 2);
      assert data[..i][2..] == data[2..][..i - 2] && data[i..] == data[2..][i - 2..];
    }
  }

  /** The data as one number, most significant byte first. */
  function Number(data: seq<Octet>): nat {
    if data == [] then 0 else 256 * Number(data[..|data| - 1]) + data[|data| - 1]
  }

  lemma {:induction false} NumberPair(data: seq<Octet>)
    requires |data| >= 2
    ensures Number(data) == 0x1_0000 * Number(data[..|data| - 2]) + BigEndian(data[|data| - 2], data[|data| - 1])
  {
    var d := data[..|data| - 1];
    assert d[..|d| - 1] == data[..|data| - 2];
  }

  /** The one's-complement sum of the words is the number that the data make, modulo 65535. */
  lemma {:induction false} NumberIsSum(data: seq<Octet>)
    requires |data| % 2 == 0
    ensures WordSum(data) % 65535 == Number(data) % 65535
    decreases |data|
  {
    if data != [] {
      var n := |data| - 2;
      var front, w := data[..n], BigEndian(data[n], data[n + 1]);
      NumberIsSum(front);
      NumberPair(data);
      WordSumSplit(data, n);
      LastPair(data);
      hide WordSum, Number, BigEndian;
      SameClass(WordSum(front), Number(front), w);
    }
  }

  /** The data, and a zero byte after an odd length. */
  function Evened(data: seq<Octet>): seq<Octet> { data + if |data| % 2 == 1 then [0] else [] }

  lemma {:induction false} EvenedSum(data: seq<Octet>)
    ensures WordSum(Evened(data)) == WordSum(data)
  {
    hide BigEndian;
    if |data| == 1 {
      assert Evened(data)[2..] == [];
    } else if |data| >= 2 {
      EvenedSum(data[2..]);
      assert Evened(data)[2..] == Evened(data[2..]);
    } else {
      assert data + [] == data;
    }
  }

  lemma {:induction false} LastPair(data: seq<Octet>)
    requires |data| >= 2
    ensures WordSum(data[|data| - 2..]) == BigEndian(data[|data| - 2], data[|data| - 1])
  {
    var d := data[|data| - 2..];
    assert d[2..] == [];
  }

  lemma {:induction false} SameClass(a: nat, b: nat, w: nat)
    requires a % 65535 == b % 65535
    ensures (a + w) % 65535 == (0x1_0000 * b + w) % 65535
  {
    var q, r := a / 65535, b / 65535;
    assert 0x1_0000 * b + w == a + w + 65535 * (b + r - q);
    Multiple(a + w, b + r - q);
  }

  lemma {:induction false} Multiple(x: int, k: int)
    ensures (x + 65535 * k) % 65535 == x % 65535
  {
  }
}
