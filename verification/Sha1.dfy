/** sha1.c: hashing a message that arrives in pieces. */
module Sha1 {
  import opened Words
  import opened Sha1Spec

  /** The octets stored from a length field are its word, most significant first. */
  lemma {:induction false} StoredWord(x: Word32)
    ensures BigEndian(x, 4) == [Octet(x / 0x100_0000), Octet(x / 0x1_0000), Octet(x / 0x100), Octet(x)]
  {
    hide Octet;
    var y := x / 0x100;
    var z := y / 0x100;
    assert z / 0x100 == x / 0x100_0000 && z == x / 0x1_0000;
    assert BigEndian(z / 0x100, 1) == [Octet(z / 0x100)];
    assert BigEndian(z, 2) == BigEndian(z / 0x100, 1) + [Octet(z)];
    assert BigEndian(y, 3) == BigEndian(z, 2) + [Octet(y)];
  }

  lemma {:induction false} OctetOfSum(x: nat, y: nat)
    ensures Octet(0x100 * x + y) == Octet(y)
  {
    assert (0x100 * x + y) % 0x100 == y % 0x100;
  }

  lemma {:induction false} Shift(high: nat, unit: nat, low: nat)
    ensures high * (0x100 * unit) + low == 0x100 * (high * unit) + low
  {
    assert high * (0x100 * unit) == 0x100 * (high * unit);
  }

  lemma {:induction false} DivideSum(x: nat, y: nat)
    ensures (0x100 * x + y) / 0x100 == x + y / 0x100
  {
  }

  /** Two words side by side are the double word. */
  lemma {:induction false} TwoWords(high: nat, low: nat, n: nat, unit: nat)
    requires unit == Power256(n) && low < unit
    ensures BigEndian(high * unit + low, 4 + n) == BigEndian(high, 4) + BigEndian(low, n)
  {
    hide Octet;
    if n == 0 {
      assert high * 1 + 0 == high;
    } else {
      var unit' := Power256(n - 1);
      var y := high * unit';
      Shift(high, unit', low);
      DivideSum(y, low);
      OctetOfSum(y, low);
      TwoWords(high, low / 0x100, n - 1, unit');
      NextOctet(0x100 * y + low, 4 + n);
      NextOctet(low, n);
      hide BigEndian, Power256;
      assert BigEndian(high, 4) + (BigEndian(low / 0x100, n - 1) + [Octet(low)])
          == BigEndian(high, 4) + BigEndian(low / 0x100, n - 1) + [Octet(low)];
    }
  }

  lemma {:induction false} NextOctet(x: nat, n: nat)
    requires n > 0
    ensures BigEndian(x, n) == BigEndian(x / 0x100, n - 1) + [Octet(x)]
  {
  }

  function Power256(n: nat): nat { if n == 0 then 1 else 0x100 * Power256(n - 1) }

  lemma {:induction false} AbsorbBlock(h: Regs, m: seq<Byte>, block: Block)
    requires |m| % 64 == 0
    ensures Absorb(h, m + block) == Compress(Absorb(h, m), block)
  {
    var mb := m + block;
    assert mb[..|mb| - 64] == m && mb[|mb| - 64..] == block;
  }

  /** How the split of a message into whole blocks and a rest moves with one more octet. */
  lemma {:induction false} OneMore(m: seq<Byte>, i: nat, x: Byte)
    requires i == |m| % 64
    ensures |m[..|m| - i]| % 64 == 0
    ensures var m' := m + [x]; var whole, rest := m[..|m| - i], m[|m| - i..] + [x];
      if i == 63 then |m'| % 64 == 0 && whole + rest == m'
      else |m'| % 64 == i + 1 && m'[..|m'| - (i + 1)] == whole && m'[|m'| - (i + 1)..] == rest
  {
    assert |m| == 64 * (|m| / 64) + i;
    if i == 63 {
      assert |m| + 1 == 64 * (|m| / 64 + 1);
    }
  }

  class Sha1Context {
    const digest: array<bv32>
    const block: array<Byte>
    var index: nat
    var lengthLow: Word32
    var lengthHigh: Word32
    var computed: bool
    var corrupted: bool

    ghost predicate Shape() {
      digest.Length == 5 && block.Length == 64
    }

    ghost function Digest(): Regs
      requires Shape()
      reads this, digest
    {
      Regs(digest[0], digest[1], digest[2], digest[3], digest[4])
    }

    /** The context holds the part `m` of a message: whole blocks are absorbed, the rest is in
        the block buffer, and the length fields count its bits. */
    ghost predicate Holds(m: seq<Byte>)
      reads this, digest, block
    {
      && Shape() && !computed && !corrupted
      && index == |m| % 64 && block[..index] == m[|m| - index..]
      && Digest() == Absorb(H0, m[..|m| - index])
      && lengthHigh * 0x1_0000_0000 + lengthLow == 8 * |m|
    }

    /** The length fields count without wrapping. */
    lemma Counted(m: seq<Byte>)
      requires Holds(m)
      ensures 8 * |m| < 0x1_0000_0000_0000_0000
    {
    }

    constructor ()
      ensures Holds([]) && Shape() && !computed && !corrupted && fresh(digest) && fresh(block)
    {
      digest := new bv32[5];
      block := new Byte[64](_ => 0);
      new;
      Reset();
    }

    method Reset()
      requires Shape()
      modifies this, digest
      ensures Holds([])
    {
      hide Compress;
      lengthLow := 0;
      lengthHigh := 0;
      index := 0;
      SetDigest(Regs(0x67452301, 0xEFCDAB89, 0x98BADCFE, 0x10325476, 0xC3D2E1F0));
      computed := false;
      corrupted := false;
    }

    /** The word sequence W of a block. */
    method Expand() returns (w: array<bv32>)
      requires Shape()
      ensures w.Length == 80 && w[..] == Schedule(block[..], 80) && fresh(w)
    {
      hide Feedback, BigEndianWord;
      w := new bv32[80];
      ghost var b := block[..];
      var t := 0;
      while t < 16
        invariant 0 <= t <= 16 && w[..t] == Schedule(b, t)
      {
        ghost var s := w[..t];
        w[t] := BigEndianWord(block[t * 4], block[t * 4 + 1], block[t * 4 + 2], block[t * 4 + 3]);
        t := t + 1;
        assert w[..t] == s + [w[t - 1]];
      }
      while t < 80
        invariant 16 <= t <= 80 && w[..t] == Schedule(b, t)
      {
        ghost var s := w[..t];
        w[t] := Feedback(w[t - 3], w[t - 8], w[t - 14], w[t - 16]);
        t := t + 1;
        assert w[..t] == s + [w[t - 1]];
      }
      assert w[..80] == w[..];
    }

    /** The eighty rounds, in the four loops of the source. */
    static method Mix(h: Regs, w: array<bv32>) returns (r: Regs)
      requires w.Length == 80
      ensures r == Rounds(h, w[..], 80)
    {
      hide Rotate, Choose, Parity, Majority, Sum;
      ghost var ws := w[..];
      var A, B, C, D, E := h.a, h.b, h.c, h.d, h.e;
      var t := 0;
      while t < 20
        invariant 0 <= t <= 20 && Regs(A, B, C, D, E) == Rounds(h, ws, t)
      {
        var temp := Sum(Rotate(5, A), Choose(B, C, D), E, w[t], 0x5A827999);
        E, D, C, B, A := D, C, Rotate(30, B), A, temp;
        t := t + 1;
      }
      while t < 40
        invariant 20 <= t <= 40 && Regs(A, B, C, D, E) == Rounds(h, ws, t)
      {
        var temp := Sum(Rotate(5, A), Parity(B, C, D), E, w[t], 0x6ED9EBA1);
        E, D, C, B, A := D, C, Rotate(30, B), A, temp;
        t := t + 1;
      }
      while t < 60
        invariant 40 <= t <= 60 && Regs(A, B, C, D, E) == Rounds(h, ws, t)
      {
        var temp := Sum(Rotate(5, A), Majority(B, C, D), E, w[t], 0x8F1BBCDC);
        E, D, C, B, A := D, C, Rotate(30, B), A, temp;
        t := t + 1;
      }
      while t < 80
        invariant 60 <= t <= 80 && Regs(A, B, C, D, E) == Rounds(h, ws, t)
      {
        var temp := Sum(Rotate(5, A), Parity(B, C, D), E, w[t], 0xCA62C1D6);
        E, D, C, B, A := D, C, Rotate(30, B), A, temp;
        t := t + 1;
      }
      r := Regs(A, B, C, D, E);
    }

    method SetDigest(h: Regs)
      requires Shape()
      modifies digest
      ensures Digest() == h
    {
      digest[0] := h.a;
      digest[1] := h.b;
      digest[2] := h.c;
      digest[3] := h.d;
      digest[4] := h.e;
    }

    method ProcessMessageBlock()
      requires Shape()
      modifies this`index, digest
      ensures index == 0 && Digest() == Compress(old(Digest()), block[..])
    {
      hide Rounds, Schedule, Plus;
      ghost var b := block[..];
      var w := Expand();
      var h := Regs(digest[0], digest[1], digest[2], digest[3], digest[4]);
      var r := Mix(h, w);
      SetDigest(Plus(h, r));
      index := 0;
      assert block[..] == b;
    }

    /** Storing an octet, up to a full block. */
    method Store(octet: Byte)
      requires Shape() && index < 64
      modifies this`index, block
      ensures index == old(index) + 1 && block[..index] == old(block[..index]) + [octet]
    {
      block[index] := octet;
      index := index + 1;
    }

    /** Eight more bits; the two words overflow after 2^64 bits. */
    method CountOctet()
      requires lengthLow % 8 == 0
      modifies this`lengthLow, this`lengthHigh, this`corrupted
      ensures var bits := old(lengthHigh * 0x1_0000_0000 + lengthLow);
        if bits + 8 < 0x1_0000_0000_0000_0000
        then lengthHigh * 0x1_0000_0000 + lengthLow == bits + 8 && corrupted == old(corrupted)
        else corrupted
    {
      lengthLow := Wrap32(lengthLow + 8);
      if lengthLow == 0 {
        lengthHigh := Wrap32(lengthHigh + 1);
        if lengthHigh == 0 {
          corrupted := true;
        }
      }
    }

    /** One octet of `SHA1Input`. */
    method InputOctet(octet: Byte, ghost m: seq<Byte>)
      requires Holds(m)
      modifies this, digest, block
      ensures Shape()
      ensures if 8 * (|m| + 1) < 0x1_0000_0000_0000_0000 then Holds(m + [octet]) && !computed && !corrupted else corrupted
    {
      hide Compress, Absorb;
      ghost var i := index;
      ghost var whole := m[..|m| - i];
      OneMore(m, i, octet);
      Store(octet);
      assert lengthLow == 8 * (|m| - 0x2000_0000 * lengthHigh);
      CountOctet();
      if index == 64 {
        ghost var full := block[..];
        assert full == block[..index] == m[|m| - i..] + [octet];
        ProcessMessageBlock();
        AbsorbBlock(H0, whole, full);
        ghost var m' := m + [octet];
        assert m'[..|m'| - 0] == m' && block[..0] == m'[|m'|..];
      }
    }

    /** `SHA1Input`: the next portion of the message. */
    method Input(portion: seq<Byte>, ghost m: seq<Byte>)
      requires Shape() && (computed || corrupted || Holds(m))
      modifies this, digest, block
      ensures Shape()
      ensures portion == [] ==> unchanged(this) && unchanged(digest) && unchanged(block)
      ensures portion != [] && old(computed || corrupted) ==> corrupted
      ensures !old(computed || corrupted) ==>
        if 8 * (|m| + |portion|) < 0x1_0000_0000_0000_0000 || portion == []
        then Holds(m + portion) && !computed && !corrupted else corrupted
    {
      if portion == [] {
        assert m + portion == m;
        return;
      }
      if computed || corrupted {
        corrupted := true;
        return;
      }
      InputOctets(portion, m);
    }

    /** The loop of `SHA1Input`. */
    method InputOctets(portion: seq<Byte>, ghost m: seq<Byte>)
      requires Shape() && Holds(m) && !computed && !corrupted && portion != []
      modifies this, digest, block
      ensures Shape()
      ensures if 8 * (|m| + |portion|) < 0x1_0000_0000_0000_0000
              then Holds(m + portion) && !computed && !corrupted else corrupted
    {
      hide Sha1Context.Holds;
      var i := 0;
      assert m + portion[..0] == m;
      while i < |portion| && !corrupted
        invariant 0 <= i <= |portion| && Shape()
        invariant !corrupted ==> Holds(m + portion[..i]) && !computed
        invariant i == 0 ==> !corrupted
        invariant i > 0 ==> (corrupted <==> 8 * (|m| + i) >= 0x1_0000_0000_0000_0000)
      {
        assert m + portion[..i + 1] == m + portion[..i] + [portion[i]];
        InputOctet(portion[i], m + portion[..i]);
        i := i + 1;
      }
      assert portion[..|portion|] == portion;
    }

    method FillZeros(upTo: nat)
      requires Shape() && index <= upTo <= 64
      modifies this`index, block
      ensures index == upTo && block[..upTo] == old(block[..index]) + Zeros(upTo - old(index))
    {
      ghost var before := block[..index];
      ghost var i := index;
      assert Zeros(0) == [];
      while index < upTo
        invariant i <= index <= upTo && block[..index] == before + Zeros(index - i)
      {
        ghost var n := index - i;
        Store(0);
        assert Zeros(n) + [0] == Zeros(n + 1);
      }
    }

    method StoreWord(at: nat, x: Word32)
      requires Shape() && at + 4 <= 64
      modifies block
      ensures block[..at] == old(block[..at]) && block[at..at + 4] == BigEndian(x, 4)
      ensures block[at + 4..] == old(block[at + 4..])
    {
      hide Octet, BigEndian;
      StoredWord(x);
      block[at] := Octet(x / 0x100_0000);
      block[at + 1] := Octet(x / 0x1_0000);
      block[at + 2] := Octet(x / 0x100);
      block[at + 3] := Octet(x);
    }

    /** The message length as the last 8 octets. */
    method StoreLength()
      requires Shape()
      modifies block
      ensures block[..] == old(block[..56]) + BigEndian(lengthHigh * 0x1_0000_0000 + lengthLow, 8)
    {
      hide BigEndian;
      StoreWord(56, lengthHigh);
      ghost var high := block[56..60];
      StoreWord(60, lengthLow);
      assert block[..60] == block[..56] + high;
      assert block[..] == block[..56] + high + block[60..64];
      assert Power256(4) == 0x1_0000_0000;
      TwoWords(lengthHigh, lengthLow, 4, 0x1_0000_0000);
    }

    /** `SHA1PadMessage`. */
    method PadMessage(ghost m: seq<Byte>)
      requires Holds(m)
      modifies this, digest, block
      ensures Shape() && Digest() == Hash(m) && computed == old(computed) && corrupted == old(corrupted)
    {
      hide Compress, Absorb, Pad, BigEndian, Zeros, Hash;
      if index > 55 {
        PadIntoTwo(m);
      } else {
        PadIntoOne(m);
      }
    }

    /** The zeros and the length that complete a block, after the blocks of `done`. */
    method FinishBlock(ghost done: seq<Byte>)
      requires Shape() && index <= 56 && |done| % 64 == 0 && Digest() == Absorb(H0, done)
      modifies this`index, digest, block
      ensures |done + (old(block[..index]) + Zeros(56 - old(index)) + LengthOctets())| % 64 == 0
      ensures Digest() == Absorb(H0, done + (old(block[..index]) + Zeros(56 - old(index)) + LengthOctets()))
    {
      hide Compress, Absorb, BigEndian, Zeros;
      FillZeros(56);
      StoreLength();
      ghost var last := block[..];
      ProcessMessageBlock();
      AbsorbBlock(H0, done, last);
    }

    ghost function LengthOctets(): (r: seq<Byte>)
      reads this
      ensures |r| == 8
    {
      BigEndian(lengthHigh * 0x1_0000_0000 + lengthLow, 8)
    }

    /** The mark and zeros that complete a block in which the length no longer fits. */
    method FillFirst(ghost m: seq<Byte>)
      requires Holds(m) && index > 55
      modifies this`index, digest, block
      ensures index == 0
      ensures var i := old(index);
        var done := m[..|m| - i] + (m[|m| - i..] + [0x80] + Zeros(63 - i));
        |done| % 64 == 0 && Digest() == Absorb(H0, done)
    {
      hide Compress, Absorb, Zeros;
      ghost var i := index;
      OneMore(m, i, 0x80);
      Store(0x80);
      FillZeros(64);
      ghost var first := block[..];
      assert first == block[..64];
      ProcessMessageBlock();
      AbsorbBlock(H0, m[..|m| - i], first);
    }

    /** The branch of `SHA1PadMessage` with two blocks. */
    method PadIntoTwo(ghost m: seq<Byte>)
      requires Holds(m) && index > 55
      modifies this, digest, block
      ensures Shape() && Digest() == Hash(m) && computed == old(computed) && corrupted == old(corrupted)
    {
      hide Compress, Absorb, Pad, BigEndian, Zeros;
      ghost var i := index;
      PadSplit(m, i);
      FillFirst(m);
      assert block[..0] + Zeros(56) == Zeros(56);
      FinishBlock(m[..|m| - i] + (m[|m| - i..] + [0x80] + Zeros(63 - i)));
    }

    /** The other branch. */
    method PadIntoOne(ghost m: seq<Byte>)
      requires Holds(m) && index <= 55
      modifies this, digest, block
      ensures Shape() && Digest() == Hash(m) && computed == old(computed) && corrupted == old(corrupted)
    {
      hide Compress, Absorb, Pad, BigEndian, Zeros;
      ghost var i := index;
      ghost var whole, rest := m[..|m| - i], m[|m| - i..];
      OneMore(m, i, 0x80);
      PadSplit(m, i);
      Store(0x80);
      assert block[..index] == rest + [0x80];
      FinishBlock(whole);
    }

    /** `SHA1Result`: false when the message was too long or input came after the result. */
    method Result(ghost m: seq<Byte>) returns (ok: bool)
      requires Shape() && (computed || corrupted || Holds(m))
      modifies this, digest, block
      ensures Shape() && ok == !old(corrupted) && corrupted == old(corrupted)
      ensures ok ==> computed
      ensures ok && !old(computed) ==> Digest() == Hash(m)
      ensures ok && old(computed) ==> Digest() == old(Digest())
    {
      if corrupted {
        return false;
      }
      if !computed {
        PadMessage(m);
        computed := true;
      }
      return true;
    }
  }

  /** The last block or two blocks of the padded message. */
  lemma {:induction false} PadSplit(m: seq<Byte>, i: nat)
    requires i == |m| % 64
    ensures var whole, rest, len := m[..|m| - i], m[|m| - i..], BigEndian(8 * |m|, 8);
      if i <= 55 then Pad(m) == whole + (rest + [0x80] + Zeros(55 - i) + len)
      else Pad(m) == whole + (rest + [0x80] + Zeros(63 - i)) + (Zeros(56) + len)
  {
    hide BigEndian, ZeroCount;
    var whole, rest, len := m[..|m| - i], m[|m| - i..], BigEndian(8 * |m|, 8);
    assert m == whole + rest;
    assert Padding(|m|) == [0x80] + Zeros(ZeroCount(|m|)) + len;
    if i <= 55 {
      assert ZeroCount(|m|) == 55 - i;
    } else {
      assert ZeroCount(|m|) == 119 - i;
      assert Zeros(119 - i) == Zeros(63 - i) + Zeros(56);
    }
  }

  /** However a message of fewer than 2^64 bits is split into portions, the digest is the
      one-shot hash of the whole; a longer one is refused. */
  method HashInPortions(portions: seq<seq<Byte>>) returns (ok: bool, digest: Regs)
    ensures ok <==> 8 * |Flatten(portions)| < 0x1_0000_0000_0000_0000
    ensures ok ==> digest == Hash(Flatten(portions))
  {
    assert Flatten(portions[..0]) == [];
    hide Hash, Sha1Context.Holds, Flatten, Absorb, Compress;
    var context := new Sha1Context();
    ghost var m: seq<Byte> := [];
    for i := 0 to |portions|
      invariant context.Shape() && fresh(context) && fresh(context.digest) && fresh(context.block)
      invariant m == Flatten(portions[..i])
      invariant !context.corrupted ==> context.Holds(m) && !context.computed
      invariant context.corrupted ==> 8 * |m| >= 0x1_0000_0000_0000_0000
    {
      context.Input(portions[i], m);
      FlattenPush(portions[..i], portions[i]);
      assert portions[..i + 1] == portions[..i] + [portions[i]];
      m := m + portions[i];
    }
    assert portions[..|portions|] == portions;
    if !context.corrupted {
      context.Counted(m);
    }
    ok := context.Result(m);
    digest := Regs(context.digest[0], context.digest[1], context.digest[2], context.digest[3], context.digest[4]);
  }
}
