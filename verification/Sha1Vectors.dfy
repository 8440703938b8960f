/** Two digests that the standard publishes, computed round by round, and laws of its functions. */
module Sha1Vectors {
  import opened Words
  import opened Sha1Spec

  // ---- The functions and constants ---------------------------------------------------------------------

  /** Where a bit of `b` is 1 the bit of `c` is chosen, elsewhere that of `d`. */
  lemma ChooseLaw(b: bv32, c: bv32, d: bv32)
    ensures b & Choose(b, c, d) == b & c && !b & Choose(b, c, d) == !b & d
  {
  }

  /** Two bits that agree are the majority, and the third decides where they do not. */
  lemma MajorityLaw(b: bv32, c: bv32, d: bv32)
    ensures !(b ^ c) & Majority(b, c, d) == !(b ^ c) & b
    ensures (b ^ c) & Majority(b, c, d) == (b ^ c) & d
  {
  }

  lemma MajorityTurns(b: bv32, c: bv32, d: bv32)
    ensures Majority(b, c, d) == Majority(c, d, b) == Majority(d, b, c)
  {
  }

  lemma ParityLaw(b: bv32, c: bv32, d: bv32)
    ensures Parity(b, c, d) ^ b == c ^ d
  {
  }

  /** The three rotations in use. */
  lemma RotateLaw(x: bv32)
    ensures Rotate(1, x) == x.RotateLeft(1) && Rotate(5, x) == x.RotateLeft(5) && Rotate(30, x) == x.RotateLeft(30)
  {
  }

  function Square(k: nat): nat { k * k }

  /** The constants are the integer square roots of 2, 3, 5 and 10, times 2^30. */
  lemma RootLaw(t: nat)
    requires t < 80
    ensures var root := if t < 20 then 2 else if t < 40 then 3 else if t < 60 then 5 else 10;
      Square(K(t) as nat) <= root * 0x1000_0000_0000_0000 < Square(K(t) as nat + 1)
  {
    if t < 20 {
      assert K(t) as nat == 0x5A827999;
    } else if t < 40 {
      assert K(t) as nat == 0x6ED9EBA1;
    } else if t < 60 {
      assert K(t) as nat == 0x8F1BBCDC;
    } else {
      assert K(t) as nat == 0xCA62C1D6;
    }
  }

  /** `x` without its `k` low octets. */
  function Above(x: nat, k: nat): nat { if k == 0 then x else Above(x / 0x100, k - 1) }

  lemma {:induction false} OctetOf(x: nat, n: nat, i: nat)
    requires i < n
    ensures BigEndian(x, n)[i] == Octet(Above(x, n - 1 - i))
  {
    hide Octet;
    if i < n - 1 {
      OctetOf(x / 0x100, n - 1, i);
    }
  }

  /** Section 4: the message, a one bit, as few zeros as complete the last block, and the number of bits
      in the last eight octets, most significant first. */
  lemma {:induction false} PadLaw(m: seq<Byte>, i: nat)
    requires i < |Pad(m)|
    ensures var n := |Pad(m)|;
      && n % 64 == 0 && |m| + 9 <= n < |m| + 73
      && Pad(m)[i] == (if i < |m| then m[i] else if i == |m| then 0x80 else if i < n - 8 then 0
                       else Octet(Above(8 * |m|, n - 1 - i)))
  {
    var n := |Pad(m)|;
    PadLength(|m|);
    hide Octet, Above, ZeroCount;
    if n - 8 <= i {
      OctetOf(8 * |m|, 8, i - (n - 8));
    }
  }

  // ---- The tables ----------------------------------------------------------------------------------------

  function Pick(i: int, x0: bv32, x1: bv32, x2: bv32, x3: bv32, x4: bv32, x5: bv32, x6: bv32, x7: bv32): bv32 {
    if i == 0 then x0 else if i == 1 then x1 else if i == 2 then x2 else if i == 3 then x3
    else if i == 4 then x4 else if i == 5 then x5 else if i == 6 then x6 else x7
  }

  /** The words of the block of "abc". */
  function W0(t: nat): bv32 {
    if t < 8 then Pick(t - 0, 0x61626380, 0, 0, 0, 0, 0, 0, 0)
    else if t < 16 then Pick(t - 8, 0, 0, 0, 0, 0, 0, 0, 0x00000018)
    else if t < 24 then Pick(t - 16, 0xC2C4C700, 0, 0x00000030, 0x85898E01, 0, 0x00000060, 0x0B131C03, 0x00000030)
    else if t < 32 then Pick(t - 24, 0x85898EC1, 0x16263806, 0, 0x00000180, 0x2C4C700C, 0x000000F0, 0x93AFB507, 0x5898E048)
    else if t < 40 then Pick(t - 32, 0x8E9A9202, 0x00000600, 0xB131C0F0, 0x16263BC6, 0x4EBED41E, 0x626380A1, 0x16263806, 0x000018C0)
    else if t < 48 then Pick(t - 40, 0xD2E138C4, 0x00000F00, 0x3AFB5079, 0x898E04E5, 0xE2BA3C2B, 0x000060C0, 0x053A37CD, 0x74458547)
    else if t < 56 then Pick(t - 48, 0xDA9415ED, 0x26380A16, 0x626383A1, 0x4EBF54DE, 0x3835B44B, 0x0000F600, 0x1E84C7A3, 0x98E04D98)
    else if t < 64 then Pick(t - 56, 0x651D16A0, 0x62658CA1, 0x458544D6, 0x44584CB7, 0x7BA06619, 0x6380AEA2, 0x0AE55269, 0x627B49A1)
    else if t < 72 then Pick(t - 64, 0x7CD45C9D, 0x000F0000, 0xFB50753A, 0xEC6765E8, 0xBA3C2BE2, 0x0060C000, 0x3A37CD05, 0x458546F4)
    else Pick(t - 72, 0xB8599DD6, 0x380A1A26, 0x01E02203, 0xE7CC3456, 0xE6E60B69, 0x00F60A00, 0x5795EF4F, 0x822E0879)
  }

  /** The five words that its first round finds, and what each round adds to them. */
  function A0(t: nat): bv32 {
    if t < 8 then Pick(t - 0, 0x0F4B87C3, 0x40C951D8, 0x62EB73FA, 0xEFCDAB89, 0x67452301, 0x0116FC33, 0x8990536D, 0xA1390F08)
    else if t < 16 then Pick(t - 8, 0xCDD8E11B, 0xCFD499DE, 0x3FC7CA40, 0x993E30C1, 0x9E8C07D4, 0x4B6AE328, 0x8351F929, 0xFBDA9E89)
    else if t < 24 then Pick(t - 16, 0x63188FE4, 0x4607B664, 0x9128F695, 0x196BEE77, 0x20BDD62F, 0x4E925823, 0x82AA6728, 0xDC64901D)
    else if t < 32 then Pick(t - 24, 0xFD9E1D7D, 0x1A37B0CA, 0x33A23BFC, 0x21283486, 0xD541F12D, 0xC7567DC6, 0x48413BA4, 0xBE35FBD5)
    else if t < 40 then Pick(t - 32, 0x4AA84D97, 0x8370B52E, 0xC5FBAF5D, 0x1267B407, 0x3B845D33, 0x046FAA0A, 0x2C0EBC11, 0x21796AD4)
    else if t < 48 then Pick(t - 40, 0xDCBBB0CB, 0x0F511FD8, 0xDC63973F, 0x4C986405, 0x32DE1CBA, 0xFC87DEDF, 0x970A0D5C, 0x7F193DC5)
    else if t < 56 then Pick(t - 48, 0xEE1B1AAF, 0x40F28E09, 0x1C51E1F2, 0xA01B846C, 0xBEAD02CA, 0xBAF39337, 0x120731C5, 0x641DB2CE)
    else if t < 64 then Pick(t - 56, 0x3847AD66, 0xE490436D, 0x27E9F1D8, 0x7B71F76D, 0x5E6456AF, 0xC846093F, 0xD262FF50, 0x09D785FD)
    else if t < 72 then Pick(t - 64, 0x3F52DE5A, 0xD756C147, 0x548C9CB2, 0xB66C020B, 0x6B61C9E1, 0x19DFA7AC, 0x101655F9, 0x0C3DF2B4)
    else if t < 80 then Pick(t - 72, 0x78DD4D2B, 0x497093C0, 0x3F2588C2, 0xC199F8C7, 0x39859DE7, 0xEDB42DE4, 0x11793F6F, 0x5EE76897)
    else Pick(t - 80, 0x63F7DAB7, 0xA079B7D9, 0x860D21CC, 0x5738D5E1, 0x42541B35, 0, 0, 0)
  }

  /** The words of the first block of the longer message. */
  function W1(t: nat): bv32 {
    if t < 8 then Pick(t - 0, 0x61626364, 0x62636465, 0x63646566, 0x64656667, 0x65666768, 0x66676869, 0x6768696A, 0x68696A6B)
    else if t < 16 then Pick(t - 8, 0x696A6B6C, 0x6A6B6C6D, 0x6B6C6D6E, 0x6C6D6E6F, 0x6D6E6F70, 0x6E6F7071, 0x80000000, 0)
    else if t < 24 then Pick(t - 16, 0x0A063A3E, 0xD8DADCDF, 0xDADCDEC0, 0xC8D2B4BE, 0x6F757B5B, 0x757B5967, 0x8DA16D70, 0xDAEEFABA)
    else if t < 32 then Pick(t - 24, 0xFAF6CAB6, 0xA6FB675A, 0x0C604CC8, 0x604CC02C, 0x49C0E6E2, 0x2EE8CBBC, 0xCFD72EC4, 0x97E9810E)
    else if t < 40 then Pick(t - 32, 0x0989CBE8, 0xF24843FE, 0x5C40D0BA, 0xA8D9CC3B, 0xB2B9666E, 0xBA7B71B7, 0x20B28A72, 0xB28AF500)
    else if t < 48 then Pick(t - 40, 0x8AC87842, 0x289ADDF4, 0x56D51F21, 0xD96B7FD2, 0x3868E778, 0xAB5E4848, 0x7F0E2118, 0xDE87A111)
    else if t < 56 then Pick(t - 48, 0xE8BE56B0, 0x1A0AE652, 0xCD5611C8, 0x46EF29DC, 0x60D3DA6D, 0xDDF3BA6E, 0x2737F5E9, 0x4888A710)
    else if t < 64 then Pick(t - 56, 0xD2A1177B, 0x9999633B, 0xD6C69D03, 0xCCF6127B, 0x7C58FE6D, 0xFDD99C68, 0xF8E32074, 0xE0BA3C7D)
    else if t < 72 then Pick(t - 64, 0x152198D6, 0x7B3F1982, 0x37F2D5B7, 0x8596323E, 0x810790D6, 0xBEA0A942, 0x11C7E1B1, 0x6158D101)
    else Pick(t - 72, 0x5FCD77D9, 0x7F2F12E6, 0xF868CFB1, 0xD6E997E9, 0xF526B852, 0xB7578DCC, 0x55D99DF4, 0x1FF69958)
  }

  /** The five words that its first round finds, and what each round adds to them. */
  function A1(t: nat): bv32 {
    if t < 8 then Pick(t - 0, 0x0F4B87C3, 0x40C951D8, 0x62EB73FA, 0xEFCDAB89, 0x67452301, 0x0116FC17, 0xEBF3B452, 0x5109913A)
    else if t < 16 then Pick(t - 8, 0x2C4F6EAC, 0x33F4AE5B, 0x96B85189, 0xDB04CB58, 0x45833F0F, 0xC565C35E, 0x6350AFDA, 0x8993EA77)
    else if t < 24 then Pick(t - 16, 0xE19ECAA2, 0x8603481E, 0x32F94A85, 0xB2E7A8BE, 0x42637E39, 0x6B068048, 0x426B9C35, 0x944B1BD1)
    else if t < 32 then Pick(t - 24, 0x6C445652, 0x95836DA5, 0x09511177, 0xE2B92DC4, 0xFD224575, 0xEEB82D9A, 0x5A142C1A, 0x2972F7C7)
    else if t < 40 then Pick(t - 32, 0xD526A644, 0xE1122421, 0x05B457B2, 0xA9C84BEC, 0x52E31F60, 0x5AF3242C, 0x31C756A9, 0xE9AC987C)
    else if t < 48 then Pick(t - 40, 0xAB7C32EE, 0x5933FC99, 0x43F87AE9, 0x24957F22, 0xADEB7478, 0xD70E5010, 0x79BCFB08, 0xF9BCB8DE)
    else if t < 56 then Pick(t - 48, 0x633E9561, 0x98C1EA64, 0xC6EA241E, 0xA2AD4F02, 0xC8A69090, 0x88341600, 0x7E846F58, 0x86E358BA)
    else if t < 64 then Pick(t - 56, 0x8D2E76C8, 0xCE892E10, 0xEDEA95B1, 0x36D1230A, 0x776C3910, 0xA681B723, 0xAC0A794F, 0xF03D3782)
    else if t < 72 then Pick(t - 64, 0x9EF775C3, 0x36254B13, 0x4080D4DC, 0x2BFAF7A8, 0x513F9CA0, 0xE5895C81, 0x1037D2D5, 0x14A82DA9)
    else if t < 80 then Pick(t - 72, 0x6D17C9FD, 0x2C7B07BD, 0xFDF6EFFF, 0x112B96E3, 0x84065712, 0xAB89FB71, 0xC5210E35, 0x352D9F4B)
    else Pick(t - 80, 0x1A0E0E0A, 0xD0D47349, 0xAD38620D, 0xD3AD7C25, 0x8CE34517, 0, 0, 0)
  }

  /** The words of its second block. */
  function W2(t: nat): bv32 {
    if t < 8 then Pick(t - 0, 0, 0, 0, 0, 0, 0, 0, 0)
    else if t < 16 then Pick(t - 8, 0, 0, 0, 0, 0, 0, 0, 0x000001C0)
    else if t < 24 then Pick(t - 16, 0, 0, 0x00000380, 0, 0, 0x00000700, 0, 0x00000380)
    else if t < 32 then Pick(t - 24, 0x00000E00, 0, 0, 0x00001C00, 0, 0x00000D80, 0x00003800, 0x00000480)
    else if t < 40 then Pick(t - 32, 0, 0x00007000, 0x00000E00, 0x00003600, 0x0000E000, 0x00000E00, 0, 0x0001CE00)
    else if t < 48 then Pick(t - 40, 0, 0x0000D800, 0x00038000, 0x00004F00, 0, 0x00070E00, 0x0000EE00, 0x00037500)
    else if t < 56 then Pick(t - 48, 0x000E0000, 0x0000E000, 0x00003600, 0x001CEE00, 0, 0x000DF000, 0x00380000, 0x0004C600)
    else if t < 64 then Pick(t - 56, 0x0000E000, 0x0070EE00, 0x000EE000, 0x00369E00, 0x00E00000, 0x000ED600, 0x0000E000, 0x01CEA600)
    else if t < 72 then Pick(t - 64, 0, 0x00D80000, 0x0380E000, 0x004F0000, 0, 0x070E0000, 0x00EE0000, 0x03751C00)
    else Pick(t - 72, 0x0E000000, 0x00E0E000, 0x00363800, 0x1CEE9000, 0, 0x0DF09000, 0x3800E000, 0x04C77400)
  }

  /** The five words that its first round finds, and what each round adds to them. */
  function A2(t: nat): bv32 {
    if t < 8 then Pick(t - 0, 0x295995C9, 0x119DC522, 0x1023D604, 0xC37B27AE, 0xF4286818, 0x2DF257E9, 0x4D3DC58F, 0xC352BB05)
    else if t < 16 then Pick(t - 8, 0xEEF743C6, 0x41E34277, 0x5443915C, 0xE7FA0377, 0xC6946813, 0xFDDE1DE1, 0xB8538ACA, 0x6BA94F63)
    else if t < 24 then Pick(t - 16, 0x43A2792F, 0xFECD7BBF, 0xA2604CA8, 0x258B0BAA, 0xD9772360, 0x5507DB6E, 0xA51B58BC, 0xC2EB709F)
    else if t < 32 then Pick(t - 24, 0xD8992153, 0x37482F5F, 0xEE8700BD, 0x9AD594B9, 0x8FBAA5B9, 0x88FB5867, 0xEEC50521, 0x50BCE434)
    else if t < 40 then Pick(t - 32, 0x5C416DAF, 0x2429BE5F, 0x0A2FB108, 0x17986223, 0x8A4AF384, 0x6B629993, 0xF15F04F3, 0x295CC25B)
    else if t < 48 then Pick(t - 40, 0x696DA404, 0xCEF5AE12, 0x87D5B80C, 0x84E2A5F2, 0x03BB6310, 0xC2D8F75F, 0xBFB25768, 0x28589152)
    else if t < 56 then Pick(t - 48, 0xEC1D3D61, 0x3CAED7AF, 0xC3D033EA, 0x7316056A, 0x46F93B68, 0xDC8E7F26, 0x850D411C, 0x7E4672C0)
    else if t < 64 then Pick(t - 56, 0x89FBD41D, 0x1797E228, 0x431D65BC, 0x2BDBB8CB, 0x6DA72E7F, 0xA8495A9B, 0xE785655A, 0x5B086C42)
    else if t < 72 then Pick(t - 64, 0xA65818F7, 0x7AAB101B, 0x93614C9C, 0xF66D9BF4, 0xD504902B, 0x60A9DA62, 0x8B687819, 0x083E90C3)
    else if t < 80 then Pick(t - 72, 0xF6226BBF, 0x76C0563B, 0x989DD165, 0x8B2C7573, 0xAE1B8E7B, 0xCA1840DE, 0x16F3BABB, 0xD28D83AD)
    else Pick(t - 80, 0x6BC02DFE, 0xD3A6E275, 0xDA955482, 0x58C0AAC0, 0x906FD62C, 0, 0, 0)
  }

  /** The tables by number. */
  function W(k: nat, t: nat): bv32 { if k == 0 then W0(t) else if k == 1 then W1(t) else W2(t) }

  function A(k: nat, t: nat): bv32 { if k == 0 then A0(t) else if k == 1 then A1(t) else A2(t) }

  // ---- What the tables are checked for -------------------------------------------------------------------

  /** What round `t` adds to the five words before it, and the word that is fed back, as plain expressions. */
  function Step(t: nat, v: bv32, w: bv32, x: bv32, y: bv32, z: bv32, word: bv32): bv32 {
    Sum((z << 5) | (z >> 27), Mixed(t, y, (x << 30) | (x >> 2), (w << 30) | (w >> 2)),
        (v << 30) | (v >> 2), word, Constant(t))
  }

  function Mixed(t: nat, b: bv32, c: bv32, d: bv32): bv32 {
    if t < 20 then (b & c) | (!b & d) else if 40 <= t < 60 then (b & c) | (b & d) | (c & d) else b ^ c ^ d
  }

  function Constant(t: nat): bv32 {
    if t < 20 then 0x5A827999 else if t < 40 then 0x6ED9EBA1 else if t < 60 then 0x8F1BBCDC else 0xCA62C1D6
  }

  function Feed(a: bv32, b: bv32, c: bv32, d: bv32): bv32 {
    var x := a ^ b ^ c ^ d;
    (x << 1) | (x >> 31)
  }

  lemma Turns(x: bv32)
    ensures Rotate(1, x) == (x << 1) | (x >> 31) && Rotate(5, x) == (x << 5) | (x >> 27)
    ensures Rotate(30, x) == (x << 30) | (x >> 2)
  {
  }

  lemma {:induction false} StepIs(t: nat, v: bv32, w: bv32, x: bv32, y: bv32, z: bv32, word: bv32)
    ensures Step(t, v, w, x, y, z, word) == Sum(Rotate(5, z), F(t, y, Rotate(30, x), Rotate(30, w)), Rotate(30, v), word, K(t))
  {
    Turns(v);
    Turns(w);
    Turns(x);
    Turns(z);
    SameMix(t, y, Rotate(30, x), Rotate(30, w));
    hide Rotate, Mixed, F, Constant, K, Sum;
  }

  lemma {:induction false} SameMix(t: nat, b: bv32, c: bv32, d: bv32)
    ensures Mixed(t, b, c, d) == F(t, b, c, d) && Constant(t) == K(t)
  {
    if t < 20 {
    } else if t < 40 {
    } else if t < 60 {
    }
  }

  lemma {:induction false} FeedIs(a: bv32, b: bv32, c: bv32, d: bv32)
    ensures Feed(a, b, c, d) == Feedback(a, b, c, d)
  {
    Turns(a ^ b ^ c ^ d);
    hide Rotate;
  }

  predicate Stepped(k: nat, t: nat) {
    A(k, t + 5) == Step(t, A(k, t), A(k, t + 1), A(k, t + 2), A(k, t + 3), A(k, t + 4), W(k, t))
  }

  predicate Fed(k: nat, t: nat)
    requires t >= 16
  {
    W(k, t) == Feed(W(k, t - 3), W(k, t - 8), W(k, t - 14), W(k, t - 16))
  }

  ghost predicate Checked(k: nat) {
    (forall t :: 0 <= t < 80 ==> Stepped(k, t)) && (forall t :: 16 <= t < 80 ==> Fed(k, t))
  }

  /** The first words come from the block. */
  predicate Loaded(k: nat, block: Block, t: nat)
    requires t < 16
  {
    W(k, t) == BigEndianWord(block[4 * t], block[4 * t + 1], block[4 * t + 2], block[4 * t + 3])
  }

  /** The registers before round `t`. */
  function At(k: nat, t: nat): Regs {
    Regs(A(k, t + 4), A(k, t + 3), Rotate(30, A(k, t + 2)), Rotate(30, A(k, t + 1)), Rotate(30, A(k, t)))
  }

  lemma {:induction false} WordsAre(k: nat, block: Block, n: nat)
    requires n <= 80 && Checked(k) && forall t :: 0 <= t < 16 ==> Loaded(k, block, t)
    ensures forall t :: 0 <= t < n ==> Schedule(block, n)[t] == W(k, t)
  {
    hide W, Feedback, Feed, BigEndianWord, Stepped;
    if n > 0 {
      WordsAre(k, block, n - 1);
      if n - 1 < 16 {
        assert Loaded(k, block, n - 1);
      } else {
        assert Fed(k, n - 1);
        FeedIs(W(k, n - 4), W(k, n - 9), W(k, n - 15), W(k, n - 17));
      }
    }
  }

  lemma {:induction false} RoundsAre(k: nat, h: Regs, w: seq<bv32>, n: nat)
    requires n <= 80 == |w| && Checked(k) && h == At(k, 0) && forall t :: 0 <= t < 80 ==> w[t] == W(k, t)
    ensures Rounds(h, w, n) == At(k, n)
  {
    hide W, A, Sum, Rotate, F, K, Fed, Step;
    if n > 0 {
      RoundsAre(k, h, w, n - 1);
      assert Stepped(k, n - 1);
      var t := n - 1;
      StepIs(t, A(k, t), A(k, t + 1), A(k, t + 2), A(k, t + 3), A(k, t + 4), W(k, t));
    }
  }

  /** One block with a checked table. */
  lemma {:induction false} Compressed(k: nat, h: Regs, block: Block)
    requires Checked(k) && h == At(k, 0) && forall t :: 0 <= t < 16 ==> Loaded(k, block, t)
    ensures Compress(h, block) == Plus(h, At(k, 80))
  {
    hide W, A, Checked, Loaded, At, Plus, Rounds, Schedule;
    WordsAre(k, block, 80);
    RoundsAre(k, h, Schedule(block, 80), 80);
  }

  // ---- The checks: the block of "abc" -------------------------------------------------------------------

  predicate S0(t: nat) { A0(t + 5) == Step(t, A0(t), A0(t + 1), A0(t + 2), A0(t + 3), A0(t + 4), W0(t)) }

  predicate F0(t: nat) { t >= 16 ==> W0(t) == Feed(W0(t - 3), W0(t - 8), W0(t - 14), W0(t - 16)) }

  lemma S0_0()
    ensures S0(0) && S0(1) && S0(2) && S0(3) && S0(4) && S0(5) && S0(6) && S0(7) && S0(8) && S0(9)
  {
  }

  lemma S0_10()
    ensures S0(10) && S0(11) && S0(12) && S0(13) && S0(14) && S0(15) && S0(16) && S0(17) && S0(18) && S0(19)
  {
  }

  lemma S0_20()
    ensures S0(20) && S0(21) && S0(22) && S0(23) && S0(24) && S0(25) && S0(26) && S0(27) && S0(28) && S0(29)
  {
  }

  lemma S0_30()
    ensures S0(30) && S0(31) && S0(32) && S0(33) && S0(34) && S0(35) && S0(36) && S0(37) && S0(38) && S0(39)
  {
  }

  lemma S0_40()
    ensures S0(40) && S0(41) && S0(42) && S0(43) && S0(44) && S0(45) && S0(46) && S0(47) && S0(48) && S0(49)
  {
  }

  lemma S0_50()
    ensures S0(50) && S0(51) && S0(52) && S0(53) && S0(54) && S0(55) && S0(56) && S0(57) && S0(58) && S0(59)
  {
  }

  lemma S0_60()
    ensures S0(60) && S0(61) && S0(62) && S0(63) && S0(64) && S0(65) && S0(66) && S0(67) && S0(68) && S0(69)
  {
  }

  lemma S0_70()
    ensures S0(70) && S0(71) && S0(72) && S0(73) && S0(74) && S0(75) && S0(76) && S0(77) && S0(78) && S0(79)
  {
  }

  lemma F0_16()
    ensures F0(16) && F0(17) && F0(18) && F0(19)
  {
  }

  lemma F0_20()
    ensures F0(20) && F0(21) && F0(22) && F0(23)
  {
  }

  lemma F0_24()
    ensures F0(24) && F0(25) && F0(26) && F0(27)
  {
  }

  lemma F0_28()
    ensures F0(28) && F0(29) && F0(30) && F0(31)
  {
  }

  lemma F0_32()
    ensures F0(32) && F0(33) && F0(34) && F0(35) && F0(36) && F0(37) && F0(38) && F0(39)
  {
  }

  lemma F0_40()
    ensures F0(40) && F0(41) && F0(42) && F0(43) && F0(44) && F0(45) && F0(46) && F0(47)
  {
  }

  lemma F0_48()
    ensures F0(48) && F0(49) && F0(50) && F0(51) && F0(52) && F0(53) && F0(54) && F0(55)
  {
  }

  lemma F0_56()
    ensures F0(56) && F0(57) && F0(58) && F0(59) && F0(60) && F0(61) && F0(62) && F0(63)
  {
  }

  lemma F0_64()
    ensures F0(64) && F0(65) && F0(66) && F0(67) && F0(68) && F0(69) && F0(70) && F0(71)
  {
  }

  lemma F0_72()
    ensures F0(72) && F0(73) && F0(74) && F0(75) && F0(76) && F0(77) && F0(78) && F0(79)
  {
  }

  lemma {:induction false} AllStepped0(t: nat)
    requires t < 80
    ensures S0(t)
  {
    hide *;
    if t < 10 { S0_0(); } else if t < 20 { S0_10(); } else if t < 30 { S0_20(); }
    else if t < 40 { S0_30(); } else if t < 50 { S0_40(); } else if t < 60 { S0_50(); }
    else if t < 70 { S0_60(); } else { S0_70(); }
  }

  lemma {:induction false} AllFed0(t: nat)
    requires 16 <= t < 80
    ensures F0(t)
  {
    hide *;
    if t < 20 { F0_16(); } else if t < 24 { F0_20(); } else if t < 28 { F0_24(); }
    else if t < 32 { F0_28(); } else if t < 40 { F0_32(); } else if t < 48 { F0_40(); }
    else if t < 56 { F0_48(); } else if t < 64 { F0_56(); } else if t < 72 { F0_64(); }
    else { F0_72(); }
  }

  lemma {:induction false} Checked0()
    ensures Checked(0)
  {
    hide W0, A0, Feed, Step;
    forall t | 0 <= t < 80 ensures Stepped(0, t) {
      AllStepped0(t);
    }
    forall t | 16 <= t < 80 ensures Fed(0, t) {
      AllFed0(t);
    }
  }

  // ---- The checks: the first block of the longer message ------------------------------------------------

  predicate S1(t: nat) { A1(t + 5) == Step(t, A1(t), A1(t + 1), A1(t + 2), A1(t + 3), A1(t + 4), W1(t)) }

  predicate F1(t: nat) { t >= 16 ==> W1(t) == Feed(W1(t - 3), W1(t - 8), W1(t - 14), W1(t - 16)) }

  lemma S1_0()
    ensures S1(0) && S1(1) && S1(2) && S1(3) && S1(4) && S1(5) && S1(6) && S1(7) && S1(8) && S1(9)
  {
  }

  lemma S1_10()
    ensures S1(10) && S1(11) && S1(12) && S1(13) && S1(14) && S1(15) && S1(16) && S1(17) && S1(18) && S1(19)
  {
  }

  lemma S1_20()
    ensures S1(20) && S1(21) && S1(22) && S1(23) && S1(24) && S1(25) && S1(26) && S1(27) && S1(28) && S1(29)
  {
  }

  lemma S1_30()
    ensures S1(30) && S1(31) && S1(32) && S1(33) && S1(34) && S1(35) && S1(36) && S1(37) && S1(38) && S1(39)
  {
  }

  lemma S1_40()
    ensures S1(40) && S1(41) && S1(42) && S1(43) && S1(44) && S1(45) && S1(46) && S1(47) && S1(48) && S1(49)
  {
  }

  lemma S1_50()
    ensures S1(50) && S1(51) && S1(52) && S1(53) && S1(54) && S1(55) && S1(56) && S1(57) && S1(58) && S1(59)
  {
  }

  lemma S1_60()
    ensures S1(60) && S1(61) && S1(62) && S1(63) && S1(64) && S1(65) && S1(66) && S1(67) && S1(68) && S1(69)
  {
  }

  lemma S1_70()
    ensures S1(70) && S1(71) && S1(72) && S1(73) && S1(74) && S1(75) && S1(76) && S1(77) && S1(78) && S1(79)
  {
  }

  lemma F1_16()
    ensures F1(16) && F1(17) && F1(18) && F1(19) && F1(20) && F1(21) && F1(22) && F1(23)
  {
  }

  lemma F1_24()
    ensures F1(24) && F1(25) && F1(26) && F1(27) && F1(28) && F1(29) && F1(30) && F1(31)
  {
  }

  lemma F1_32()
    ensures F1(32) && F1(33) && F1(34) && F1(35) && F1(36) && F1(37) && F1(38) && F1(39)
  {
  }

  lemma F1_40()
    ensures F1(40) && F1(41) && F1(42) && F1(43) && F1(44) && F1(45) && F1(46) && F1(47)
  {
  }

  lemma F1_48()
    ensures F1(48) && F1(49) && F1(50) && F1(51) && F1(52) && F1(53) && F1(54) && F1(55)
  {
  }

  lemma F1_56()
    ensures F1(56) && F1(57) && F1(58) && F1(59) && F1(60) && F1(61) && F1(62) && F1(63)
  {
  }

  lemma F1_64()
    ensures F1(64) && F1(65) && F1(66) && F1(67) && F1(68) && F1(69) && F1(70) && F1(71)
  {
  }

  lemma F1_72()
    ensures F1(72) && F1(73) && F1(74) && F1(75) && F1(76) && F1(77) && F1(78) && F1(79)
  {
  }

  lemma {:induction false} AllStepped1(t: nat)
    requires t < 80
    ensures S1(t)
  {
    hide *;
    if t < 10 { S1_0(); } else if t < 20 { S1_10(); } else if t < 30 { S1_20(); }
    else if t < 40 { S1_30(); } else if t < 50 { S1_40(); } else if t < 60 { S1_50(); }
    else if t < 70 { S1_60(); } else { S1_70(); }
  }

  lemma {:induction false} AllFed1(t: nat)
    requires 16 <= t < 80
    ensures F1(t)
  {
    hide *;
    if t < 24 { F1_16(); } else if t < 32 { F1_24(); } else if t < 40 { F1_32(); }
    else if t < 48 { F1_40(); } else if t < 56 { F1_48(); } else if t < 64 { F1_56(); }
    else if t < 72 { F1_64(); } else { F1_72(); }
  }

  lemma {:induction false} Checked1()
    ensures Checked(1)
  {
    hide W1, A1, Feed, Step;
    forall t | 0 <= t < 80 ensures Stepped(1, t) {
      AllStepped1(t);
    }
    forall t | 16 <= t < 80 ensures Fed(1, t) {
      AllFed1(t);
    }
  }

  // ---- The checks: its second block ---------------------------------------------------------------------

  predicate S2(t: nat) { A2(t + 5) == Step(t, A2(t), A2(t + 1), A2(t + 2), A2(t + 3), A2(t + 4), W2(t)) }

  predicate F2(t: nat) { t >= 16 ==> W2(t) == Feed(W2(t - 3), W2(t - 8), W2(t - 14), W2(t - 16)) }

  lemma S2_0()
    ensures S2(0) && S2(1) && S2(2) && S2(3) && S2(4) && S2(5) && S2(6) && S2(7) && S2(8) && S2(9)
  {
  }

  lemma S2_10()
    ensures S2(10) && S2(11) && S2(12) && S2(13) && S2(14) && S2(15) && S2(16) && S2(17) && S2(18) && S2(19)
  {
  }

  lemma S2_20()
    ensures S2(20) && S2(21) && S2(22) && S2(23) && S2(24) && S2(25) && S2(26) && S2(27) && S2(28) && S2(29)
  {
  }

  lemma S2_30()
    ensures S2(30) && S2(31) && S2(32) && S2(33) && S2(34) && S2(35) && S2(36) && S2(37) && S2(38) && S2(39)
  {
  }

  lemma S2_40()
    ensures S2(40) && S2(41) && S2(42) && S2(43) && S2(44) && S2(45) && S2(46) && S2(47) && S2(48) && S2(49)
  {
  }

  lemma S2_50()
    ensures S2(50) && S2(51) && S2(52) && S2(53) && S2(54) && S2(55) && S2(56) && S2(57) && S2(58) && S2(59)
  {
  }

  lemma S2_60()
    ensures S2(60) && S2(61) && S2(62) && S2(63) && S2(64) && S2(65) && S2(66) && S2(67) && S2(68) && S2(69)
  {
  }

  lemma S2_70()
    ensures S2(70) && S2(71) && S2(72) && S2(73) && S2(74) && S2(75) && S2(76) && S2(77) && S2(78) && S2(79)
  {
  }

  lemma F2_16()
    ensures F2(16) && F2(17) && F2(18) && F2(19)
  {
  }

  lemma F2_20()
    ensures F2(20) && F2(21) && F2(22) && F2(23)
  {
  }

  lemma F2_24()
    ensures F2(24) && F2(25) && F2(26) && F2(27)
  {
  }

  lemma F2_28()
    ensures F2(28) && F2(29) && F2(30) && F2(31)
  {
  }

  lemma F2_32()
    ensures F2(32) && F2(33) && F2(34) && F2(35) && F2(36) && F2(37) && F2(38) && F2(39)
  {
  }

  lemma F2_40()
    ensures F2(40) && F2(41) && F2(42) && F2(43) && F2(44) && F2(45) && F2(46) && F2(47)
  {
  }

  lemma F2_48()
    ensures F2(48) && F2(49) && F2(50) && F2(51) && F2(52) && F2(53) && F2(54) && F2(55)
  {
  }

  lemma F2_56()
    ensures F2(56) && F2(57) && F2(58) && F2(59) && F2(60) && F2(61) && F2(62) && F2(63)
  {
  }

  lemma F2_64()
    ensures F2(64) && F2(65) && F2(66) && F2(67) && F2(68) && F2(69) && F2(70) && F2(71)
  {
  }

  lemma F2_72()
    ensures F2(72) && F2(73) && F2(74) && F2(75) && F2(76) && F2(77) && F2(78) && F2(79)
  {
  }

  lemma {:induction false} AllStepped2(t: nat)
    requires t < 80
    ensures S2(t)
  {
    hide *;
    if t < 10 { S2_0(); } else if t < 20 { S2_10(); } else if t < 30 { S2_20(); }
    else if t < 40 { S2_30(); } else if t < 50 { S2_40(); } else if t < 60 { S2_50(); }
    else if t < 70 { S2_60(); } else { S2_70(); }
  }

  lemma {:induction false} AllFed2(t: nat)
    requires 16 <= t < 80
    ensures F2(t)
  {
    hide *;
    if t < 20 { F2_16(); } else if t < 24 { F2_20(); } else if t < 28 { F2_24(); }
    else if t < 32 { F2_28(); } else if t < 40 { F2_32(); } else if t < 48 { F2_40(); }
    else if t < 56 { F2_48(); } else if t < 64 { F2_56(); } else if t < 72 { F2_64(); }
    else { F2_72(); }
  }

  lemma {:induction false} Checked2()
    ensures Checked(2)
  {
    hide W2, A2, Feed, Step;
    forall t | 0 <= t < 80 ensures Stepped(2, t) {
      AllStepped2(t);
    }
    forall t | 16 <= t < 80 ensures Fed(2, t) {
      AllFed2(t);
    }
  }

  // ---- The messages ----------------------------------------------------------------------------------------

  /** "abc" */
  const Short: seq<Byte> := [0x61, 0x62, 0x63]

  /** "abcdbcdecdefdefgefghfghighijhijkijkljklmklmnlmnomnopnopq" */
  const Long: seq<Byte> := seq(56, i requires 0 <= i < 56 => Octet1(i))

  function Choice(i: int, x0: Byte, x1: Byte, x2: Byte, x3: Byte, x4: Byte, x5: Byte, x6: Byte, x7: Byte): Byte {
    if i == 0 then x0 else if i == 1 then x1 else if i == 2 then x2 else if i == 3 then x3
    else if i == 4 then x4 else if i == 5 then x5 else if i == 6 then x6 else x7
  }

  /** The two messages with their padding, octet by octet. */
  function Octet0(i: nat): Byte {
    if i < 8 then Choice(i, 0x61, 0x62, 0x63, 0x80, 0, 0, 0, 0) else if i == 63 then 0x18 else 0
  }

  function Octet1(i: nat): Byte {
    if i < 8 then Choice(i, 0x61, 0x62, 0x63, 0x64, 0x62, 0x63, 0x64, 0x65)
    else if i < 16 then Choice(i - 8, 0x63, 0x64, 0x65, 0x66, 0x64, 0x65, 0x66, 0x67)
    else if i < 24 then Choice(i - 16, 0x65, 0x66, 0x67, 0x68, 0x66, 0x67, 0x68, 0x69)
    else if i < 32 then Choice(i - 24, 0x67, 0x68, 0x69, 0x6A, 0x68, 0x69, 0x6A, 0x6B)
    else if i < 40 then Choice(i - 32, 0x69, 0x6A, 0x6B, 0x6C, 0x6A, 0x6B, 0x6C, 0x6D)
    else if i < 48 then Choice(i - 40, 0x6B, 0x6C, 0x6D, 0x6E, 0x6C, 0x6D, 0x6E, 0x6F)
    else if i < 56 then Choice(i - 48, 0x6D, 0x6E, 0x6F, 0x70, 0x6E, 0x6F, 0x70, 0x71)
    else if i == 56 then 0x80 else if i == 126 then 0x01 else if i == 127 then 0xC0 else 0
  }

  lemma {:induction false} ZeroBytes(n: nat)
    ensures forall i :: 0 <= i < n ==> BigEndian(0, n)[i] == 0
  {
    if n > 0 {
      ZeroBytes(n - 1);
    }
  }

  /** The octets of a padded message whose length in bits is below 2^16. */
  lemma {:induction false} PadOctet(m: seq<Byte>, i: nat)
    requires 8 * |m| < 0x1_0000 && i < |Pad(m)|
    ensures var n := |Pad(m)|;
      Pad(m)[i] == if i < |m| then m[i] else if i == |m| then 0x80
        else if i == n - 2 then Octet(8 * |m| / 0x100) else if i == n - 1 then Octet(8 * |m|) else 0
  {
    var x := 8 * |m|;
    hide Octet;
    ZeroBytes(6);
    assert x / 0x100 / 0x100 == 0;
    assert BigEndian(x, 8) == BigEndian(x / 0x100 / 0x100, 6) + [Octet(x / 0x100)] + [Octet(x)];
  }

  lemma LengthOctets()
    ensures Octet(24) == 0x18 && Octet(448) == 0xC0 && Octet(1) == 1 && Octet(0) == 0
  {
    assert Octet(24) == 0x18;
    assert Octet(448) == 0xC0;
  }

  lemma {:induction false} PadShort(i: nat)
    requires i < 64
    ensures |Pad(Short)| == 64 && Pad(Short)[i] == Octet0(i)
  {
    PadOctet(Short, i);
    LengthOctets();
    hide Octet, BigEndian, Zeros;
  }

  lemma {:induction false} PadLong(i: nat)
    requires i < 128
    ensures |Pad(Long)| == 128 && Pad(Long)[i] == Octet1(i)
  {
    PadOctet(Long, i);
    LengthOctets();
    hide Octet, BigEndian, Zeros, Choice;
  }

  predicate L0(t: nat)
    requires t < 16
  {
    W0(t) == BigEndianWord(Octet0(4 * t), Octet0(4 * t + 1), Octet0(4 * t + 2), Octet0(4 * t + 3))
  }

  lemma L0_0()
    ensures L0(0) && L0(1) && L0(2) && L0(3) && L0(4) && L0(5) && L0(6) && L0(7)
  {
  }

  lemma L0_8()
    ensures L0(8) && L0(9) && L0(10) && L0(11) && L0(12) && L0(13) && L0(14) && L0(15)
  {
  }

  lemma {:induction false} AllLoaded0(t: nat)
    requires t < 16
    ensures L0(t)
  {
    hide *;
    if t < 8 { L0_0(); } else { L0_8(); }
  }

  lemma {:induction false} Loaded0(t: nat)
    requires t < 16
    ensures |Pad(Short)| == 64 && Loaded(0, Pad(Short)[0..64], t)
  {
    hide W0, Octet0, Pad, BigEndianWord;
    AllLoaded0(t);
    PadShort(4 * t);
    PadShort(4 * t + 1);
    PadShort(4 * t + 2);
    PadShort(4 * t + 3);
  }

  predicate L1(t: nat)
    requires t < 16
  {
    W1(t) == BigEndianWord(Octet1(4 * t), Octet1(4 * t + 1), Octet1(4 * t + 2), Octet1(4 * t + 3))
  }

  lemma L1_0()
    ensures L1(0) && L1(1) && L1(2) && L1(3) && L1(4) && L1(5) && L1(6) && L1(7)
  {
  }

  lemma L1_8()
    ensures L1(8) && L1(9) && L1(10) && L1(11) && L1(12) && L1(13) && L1(14) && L1(15)
  {
  }

  lemma {:induction false} AllLoaded1(t: nat)
    requires t < 16
    ensures L1(t)
  {
    hide *;
    if t < 8 { L1_0(); } else { L1_8(); }
  }

  lemma {:induction false} Loaded1(t: nat)
    requires t < 16
    ensures |Pad(Long)| == 128 && Loaded(1, Pad(Long)[0..64], t)
  {
    hide W1, Octet1, Pad, BigEndianWord;
    AllLoaded1(t);
    PadLong(4 * t);
    PadLong(4 * t + 1);
    PadLong(4 * t + 2);
    PadLong(4 * t + 3);
  }

  predicate L2(t: nat)
    requires t < 16
  {
    W2(t) == BigEndianWord(Octet1(64 + 4 * t), Octet1(64 + 4 * t + 1), Octet1(64 + 4 * t + 2), Octet1(64 + 4 * t + 3))
  }

  lemma L2_0()
    ensures L2(0) && L2(1) && L2(2) && L2(3) && L2(4) && L2(5) && L2(6) && L2(7)
  {
  }

  lemma L2_8()
    ensures L2(8) && L2(9) && L2(10) && L2(11) && L2(12) && L2(13) && L2(14) && L2(15)
  {
  }

  lemma {:induction false} AllLoaded2(t: nat)
    requires t < 16
    ensures L2(t)
  {
    hide *;
    if t < 8 { L2_0(); } else { L2_8(); }
  }

  lemma {:induction false} Loaded2(t: nat)
    requires t < 16
    ensures |Pad(Long)| == 128 && Loaded(2, Pad(Long)[64..128], t)
  {
    hide W2, Octet1, Pad, BigEndianWord;
    AllLoaded2(t);
    PadLong(64 + 4 * t);
    PadLong(64 + 4 * t + 1);
    PadLong(64 + 4 * t + 2);
    PadLong(64 + 4 * t + 3);
  }

  // ---- The digests -------------------------------------------------------------------------------------------

  lemma {:induction false} Ends0()
    ensures At(0, 0) == H0
    ensures Plus(H0, At(0, 80)) == Regs(0xA9993E36, 0x4706816A, 0xBA3E2571, 0x7850C26C, 0x9CD0D89D)
  {
    hide Rotate;
    Turns(A(0, 0));
    Turns(A(0, 1));
    Turns(A(0, 2));
    Turns(A(0, 80));
    Turns(A(0, 81));
    Turns(A(0, 82));
  }

  lemma {:induction false} Ends1()
    ensures At(1, 0) == H0 && Plus(H0, At(1, 80)) == At(2, 0)
  {
    hide Rotate;
    Turns(A(1, 0));
    Turns(A(1, 1));
    Turns(A(1, 2));
    Turns(A(1, 80));
    Turns(A(1, 81));
    Turns(A(1, 82));
    Turns(A(2, 0));
    Turns(A(2, 1));
    Turns(A(2, 2));
  }

  lemma {:induction false} Ends2()
    ensures Plus(At(2, 0), At(2, 80)) == Regs(0x84983E44, 0x1C3BD26E, 0xBAAE4AA1, 0xF95129E5, 0xE54670F1)
  {
    hide Rotate;
    Turns(A(2, 0));
    Turns(A(2, 1));
    Turns(A(2, 2));
    Turns(A(2, 80));
    Turns(A(2, 81));
    Turns(A(2, 82));
  }

  /** Appendix A of FIPS PUB 180-1: the digest of "abc". */
  lemma {:induction false} DigestOfShort()
    ensures Hash(Short) == Regs(0xA9993E36, 0x4706816A, 0xBA3E2571, 0x7850C26C, 0x9CD0D89D)
  {
    Ends0();
    Checked0();
    forall t | 0 <= t < 16 ensures |Pad(Short)| == 64 && Loaded(0, Pad(Short)[0..64], t) {
      Loaded0(t);
    }
    Loaded0(0);
    hide At, Checked, Loaded, Pad, Compress, Plus;
    var p := Pad(Short);
    Compressed(0, H0, p[0..64]);
    assert p[..0] == [] && p[0..] == p[0..64];
  }

  /** Appendix B: the digest of the message of two blocks. */
  lemma {:induction false} DigestOfLong()
    ensures Hash(Long) == Regs(0x84983E44, 0x1C3BD26E, 0xBAAE4AA1, 0xF95129E5, 0xE54670F1)
  {
    Ends1();
    Ends2();
    Checked1();
    Checked2();
    LongLoaded();
    hide At, Checked, Loaded, Pad, Compress, Plus;
    var p := Pad(Long);
    Compressed(1, H0, p[0..64]);
    Compressed(2, At(2, 0), p[64..128]);
    TwoBlocks(H0, p);
  }

  lemma {:induction false} LongLoaded()
    ensures |Pad(Long)| == 128
    ensures forall t :: 0 <= t < 16 ==> Loaded(1, Pad(Long)[0..64], t) && Loaded(2, Pad(Long)[64..128], t)
  {
    Loaded1(0);
    forall t | 0 <= t < 16 ensures Loaded(1, Pad(Long)[0..64], t) && Loaded(2, Pad(Long)[64..128], t) {
      Loaded1(t);
      Loaded2(t);
    }
    hide *;
  }

  lemma {:induction false} TwoBlocks(h: Regs, p: seq<Byte>)
    requires |p| == 128
    ensures Absorb(h, p) == Compress(Compress(h, p[0..64]), p[64..128])
  {
    hide Compress;
    var q := p[..64];
    assert q[..0] == [] && q[0..] == p[0..64] && p[64..] == p[64..128];
    assert Absorb(h, []) == h;
    assert Absorb(h, q) == Compress(h, p[0..64]);
  }
}
