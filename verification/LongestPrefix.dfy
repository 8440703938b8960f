/** Longest-prefix match over the routing table, on words held in network order by a little-endian host. */
module LongestPrefix {
  type Word = bv32

  /** A prefix length. */
  type Length = n: bv32 | n <= 32

  /** `ntohl` on a little-endian host. */
  function Swap(x: Word): Word {
    ((x & 0xff) << 24) | ((x & 0xff00) << 8) | ((x >> 8) & 0xff00) | ((x >> 24) & 0xff)
  }

  /** The mask of a prefix length, most significant bits first. */
  function HostMask(n: Length): Word { 0xffff_ffff << (32 - n) }

  /** The same mask as the routing table holds it. */
  function NetMask(n: Length): Word { Swap(HostMask(n)) }

  /** The unsigned integer that C compares. */
  function Value(x: Word): nat { x as nat }

  function Bits(n: Length): nat { n as nat }

  function And(x: Word, y: Word): Word { x & y }

  /** The first `n` bits of an address in host order, and the address with only those bits. */
  function Prefix(x: Word, n: Length): Word { x >> (32 - n) }
  function Padded(x: Word, n: Length): Word { x << (32 - n) }

  /** Two addresses in host order agree in their first `n` bits. */
  predicate Agree(a: Word, b: Word, n: Length) { Prefix(a, n) == Prefix(b, n) }

  datatype Route = Route(dest: Word, mask: Word, gw: Word, iface: nat)

  datatype Match = NoRoute | Found(index: nat)

  /** The walk's own test. */
  predicate Covers(r: Route, ip: Word) { And(ip, r.mask) == And(r.dest, r.mask) }

  /** Every mask is that of some prefix length. */
  ghost predicate Contiguous(table: seq<Route>, lengths: seq<Length>) {
    |lengths| == |table| && forall i :: 0 <= i < |table| ==> table[i].mask == NetMask(lengths[i])
  }

  lemma {:induction false} SwapTwice(x: Word)
    ensures Swap(Swap(x)) == x
  {
  }

  /** Byte-swapped contiguous masks are ordered as integers by their prefix length. */
  lemma {:induction false} MasksOrdered(a: Length, b: Length)
    ensures Value(NetMask(a)) <= Value(NetMask(b)) <==> Bits(a) <= Bits(b)
  {
  }

  lemma {:induction false} SwapAnd(x: Word, y: Word)
    ensures Swap(And(x, y)) == And(Swap(x), Swap(y))
  {
  }

  /** Masking is shifting the other bits out and back. */
  lemma {:induction false} MaskIsShift(x: Word, n: Length)
    ensures And(x, HostMask(n)) == Padded(Prefix(x, n), n)
  {
  }

  lemma {:induction false} PrefixOfPadded(x: Word, n: Length)
    ensures Prefix(Padded(Prefix(x, n), n), n) == Prefix(x, n)
  {
  }

  /** The test on network-order words is agreement on a prefix of the host-order addresses. */
  lemma {:induction false} CoversIsAgree(r: Route, ip: Word, n: Length)
    requires r.mask == NetMask(n)
    ensures Covers(r, ip) <==> Agree(Swap(ip), Swap(r.dest), n)
  {
    hide Swap, HostMask, And, Prefix, Padded;
    SwapAnd(ip, r.mask);
    SwapAnd(r.dest, r.mask);
    SwapTwice(HostMask(n));
    SwapTwice(And(ip, r.mask));
    SwapTwice(And(r.dest, r.mask));
    MaskIsShift(Swap(ip), n);
    MaskIsShift(Swap(r.dest), n);
    PrefixOfPadded(Swap(ip), n);
    PrefixOfPadded(Swap(r.dest), n);
  }

  /** The last entry of the greatest mask among those that match. */
  function Best(table: seq<Route>, ip: Word): (r: Match)
    ensures r.Found? ==> r.index < |table|
  {
    if table == [] then NoRoute else
    var n := |table| - 1;
    var b := Best(table[..n], ip);
    if Covers(table[n], ip) && (b.NoRoute? || Value(table[n].mask) >= Value(table[b.index].mask)) then Found(n) else b
  }

  /** It is: none exactly when no entry matches, and of those that match it has the greatest mask,
      and no later one has the same. */
  lemma {:induction false} BestExact(table: seq<Route>, ip: Word)
    ensures var r := Best(table, ip);
      && (r.NoRoute? <==> forall j :: 0 <= j < |table| ==> !Covers(table[j], ip))
      && (r.Found? ==>
            && Covers(table[r.index], ip)
            && forall j :: 0 <= j < |table| && Covers(table[j], ip) ==>
                 && Value(table[j].mask) <= Value(table[r.index].mask)
                 && (j > r.index ==> Value(table[j].mask) < Value(table[r.index].mask)))
  {
    hide Covers, Value;
    if table != [] {
      BestExact(table[..|table| - 1], ip);
    }
  }

  lemma {:induction false} BestNext(table: seq<Route>, ip: Word, i: nat)
    requires i < |table|
    ensures var b := Best(table[..i], ip);
      Best(table[..i + 1], ip) ==
      if Covers(table[i], ip) && (b.NoRoute? || Value(table[i].mask) >= Value(table[b.index].mask)) then Found(i) else b
  {
    hide Covers, Value;
    assert table[..i + 1][..i] == table[..i];
  }

  /** `sr_get_longest_prefix_match`. */
  method Walk(table: seq<Route>, ip: Word) returns (r: Match)
    ensures r == Best(table, ip)
  {
    hide Covers, Value;
    r := NoRoute;
    var longest := 0;
    for i := 0 to |table|
      invariant r == Best(table[..i], ip)
      invariant longest == if r.NoRoute? then 0 else Value(table[r.index].mask)
    {
      BestNext(table, ip, i);
      var mask := Value(table[i].mask);
      if Covers(table[i], ip) {
        if mask >= longest {
          r := Found(i);
          longest := mask;
        }
      }
    }
    assert table[..|table|] == table;
  }

  /** The entry's prefix agrees with the address. */
  predicate Hits(table: seq<Route>, lengths: seq<Length>, ip: Word, j: int)
    requires |lengths| == |table|
  {
    0 <= j < |table| && Agree(Swap(ip), Swap(table[j].dest), lengths[j])
  }

  /**
   * Section 5.2.4.3 of RFC 1812, for tables of contiguous masks: no route exactly when no entry's
   * prefix agrees with the address, and otherwise the last of the entries of greatest prefix
   * length that do.
   */
  lemma {:induction false} LongestMatch(table: seq<Route>, lengths: seq<Length>, ip: Word)
    requires Contiguous(table, lengths)
    ensures var r := Best(table, ip);
      && (r.NoRoute? <==> forall j :: 0 <= j < |table| ==> !Hits(table, lengths, ip, j))
      && (r.Found? ==>
            && Hits(table, lengths, ip, r.index)
            && forall j :: Hits(table, lengths, ip, j) ==>
                 && Bits(lengths[j]) <= Bits(lengths[r.index])
                 && (j > r.index ==> Bits(lengths[j]) < Bits(lengths[r.index])))
  {
    hide Agree, Covers, Value, NetMask, Bits, Swap, Best;
    var r := Best(table, ip);
    BestExact(table, ip);
    forall j | 0 <= j < |table| ensures Covers(table[j], ip) <==> Hits(table, lengths, ip, j) {
      CoversIsAgree(table[j], ip, lengths[j]);
    }
    if r.Found? {
      forall j | 0 <= j < |table|
        ensures Value(table[j].mask) <= Value(table[r.index].mask) <==> Bits(lengths[j]) <= Bits(lengths[r.index])
        ensures Value(table[r.index].mask) <= Value(table[j].mask) <==> Bits(lengths[r.index]) <= Bits(lengths[j])
      {
        MasksOrdered(lengths[j], lengths[r.index]);
        MasksOrdered(lengths[r.index], lengths[j]);
      }
    }
  }
}
