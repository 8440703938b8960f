/**
 * Printing an accepted request and parsing it again changes nothing, whatever text was accepted.
 * The hard case is a header line without a colon: its key then runs over the line end up to the
 * next colon, and the lines after the first are parsed again as headers of their own.
 */
module HttpNormal {
  import opened Words
  import opened CText
  import opened HttpSpec
  import opened HttpRoundTrip

  // ---- Keys that run over line ends ------------------------------------------------------------------

  /** What is left of a key after its first line, if it has more than one. */
  function Tail(key: Text): Option<Text> {
    var n := FindCrlf(key);
    if n < |key| then Some(key[n + 2..]) else None
  }

  /** The headers that one header text sets, line by line. */
  function Chain(h: (Text, Text)): (c: Headers)
    ensures c != [] && c[0] == h
    decreases |h.0|
  {
    match Tail(h.0)
    case None => [h]
    case Some(b) => if CrlfAt(b, 0) then [h] else [h] + Chain((b, h.1))
  }

  /** An empty line inside the key ends the headers. */
  predicate Stops(h: (Text, Text))
    decreases |h.0|
  {
    var t := Tail(h.0);
    t.Some? && (CrlfAt(t.value, 0) || Stops((t.value, h.1)))
  }

  function SetAll(hs: Headers, c: Headers): Headers
    decreases |c|
  {
    if c == [] then hs else SetAll(Set(hs, c[0].0, c[0].1), c[1..])
  }

  /** The text after the line of the first colon. */
  function AfterColon(s: Text): Text {
    var c := FindChar(s, ':');
    var n := FindCrlf(s[c..]);
    if c + n < |s| then s[c + n + 2..] else []
  }

  lemma {:induction false} FindCrlfAt(s: Text, n: nat)
    requires n <= |s| && (n < |s| ==> CrlfAt(s, n)) && (forall i :: 0 <= i < n ==> !CrlfAt(s, i))
    ensures FindCrlf(s) == n
  {
  }

  /** The first line end of a text whose key runs over it. */
  lemma {:induction false} CrlfInKey(s: Text, c: nat)
    requires c < |s| && s[c] == ':' && FindCrlf(s[..c]) < c
    ensures FindCrlf(s) == FindCrlf(s[..c]) && FindCrlf(s) + 2 <= c
  {
    var n := FindCrlf(s[..c]);
    hide FindCrlf;
    forall i | 0 <= i < n ensures !CrlfAt(s, i) {
      assert !CrlfAt(s[..c], i);
    }
    FindCrlfAt(s, n);
  }

  lemma {:induction false} CrlfAfterKey(s: Text, c: nat)
    requires c < |s| && s[c] == ':' && FindCrlf(s[..c]) == c
    ensures FindCrlf(s) == c + FindCrlf(s[c..])
  {
    var n := FindCrlf(s[c..]);
    hide FindCrlf;
    forall i | 0 <= i < c + n ensures !CrlfAt(s, i) {
      if i < c {
        assert !CrlfAt(s[..c], i);
      } else {
        assert !CrlfAt(s[c..], i - c);
      }
    }
    FindCrlfAt(s, c + n);
  }

  /** Where a header is parsed, a line end follows its colon, or the colon is the last character. */
  lemma {:induction false} ColonLine(s: Text, behind: Text)
    requires ParseHeader(s, behind).Good?
    ensures var c := FindChar(s, ':');
      && c < |s| && ParseHeader(s, behind).value.0 == s[..c]
      && (c + 1 < |s| ==> FindCrlf(s[c..]) < |s[c..]|)
  {
    var c := FindChar(s, ':');
    hide FindCrlf, FindChar;
    if c + 1 < |s| {
      assert CrlfAt(s[c..], FindCrlf(s[c + 2..]) + 2);
    }
  }

  lemma {:induction false} SameColon(s: Text, n: nat, behind: Text)
    requires ParseHeader(s, behind).Good? && n <= FindChar(s, ':')
    ensures FindChar(s[n..], ':') == FindChar(s, ':') - n
    ensures ParseHeader(s[n..], behind) == Good((ParseHeader(s, behind).value.0[n..], ParseHeader(s, behind).value.1))
    ensures AfterColon(s[n..]) == AfterColon(s)
  {
    var c := FindChar(s, ':');
    hide FindCrlf, FindChar;
    FindCharAt(s[n..], ':', c - n);
    assert ValueText(s[n..], c - n, behind) == ValueText(s, c, behind);
    assert s[n..][c - n..] == s[c..];
    assert s[n..][..c - n] == s[..c][n..];
    var m := c + FindCrlf(s[c..]) + 2;
    if m <= |s| {
      SliceAfter(s, n, m - n, m - n);
    }
  }

  lemma {:induction false} ParseUnfold(s: Text, hs: Headers, behind: Text)
    requires s != [] && !CrlfAt(s, 0) && ParseHeader(s, behind).Good? && FindCrlf(s) < |s|
    ensures ParseHeaders(s, hs, behind) ==
      ParseHeaders(s[FindCrlf(s) + 2..], Set(hs, ParseHeader(s, behind).value.0, ParseHeader(s, behind).value.1), behind)
  {
    hide ParseHeader, Set, FindCrlf;
  }

  lemma {:induction false} StartSame(b: Text, rest: Text)
    requires rest != [] && rest[0] == ':'
    ensures CrlfAt(b + rest, 0) <==> CrlfAt(b, 0)
  {
  }

  /** The first line of a key that runs over a line end. */
  lemma {:induction false} FirstLine(s: Text, hs: Headers, behind: Text)
    requires s != [] && !CrlfAt(s, 0) && ParseHeader(s, behind).Good?
    requires FindCrlf(ParseHeader(s, behind).value.0) < |ParseHeader(s, behind).value.0|
    ensures var h := ParseHeader(s, behind).value;
      var n := FindCrlf(h.0);
      && n + 2 <= |h.0| && n + 2 <= |s|
      && ParseHeaders(s, hs, behind) == ParseHeaders(s[n + 2..], Set(hs, h.0, h.1), behind)
      && ParseHeader(s[n + 2..], behind) == Good((h.0[n + 2..], h.1)) && AfterColon(s[n + 2..]) == AfterColon(s)
      && s[n + 2..] != [] && (CrlfAt(s[n + 2..], 0) <==> CrlfAt(h.0[n + 2..], 0))
  {
    hide FindCrlf, FindChar, ParseHeader, Set, ParseHeaders, AfterColon;
    var h, c := ParseHeader(s, behind).value, FindChar(s, ':');
    ColonLine(s, behind);
    CrlfInKey(s, c);
    var n := FindCrlf(s);
    SameColon(s, n + 2, behind);
    ParseUnfold(s, hs, behind);
    StartSame(h.0[n + 2..], s[c..]);
    assert s[n + 2..] == h.0[n + 2..] + s[c..];
  }

  lemma {:induction false} OnlyLine(s: Text, hs: Headers, behind: Text)
    requires s != [] && !CrlfAt(s, 0) && ParseHeader(s, behind).Good?
    requires FindCrlf(ParseHeader(s, behind).value.0) == |ParseHeader(s, behind).value.0|
    ensures ParseHeaders(s, hs, behind) == ParseHeaders(AfterColon(s), Set(hs, ParseHeader(s, behind).value.0, ParseHeader(s, behind).value.1), behind)
  {
    hide FindCrlf, FindChar, ParseHeader, Set, ParseHeaders;
    var c := FindChar(s, ':');
    ColonLine(s, behind);
    CrlfAfterKey(s, c);
    if c + 1 < |s| {
      ParseUnfold(s, hs, behind);
    } else {
      LoneLine(s, hs, behind);
    }
  }

  /** The last line of all has no line end. */
  lemma {:induction false} LoneLine(s: Text, hs: Headers, behind: Text)
    requires s != [] && ParseHeader(s, behind).Good? && FindCrlf(s) == |s|
    ensures var h := ParseHeader(s, behind).value;
      ParseHeaders(s, hs, behind) == Good(Set(hs, h.0, h.1)) == ParseHeaders([], Set(hs, h.0, h.1), behind)
  {
    hide ParseHeader, Set, FindCrlf;
  }

  /** A header text sets its chain, and parsing goes on after the line of its colon. */
  lemma {:induction false} ChainText(s: Text, hs: Headers, behind: Text)
    requires s != [] && !CrlfAt(s, 0) && ParseHeader(s, behind).Good?
    ensures var h := ParseHeader(s, behind).value;
      ParseHeaders(s, hs, behind) ==
      if Stops(h) then Good(SetAll(hs, Chain(h))) else ParseHeaders(AfterColon(s), SetAll(hs, Chain(h)), behind)
    decreases |s|
  {
    hide FindCrlf, FindChar, ParseHeader, Set, ParseHeaders, AfterColon, Chain, Stops, SetAll;
    var h := ParseHeader(s, behind).value;
    var n := FindCrlf(h.0);
    if n < |h.0| {
      FirstLine(s, hs, behind);
      var b := h.0[n + 2..];
      if CrlfAt(b, 0) {
        ChainStops(h, hs, b);
        ParseEnd(s[n + 2..], Set(hs, h.0, h.1), behind);
      } else {
        ChainText(s[n + 2..], Set(hs, h.0, h.1), behind);
        ChainStep(h, hs, b);
      }
    } else {
      OnlyLine(s, hs, behind);
      ChainSingle(h, hs);
    }
  }

  lemma {:induction false} ParseEnd(s: Text, hs: Headers, behind: Text)
    requires CrlfAt(s, 0)
    ensures ParseHeaders(s, hs, behind) == Good(hs)
  {
  }

  lemma {:induction false} ChainSingle(h: (Text, Text), hs: Headers)
    requires FindCrlf(h.0) == |h.0|
    ensures Chain(h) == [h] && !Stops(h) && SetAll(hs, Chain(h)) == Set(hs, h.0, h.1)
  {
    hide Set;
    assert [h][1..] == [];
    assert SetAll(Set(hs, h.0, h.1), []) == Set(hs, h.0, h.1);
  }

  lemma {:induction false} ChainStops(h: (Text, Text), hs: Headers, b: Text)
    requires Tail(h.0) == Some(b) && CrlfAt(b, 0)
    ensures Chain(h) == [h] && Stops(h) && SetAll(hs, Chain(h)) == Set(hs, h.0, h.1)
  {
    hide Set;
    assert [h][1..] == [];
    assert SetAll(Set(hs, h.0, h.1), []) == Set(hs, h.0, h.1);
  }

  lemma {:induction false} ChainStep(h: (Text, Text), hs: Headers, b: Text)
    requires Tail(h.0) == Some(b) && !CrlfAt(b, 0)
    ensures Chain(h) == [h] + Chain((b, h.1)) && (Stops(h) <==> Stops((b, h.1)))
    ensures SetAll(hs, Chain(h)) == SetAll(Set(hs, h.0, h.1), Chain((b, h.1)))
  {
    hide Set;
    assert ([h] + Chain((b, h.1)))[1..] == Chain((b, h.1));
  }

  // ---- Setting many headers --------------------------------------------------------------------------

  function Keys(hs: Headers): set<Text> { set i | 0 <= i < |hs| :: hs[i].0 }

  /** The headers whose keys are not in the set. */
  function Drop(hs: Headers, ks: set<Text>): Headers {
    if hs == [] then [] else (if hs[0].0 in ks then [] else [hs[0]]) + Drop(hs[1..], ks)
  }

  lemma {:induction false} KeysCons(h: (Text, Text), hs: Headers)
    ensures Keys([h] + hs) == {h.0} + Keys(hs)
  {
    var all := [h] + hs;
    forall k | k in {h.0} + Keys(hs) ensures k in Keys(all) {
      if k == h.0 {
        assert all[0].0 == k;
      } else {
        var i :| 0 <= i < |hs| && hs[i].0 == k;
        assert all[i + 1].0 == k;
      }
    }
  }

  lemma {:induction false} KeysSplit(hs: Headers)
    requires hs != []
    ensures Keys(hs) == {hs[0].0} + Keys(hs[1..])
  {
    KeysCons(hs[0], hs[1..]);
    assert hs == [hs[0]] + hs[1..];
  }

  lemma {:induction false} KeyNotIn(hs: Headers)
    requires hs != [] && DistinctKeys(hs)
    ensures hs[0].0 !in Keys(hs[1..]) && DistinctKeys(hs[1..])
  {
  }

  lemma {:induction false} DropConcat(a: Headers, b: Headers, ks: set<Text>)
    ensures Drop(a + b, ks) == Drop(a, ks) + Drop(b, ks)
  {
    if a == [] {
      assert a + b == b;
    } else {
      assert (a + b)[0] == a[0] && (a + b)[1..] == a[1..] + b;
      DropConcat(a[1..], b, ks);
    }
  }

  lemma {:induction false} DropOne(h: (Text, Text), ks: set<Text>)
    ensures Drop([h], ks) == if h.0 in ks then [] else [h]
  {
    assert [h][1..] == [];
  }

  lemma {:induction false} DropCons(h: (Text, Text), hs: Headers, ks: set<Text>)
    ensures Drop([h] + hs, ks) == (if h.0 in ks then [] else [h]) + Drop(hs, ks)
  {
    DropConcat([h], hs, ks);
    DropOne(h, ks);
  }

  lemma {:induction false} DropDrop(hs: Headers, ks: set<Text>, ls: set<Text>)
    ensures Drop(Drop(hs, ks), ls) == Drop(hs, ks + ls)
  {
    if hs != [] {
      DropDrop(hs[1..], ks, ls);
      if hs[0].0 !in ks {
        DropCons(hs[0], Drop(hs[1..], ks), ls);
      } else {
        assert Drop(hs, ks) == Drop(hs[1..], ks);
      }
    }
  }

  lemma {:induction false} DropNone(hs: Headers, ks: set<Text>)
    requires forall i :: 0 <= i < |hs| ==> hs[i].0 !in ks
    ensures Drop(hs, ks) == hs
  {
    if hs != [] {
      DropNone(hs[1..], ks);
      assert hs == [hs[0]] + hs[1..];
    }
  }

  lemma {:induction false} DropAll(hs: Headers, ks: set<Text>)
    requires Keys(hs) <= ks
    ensures Drop(hs, ks) == []
  {
    if hs != [] {
      KeysSplit(hs);
      DropAll(hs[1..], ks);
    }
  }

  lemma {:induction false} RemoveIsDrop(hs: Headers, k: Text)
    requires DistinctKeys(hs)
    ensures Remove(hs, k) == Drop(hs, {k})
  {
    if hs != [] {
      if hs[0].0 == k {
        DropNone(hs[1..], {k});
      } else {
        RemoveIsDrop(hs[1..], k);
      }
    }
  }

  lemma {:induction false} Regroup(a: Headers, c: Headers)
    requires c != []
    ensures a + [c[0]] + c[1..] == a + c
  {
  }

  lemma {:induction false} SetAllNone(hs: Headers)
    ensures SetAll(hs, []) == Drop(hs, Keys([])) + []
  {
    DropNone(hs, Keys([]));
  }

  /** Setting headers with distinct keys one after the other. */
  lemma {:induction false} SetAllIs(hs: Headers, c: Headers)
    requires DistinctKeys(hs) && DistinctKeys(c)
    ensures SetAll(hs, c) == Drop(hs, Keys(c)) + c
    decreases |c|
  {
    hide Drop, Keys, SetAll, DistinctKeys, Remove;
    if c == [] {
      SetAllNone(hs);
    } else {
      var k, rest := c[0].0, c[1..];
      SetSound(hs, k, c[0].1);
      KeyNotIn(c);
      SetAllIs(Set(hs, k, c[0].1), rest);
      SetAllStep(hs, c);
      RemoveIsDrop(hs, k);
      KeysSplit(c);
      DropConcat(Drop(hs, {k}), [c[0]], Keys(rest));
      DropDrop(hs, {k}, Keys(rest));
      DropOne(c[0], Keys(rest));
      Regroup(Drop(hs, Keys(c)), c);
    }
  }

  lemma {:induction false} SetAllStep(hs: Headers, c: Headers)
    requires c != []
    ensures SetAll(hs, c) == SetAll(Remove(hs, c[0].0) + [c[0]], c[1..])
  {
  }

  // ---- What a parse leaves -----------------------------------------------------------------------------

  /** Every key of a chain is set again later in the list; only its end may be a chain that stops. */
  predicate Final(r: Headers, stop: bool) {
    || r == []
    || (stop && Stops(r[0]) && r == Chain(r[0]))
    || (!Stops(r[0]) && Keys(Chain(r[0])[1..]) <= Keys(r[1..]) && Final(r[1..], stop))
  }

  lemma {:induction false} ChainFinal(h: (Text, Text))
    ensures Final(Chain(h), Stops(h))
    decreases |h.0|
  {
    if !Stops(h) && Tail(h.0).Some? {
      var b := Tail(h.0).value;
      ChainStep(h, [], b);
      ChainFinal((b, h.1));
      assert Chain(h)[1..] == Chain((b, h.1));
    }
  }

  lemma {:induction false} ChainShrinks(h: (Text, Text))
    ensures DistinctKeys(Chain(h)) && forall i :: 0 < i < |Chain(h)| ==> |Chain(h)[i].0| < |h.0|
    decreases |h.0|
  {
    var t := Tail(h.0);
    if t.Some? && !CrlfAt(t.value, 0) {
      ChainShrinks((t.value, h.1));
      hide FindCrlf;
      var rest := Chain((t.value, h.1));
      assert forall i :: 0 < i < |Chain(h)| ==> Chain(h)[i] == rest[i - 1];
    }
  }

  lemma {:induction false} KeysDrop(hs: Headers, c: Headers)
    ensures Keys(hs) <= Keys(Drop(hs, Keys(c)) + c)
  {
    if hs != [] {
      KeysDrop(hs[1..], c);
      KeysSplit(hs);
      var rest := Drop(hs[1..], Keys(c)) + c;
      if hs[0].0 in Keys(c) {
        KeysSuffix(Drop(hs, Keys(c)), c);
        assert Drop(hs, Keys(c)) == Drop(hs[1..], Keys(c));
      } else {
        KeysCons(hs[0], rest);
        assert [hs[0]] + rest == Drop(hs, Keys(c)) + c;
      }
    }
  }

  lemma {:induction false} KeysSuffix(a: Headers, b: Headers)
    ensures Keys(b) <= Keys(a + b)
  {
    forall k | k in Keys(b) ensures k in Keys(a + b) {
      var i :| 0 <= i < |b| && b[i].0 == k;
      assert (a + b)[|a| + i].0 == k;
    }
  }

  lemma {:induction false} FinalAppend(hs: Headers, c: Headers, stop: bool)
    requires Final(hs, false) && Final(c, stop)
    ensures Final(Drop(hs, Keys(c)) + c, stop)
    decreases |hs|
  {
    if hs == [] {
      assert [] + c == c;
    } else {
      FinalAppend(hs[1..], c, stop);
      if hs[0].0 !in Keys(c) {
        KeysDrop(hs[1..], c);
        var rest := Drop(hs[1..], Keys(c)) + c;
        hide Keys, Stops, Chain;
        assert Drop(hs, Keys(c)) + c == [hs[0]] + rest;
        assert ([hs[0]] + rest)[1..] == rest;
      } else {
        assert Drop(hs, Keys(c)) == Drop(hs[1..], Keys(c));
      }
    }
  }

  lemma {:induction false} FinalWeaken(r: Headers)
    requires Final(r, false)
    ensures Final(r, true)
  {
    if r != [] {
      FinalWeaken(r[1..]);
    }
  }

  lemma {:induction false} SetAllFinal(hs: Headers, h: (Text, Text))
    requires DistinctKeys(hs) && Final(hs, false)
    ensures Final(SetAll(hs, Chain(h)), Stops(h)) && DistinctKeys(SetAll(hs, Chain(h)))
  {
    hide Final, Stops, Chain, DistinctKeys, SetAll, Drop, Keys;
    ChainFinal(h);
    ChainShrinks(h);
    SetAllIs(hs, Chain(h));
    FinalAppend(hs, Chain(h), Stops(h));
    SetAllDistinct(hs, Chain(h));
  }

  lemma {:induction false} SetAllDistinct(hs: Headers, c: Headers)
    requires DistinctKeys(hs)
    ensures DistinctKeys(SetAll(hs, c))
    decreases |c|
  {
    if c != [] {
      SetSound(hs, c[0].0, c[0].1);
      hide Set, DistinctKeys;
      SetAllDistinct(Set(hs, c[0].0, c[0].1), c[1..]);
    }
  }

  lemma {:induction false} AfterColonShorter(s: Text)
    requires s != []
    ensures |AfterColon(s)| < |s|
  {
    hide FindCrlf, FindChar;
  }

  /** Whatever text was parsed, its headers are such a list. */
  lemma {:induction false} ParseFinal(s: Text, hs: Headers, behind: Text)
    requires DistinctKeys(hs) && Final(hs, false) && ParseHeaders(s, hs, behind).Good?
    ensures Final(ParseHeaders(s, hs, behind).value, true) && DistinctKeys(ParseHeaders(s, hs, behind).value)
    decreases |s|
  {
    if s == [] || CrlfAt(s, 0) {
      FinalWeaken(hs);
    } else {
      assert ParseHeader(s, behind).Good?;
      hide ParseHeader, ParseHeaders, Final, Stops, Chain, DistinctKeys, SetAll, AfterColon;
      var h := ParseHeader(s, behind).value;
      ChainText(s, hs, behind);
      SetAllFinal(hs, h);
      if !Stops(h) {
        AfterColonShorter(s);
        ParseFinal(AfterColon(s), SetAll(hs, Chain(h)), behind);
      }
    }
  }

  // ---- Parsing what was printed -------------------------------------------------------------------------

  /** What parsing a printed list sets. */
  function SetChains(acc: Headers, hs: Headers): Headers
    decreases |hs|
  {
    if hs == [] then acc
    else if Stops(hs[0]) then SetAll(acc, Chain(hs[0]))
    else SetChains(SetAll(acc, Chain(hs[0])), hs[1..])
  }

  lemma {:induction false} PrintedColon(h: (Text, Text), rest: Text)
    requires Cut(h)
    ensures AfterColon(RenderHeader(h) + CRLF + rest) == rest
  {
    var s, v := RenderHeader(h) + CRLF + rest, ": " + h.1;
    FindCharAt(s, ':', |h.0|);
    NoCrlfJoin([], ' ', h.1);
    NoCrlfJoin([], ':', [] + [' '] + h.1);
    assert [] + [':'] + ([] + [' '] + h.1) == v;
    FindCrlfAfter(v, rest);
    hide FindCrlf, FindChar, Cut, NoCrlf;
    assert s[|h.0|..] == v + CRLF + rest;
  }

  lemma {:induction false} PrintedHeader(h: (Text, Text), rest: Text, behind: Text)
    requires Cut(h)
    ensures var s := RenderHeader(h) + CRLF + rest;
      s != [] && !CrlfAt(s, 0) && ParseHeader(s, behind) == Good(h) && AfterColon(s) == rest
  {
    HeaderBack(h, rest, behind);
    PrintedColon(h, rest);
    hide ParseHeader, AfterColon, Without, Plain;
    var tail := ": " + h.1 + CRLF + rest;
    StartSame(h.0, tail);
    assert RenderHeader(h) == h.0 + (": " + h.1);
    hide RenderHeader;
    Assoc4(h.0, ": " + h.1, CRLF, rest);
  }

  lemma {:induction false} PrintedSets(hs: Headers, acc: Headers, behind: Text)
    requires forall i :: 0 <= i < |hs| ==> Cut(hs[i])
    ensures ParseHeaders(RenderHeaders(hs), acc, behind) == Good(SetChains(acc, hs))
    decreases |hs|
  {
    if hs == [] {
      ParseEnd(CRLF, acc, behind);
    } else {
      hide ParseHeaders, ParseHeader, RenderHeader, AfterColon, SetAll, Chain, Stops, Cut;
      var rest := RenderHeaders(hs[1..]);
      PrintedHeader(hs[0], rest, behind);
      ChainText(RenderHeader(hs[0]) + CRLF + rest, acc, behind);
      if !Stops(hs[0]) {
        PrintedSets(hs[1..], SetAll(acc, Chain(hs[0])), behind);
      }
    }
  }

  /** Setting such a list chain by chain leaves the list itself. */
  lemma {:induction false} FinalSets(acc: Headers, r: Headers)
    requires Final(r, true) && DistinctKeys(r) && DistinctKeys(acc)
    ensures SetChains(acc, r) == Drop(acc, Keys(r)) + r
    decreases |r|
  {
    if r == [] {
      assert Keys(r) == {};
      DropNone(acc, {});
    } else {
      var c := Chain(r[0]);
      ChainShrinks(r[0]);
      SetAllIs(acc, c);
      if !Stops(r[0]) {
        SetAllDistinct(acc, c);
        KeyNotIn(r);
        FinalSets(SetAll(acc, c), r[1..]);
        OneChain(acc, r, c);
      }
    }
  }

  lemma {:induction false} OneChain(acc: Headers, r: Headers, c: Headers)
    requires r != [] && c != [] && c[0] == r[0] && Keys(c[1..]) <= Keys(r[1..]) && r[0].0 !in Keys(r[1..])
    ensures Drop(Drop(acc, Keys(c)) + c, Keys(r[1..])) + r[1..] == Drop(acc, Keys(r)) + r
  {
    var ks := Keys(r[1..]);
    KeysSplit(r);
    KeysSplit(c);
    hide Keys, Drop;
    DropConcat(Drop(acc, Keys(c)), c, ks);
    DropDrop(acc, Keys(c), ks);
    assert Keys(c) + ks == Keys(r);
    OneLeft(c, ks);
    Regroup(Drop(acc, Keys(r)), r);
  }

  lemma {:induction false} OneLeft(c: Headers, ks: set<Text>)
    requires c != [] && c[0].0 !in ks && Keys(c[1..]) <= ks
    ensures Drop(c, ks) == [c[0]]
  {
    hide Keys, Drop;
    assert c == [c[0]] + c[1..];
    DropCons(c[0], c[1..], ks);
    DropAll(c[1..], ks);
  }

  lemma {:induction false} CutNoNul(h: (Text, Text))
    requires Cut(h)
    ensures NoNul(h)
  {
  }

  /** The headers that any text leaves, printed and parsed again. */
  lemma {:induction false} HeadersAgain(s: Text, behind: Text)
    requires Without(s, {'\0'}) && Without(behind, {'\0'}) && ParseHeaders(s, [], behind).Good?
    ensures var hs := ParseHeaders(s, [], behind).value;
      && ParseHeaders(RenderHeaders(hs), [], []) == Good(hs)
      && (forall i :: 0 <= i < |hs| ==> NoNul(hs[i]))
  {
    hide ParseHeaders, RenderHeaders, Cut, NoNul, SetChains, Drop;
    var hs := ParseHeaders(s, [], behind).value;
    ParseFinal(s, [], behind);
    HeadersSound(s, [], behind);
    forall i | 0 <= i < |hs| ensures Cut(hs[i]) && NoNul(hs[i]) {
      assert hs[i] in hs;
      CutNoNul(hs[i]);
    }
    PrintedSets(hs, [], []);
    FinalSets([], hs);
    DropNone([], Keys(hs));
    assert [] + hs == hs;
  }

  /** The part of an accepted text that its headers came from. */
  lemma {:induction false} HeaderPart(buf: Text) returns (rest: Text)
    requires Parse(buf).Good?
    ensures Without(rest, {'\0'}) && Without(Behind(buf), {'\0'})
    ensures ParseHeaders(rest, [], Behind(buf)) == Good(Parse(buf).value.headers)
  {
    hide FindCrlf, FindChar, HasEnd, ParseLine, ParseHeaders, Behind;
    BehindWithout(buf);
    var s := CString(buf);
    rest := s[FindCrlf(s) + 2..];
  }

  /** Whatever text was accepted: printing the request and parsing it again gives the same request,
      exactly when the printed text is not too long for the parser. */
  lemma {:induction false} NormalForm(buf: Text)
    requires Parse(buf).Good?
    ensures var r := Parse(buf).value; Parse(Render(r)) == Good(r) <==> |Render(r)| <= 65535
  {
    hide Parse, ParseHeaders, Render, RenderHeaders, NoNul, LineOk, Cut, DistinctKeys, Without;
    ParseSound(buf);
    var rest := HeaderPart(buf);
    HeadersAgain(rest, Behind(buf));
    RequestBack(Parse(buf).value);
  }
}
