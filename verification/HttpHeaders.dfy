/** Which headers a parse leaves, on the bytes of the text. */
module HttpHeaders {
  import opened Words
  import opened CText
  import opened HttpSpec
  import opened HttpRoundTrip
  import opened HttpNormal

  // ---- One header ----------------------------------------------------------------------------------------

  /** `v` is the text at a place up to the first line end. */
  predicate UpToCrlf(s: Text, at: nat, v: Text) {
    && at + |v| <= |s| && v == s[at..at + |v|] && CrlfAt(s, at + |v|)
    && forall x :: at <= x < at + |v| ==> !CrlfAt(s, x)
  }

  predicate FirstColon(s: Text, i: nat, c: nat) { i <= c < |s| && s[c] == ':' && forall x :: i <= x < c ==> s[x] != ':' }

  /** The header of the line at `i`, whose colon is at `c`: the key is everything before the colon, the
      value everything from two places after it up to a line end. Where the colon is the last
      character before the NUL, the value is read behind the NUL. */
  predicate ColonAt(s: Text, i: nat, c: nat, behind: Text, h: (Text, Text)) {
    && FirstColon(s, i, c) && h.0 == s[i..c]
    && if c + 1 < |s| then UpToCrlf(s, c + 2, h.1) else UpToCrlf(behind, 0, h.1)
  }

  ghost predicate HeaderAt(s: Text, i: nat, behind: Text, h: (Text, Text)) { exists c :: ColonAt(s, i, c, behind, h) }

  lemma {:induction false} CrlfPlace(s: Text, at: nat, v: Text)
    requires at <= |s|
    ensures UpToCrlf(s, at, v) <==> FindCrlf(s[at..]) < |s[at..]| && v == s[at..][..FindCrlf(s[at..])]
  {
    var t := s[at..];
    var e := FindCrlf(t);
    hide FindCrlf;
    forall x: nat | x <= |t| ensures CrlfAt(t, x) <==> CrlfAt(s, at + x) {
      CrlfAfter(s, at, x);
    }
    if UpToCrlf(s, at, v) {
      forall x | 0 <= x < |v| ensures !CrlfAt(t, x) {
        assert !CrlfAt(s, at + x);
      }
      assert CrlfAt(t, |v|);
      FindCrlfAt(t, |v|);
    } else if e < |t| {
      assert t[..e] == s[at..at + e];
      forall x | at <= x < at + e ensures !CrlfAt(s, x) {
        assert !CrlfAt(t, x - at);
      }
    }
  }

  lemma {:induction false} ColonPlace(s: Text, i: nat)
    requires i <= |s|
    ensures var k := FindChar(s[i..], ':');
      && i + k <= |s| && (i + k < |s| ==> FirstColon(s, i, i + k)) && s[i..][..k] == s[i..i + k]
  {
    var t := s[i..];
    hide FindChar;
    assert forall x :: i <= x < |s| ==> s[x] == t[x - i];
  }

  lemma {:induction false} ValuePlace(s: Text, i: nat, k: nat, behind: Text)
    requires i + k < |s|
    ensures ValueText(s[i..], k, behind) == if i + k + 1 < |s| then s[i + k + 2..] else behind
  {
  }

  /** What the search for the line end makes of a text. */
  predicate Cuts(v: Text, value: Text) { FindCrlf(v) < |v| && value == v[..FindCrlf(v)] }

  /** The value, wherever it is read. */
  lemma {:induction false} ValueRead(s: Text, c: nat, behind: Text, value: Text)
    requires c < |s|
    ensures var v := if c + 1 < |s| then s[c + 2..] else behind;
      Cuts(v, value) <==>
      if c + 1 < |s| then UpToCrlf(s, c + 2, value) else UpToCrlf(behind, 0, value)
  {
    hide FindCrlf, UpToCrlf;
    if c + 1 < |s| {
      CrlfPlace(s, c + 2, value);
    } else {
      CrlfPlace(behind, 0, value);
      assert behind[0..] == behind;
    }
  }

  lemma {:induction false} OneColon(s: Text, i: nat, c: nat, behind: Text, h: (Text, Text))
    requires ColonAt(s, i, c, behind, h)
    ensures i <= c < |s| && c == i + FindChar(s[i..], ':')
  {
    hide UpToCrlf;
    FindCharAt(s[i..], ':', c - i);
  }

  lemma {:induction false} Parts(t: Text, k: nat, behind: Text, h: (Text, Text))
    requires k == FindChar(t, ':')
    ensures ParseHeader(t, behind) == Good(h) <==> k < |t| && h.0 == t[..k] && Cuts(ValueText(t, k, behind), h.1)
  {
    hide FindChar, FindCrlf, ValueText;
  }

  lemma {:induction false} AtColon(s: Text, i: nat, k: nat, behind: Text, h: (Text, Text))
    requires i <= |s| && k == FindChar(s[i..], ':')
    ensures ParseHeader(s[i..], behind) == Good(h) <==> i + k < |s| && ColonAt(s, i, i + k, behind, h)
  {
    hide FindChar, Cuts, UpToCrlf, FirstColon, ParseHeader, ValueText;
    ColonPlace(s, i);
    Parts(s[i..], k, behind, h);
    if i + k < |s| {
      ValuePlace(s, i, k, behind);
      ValueRead(s, i + k, behind, h.1);
    }
  }

  /** What `ParsedHeader_parse` makes of the text from a place on. */
  lemma {:induction false} HeaderPlace(s: Text, i: nat, behind: Text, h: (Text, Text))
    requires i <= |s|
    ensures ParseHeader(s[i..], behind) == Good(h) <==> HeaderAt(s, i, behind, h)
  {
    hide FindChar, ParseHeader, ColonAt;
    var k := FindChar(s[i..], ':');
    AtColon(s, i, k, behind, h);
    if HeaderAt(s, i, behind, h) {
      var d :| ColonAt(s, i, d, behind, h);
      OneColon(s, i, d, behind, h);
    }
  }

  // ---- The lines -------------------------------------------------------------------------------------------

  /** A line starts at the beginning and behind every line end. */
  predicate LineStart(s: Text, i: int) { 0 <= i < |s| && (i == 0 || CrlfAt(s, i - 2)) }

  /** A line that the loop comes to: no line up to it is empty. */
  predicate Reached(s: Text, i: int) {
    LineStart(s, i) && forall j :: 0 <= j <= i && LineStart(s, j) ==> !CrlfAt(s, j)
  }

  /** The next line start after the one at `i`. */
  lemma {:induction false} NextLine(s: Text, i: nat)
    requires i <= |s| && (i == 0 || CrlfAt(s, i - 2))
    ensures var n := FindCrlf(s[i..]);
      && (forall j :: i < j <= |s| && LineStart(s, j) ==> n < |s[i..]| && j >= i + n + 2)
      && (n < |s[i..]| ==> i + n + 2 <= |s| && CrlfAt(s, i + n))
  {
    var t := s[i..];
    var n := FindCrlf(t);
    hide FindCrlf;
    forall j | i < j <= |s| && LineStart(s, j) ensures n < |t| && j >= i + n + 2 {
      assert j - 2 >= i;
      CrlfAfter(s, i, j - 2 - i);
      assert CrlfAt(t, j - 2 - i);
    }
    if n < |t| {
      CrlfAfter(s, i, n);
    }
  }

  predicate Ordered(ps: seq<nat>) { forall a, b :: 0 <= a < b < |ps| ==> ps[a] < ps[b] }

  /** Each header is that of a line before `stop`. */
  ghost predicate Sits(s: Text, behind: Text, stop: nat, hs: Headers, ps: seq<nat>)
    requires |ps| == |hs|
  {
    forall a :: 0 <= a < |ps| ==> ps[a] < stop && Reached(s, ps[a]) && HeaderAt(s, ps[a], behind, hs[a])
  }

  /** The line at `i` has a header, whose key was set there or further on. */
  ghost predicate SetFrom(s: Text, behind: Text, hs: Headers, ps: seq<nat>, i: nat)
    requires |ps| == |hs|
  {
    exists a, h: (Text, Text) :: 0 <= a < |ps| && i <= ps[a] && HeaderAt(s, i, behind, h) && hs[a].0 == h.0
  }

  /** The headers of the lines before `stop`, in the order of the lines, the last one for each key. */
  ghost predicate Placed(s: Text, behind: Text, stop: nat, hs: Headers, ps: seq<nat>) {
    && |ps| == |hs| && Ordered(ps) && Sits(s, behind, stop, hs, ps)
    && forall i: nat :: i < stop && Reached(s, i) ==> SetFrom(s, behind, hs, ps, i)
  }

  lemma {:induction false} OneHeader(s: Text, i: nat, behind: Text, h: (Text, Text), h': (Text, Text))
    requires i <= |s| && HeaderAt(s, i, behind, h) && HeaderAt(s, i, behind, h')
    ensures h == h'
  {
    HeaderPlace(s, i, behind, h);
    HeaderPlace(s, i, behind, h');
  }

  /** Where the key stood, if it was there. */
  lemma {:induction false} RemoveAt(hs: Headers, key: Text) returns (a: nat)
    ensures a <= |hs| && (a < |hs| ==> hs[a].0 == key && Remove(hs, key) == hs[..a] + hs[a + 1..])
    ensures a == |hs| ==> Remove(hs, key) == hs && forall b :: 0 <= b < |hs| ==> hs[b].0 != key
  {
    if hs == [] || hs[0].0 == key {
      a := 0;
    } else {
      var b := RemoveAt(hs[1..], key);
      a := b + 1;
      if a < |hs| {
        assert hs[..a] == [hs[0]] + hs[1..][..b] && hs[a + 1..] == hs[1..][b + 1..];
      }
    }
  }

  /** The list without its `a`-th element, if it has one, and with a new last one. */
  predicate Last<T(==)>(s: seq<T>, a: nat, s': seq<T>) {
    && a <= |s| && |s'| == (if a < |s| then |s| else |s| + 1)
    && forall b :: 0 <= b < |s'| - 1 ==> s'[b] == s[if b < a then b else b + 1]
  }

  lemma {:induction false} OrderedLast(ps: seq<nat>, a: nat, qs: seq<nat>, i: nat)
    requires Ordered(ps) && Last(ps, a, qs) && qs[|qs| - 1] == i && forall b :: 0 <= b < |ps| ==> ps[b] < i
    ensures Ordered(qs)
  {
    forall b, c | 0 <= b < c < |qs| ensures qs[b] < qs[c] {
      if c < |qs| - 1 {
        assert ps[if b < a then b else b + 1] < ps[if c < a then c else c + 1];
      }
    }
  }

  lemma {:induction false} SitsLast(
    s: Text, behind: Text, i: nat, next: nat, hs: Headers, ps: seq<nat>, a: nat, hs': Headers, qs: seq<nat>)
    requires |ps| == |hs| && |qs| == |hs'| && Sits(s, behind, i, hs, ps) && Last(ps, a, qs) && Last(hs, a, hs') && i < next
    requires qs[|qs| - 1] == i && Reached(s, i) && HeaderAt(s, i, behind, hs'[|qs| - 1])
    ensures Sits(s, behind, next, hs', qs)
  {
    hide HeaderAt, Reached;
    forall b | 0 <= b < |qs| ensures qs[b] < next && Reached(s, qs[b]) && HeaderAt(s, qs[b], behind, hs'[b]) {
      if b < |qs| - 1 {
        var c := if b < a then b else b + 1;
        assert HeaderAt(s, ps[c], behind, hs[c]);
      }
    }
  }

  lemma {:induction false} SetStays(
    s: Text, behind: Text, hs: Headers, ps: seq<nat>, a: nat, hs': Headers, qs: seq<nat>, h: (Text, Text), j: nat)
    requires |ps| == |hs| && |qs| == |hs'| && SetFrom(s, behind, hs, ps, j) && Last(ps, a, qs) && Last(hs, a, hs')
    requires (a < |hs| ==> hs[a].0 == h.0) && hs'[|qs| - 1] == h && qs[|qs| - 1] >= j
    ensures SetFrom(s, behind, hs', qs, j)
  {
    hide HeaderAt;
    var b, g: (Text, Text) :| 0 <= b < |ps| && j <= ps[b] && HeaderAt(s, j, behind, g) && hs[b].0 == g.0;
    var c := if b < a then b else if b == a then |qs| - 1 else b - 1;
    assert 0 <= c < |qs| && j <= qs[c] && hs'[c].0 == g.0;
  }

  /** Setting the header of the line at `i` puts it last. */
  lemma {:induction false} SetPlaced(s: Text, behind: Text, i: nat, next: nat, hs: Headers, ps: seq<nat>, h: (Text, Text))
    returns (qs: seq<nat>)
    requires Placed(s, behind, i, hs, ps) && Reached(s, i) && HeaderAt(s, i, behind, h)
    requires i < next && forall j :: i < j < next ==> !LineStart(s, j)
    ensures Placed(s, behind, next, Set(hs, h.0, h.1), qs)
  {
    hide HeaderAt, SetFrom, Sits, Ordered;
    var a := RemoveAt(hs, h.0);
    hide Remove;
    qs := (if a < |hs| then ps[..a] + ps[a + 1..] else ps) + [i];
    var hs' := Set(hs, h.0, h.1);
    assert Last(ps, a, qs) && Last(hs, a, hs') && hs'[|qs| - 1] == h;
    SitsBefore(s, behind, i, hs, ps);
    OrderedLast(ps, a, qs, i);
    SitsLast(s, behind, i, next, hs, ps, a, hs', qs);
    hide Last, LineStart;
    forall j: nat | j < next && Reached(s, j) ensures SetFrom(s, behind, hs', qs, j) {
      if j < i {
        SetStays(s, behind, hs, ps, a, hs', qs, h, j);
      } else {
        SetHere(s, behind, i, hs', qs, h);
      }
    }
  }

  lemma {:induction false} SitsBefore(s: Text, behind: Text, i: nat, hs: Headers, ps: seq<nat>)
    requires |ps| == |hs| && Sits(s, behind, i, hs, ps)
    ensures forall b :: 0 <= b < |ps| ==> ps[b] < i
  {
  }

  lemma {:induction false} SetHere(s: Text, behind: Text, i: nat, hs: Headers, ps: seq<nat>, h: (Text, Text))
    requires |ps| == |hs| > 0 && ps[|ps| - 1] == i && hs[|hs| - 1] == h && HeaderAt(s, i, behind, h)
    ensures SetFrom(s, behind, hs, ps, i)
  {
  }

  // ---- The loop ----------------------------------------------------------------------------------------------

  predicate Begins(s: Text, i: nat) { i <= |s| && (i == 0 || CrlfAt(s, i - 2)) }

  /** No line before the place is empty. */
  predicate NoneEmpty(s: Text, i: nat) { forall j :: 0 <= j < i && LineStart(s, j) ==> !CrlfAt(s, j) }

  lemma {:induction false} AtLine(s: Text, i: nat)
    requires Begins(s, i) && NoneEmpty(s, i)
    ensures if i == |s| || CrlfAt(s, i) then forall j :: Reached(s, j) ==> j < i else Reached(s, i)
  {
    assert i < |s| ==> LineStart(s, i);
  }

  /** From one line to the next. */
  lemma {:induction false} ToNext(s: Text, i: nat) returns (next: nat)
    requires Begins(s, i) && i < |s| && NoneEmpty(s, i) && !CrlfAt(s, i)
    ensures var n := FindCrlf(s[i..]);
      && i < next <= |s| && (forall j :: i < j < next ==> !LineStart(s, j))
      && (n < |s[i..]| ==> n + 2 <= |s[i..]| && next == i + n + 2 && Begins(s, next) && NoneEmpty(s, next) && s[i..][n + 2..] == s[next..])
      && (n == |s[i..]| ==> next == |s|)
  {
    NextLine(s, i);
    var n := FindCrlf(s[i..]);
    hide FindCrlf, CrlfAt;
    if n < |s[i..]| {
      next := i + n + 2;
      SliceAfter(s, i, n + 2, n + 2);
    } else {
      next := |s|;
    }
  }

  /** The loop at a line start, with the lines before it placed. */
  lemma {:induction false} LoopPlaces(s: Text, behind: Text, i: nat, hs: Headers, ps: seq<nat>) returns (stop: nat, qs: seq<nat>)
    requires Begins(s, i) && NoneEmpty(s, i) && Placed(s, behind, i, hs, ps)
    ensures Placed(s, behind, stop, HeadersUntil(s[i..], hs, behind), qs)
    ensures if ParseHeaders(s[i..], hs, behind).Good? then forall j :: Reached(s, j) ==> j < stop
      else Reached(s, stop) && forall h :: !HeaderAt(s, stop, behind, h)
    decreases |s| - i
  {
    hide Placed, FindCrlf, ParseHeader, Set, HeaderAt, Reached, Begins, NoneEmpty, CrlfAt, LineStart;
    BeginsIn(s, i);
    var t := s[i..];
    AtLine(s, i);
    stop, qs := i, ps;
    if i < |s| && !CrlfAt(s, i) {
      var p := ParseHeader(t, behind);
      forall h ensures p == Good(h) <==> HeaderAt(s, i, behind, h) {
        HeaderPlace(s, i, behind, h);
      }
      if p.Good? {
        var next := ToNext(s, i);
        var rs := SetPlaced(s, behind, i, next, hs, ps, p.value);
        if FindCrlf(t) < |t| {
          stop, qs := LoopPlaces(s, behind, next, Set(hs, p.value.0, p.value.1), rs);
        } else {
          stop, qs := next, rs;
          AllReached(s);
        }
      }
    }
  }

  lemma {:induction false} BeginsIn(s: Text, i: nat)
    requires Begins(s, i)
    ensures i <= |s| && (CrlfAt(s[i..], 0) <==> CrlfAt(s, i))
  {
  }

  lemma {:induction false} AllReached(s: Text)
    ensures forall j :: Reached(s, j) ==> j < |s|
  {
  }

  lemma {:induction false} NothingPlaced(s: Text, behind: Text)
    ensures Placed(s, behind, 0, [], [])
  {
  }

  /** What the loop sets until it ends or fails: the headers of the lines before the place where it stops. */
  lemma {:induction false} UntilPlaces(s: Text, behind: Text) returns (stop: nat, ps: seq<nat>)
    ensures Placed(s, behind, stop, HeadersUntil(s, [], behind), ps)
    ensures if ParseHeaders(s, [], behind).Good? then forall j :: Reached(s, j) ==> j < stop
      else Reached(s, stop) && forall h :: !HeaderAt(s, stop, behind, h)
  {
    hide Placed, ParseHeaders, HeadersUntil, HeaderAt, Reached;
    NothingPlaced(s, behind);
    assert s[0..] == s;
    stop, ps := LoopPlaces(s, behind, 0, [], []);
  }

  // ---- Only one list is placed so ----------------------------------------------------------------------------

  lemma {:induction false} PlacedAt(s: Text, behind: Text, stop: nat, hs: Headers, ps: seq<nat>, a: nat)
    requires Placed(s, behind, stop, hs, ps) && a < |ps|
    ensures |ps| == |hs| && ps[a] < stop && Reached(s, ps[a]) && HeaderAt(s, ps[a], behind, hs[a])
  {
    hide HeaderAt, Reached, SetFrom;
  }

  lemma {:induction false} PlacedFrom(s: Text, behind: Text, stop: nat, hs: Headers, ps: seq<nat>, i: nat)
    requires Placed(s, behind, stop, hs, ps) && i < stop && Reached(s, i)
    ensures |ps| == |hs| && SetFrom(s, behind, hs, ps, i)
  {
    hide HeaderAt, Reached, SetFrom;
  }

  /** The key of a placed header is also placed in the other list, not before it. */
  lemma {:induction false} KeyFurther(
    s: Text, behind: Text, stop: nat, hs: Headers, ps: seq<nat>, hs': Headers, qs: seq<nat>, a: nat) returns (b: nat)
    requires Placed(s, behind, stop, hs, ps) && Placed(s, behind, stop, hs', qs) && a < |ps|
    ensures |ps| == |hs| && |qs| == |hs'| && b < |qs| && ps[a] <= qs[b] && hs'[b].0 == hs[a].0
  {
    hide HeaderAt, Reached, Placed;
    PlacedAt(s, behind, stop, hs, ps, a);
    PlacedFrom(s, behind, stop, hs', qs, ps[a]);
    var c, h: (Text, Text) :| 0 <= c < |qs| && ps[a] <= qs[c] && HeaderAt(s, ps[a], behind, h) && hs'[c].0 == h.0;
    ReachedIn(s, ps[a]);
    OneHeader(s, ps[a], behind, h, hs[a]);
    b := c;
  }

  lemma {:induction false} SameLines(s: Text, behind: Text, stop: nat, hs: Headers, ps: seq<nat>, hs': Headers, qs: seq<nat>, a: nat)
    requires Placed(s, behind, stop, hs, ps) && Placed(s, behind, stop, hs', qs) && DistinctKeys(hs)
    requires a < |ps|
    ensures ps[a] in qs
  {
    hide Placed, Sits, SetFrom, Reached, HeaderAt, DistinctKeys;
    var b := KeyFurther(s, behind, stop, hs, ps, hs', qs, a);
    var c := KeyFurther(s, behind, stop, hs', qs, hs, ps, b);
    SameKey(hs, c, a);
    assert ps[a] == qs[b];
  }

  lemma {:induction false} SameKey(hs: Headers, a: nat, b: nat)
    requires DistinctKeys(hs) && a < |hs| && b < |hs| && hs[a].0 == hs[b].0
    ensures a == b
  {
  }

  lemma {:induction false} ReachedIn(s: Text, i: nat)
    requires Reached(s, i)
    ensures i <= |s|
  {
  }

  /** Two increasing lists with the same elements are the same. */
  lemma {:induction false} SameIncreasing(ps: seq<nat>, qs: seq<nat>)
    requires Ordered(ps) && Ordered(qs)
    requires forall x :: x in ps <==> x in qs
    ensures ps == qs
    decreases |ps|
  {
    assert forall k :: 0 <= k < |qs| ==> qs[k] in ps;
    assert forall k :: 0 <= k < |ps| ==> ps[k] in qs;
    if ps != [] {
      assert ps[0] in qs && qs[0] in ps;
      assert ps[0] == qs[0];
      forall x ensures x in ps[1..] <==> x in qs[1..] {
        assert x in ps[1..] <==> x in ps && x != ps[0];
        assert x in qs[1..] <==> x in qs && x != qs[0];
      }
      SameIncreasing(ps[1..], qs[1..]);
    }
  }

  lemma {:induction false} PlacedOnce(s: Text, behind: Text, stop: nat, hs: Headers, ps: seq<nat>, hs': Headers, qs: seq<nat>)
    requires Placed(s, behind, stop, hs, ps) && Placed(s, behind, stop, hs', qs) && DistinctKeys(hs) && DistinctKeys(hs')
    ensures hs == hs'
  {
    hide HeaderAt, Reached, SetFrom, DistinctKeys;
    forall x ensures x in ps <==> x in qs {
      if x in ps {
        var a :| 0 <= a < |ps| && ps[a] == x;
        SameLines(s, behind, stop, hs, ps, hs', qs, a);
      }
      if x in qs {
        var a :| 0 <= a < |qs| && qs[a] == x;
        SameLines(s, behind, stop, hs', qs, hs, ps, a);
      }
    }
    SameIncreasing(ps, qs);
    forall a | 0 <= a < |hs| ensures hs[a] == hs'[a] {
      ReachedIn(s, ps[a]);
      OneHeader(s, ps[a], behind, hs[a], hs'[a]);
    }
  }

  // ---- The whole text ------------------------------------------------------------------------------------------

  /** Distinct keys, in the order of the lines that set them last, from every line up to the empty one. */
  ghost predicate ReadFrom(s: Text, behind: Text, hs: Headers) {
    DistinctKeys(hs) && exists ps :: Placed(s, behind, |s|, hs, ps)
  }

  lemma {:induction false} PlacedToEnd(s: Text, behind: Text, stop: nat, hs: Headers, ps: seq<nat>)
    requires Placed(s, behind, stop, hs, ps) && forall j :: Reached(s, j) ==> j < stop
    ensures Placed(s, behind, |s|, hs, ps)
  {
    hide HeaderAt, SetFrom, Ordered;
    AllReached(s);
    hide Reached;
  }

  /** Headers are accepted with the result `hs` exactly when every line up to the empty one has a header
      on its bytes, and `hs` is the last of them for each key, in the order of their lines. */
  lemma {:induction false} HeadersOnBytes(s: Text, behind: Text, hs: Headers)
    ensures ParseHeaders(s, [], behind) == Good(hs) <==> ReadFrom(s, behind, hs)
  {
    hide Placed, ParseHeaders, HeadersUntil, HeaderAt, Reached, DistinctKeys;
    NoKeys();
    UntilGood(s, [], behind);
    UntilDistinct(s, [], behind);
    var until := HeadersUntil(s, [], behind);
    var stop, ps := UntilPlaces(s, behind);
    if ParseHeaders(s, [], behind).Good? {
      PlacedToEnd(s, behind, stop, until, ps);
      if ReadFrom(s, behind, hs) {
        var qs :| Placed(s, behind, |s|, hs, qs);
        PlacedOnce(s, behind, |s|, hs, qs, until, ps);
      }
    } else if ReadFrom(s, behind, hs) {
      var qs :| Placed(s, behind, |s|, hs, qs);
      AllReached(s);
      PlacedFrom(s, behind, |s|, hs, qs, stop);
      FromHeader(s, behind, hs, qs, stop);
      assert false;
    }
  }

  lemma {:induction false} NoKeys()
    ensures DistinctKeys([])
  {
  }

  lemma {:induction false} FromHeader(s: Text, behind: Text, hs: Headers, ps: seq<nat>, i: nat)
    requires |ps| == |hs| && SetFrom(s, behind, hs, ps, i)
    ensures exists h: (Text, Text) :: HeaderAt(s, i, behind, h)
  {
    hide HeaderAt;
  }

  /** An object that held headers keeps, in front, those whose keys the text does not set. */
  lemma {:induction false} UntilFromOld(s: Text, held: Headers, behind: Text)
    requires DistinctKeys(held)
    ensures HeadersUntil(s, held, behind) ==
      Drop(held, Keys(HeadersUntil(s, [], behind))) + HeadersUntil(s, [], behind)
  {
    hide Drop, HeadersUntil, Keys;
    NoKeys();
    SetAllNone(held);
    assert SetAll(held, []) == held;
    FromOld(s, held, [], behind);
    assert held + [] == held;
  }

  lemma {:induction false} FromOld(s: Text, held: Headers, hs: Headers, behind: Text)
    requires DistinctKeys(held) && DistinctKeys(hs)
    ensures HeadersUntil(s, Drop(held, Keys(hs)) + hs, behind) ==
      Drop(held, Keys(HeadersUntil(s, hs, behind))) + HeadersUntil(s, hs, behind)
    decreases |s|
  {
    hide Drop, Keys, ParseHeader, FindCrlf, DistinctKeys, Set;
    if s != [] && !CrlfAt(s, 0) {
      var p := ParseHeader(s, behind);
      if p.Good? {
        var h := p.value;
        SetOver(held, hs, h);
        SetSound(hs, h.0, h.1);
        var n := FindCrlf(s);
        if n < |s| {
          FromOld(s[n + 2..], held, Set(hs, h.0, h.1), behind);
        }
      }
    }
  }

  lemma {:induction false} SetOver(held: Headers, hs: Headers, h: (Text, Text))
    requires DistinctKeys(held) && DistinctKeys(hs)
    ensures Set(Drop(held, Keys(hs)) + hs, h.0, h.1) == Drop(held, Keys(Set(hs, h.0, h.1))) + Set(hs, h.0, h.1)
  {
    hide Drop, Keys, DistinctKeys, Remove;
    var k := h.0;
    OverDistinct(held, hs);
    RemoveIsDrop(Drop(held, Keys(hs)) + hs, k);
    RemoveIsDrop(hs, k);
    DropConcat(Drop(held, Keys(hs)), hs, {k});
    DropDrop(held, Keys(hs), {k});
    SetKeys(hs, h);
    Assoc(Drop(held, Keys(hs) + {k}), Drop(hs, {k}), [h]);
  }

  lemma {:induction false} SetKeys(hs: Headers, h: (Text, Text))
    requires DistinctKeys(hs)
    ensures Keys(Set(hs, h.0, h.1)) == Keys(hs) + {h.0}
  {
    var a := RemoveAt(hs, h.0);
    hide Remove;
    var hs' := Set(hs, h.0, h.1);
    forall k ensures k in Keys(hs') <==> k in Keys(hs) + {h.0} {
      if k in Keys(hs) && k != h.0 {
        var i :| 0 <= i < |hs| && hs[i].0 == k;
        assert hs'[if i < a then i else i - 1].0 == k;
      }
      if k == h.0 {
        assert hs'[|hs'| - 1].0 == k;
      }
    }
  }

  lemma {:induction false} OverDistinct(held: Headers, hs: Headers)
    requires DistinctKeys(held) && DistinctKeys(hs)
    ensures DistinctKeys(Drop(held, Keys(hs)) + hs)
  {
    DropSound(held, Keys(hs));
    hide Drop;
  }

  lemma {:induction false} DropSound(hs: Headers, ks: set<Text>)
    requires DistinctKeys(hs)
    ensures DistinctKeys(Drop(hs, ks)) && forall i :: 0 <= i < |Drop(hs, ks)| ==> Drop(hs, ks)[i].0 !in ks && Drop(hs, ks)[i] in hs
  {
    if hs != [] {
      DropSound(hs[1..], ks);
      var rest := Drop(hs[1..], ks);
      forall i | 0 <= i < |rest| ensures rest[i].0 != hs[0].0 {
        assert rest[i] in hs[1..];
      }
    }
  }
}
