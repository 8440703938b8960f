/** `struct ParsedRequest` as the proxy updates it: a growing header array with tombstones, and
    printers that advance through a buffer. */
module HttpParser {
  import opened Words
  import opened CText
  import Spec = HttpSpec
  import Proofs = HttpRoundTrip

  /** A header slot; `Dead` is a key set to NULL. */
  datatype Entry = Dead | Live(key: Text, value: Text)

  /** The live entries in order. */
  function LiveOf(es: seq<Entry>): Spec.Headers {
    if es == [] then [] else LiveOne(es[0]) + LiveOf(es[1..])
  }

  function FindKey(es: seq<Entry>, key: Text): (i: nat)
    ensures i <= |es| && (i < |es| ==> es[i].Live? && es[i].key == key)
    ensures forall j :: 0 <= j < i ==> !(es[j].Live? && es[j].key == key)
  {
    if es == [] || (es[0].Live? && es[0].key == key) then 0 else 1 + FindKey(es[1..], key)
  }

  lemma {:induction false} FindKeyAt(es: seq<Entry>, key: Text, i: nat)
    requires i <= |es| && (i < |es| ==> es[i].Live? && es[i].key == key)
    requires forall j :: 0 <= j < i ==> !(es[j].Live? && es[j].key == key)
    ensures FindKey(es, key) == i
  {
  }

  /** What one slot adds to the map. */
  function LiveOne(e: Entry): Spec.Headers { if e.Live? then [(e.key, e.value)] else [] }

  lemma {:induction false} LivePush(es: seq<Entry>, e: Entry)
    ensures LiveOf(es + [e]) == LiveOf(es) + LiveOne(e)
  {
    if es == [] {
      assert ([] + [e])[1..] == [];
      assert LiveOf([]) == [];
    } else {
      LivePush(es[1..], e);
      hide LiveOne;
      assert (es + [e])[1..] == es[1..] + [e];
      Assoc(LiveOne(es[0]), LiveOf(es[1..]), LiveOne(e));
    }
  }

  lemma {:induction false} LiveGet(es: seq<Entry>, key: Text)
    ensures var i := FindKey(es, key);
      Spec.Get(LiveOf(es), key) == if i < |es| then Some(es[i].value) else None
  {
    if es != [] {
      LiveGet(es[1..], key);
      if es[0].Live? {
        assert LiveOf(es)[1..] == LiveOf(es[1..]);
      } else {
        assert LiveOf(es) == LiveOf(es[1..]);
      }
    }
  }

  lemma {:induction false} LiveCons(e: Entry, es: seq<Entry>)
    ensures LiveOf([e] + es) == LiveOne(e) + LiveOf(es)
  {
    assert ([e] + es)[1..] == es;
  }

  lemma {:induction false} RemoveCons(e: Entry, hs: Spec.Headers, key: Text)
    requires !(e.Live? && e.key == key)
    ensures Spec.Remove(LiveOne(e) + hs, key) == LiveOne(e) + Spec.Remove(hs, key)
  {
    if e.Live? {
      assert (LiveOne(e) + hs)[1..] == hs;
    } else {
      assert LiveOne(e) + hs == hs;
    }
  }

  lemma {:induction false} KillFirst(e: Entry, es: seq<Entry>)
    requires e.Live?
    ensures LiveOf([Dead] + es) == Spec.Remove(LiveOf([e] + es), e.key)
  {
    LiveCons(e, es);
    LiveCons(Dead, es);
    hide LiveOf;
    assert LiveOne(Dead) + LiveOf(es) == LiveOf(es);
    assert (LiveOne(e) + LiveOf(es))[1..] == LiveOf(es);
  }

  lemma {:induction false} UpdateCons(es: seq<Entry>, i: nat, e: Entry)
    requires i < |es|
    ensures es == [es[0]] + es[1..]
    ensures es[i := e] == if i == 0 then [e] + es[1..] else [es[0]] + es[1..][i - 1 := e]
  {
  }

  /** Killing the first entry for a key removes it from the map. */
  lemma {:induction false} LiveKill(es: seq<Entry>, key: Text)
    requires FindKey(es, key) < |es|
    ensures LiveOf(es[FindKey(es, key) := Dead]) == Spec.Remove(LiveOf(es), key)
  {
    hide LiveOf, LiveOne, Spec.Remove;
    var i := FindKey(es, key);
    UpdateCons(es, i, Dead);
    if i == 0 {
      KillFirst(es[0], es[1..]);
    } else {
      LiveKill(es[1..], key);
      LiveCons(es[0], es[1..]);
      LiveCons(es[0], es[1..][i - 1 := Dead]);
      RemoveCons(es[0], LiveOf(es[1..]), key);
    }
  }

  lemma {:induction false} GetNone(hs: Spec.Headers, key: Text)
    ensures Spec.Get(hs, key).None? ==> Spec.Remove(hs, key) == hs
  {
    if hs != [] {
      GetNone(hs[1..], key);
    }
  }

  /** The header lines without the empty line after them. */
  function Lines(hs: Spec.Headers): Text {
    if hs == [] then "" else Lines(hs[..|hs| - 1]) + Spec.RenderHeader(hs[|hs| - 1]) + CRLF
  }

  lemma {:induction false} LinesRender(a: Spec.Headers, b: Spec.Headers)
    ensures Lines(a) + Spec.RenderHeaders(b) == Lines(a + b) + CRLF
    decreases |b|
  {
    if b == [] {
      assert a + b == a;
    } else {
      LinesPush(a, b[0]);
      LinesRender(a + [b[0]], b[1..]);
      hide Lines, Spec.RenderHeader;
      assert a + [b[0]] + b[1..] == a + b;
      Assoc(Lines(a), Spec.RenderHeader(b[0]) + CRLF, Spec.RenderHeaders(b[1..]));
      Assoc(Lines(a), Spec.RenderHeader(b[0]), CRLF);
    }
  }

  lemma {:induction false} LinesAre(hs: Spec.Headers)
    ensures Spec.RenderHeaders(hs) == Lines(hs) + CRLF
  {
    LinesRender([], hs);
    assert [] + hs == hs;
    assert Lines([]) + Spec.RenderHeaders(hs) == Spec.RenderHeaders(hs);
  }

  lemma {:induction false} LinesPush(hs: Spec.Headers, h: (Text, Text))
    ensures Lines(hs + [h]) == Lines(hs) + Spec.RenderHeader(h) + CRLF
  {
    assert (hs + [h])[..|hs|] == hs;
  }

  /** The line of one slot, and the lines of the slots so far. */
  function SlotLine(e: Entry): Text { if e.Live? then e.key + ": " + e.value + CRLF else "" }

  function Printed(es: seq<Entry>): Text { Lines(LiveOf(es)) }

  lemma {:induction false} PrintedNext(es: seq<Entry>, i: nat)
    requires i < |es|
    ensures Printed(es[..i + 1]) == Printed(es[..i]) + SlotLine(es[i])
  {
    hide Lines, LiveOf;
    var e := es[i];
    assert es[..i + 1] == es[..i] + [e];
    LivePush(es[..i], e);
    if e.Live? {
      LinesPush(LiveOf(es[..i]), (e.key, e.value));
      assert Spec.RenderHeader((e.key, e.value)) + CRLF == SlotLine(e);
    } else {
      assert LiveOf(es[..i]) + [] == LiveOf(es[..i]);
    }
  }

  lemma {:induction false} PrintedFits(es: seq<Entry>, i: nat, n: nat)
    requires i <= n <= |es|
    ensures |Printed(es[..i])| <= |Printed(es[..n])|
    decreases n
  {
    hide Printed;
    if i < n {
      PrintedFits(es, i, n - 1);
      PrintedNext(es, n - 1);
    }
  }

  /** A buffer whose first bytes are `t`, the others being as they were. */
  function Written(was: Text, t: Text): Text
    requires |t| <= |was|
  {
    t + was[|t|..]
  }

  function Cat(t: Text, u: Text): (r: Text)
    ensures |r| == |t| + |u|
  {
    t + u
  }

  /** `memcpy` to where the printing stands. */
  method Put(buf: array<char>, current: nat, u: Text, ghost was: Text, ghost t: Text) returns (next: nat)
    requires current == |t| && |t| + |u| <= |was| == buf.Length && buf[..] == Written(was, t)
    modifies buf
    ensures next == |t| + |u| && buf[..] == Written(was, Cat(t, u))
  {
    forall i | 0 <= i < |u| {
      buf[current + i] := u[i];
    }
    next := current + |u|;
  }

  datatype Status = Success | Failure | OutOfBounds

  class ParsedRequest {
    /** The fields of the request line, None while `buf` is NULL. */
    var line: Option<Spec.Line>
    var headers: array<Entry>
    var used: nat

    ghost predicate Valid()
      reads this, headers
    {
      used < headers.Length && Spec.DistinctKeys(Map())
    }

    /** The insertion-ordered map that the array stands for. */
    ghost function Map(): Spec.Headers
      reads this, headers
    {
      if used <= headers.Length then LiveOf(headers[..used]) else []
    }

    constructor ()
      ensures Valid() && line == None && Map() == [] && fresh(headers)
    {
      line := None;
      headers := new Entry[8](_ => Dead);
      used := 0;
    }

    /** The loop of `ParsedHeader_get`: the index of the live entry for a key. */
    method Find(key: Text) returns (i: nat)
      requires Valid()
      ensures i == FindKey(headers[..used], key)
    {
      i := 0;
      while i < used && !(headers[i].Live? && headers[i].key == key)
        invariant 0 <= i <= used && forall j :: 0 <= j < i ==> !(headers[j].Live? && headers[j].key == key)
      {
        i := i + 1;
      }
      FindKeyAt(headers[..used], key, i);
    }

    /** `ParsedHeader_get`. */
    method Get(key: Text) returns (v: Option<Text>)
      requires Valid()
      ensures v == Spec.Get(Map(), key)
    {
      var i := Find(key);
      LiveGet(headers[..used], key);
      v := if i < used then Some(headers[i].value) else None;
    }

    /** `ParsedHeader_remove`: a tombstone in place of the entry. */
    method Remove(key: Text) returns (rc: int)
      requires Valid()
      modifies this, headers
      ensures Valid() && Map() == Spec.Remove(old(Map()), key) && line == old(line) && headers == old(headers)
      ensures rc == (if Spec.Get(old(Map()), key).Some? then 0 else -1) && used == old(used)
    {
      var i := Find(key);
      LiveGet(headers[..used], key);
      if i == used {
        GetNone(Map(), key);
        return -1;
      }
      LiveKill(headers[..used], key);
      Proofs.RemoveSound(Map(), key);
      hide LiveOf, FindKey, Spec.Get, Spec.Remove, Spec.DistinctKeys;
      ghost var es := headers[..used];
      headers[i] := Dead;
      assert headers[..used] == es[i := Dead];
      rc := 0;
    }

    /** `ParsedHeader_set`: the array doubles where only one slot is left. */
    method Set(key: Text, value: Text)
      requires Valid()
      modifies this, headers
      ensures Valid() && Map() == Spec.Set(old(Map()), key, value) && line == old(line)
      ensures headers == old(headers) || fresh(headers)
    {
      ghost var before := Map();
      var _ := Remove(key);
      Proofs.SetSound(before, key, value);
      hide Spec.DistinctKeys, Spec.Remove, LiveOf;
      if headers.Length <= used + 1 {
        Grow();
      }
      LivePush(headers[..used], Live(key, value));
      headers[used] := Live(key, value);
      assert headers[..used + 1] == headers[..used] + [Live(key, value)];
      used := used + 1;
    }

    /** `realloc` to twice the length. */
    method Grow()
      requires used < headers.Length
      modifies this
      ensures fresh(headers) && headers.Length == 2 * old(headers.Length) && used == old(used) && line == old(line)
      ensures headers[..used] == old(headers[..used])
    {
      var bigger := new Entry[2 * headers.Length](_ => Dead);
      for i := 0 to headers.Length
        invariant unchanged(this) && forall j :: 0 <= j < i ==> bigger[j] == headers[j]
      {
        bigger[i] := headers[i];
      }
      headers := bigger;
    }

    // ---- Printing ----------------------------------------------------------------------------------

    /** `ParsedHeader_headersLen`. */
    method HeadersLen() returns (n: nat)
      requires Valid()
      ensures n == if line == None then 0 else |Spec.RenderHeaders(Map())|
    {
      hide Spec.DistinctKeys, Printed, Spec.RenderHeaders;
      if line == None { return 0; }
      n := 0;
      MapPrinted();
      assert Printed(headers[..0]) == "" by { PrintedNone(); }
      for i := 0 to used
        invariant n == |Printed(headers[..i])|
      {
        PrintedNext(headers[..used], i);
        assert headers[..used][..i] == headers[..i] && headers[..used][..i + 1] == headers[..i + 1];
        var e := headers[i];
        if e.Live? {
          n := n + |e.key| + |e.value| + 4;
        }
      }
      n := n + 2;
    }

    lemma MapPrinted()
      requires Valid()
      ensures Spec.RenderHeaders(Map()) == Printed(headers[..used]) + CRLF
    {
      LinesAre(Map());
    }

    /** `ParsedRequest_requestLineLen`. */
    method LineLen() returns (n: nat)
      ensures n == match line case None => 0 case Some(l) => |Spec.RenderLine(l)| + 2
    {
      if line == None { return 0; }
      var l := line.value;
      n := |l.verb| + 1 + |l.protocol| + 3 + |l.host| + 1 + |l.version| + 2;
      if l.port.Some? {
        n := n + |l.port.value| + 1;
      }
      n := n + |l.path|;
    }

    /** `ParsedRequest_totalLen`: the number of bytes that printing writes. */
    method TotalLen() returns (n: nat)
      requires Valid()
      ensures n == match line case None => 0 case Some(l) => |Spec.Render(Spec.Request(l, Map()))|
    {
      if line == None { return 0; }
      var a := LineLen();
      var b := HeadersLen();
      n := a + b;
    }

    /** `ParsedHeader_printHeaders`, after `t` was printed. */
    method PrintHeaders(buf: array<char>, at: nat, ghost was: Text, ghost t: Text) returns (rc: int)
      requires Valid() && line.Some?
      requires at == |t| <= |was| == buf.Length && buf[..] == Written(was, t)
      modifies buf
      ensures rc == 0 || rc == -1
      ensures rc == 0 <==> |t| + |Spec.RenderHeaders(Map())| <= |was|
      ensures rc == 0 ==> buf[..] == Written(was, Cat(t, Spec.RenderHeaders(Map())))
    {
      hide Spec.DistinctKeys, Printed, Spec.RenderHeaders, Written, Cat, SlotLine;
      var n := HeadersLen();
      if buf.Length - at < n { return -1; }
      var current := at;
      MapPrinted();
      ghost var es := headers[..used];
      assert es[..used] == es && es[..0] == [];
      PrintedNone();
      CatNone(t);
      for i := 0 to used
        invariant current == |t| + |Printed(es[..i])|
        invariant |t| + |Printed(es[..i])| <= |was| && buf[..] == Written(was, Cat(t, Printed(es[..i])))
      {
        PrintedNext(es, i);
        PrintedFits(es, i + 1, used);
        current := PrintSlot(buf, current, headers[i], was, Cat(t, Printed(es[..i])));
        CatAssoc(t, Printed(es[..i]), SlotLine(es[i]));
      }
      current := Put(buf, current, CRLF, was, Cat(t, Printed(es)));
      CatAssoc(t, Printed(es), CRLF);
      rc := 0;
    }

    /** One round of its loop: a tombstone prints nothing. */
    method PrintSlot(buf: array<char>, at: nat, e: Entry, ghost was: Text, ghost t: Text) returns (current: nat)
      requires at == |t| && |t| + |SlotLine(e)| <= |was| == buf.Length && buf[..] == Written(was, t)
      modifies buf
      ensures current == |t| + |SlotLine(e)| && buf[..] == Written(was, Cat(t, SlotLine(e)))
    {
      hide Written;
      current := at;
      if e.Live? {
        current := Put(buf, current, e.key + ": " + e.value + CRLF, was, t);
      } else {
        CatNone(t);
      }
    }

    /** `ParsedRequest_printRequestLine`: the line with its line end, and where it stops. */
    method PrintRequestLine(buf: array<char>) returns (rc: int, current: nat)
      requires line.Some?
      modifies buf
      ensures rc == 0 || rc == -1
      ensures rc == 0 <==> |Spec.RenderLine(line.value)| + 2 <= buf.Length
      ensures rc == 0 ==> current == |Spec.RenderLine(line.value)| + 2
      ensures rc == 0 ==> buf[..] == Written(old(buf[..]), Spec.RenderLine(line.value) + CRLF)
    {
      var n := LineLen();
      ghost var was := buf[..];
      var l := line.value;
      LineIsCat(l);
      WrittenNone(was);
      hide Written, Cat, Spec.Address, Spec.RenderLine;
      if buf.Length < n { return -1, 0; }
      ghost var t := "";
      current := Put(buf, 0, l.verb, was, t);
      t := Cat(t, l.verb);
      current := Put(buf, current, " ", was, t);
      t := Cat(t, " ");
      current := PrintAddress(buf, current, was, t);
      t := Cat(t, Spec.Address(l));
      current := Put(buf, current, " ", was, t);
      t := Cat(t, " ");
      current := Put(buf, current, l.version, was, t);
      t := Cat(t, l.version);
      current := Put(buf, current, CRLF, was, t);
      rc := 0;
    }

    /** Its middle part. */
    method PrintAddress(buf: array<char>, at: nat, ghost was: Text, ghost t: Text) returns (current: nat)
      requires line.Some? && |t| + |Spec.Address(line.value)| <= |was|
      requires at == |t| && |was| == buf.Length && buf[..] == Written(was, t)
      modifies buf
      ensures current == |t| + |Spec.Address(line.value)| && buf[..] == Written(was, Cat(t, Spec.Address(line.value)))
    {
      var l := line.value;
      AddressIsCat(t, l);
      hide Written, Cat, Spec.Address;
      ghost var s := t;
      current := Put(buf, at, l.protocol, was, s);
      s := Cat(s, l.protocol);
      current := Put(buf, current, "://", was, s);
      s := Cat(s, "://");
      current := Put(buf, current, l.host, was, s);
      s := Cat(s, l.host);
      if l.port.Some? {
        current := Put(buf, current, ":", was, s);
        s := Cat(s, ":");
        current := Put(buf, current, l.port.value, was, s);
        s := Cat(s, l.port.value);
      }
      current := Put(buf, current, l.path, was, s);
    }

    /** `ParsedRequest_unparse`: it succeeds exactly when the buffer is long enough. */
    method Unparse(buf: array<char>) returns (rc: int)
      requires Valid()
      modifies buf
      ensures rc == 0 || rc == -1
      ensures rc == 0 <==> line.Some? && |Spec.Render(Spec.Request(line.value, Map()))| <= buf.Length
      ensures rc == 0 ==> buf[..] == Written(old(buf[..]), Spec.Render(Spec.Request(line.value, Map())))
    {
      hide Spec.RenderLine, Spec.RenderHeaders, Spec.DistinctKeys, LiveOf, Written;
      ghost var was := buf[..];
      if line == None { return -1; }
      var rc1, at := PrintRequestLine(buf);
      if rc1 < 0 { return -1; }
      rc := PrintHeaders(buf, at, was, Spec.RenderLine(line.value) + CRLF);
      assert Cat(Spec.RenderLine(line.value) + CRLF, Spec.RenderHeaders(Map()))
          == Spec.Render(Spec.Request(line.value, Map()));
    }

    // ---- Parsing -----------------------------------------------------------------------------------

    /** The header loop of `ParsedRequest_parse`, with `ParsedHeader_parse`; `behind` is what follows
        the NUL that ends the text. */
    method ParseHeaderLines(s: Text, behind: Text) returns (status: Status)
      requires Valid()
      modifies this, headers
      ensures Valid() && line == old(line) && Map() == Spec.HeadersUntil(s, old(Map()), behind)
      ensures status == match Spec.ParseHeaders(s, old(Map()), behind)
        case Good(_) => Success
        case Bad => Failure
        case Wild => OutOfBounds
    {
      var current := s;
      hide Spec.DistinctKeys, Spec.Set, FindCrlf, FindChar, Spec.ParseHeader, LiveOf;
      while current != [] && !CrlfAt(current, 0)
        invariant Valid() && line == old(line) && (headers == old(headers) || fresh(headers))
        invariant Spec.ParseHeaders(current, Map(), behind) == Spec.ParseHeaders(s, old(Map()), behind)
        invariant Spec.HeadersUntil(current, Map(), behind) == Spec.HeadersUntil(s, old(Map()), behind)
        decreases |current|
      {
        var h := Spec.ParseHeader(current, behind);
        if h.Bad? { return Failure; }
        if h.Wild? { return OutOfBounds; }
        Set(h.value.0, h.value.1);
        var n := FindCrlf(current);
        if n == |current| { return Success; }
        current := current[n + 2..];
      }
      status := Success;
    }

    /** `ParsedRequest_parse`: an object that holds a request is refused and left as it is; after a
        failure in the headers the line and the headers before it stay. */
    method Parse(buf: Text) returns (status: Status)
      requires Valid()
      modifies this, headers
      ensures Valid()
      ensures old(line).Some? ==> status == Failure && line == old(line) && Map() == old(Map())
      ensures old(line).None? ==>
        var e := Spec.ParseEffect(buf, old(Map()));
        && line == e.line && Map() == e.headers
        && status == match e.result
           case Good(_) => Success
           case Bad => Failure
           case Wild => OutOfBounds
    {
      hide Spec.DistinctKeys, LiveOf, FindCrlf, CString, Behind, Spec.ParseLine, Spec.ParseHeaders, HasEnd, Spec.HeadersUntil;
      if line.Some? { return Failure; }
      if |buf| < Spec.MIN_REQ_LEN || |buf| > Spec.MAX_REQ_LEN { return Failure; }
      var s := CString(buf);
      if !HasEnd(s) { return Failure; }
      var n := FindCrlf(s);
      if n == |s| { return Failure; }
      var l := Spec.ParseLine(s[..n]);
      if l.Bad? { return Failure; }
      if l.Wild? { return OutOfBounds; }
      line := Some(l.value);
      status := ParseHeaderLines(s[n + 2..], Behind(buf));
    }
  }

  /** Through the code: printing a well-formed request into a buffer of the length announced and
      parsing the bytes into a new object gives the same request. */
  method PrintThenParse(pr: ParsedRequest) returns (again: ParsedRequest, status: Status)
    requires pr.Valid() && pr.line.Some? && Spec.RequestOk(Spec.Request(pr.line.value, pr.Map()))
    requires |Spec.Render(Spec.Request(pr.line.value, pr.Map()))| <= Spec.MAX_REQ_LEN
    ensures again.Valid() && status == Success && again.line == pr.line && again.Map() == pr.Map()
  {
    hide Spec.Render, Spec.RequestOk, Spec.DistinctKeys, LiveOf, Spec.Parse, Spec.ParseEffect;
    var n := pr.TotalLen();
    var buf := new char[n](_ => ' ');
    var _ := pr.Unparse(buf);
    again := new ParsedRequest();
    Proofs.RoundTrip(Spec.Request(pr.line.value, pr.Map()));
    assert buf[..] == Spec.Render(Spec.Request(pr.line.value, pr.Map()));
    Proofs.EffectIsParse(buf[..]);
    EffectFields(buf[..]);
    status := again.Parse(buf[..]);
  }

  lemma {:induction false} EffectFields(buf: Text)
    ensures var e := Spec.ParseEffect(buf, []);
      e.result.Good? ==> e.line == Some(e.result.value.line) && e.headers == e.result.value.headers
  {
    hide FindCrlf, CString, Behind, Spec.ParseLine, Spec.ParseHeaders, HasEnd, Spec.HeadersUntil;
  }

  lemma {:induction false} CatNone(t: Text)
    ensures Cat(t, "") == t
  {
  }

  lemma {:induction false} CatAssoc(a: Text, b: Text, c: Text)
    ensures Cat(Cat(a, b), c) == Cat(a, b + c)
  {
    Assoc(a, b, c);
  }

  lemma {:induction false} LineIsCat(l: Spec.Line)
    ensures Cat(Cat(Cat(Cat(Cat(Cat("", l.verb), " "), Spec.Address(l)), " "), l.version), CRLF)
      == Spec.RenderLine(l) + CRLF
    ensures |Spec.RenderLine(l)| == |l.verb| + 1 + |Spec.Address(l)| + 1 + |l.version|
  {
    hide Spec.Address;
    assert Cat("", l.verb) == l.verb;
  }

  lemma {:induction false} AddressIsCat(t: Text, l: Spec.Line)
    ensures var s := Cat(Cat(Cat(t, l.protocol), "://"), l.host);
      Cat(if l.port.Some? then Cat(Cat(s, ":"), l.port.value) else s, l.path) == Cat(t, Spec.Address(l))
    ensures |Spec.Address(l)| ==
      |l.protocol| + 3 + |l.host| + (if l.port.Some? then 1 + |l.port.value| else 0) + |l.path|
  {
    hide Cat;
    CatAssoc(t, l.protocol, "://");
    CatAssoc(t, l.protocol + "://", l.host);
    var u := l.protocol + "://" + l.host;
    if l.port.Some? {
      CatAssoc(t, u, ":");
      CatAssoc(t, u + ":", l.port.value);
      assert u + ":" + l.port.value == l.protocol + "://" + Spec.Authority(l);
    } else {
      assert u == l.protocol + "://" + Spec.Authority(l);
    }
    CatAssoc(t, l.protocol + "://" + Spec.Authority(l), l.path);
  }

  lemma {:induction false} WrittenNone(was: Text)
    ensures was == Written(was, "")
  {
  }

  lemma {:induction false} PrintedNone()
    ensures Printed([]) == ""
  {
  }
}
