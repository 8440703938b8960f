/** Parsing what was printed gives the request back; what parsing accepts is well formed. */
module HttpRoundTrip {
  import opened Words
  import opened CText
  import opened HttpSpec

  lemma {:induction false} PlainJoin(a: Text, c: char, b: Text)
    requires Plain(a) && Plain(b) && c != '\r' && c != '\n' && c != '\0'
    ensures Plain(a + [c] + b)
  {
    NoCrlfJoin(a, c, b);
    hide NoCrlf;
  }

  lemma {:induction false} PlainPart(s: Text, i: nat, j: nat)
    requires Plain(s) && i <= j <= |s|
    ensures Plain(s[i..j])
  {
    NoCrlfPart(s, i, j);
    hide NoCrlf;
  }

  lemma {:induction false} PlainEmpty()
    ensures Plain([])
  {
  }

  // ---- The request line ------------------------------------------------------------------------------

  lemma {:induction false} PathBack(l: Line)
    requires LineOk(l)
    ensures ParsePath(l.path[1..]) == Good(l.path)
  {
    var p := l.path[1..];
    assert l.path == "/" + p;
    if p == [] {
      assert l.path == "/";
      assert Strtok(p, {' '}) == NoToken;
    } else {
      StrtokLast([], p, {' '});
      assert [] + p == p;
    }
  }

  lemma {:induction false} AuthorityBack(l: Line)
    requires LineOk(l)
    ensures ParseAuthority(Authority(l)) == Good((l.host, l.port))
  {
    if l.port.Some? {
      var p := l.port.value;
      StrtokCut([], l.host, ':', p, {':'});
      assert [] + l.host + [':'] + p == Authority(l);
      StrtokLast([], p, {'/'});
      assert [] + p == p;
    } else {
      StrtokLast([], l.host, {':'});
      assert [] + l.host == l.host == Authority(l);
      assert Strtok([], {'/'}) == NoToken;
    }
  }

  lemma {:induction false} AuthorityWithout(l: Line)
    requires LineOk(l)
    ensures Authority(l) != [] && Without(Authority(l), {'/', ' '}) && Plain(Authority(l))
  {
    if l.port.Some? {
      PlainJoin(l.host, ':', l.port.value);
      assert l.host + [':'] + l.port.value == Authority(l);
    } else {
      assert l.host == Authority(l);
    }
  }

  /** The address after the protocol's colon. */
  lemma {:induction false} HostBack(l: Line)
    requires LineOk(l)
    ensures Strtok("//" + Authority(l) + l.path, {'/'}) == Token(2, Authority(l), l.path[1..], true)
  {
    AuthorityWithout(l);
    hide Authority;
    StrtokCut("//", Authority(l), '/', l.path[1..], {'/'});
    assert "//" + Authority(l) + ['/'] + l.path[1..] == "//" + Authority(l) + l.path;
  }

  lemma {:induction false} ProtocolBack(l: Line)
    requires LineOk(l)
    ensures Strtok(Address(l), {':', '/'}) == Token(0, l.protocol, "//" + Authority(l) + l.path, true)
  {
    hide Authority;
    StrtokCut([], l.protocol, ':', "//" + Authority(l) + l.path, {':', '/'});
    assert [] + l.protocol + [':'] + ("//" + Authority(l) + l.path) == Address(l);
  }

  lemma {:induction false} AddressBack(l: Line)
    requires LineOk(l)
    ensures ParseAddress(l.verb, Address(l), l.version) == Good(l)
  {
    ProtocolBack(l);
    HostBack(l);
    PathBack(l);
    AuthorityBack(l);
    assert |Address(l)| == |l.protocol| + 3 + |Authority(l)| + |l.path|;
    hide Address, Authority, Strtok, ParsePath, ParseAuthority, StartsWith, Plain, Without;
  }

  lemma {:induction false} AddressPlain(l: Line)
    requires LineOk(l)
    ensures Address(l) != [] && Plain(Address(l))
  {
    AuthorityWithout(l);
    hide Authority, Plain, Without;
    PlainPart(l.path, 1, |l.path|);
    assert l.path[1..|l.path|] == l.path[1..];
    PlainEmpty();
    var tail := Authority(l) + l.path;
    PlainJoin(Authority(l), '/', l.path[1..]);
    assert Authority(l) + ['/'] + l.path[1..] == tail;
    PlainJoin([], '/', tail);
    assert [] + ['/'] + tail == "/" + tail;
    PlainJoin([], '/', "/" + tail);
    assert [] + ['/'] + ("/" + tail) == "//" + tail;
    PlainJoin(l.protocol, ':', "//" + tail);
    assert l.protocol + [':'] + ("//" + tail) == Address(l);
  }

  lemma {:induction false} AddressWithout(l: Line)
    requires LineOk(l)
    ensures Without(Address(l), {' '})
  {
    AuthorityWithout(l);
    hide Authority, Plain;
    assert Without("://", {' '});
  }

  /** The printed line is plain, and parses back. */
  lemma {:induction false} LinePlain(l: Line)
    requires LineOk(l)
    ensures Plain(RenderLine(l))
  {
    AddressPlain(l);
    hide Plain, Address, Without;
    PlainJoin(l.verb, ' ', Address(l));
    assert l.verb + [' '] + Address(l) == l.verb + " " + Address(l);
    PlainJoin(l.verb + " " + Address(l), ' ', l.version);
    assert l.verb + " " + Address(l) + [' '] + l.version == RenderLine(l);
  }

  lemma {:induction false} VerbBack(l: Line)
    requires LineOk(l)
    ensures Strtok(RenderLine(l), {' '}) == Token(0, l.verb, Address(l) + " " + l.version, true)
  {
    hide Address, Strtok, StartsWith, Plain;
    StrtokCut([], l.verb, ' ', Address(l) + " " + l.version, {' '});
    assert [] + l.verb + [' '] + (Address(l) + " " + l.version) == RenderLine(l);
  }

  lemma {:induction false} AddressCut(l: Line)
    requires LineOk(l)
    ensures Strtok(Address(l) + " " + l.version, {' '}) == Token(0, Address(l), l.version, true)
  {
    AddressWithout(l);
    AddressPlain(l);
    hide Address, Strtok, StartsWith, Plain;
    StrtokCut([], Address(l), ' ', l.version, {' '});
    assert [] + Address(l) + [' '] + l.version == Address(l) + " " + l.version;
  }

  lemma {:induction false} LineBack(l: Line)
    requires LineOk(l)
    ensures ParseLine(RenderLine(l)) == Good(l)
  {
    VerbBack(l);
    AddressCut(l);
    AddressBack(l);
    hide Address, ParseAddress, Plain, Strtok, StartsWith, Without, RenderLine;
  }

  /** An address that ends at the host, with no slash after it, is refused. */
  lemma {:induction false} NoPathIsBad(l: Line)
    requires LineOk(l)
    ensures ParseAddress(l.verb, l.protocol + "://" + Authority(l), l.version) == Bad
  {
    AuthorityWithout(l);
    hide Authority, Plain, StartsWith;
    var addr := l.protocol + "://" + Authority(l);
    StrtokCut([], l.protocol, ':', "//" + Authority(l), {':', '/'});
    assert [] + l.protocol + [':'] + ("//" + Authority(l)) == addr;
    StrtokLast("//", Authority(l), {'/'});
    hide Strtok, Without;
    assert |addr| == |l.protocol| + 3 + |Authority(l)|;
  }

  // ---- The headers -------------------------------------------------------------------------------------

  lemma {:induction false} SetNew(hs: Headers, key: Text, value: Text)
    requires forall i :: 0 <= i < |hs| ==> hs[i].0 != key
    ensures Set(hs, key, value) == hs + [(key, value)]
  {
    RemoveNone(hs, key);
  }

  lemma {:induction false} RemoveNone(hs: Headers, key: Text)
    requires forall i :: 0 <= i < |hs| ==> hs[i].0 != key
    ensures Remove(hs, key) == hs
  {
    if hs != [] {
      RemoveNone(hs[1..], key);
    }
  }

  lemma {:induction false} HeaderPlain(h: (Text, Text))
    requires HeaderOk(h)
    ensures Plain(RenderHeader(h))
  {
    hide Plain, Without;
    PlainEmpty();
    PlainJoin([], ' ', h.1);
    assert [] + [' '] + h.1 == " " + h.1;
    PlainJoin(h.0, ':', " " + h.1);
    assert h.0 + [':'] + (" " + h.1) == RenderHeader(h);
  }

  /** One character after the colon is skipped, whatever it is. */
  lemma {:induction false} AnyCharacter(key: Text, x: char, value: Text, more: Text, behind: Text)
    requires Without(key, {':'}) && NoCrlf(value)
    ensures ParseHeader(key + ":" + [x] + value + CRLF + more, behind) == Good((key, value))
  {
    hide FindCrlf, FindChar;
    var s := key + ":" + [x] + value + CRLF + more;
    FindCharAt(s, ':', |key|);
    var v := s[|key| + 2..];
    assert v == value + CRLF + more;
    FindCrlfAfter(value, more);
    assert s[..|key|] == key && v[..|value|] == value;
  }

  lemma {:induction false} HeaderBack(h: (Text, Text), more: Text, behind: Text)
    requires Without(h.0, {':'}) && NoCrlf(h.1)
    ensures ParseHeader(RenderHeader(h) + CRLF + more, behind) == Good(h)
  {
    AnyCharacter(h.0, ' ', h.1, more, behind);
    assert RenderHeader(h) == h.0 + ":" + [' '] + h.1;
  }

  lemma {:induction false} HeadersBack(hs: Headers, more: Headers, behind: Text)
    requires HeadersOk(hs + more)
    ensures ParseHeaders(RenderHeaders(more), hs, behind) == Good(hs + more)
    decreases |more|
  {
    if more == [] {
      assert hs + more == hs;
    } else {
      var h := more[0];
      assert (hs + more)[|hs|] == h;
      assert HeaderOk(h);
      var s := RenderHeader(h) + CRLF + RenderHeaders(more[1..]);
      HeaderPlain(h);
      HeaderBack(h, RenderHeaders(more[1..]), behind);
      FindCrlfAfter(RenderHeader(h), RenderHeaders(more[1..]));
      assert s[|RenderHeader(h)| + 2..] == RenderHeaders(more[1..]);
      assert |RenderHeader(h)| > 0;
      SetAppends(hs, more);
      hide RenderHeader, ParseHeader, HeaderOk, Plain, Set;
      assert hs + [h] + more[1..] == hs + more;
      HeadersBack(hs + [h], more[1..], behind);
    }
  }

  lemma {:induction false} SetAppends(hs: Headers, more: Headers)
    requires DistinctKeys(hs + more) && more != []
    ensures Set(hs, more[0].0, more[0].1) == hs + [more[0]]
  {
    var all := hs + more;
    forall i | 0 <= i < |hs| ensures hs[i].0 != more[0].0 {
      assert all[i] == hs[i] && all[|hs|] == more[0];
    }
    SetNew(hs, more[0].0, more[0].1);
  }

  // ---- The whole request -------------------------------------------------------------------------------

  lemma {:induction false} EndsWithEmptyLine(a: Text, hs: Headers)
    ensures HasEnd(a + CRLF + RenderHeaders(hs))
    decreases |hs|
  {
    var s := a + CRLF + RenderHeaders(hs);
    if hs == [] {
      assert CrlfAt(s, |a|) && CrlfAt(s, |a| + 2);
    } else {
      var a' := a + CRLF + RenderHeader(hs[0]);
      EndsWithEmptyLine(a', hs[1..]);
      hide HasEnd, RenderHeader;
      assert s == a' + CRLF + RenderHeaders(hs[1..]);
    }
  }

  predicate NoNul(h: (Text, Text)) { Without(h.0, {'\0'}) && Without(h.1, {'\0'}) }

  lemma {:induction false} HeadersNoNul(hs: Headers)
    requires forall i :: 0 <= i < |hs| ==> NoNul(hs[i])
    ensures Without(RenderHeaders(hs), {'\0'})
  {
    if hs != [] {
      HeadersNoNul(hs[1..]);
      assert NoNul(hs[0]);
      assert Without(RenderHeader(hs[0]), {'\0'});
      hide RenderHeader, NoNul;
    }
  }

  lemma {:induction false} RenderIsCString(r: Request)
    requires LineOk(r.line) && (forall i :: 0 <= i < |r.headers| ==> NoNul(r.headers[i]))
    ensures CString(Render(r)) == Render(r) && Behind(Render(r)) == []
  {
    hide RenderLine, RenderHeaders, LineOk, NoNul, NoCrlf, CString, Behind;
    LinePlain(r.line);
    HeadersNoNul(r.headers);
    WholeString(Render(r));
  }

  /** A request whose printed headers parse back parses back. */
  lemma {:induction false} TextBack(r: Request)
    requires LineOk(r.line) && ParseHeaders(RenderHeaders(r.headers), [], []) == Good(r.headers)
    ensures ParseText(Render(r), []) == Good(r)
  {
    hide RenderLine, RenderHeaders, LineOk, NoCrlf, HasEnd, ParseLine, ParseHeaders, FindCrlf, Without;
    var l, tail := RenderLine(r.line), RenderHeaders(r.headers);
    EndsWithEmptyLine(l, r.headers);
    LinePlain(r.line);
    LineBack(r.line);
    FindCrlfAfter(l, tail);
    var s := Render(r);
    assert s[..|l|] == l;
    assert s[|l| + 2..] == tail;
  }

  lemma {:induction false} RequestBack(r: Request)
    requires LineOk(r.line) && ParseHeaders(RenderHeaders(r.headers), [], []) == Good(r.headers)
    requires forall i :: 0 <= i < |r.headers| ==> NoNul(r.headers[i])
    ensures Parse(Render(r)) == if |Render(r)| <= MAX_REQ_LEN then Good(r) else Bad
  {
    hide RenderLine, RenderHeaders, LineOk, ParseText, CString, Behind, ParseHeaders, NoNul;
    RenderIsCString(r);
    TextBack(r);
    LineLong(r.line);
  }

  /** Parsing what was printed gives the request back, for every well-formed request, exactly when
      it is not too long for the parser. */
  lemma {:induction false} RoundTrip(r: Request)
    requires RequestOk(r)
    ensures Parse(Render(r)) == Good(r) <==> |Render(r)| <= 65535
  {
    hide RenderHeaders, Render, LineOk, ParseHeaders, Parse, Without;
    assert [] + r.headers == r.headers;
    HeadersBack([], r.headers, []);
    RequestBack(r);
  }

  lemma {:induction false} LineLong(l: Line)
    requires LineOk(l)
    ensures |RenderLine(l)| >= 4
  {
  }

  // ---- What parsing accepts ----------------------------------------------------------------------------

  lemma {:induction false} WithoutPart(s: Text, e: set<char>, i: nat, j: nat)
    requires Without(s, e) && i <= j <= |s|
    ensures Without(s[i..j], e)
  {
  }

  lemma {:induction false} TokenPlain(s: Text, d: set<char>, e: set<char>)
    requires Plain(s) && Without(s, e)
    ensures Strtok(s, d).Token? ==>
      var t := Strtok(s, d);
      && t.text != [] && Without(t.text, d) && Without(t.text, e) && Plain(t.text)
      && Plain(t.rest) && Without(t.rest, e)
  {
    hide Plain, Strtok, Without;
    StrtokSound(s, d);
    var t := Strtok(s, d);
    if t.Token? {
      var i, j := t.skipped, t.skipped + |t.text|;
      PlainPart(s, i, j);
      WithoutPart(s, e, i, j);
      if t.cut {
        PlainPart(s, j + 1, |s|);
        WithoutPart(s, e, j + 1, |s|);
        assert t.rest == s[j + 1..|s|];
      } else {
        PlainEmpty();
        WithoutEmpty(e);
      }
    }
  }

  lemma {:induction false} WithoutEmpty(e: set<char>)
    ensures Without([], e)
  {
  }

  lemma {:induction false} PathSound(rest: Text)
    requires Plain(rest)
    ensures ParsePath(rest).Good? ==>
      var p := ParsePath(rest).value;
      p != [] && p[0] == '/' && (|p| > 1 ==> p[1] != '/') && Without(p, {' '}) && Plain(p)
  {
    TokenPlain(rest, {' '}, {});
    var t := Strtok(rest, {' '});
    hide Strtok, Plain;
    PlainEmpty();
    PlainJoin([], '/', []);
    assert [] + ['/'] + [] == "/";
    if t.Token? {
      PlainJoin([], '/', t.text);
      assert [] + ['/'] + t.text == "/" + t.text;
    }
  }

  lemma {:induction false} AuthoritySound(host: Text)
    requires Plain(host) && Without(host, {'/', ' '})
    ensures ParseAuthority(host).Good? ==>
      var hp := ParseAuthority(host).value;
      && hp.0 != [] && Without(hp.0, {':', '/', ' '}) && Plain(hp.0)
      && (hp.1.Some? ==> hp.1.value != [] && Without(hp.1.value, {'/', ' '}) && Plain(hp.1.value))
  {
    TokenPlain(host, {':'}, {'/', ' '});
    var t := Strtok(host, {':'});
    if t.Token? {
      TokenPlain(t.rest, {'/'}, {'/', ' '});
    }
    hide Strtok, Plain;
  }

  lemma {:induction false} AddressSound(verb: Text, addr: Text, version: Text)
    requires verb != [] && Without(verb, {' '}) && Plain(verb) && StartsWith(version, "HTTP/") && Plain(version)
    requires Plain(addr) && Without(addr, {' '})
    ensures ParseAddress(verb, addr, version).Good? ==> LineOk(ParseAddress(verb, addr, version).value)
  {
    TokenPlain(addr, {':', '/'}, {' '});
    var p := Strtok(addr, {':', '/'});
    if p.Token? {
      TokenPlain(p.rest, {'/'}, {' '});
      var h := Strtok(p.rest, {'/'});
      if h.Token? {
        hide Strtok, Plain, ParsePath, ParseAuthority, StartsWith;
        PathSound(h.rest);
        AuthoritySound(h.text);
      }
    }
  }

  /** Every request line that is accepted is well formed, whatever the text was. */
  lemma {:induction false} LineSound(l: Text)
    requires Plain(l)
    ensures ParseLine(l).Good? ==> LineOk(ParseLine(l).value)
  {
    TokenPlain(l, {' '}, {});
    var v := Strtok(l, {' '});
    if v.Token? {
      TokenPlain(v.rest, {' '}, {});
      var a := Strtok(v.rest, {' '});
      if a.Token? && StartsWith(a.rest, "HTTP/") {
        hide Strtok, Plain, StartsWith, ParseAddress;
        AddressSound(v.text, a.text, a.rest);
      }
    }
  }

  lemma {:induction false} RemoveFrom(hs: Headers, key: Text, j: nat)
    requires j < |Remove(hs, key)|
    ensures Remove(hs, key)[j] in hs
  {
    if hs[0].0 != key && j > 0 {
      RemoveFrom(hs[1..], key, j - 1);
    }
  }

  lemma {:induction false} RemoveDistinct(hs: Headers, key: Text)
    requires DistinctKeys(hs)
    ensures DistinctKeys(Remove(hs, key)) && forall j :: 0 <= j < |Remove(hs, key)| ==> Remove(hs, key)[j].0 != key
  {
    if hs != [] && hs[0].0 != key {
      RemoveDistinct(hs[1..], key);
      var rest := Remove(hs[1..], key);
      forall j | 0 <= j < |rest| ensures rest[j].0 != hs[0].0 {
        RemoveFrom(hs[1..], key, j);
      }
    }
  }

  lemma {:induction false} RemoveSound(hs: Headers, key: Text)
    requires DistinctKeys(hs)
    ensures DistinctKeys(Remove(hs, key)) && (forall h :: h in Remove(hs, key) ==> h in hs && h.0 != key)
  {
    RemoveDistinct(hs, key);
    hide DistinctKeys;
    forall h | h in Remove(hs, key) ensures h in hs && h.0 != key {
      var j :| 0 <= j < |Remove(hs, key)| && Remove(hs, key)[j] == h;
      RemoveFrom(hs, key, j);
    }
  }

  lemma {:induction false} SetSound(hs: Headers, key: Text, value: Text)
    requires DistinctKeys(hs)
    ensures DistinctKeys(Set(hs, key, value)) && (forall h :: h in Set(hs, key, value) ==> h in hs || h == (key, value))
  {
    RemoveSound(hs, key);
    var rest := Remove(hs, key);
    hide Remove;
    forall j | 0 <= j < |rest| ensures rest[j].0 != key {
      assert rest[j] in rest;
    }
  }

  /** The laws of the map, for keys at most one entry each. */
  lemma {:induction false} GetAfterRemove(hs: Headers, key: Text, k: Text)
    requires DistinctKeys(hs)
    ensures Get(Remove(hs, key), k) == if k == key then None else Get(hs, k)
  {
    if hs != [] {
      GetAfterRemove(hs[1..], key, k);
      if hs[0].0 == key {
        if k == key {
          GetAbsent(hs[1..], key);
        }
      } else {
        assert ([hs[0]] + Remove(hs[1..], key))[1..] == Remove(hs[1..], key);
      }
    }
  }

  lemma {:induction false} GetAbsent(hs: Headers, key: Text)
    requires forall i :: 0 <= i < |hs| ==> hs[i].0 != key
    ensures Get(hs, key) == None
  {
    if hs != [] {
      GetAbsent(hs[1..], key);
    }
  }

  lemma {:induction false} GetPush(hs: Headers, h: (Text, Text), k: Text)
    ensures Get(hs + [h], k) == if Get(hs, k).Some? then Get(hs, k) else if h.0 == k then Some(h.1) else None
  {
    if hs == [] {
      assert [] + [h] == [h] && [h][1..] == [];
    } else {
      assert (hs + [h])[1..] == hs[1..] + [h];
      GetPush(hs[1..], h, k);
    }
  }

  lemma {:induction false} GetAfterSet(hs: Headers, key: Text, value: Text, k: Text)
    requires DistinctKeys(hs)
    ensures Get(Set(hs, key, value), k) == if k == key then Some(value) else Get(hs, k)
  {
    GetAfterRemove(hs, key, k);
    GetPush(Remove(hs, key), (key, value), k);
  }

  /** The key has no colon and does not start with a line end; the value has no line end. */
  predicate Cut(h: (Text, Text)) { Without(h.0, {':', '\0'}) && Plain(h.1) && !CrlfAt(h.0, 0) }

  lemma {:induction false} HeaderSound(s: Text, behind: Text)
    requires Without(s, {'\0'}) && Without(behind, {'\0'}) && !CrlfAt(s, 0)
    ensures ParseHeader(s, behind).Good? ==> Cut(ParseHeader(s, behind).value)
  {
    var c := FindChar(s, ':');
    hide FindChar;
    if c < |s| {
      var v := ValueText(s, c, behind);
      var e := FindCrlf(v);
      hide FindCrlf;
      forall i | 0 <= i < |v[..e]| ensures !CrlfAt(v[..e], i) {
        assert !CrlfAt(v, i);
      }
    }
  }

  /** The headers that come out have distinct keys without a colon, and plain values. */
  lemma {:induction false} HeadersSound(s: Text, hs: Headers, behind: Text)
    requires Without(s, {'\0'}) && Without(behind, {'\0'}) && DistinctKeys(hs) && (forall h :: h in hs ==> Cut(h))
    ensures ParseHeaders(s, hs, behind).Good? ==>
      var out := ParseHeaders(s, hs, behind).value; DistinctKeys(out) && forall h :: h in out ==> Cut(h)
    decreases |s|
  {
    hide ParseHeader, Cut, Set, DistinctKeys, FindCrlf;
    if s != [] && !CrlfAt(s, 0) {
      HeaderSound(s, behind);
      var p := ParseHeader(s, behind);
      if p.Good? {
        SetSound(hs, p.value.0, p.value.1);
        var n := FindCrlf(s);
        if n < |s| {
          HeadersSound(s[n + 2..], Set(hs, p.value.0, p.value.1), behind);
        }
      }
    }
  }

  lemma {:induction false} PartsSound(line: Text, rest: Text, behind: Text)
    requires Plain(line) && Without(rest, {'\0'}) && Without(behind, {'\0'}) && ParseParts(line, rest, behind).Good?
    ensures var r := ParseParts(line, rest, behind).value;
      LineOk(r.line) && DistinctKeys(r.headers) && forall h :: h in r.headers ==> Cut(h)
  {
    hide LineOk, Cut, ParseLine, ParseHeaders, Plain, Without;
    LineSound(line);
    HeadersSound(rest, [], behind);
  }

  /** Whatever text was accepted, the request has well-formed fields, distinct header keys without a
      colon and values without a line end. */
  lemma {:induction false} ParseSound(buf: Text)
    requires Parse(buf).Good?
    ensures var r := Parse(buf).value;
      LineOk(r.line) && DistinctKeys(r.headers) && forall h :: h in r.headers ==> Cut(h)
  {
    hide HasEnd, LineOk, Cut, ParseParts, Plain, DistinctKeys, FindCrlf, FindChar, Behind;
    BehindWithout(buf);
    var s := CString(buf);
    var n := FindCrlf(s);
    LinePart(s, n);
    PartsSound(s[..n], s[n + 2..], Behind(buf));
  }

  lemma {:induction false} LinePart(s: Text, n: nat)
    requires n <= |s| && Without(s, {'\0'}) && (forall i :: 0 <= i < n ==> !CrlfAt(s, i))
    ensures Plain(s[..n])
  {
    forall i | 0 <= i < |s[..n]| ensures !CrlfAt(s[..n], i) {
      assert !CrlfAt(s, i);
    }
  }

  // ---- What a parse leaves in its object -----------------------------------------------------------------

  lemma {:induction false} UntilGood(s: Text, hs: Headers, behind: Text)
    ensures ParseHeaders(s, hs, behind).Good? ==> ParseHeaders(s, hs, behind).value == HeadersUntil(s, hs, behind)
    decreases |s|
  {
    hide ParseHeader, Set, FindCrlf;
    if s != [] && !CrlfAt(s, 0) {
      var p := ParseHeader(s, behind);
      if p.Good? {
        var n := FindCrlf(s);
        if n < |s| {
          UntilGood(s[n + 2..], Set(hs, p.value.0, p.value.1), behind);
        }
      }
    }
  }

  lemma {:induction false} UntilDistinct(s: Text, hs: Headers, behind: Text)
    requires DistinctKeys(hs)
    ensures DistinctKeys(HeadersUntil(s, hs, behind))
    decreases |s|
  {
    hide ParseHeader, Set, FindCrlf, DistinctKeys;
    if s != [] && !CrlfAt(s, 0) {
      var p := ParseHeader(s, behind);
      if p.Good? {
        SetSound(hs, p.value.0, p.value.1);
        var n := FindCrlf(s);
        if n < |s| {
          UntilDistinct(s[n + 2..], Set(hs, p.value.0, p.value.1), behind);
        }
      }
    }
  }

  /** On a new object the result is that of `Parse`. */
  lemma {:induction false} EffectIsParse(buf: Text)
    ensures ParseEffect(buf, []).result == Parse(buf)
  {
    hide CString, Behind, FindCrlf, HasEnd, ParseLine, ParseHeaders, HeadersUntil;
    var s := CString(buf);
    var n := FindCrlf(s);
    if n < |s| {
      UntilGood(s[n + 2..], [], Behind(buf));
    }
  }
}
