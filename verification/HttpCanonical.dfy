/** Which accepted texts are printed back byte for byte. */
module HttpCanonical {
  import opened Words
  import opened CText
  import opened HttpSpec
  import opened HttpRoundTrip
  import opened HttpNormal

  // ---- The request line ------------------------------------------------------------------------------------

  /** A protocol, `://`, a host that starts neither with a slash nor with a colon, and no colon
      without a port. */
  predicate RegularAddress(addr: Text) {
    var k := Span(addr, {':', '/'});
    && 0 < k && k + 3 < |addr| && addr[k] == ':' && addr[k + 1] == '/' && addr[k + 2] == '/'
    && addr[k + 3] != '/' && addr[k + 3] != ':'
    && (var tail := addr[k + 3..];
        var host := tail[..FindChar(tail, '/')];
        FindChar(host, ':') + 1 != |host|)
  }

  /** No space at the start, one space before the address. */
  predicate Regular(l: Text) {
    var i := FindChar(l, ' ');
    && 0 < i && i + 1 < |l| && l[i + 1] != ' '
    && (var a := l[i + 1..]; RegularAddress(a[..FindChar(a, ' ')]))
  }

  lemma {:induction false} AuthorityExact(host: Text)
    requires host != [] && host[0] != ':' && Without(host, {'/'}) && FindChar(host, ':') + 1 != |host|
    ensures var x := FindChar(host, ':');
      ParseAuthority(host) ==
      if x == |host| then Good((host, None)) else Good((host[..x], Some(host[x + 1..])))
  {
    var x := FindChar(host, ':');
    hide FindChar;
    if x == |host| {
      StrtokLast([], host, {':'});
      assert [] + host == host;
      assert Strtok([], {'/'}) == NoToken;
    } else {
      var p := host[x + 1..];
      StrtokCut([], host[..x], ':', p, {':'});
      assert [] + host[..x] + [':'] + p == host;
      StrtokLast([], p, {'/'});
      assert [] + p == p;
      hide Strtok;
    }
  }

  lemma {:induction false} PathExact(rest: Text)
    requires Without(rest, {' '}) && ParsePath(rest).Good?
    ensures ParsePath(rest).value == "/" + rest
  {
    if rest == [] {
      assert Strtok(rest, {' '}) == NoToken;
    } else {
      StrtokLast([], rest, {' '});
      assert [] + rest == rest;
    }
  }

  lemma {:induction false} SchemeSplit(addr: Text, k: nat)
    requires k + 3 <= |addr| && addr[k] == ':' && addr[k + 1] == '/' && addr[k + 2] == '/'
    ensures addr == addr[..k] + ("://" + addr[k + 3..]) && addr[k + 1..] == "//" + addr[k + 3..]
  {
  }

  lemma {:induction false} SplitAt(s: Text, i: nat)
    requires i < |s|
    ensures s == s[..i] + [s[i]] + s[i + 1..]
  {
  }

  lemma {:induction false} SchemeCut(addr: Text)
    requires RegularAddress(addr)
    ensures var k := Span(addr, {':', '/'}); Strtok(addr, {':', '/'}) == Token(0, addr[..k], "//" + addr[k + 3..], true)
  {
    hide Span, FindChar, Strtok;
    var k := Span(addr, {':', '/'});
    SchemeSplit(addr, k);
    SplitAt(addr, k);
    StrtokCut([], addr[..k], ':', "//" + addr[k + 3..], {':', '/'});
    assert [] + addr[..k] == addr[..k];
  }

  lemma {:induction false} HostCut(tail: Text)
    requires tail != [] && tail[0] != '/'
    ensures var m := FindChar(tail, '/');
      Strtok("//" + tail, {'/'}) == Token(2, tail[..m], if m < |tail| then tail[m + 1..] else [], m < |tail|)
  {
    hide FindChar, Strtok;
    var m := FindChar(tail, '/');
    if m < |tail| {
      StrtokCut("//", tail[..m], '/', tail[m + 1..], {'/'});
      SplitAt(tail, m);
      Assoc4("//", tail[..m], ['/'], tail[m + 1..]);
    } else {
      StrtokLast("//", tail, {'/'});
      assert tail[..m] == tail;
    }
  }

  /** The part of `AddressBackRegular` after the two cuts. */
  lemma {:induction false} RestOfAddress(verb: Text, addr: Text, version: Text)
    requires RegularAddress(addr) && Without(addr, {' '}) && ParseAddress(verb, addr, version).Good?
    ensures var k := Span(addr, {':', '/'});
      var tail := addr[k + 3..];
      var m := FindChar(tail, '/');
      var line := ParseAddress(verb, addr, version).value;
      && m < |tail| && line.verb == verb && line.version == version && line.protocol == addr[..k]
      && line.path == "/" + tail[m + 1..] && ParseAuthority(tail[..m]) == Good((line.host, line.port))
  {
    hide Span, FindChar, Strtok, ParseAuthority, ParsePath, ParseAddress;
    SchemeCut(addr);
    var k := Span(addr, {':', '/'});
    var tail := addr[k + 3..];
    HostCut(tail);
    var m := FindChar(tail, '/');
    ParseCut(verb, addr, version, k, tail, m);
    PathExact(tail[m + 1..]);
  }

  /** `ParseAddress` where both cuts are known. */
  lemma {:induction false} ParseCut(verb: Text, addr: Text, version: Text, k: nat, tail: Text, m: nat)
    requires ParseAddress(verb, addr, version).Good? && k + 3 + |tail| == |addr| && m <= |tail|
    requires Strtok(addr, {':', '/'}) == Token(0, addr[..k], "//" + tail, true)
    requires Strtok("//" + tail, {'/'}) == Token(2, tail[..m], if m < |tail| then tail[m + 1..] else [], m < |tail|)
    ensures var line := ParseAddress(verb, addr, version).value;
      && m < |tail| && line.verb == verb && line.version == version && line.protocol == addr[..k]
      && ParsePath(tail[m + 1..]) == Good(line.path) && ParseAuthority(tail[..m]) == Good((line.host, line.port))
  {
    hide Strtok, ParseAuthority, ParsePath;
    assert |addr[..k]| == k && |tail[..m]| == m;
  }

  lemma {:induction false} AuthorityIs(line: Line, host: Text)
    requires host != [] && host[0] != ':' && Without(host, {'/'}) && FindChar(host, ':') + 1 != |host|
    requires ParseAuthority(host) == Good((line.host, line.port))
    ensures Authority(line) == host
  {
    AuthorityExact(host);
    hide ParseAuthority;
    var x := FindChar(host, ':');
    hide FindChar;
    if x < |host| {
      SplitAt(host, x);
      Assoc(host[..x], ":", host[x + 1..]);
    }
  }

  lemma {:induction false} AddressBackRegular(verb: Text, addr: Text, version: Text)
    requires RegularAddress(addr) && Without(addr, {' '}) && ParseAddress(verb, addr, version).Good?
    ensures var line := ParseAddress(verb, addr, version).value;
      Address(line) == addr && line.verb == verb && line.version == version
  {
    hide Span, ParseAuthority, ParseAddress, Authority, FindChar;
    RestOfAddress(verb, addr, version);
    var line := ParseAddress(verb, addr, version).value;
    var k := Span(addr, {':', '/'});
    var tail := addr[k + 3..];
    var m := FindChar(tail, '/');
    AuthorityIs(line, tail[..m]);
    SplitAt(tail, m);
    SchemeSplit(addr, k);
    JoinAddress(addr[..k], tail[..m], tail[m + 1..]);
  }

  lemma {:induction false} JoinAddress(p: Text, h: Text, t: Text)
    ensures p + "://" + h + ("/" + t) == p + ("://" + (h + ['/'] + t))
  {
  }

  lemma {:induction false} VerbCut(l: Text, d: set<char>)
    requires d == {' '} && 0 < FindChar(l, ' ') < |l|
    ensures Strtok(l, d) == Token(0, l[..FindChar(l, ' ')], l[FindChar(l, ' ') + 1..], true)
  {
    hide FindChar, Strtok;
    var i := FindChar(l, ' ');
    SplitAt(l, i);
    StrtokCut([], l[..i], ' ', l[i + 1..], d);
    assert [] + l[..i] == l[..i];
  }

  lemma {:induction false} NoCut(a: Text)
    requires a != [] && FindChar(a, ' ') == |a|
    ensures Strtok(a, {' '}) == Token(0, a, [], false)
  {
    StrtokLast([], a, {' '});
    assert [] + a == a;
  }

  lemma {:induction false} JoinLine(v: Text, a: Text, w: Text)
    ensures v + " " + a + " " + w == v + [' '] + (a + [' '] + w)
  {
  }

  lemma {:induction false} RegularBack(l: Text)
    requires Regular(l) && ParseLine(l).Good?
    ensures RenderLine(ParseLine(l).value) == l
  {
    hide FindChar, ParseAddress, RegularAddress, Strtok, Address;
    var i := FindChar(l, ' ');
    var a := l[i + 1..];
    var j := FindChar(a, ' ');
    VerbCut(l, {' '});
    assert 0 < j;
    if j == |a| {
      NoCut(a);
    } else {
      VerbCut(a, {' '});
      AddressBackRegular(l[..i], a[..j], a[j + 1..]);
      SplitAt(l, i);
      SplitAt(a, j);
      JoinLine(l[..i], a[..j], a[j + 1..]);
    }
  }

  // ---- A printed line is regular ------------------------------------------------------------------------------

  lemma {:induction false} PrintedAddress(l: Line)
    requires LineOk(l)
    ensures RegularAddress(Address(l))
  {
    hide FindChar, Span, Plain, StartsWith, RegularAddress;
    var a := Authority(l);
    AuthorityStarts(l);
    AuthorityColon(l);
    hide Authority;
    assert l.path == ['/'] + l.path[1..];
    Assoc(a, ['/'], l.path[1..]);
    TailCuts(a, l.path[1..]);
    SchemeShape(l.protocol, a + l.path);
    Assoc(l.protocol + "://", a, l.path);
    Assoc(l.protocol, "://", a + l.path);
    RegularIs(l.protocol, a + l.path);
  }

  lemma {:induction false} TailCuts(a: Text, t: Text)
    requires Without(a, {'/'})
    ensures FindChar(a + ['/'] + t, '/') == |a| && (a + ['/'] + t)[..|a|] == a
  {
    FindCharAt(a + ['/'] + t, '/', |a|);
  }

  lemma {:induction false} SchemeShape(p: Text, t: Text)
    requires Without(p, {':', '/'})
    ensures var s := p + ("://" + t);
      && Span(s, {':', '/'}) == |p| && |s| == |p| + 3 + |t| && s[|p| + 3..] == t
      && s[|p|] == ':' && s[|p| + 1] == '/' && s[|p| + 2] == '/'
  {
    SpanAt(p + ("://" + t), {':', '/'}, |p|);
  }

  lemma {:induction false} RegularIs(p: Text, t: Text)
    requires p != [] && Without(p, {':', '/'}) && t != [] && t[0] != '/' && t[0] != ':'
    requires var host := t[..FindChar(t, '/')]; FindChar(host, ':') + 1 != |host|
    ensures RegularAddress(p + ("://" + t))
  {
    hide FindChar, Span;
    SchemeShape(p, t);
    var s := p + ("://" + t);
    assert s[|p| + 3] == t[0];
  }

  lemma {:induction false} AuthorityStarts(l: Line)
    requires LineOk(l)
    ensures var a := Authority(l); a != [] && Without(a, {'/'}) && a[0] != ':'
  {
    AuthorityWithout(l);
    hide Plain, StartsWith;
    assert Authority(l)[0] == l.host[0];
  }

  lemma {:induction false} AuthorityColon(l: Line)
    requires LineOk(l)
    ensures FindChar(Authority(l), ':') + 1 != |Authority(l)|
  {
    if l.port.Some? {
      FindCharAt(Authority(l), ':', |l.host|);
    } else {
      assert Authority(l) == l.host;
      FindCharAt(Authority(l), ':', |l.host|);
    }
  }

  lemma {:induction false} PrintedRegular(l: Line)
    requires LineOk(l)
    ensures Regular(RenderLine(l))
  {
    hide Address, RegularAddress, Plain, StartsWith, FindChar;
    AddressWithout(l);
    AddressPlain(l);
    PrintedAddress(l);
    var s, i := RenderLine(l), |l.verb|;
    var a := Address(l) + " " + l.version;
    assert s == l.verb + (" " + a);
    FindCharAt(s, ' ', i);
    assert s[i + 1..] == a;
    FindCharAt(a, ' ', |Address(l)|);
    assert a[..|Address(l)|] == Address(l);
  }

  /** A request line that is accepted is printed back exactly when it is regular. */
  lemma {:induction false} LineExact(l: Text)
    requires Plain(l) && ParseLine(l).Good?
    ensures RenderLine(ParseLine(l).value) == l <==> Regular(l)
  {
    hide ParseLine, RenderLine, Regular, LineOk;
    LineSound(l);
    if Regular(l) {
      RegularBack(l);
    } else {
      PrintedRegular(ParseLine(l).value);
    }
  }

  // ---- The headers ---------------------------------------------------------------------------------------------

  /** The text cut at colons followed by a space and at the line ends after them, to the empty line
      that ends it; None where it is not made so. */
  function Split(s: Text): Option<Headers>
    decreases |s|
  {
    if CrlfAt(s, 0) then (if |s| == 2 then Some([]) else None) else
    var c := FindChar(s, ':');
    if c + 2 > |s| || s[c + 1] != ' ' then None else
    var v := s[c + 2..];
    var e := FindCrlf(v);
    if e == |v| then None else
    match Split(v[e + 2..])
    case None => None
    case Some(hs) => Some([(s[..c], v[..e])] + hs)
  }

  /** Such a text with distinct keys, where a key that runs over line ends has its later lines as keys
      further on, or ends the headers. */
  predicate RegularHeaders(s: Text) {
    var hs := Split(s);
    hs.Some? && DistinctKeys(hs.value) && Final(hs.value, true)
  }

  /** One cut: the header and the text after it. */
  lemma {:induction false} OneCut(s: Text, c: nat, e: nat)
    requires Without(s, {'\0'}) && !CrlfAt(s, 0) && c + 2 <= |s| && FindChar(s, ':') == c && s[c + 1] == ' '
    requires FindCrlf(s[c + 2..]) == e && e < |s| - c - 2
    ensures var v := s[c + 2..];
      var h, rest := (s[..c], v[..e]), v[e + 2..];
      Cut(h) && Without(rest, {'\0'}) && s == RenderHeader(h) + CRLF + rest
  {
    hide FindChar, FindCrlf;
    var v := s[c + 2..];
    forall i | 0 <= i < |v[..e]| ensures !CrlfAt(v[..e], i) {
      assert !CrlfAt(v, i);
    }
    hide NoCrlf;
    assert v == v[..e] + CRLF + v[e + 2..];
    assert s == s[..c] + ": " + v;
    JoinHeader(s[..c], v[..e], v[e + 2..]);
  }

  /** The first cut of a text that can be cut. */
  lemma {:induction false} SplitUnfold(s: Text)
    requires !CrlfAt(s, 0)
    ensures var c := FindChar(s, ':');
      if c + 2 > |s| || s[c + 1] != ' ' then Split(s) == None
      else
        var v := s[c + 2..];
        var e := FindCrlf(v);
        if e == |v| || Split(v[e + 2..]) == None then Split(s) == None
        else Split(s) == Some([(s[..c], v[..e])] + Split(v[e + 2..]).value)
  {
    hide FindChar, FindCrlf;
  }

  lemma {:induction false} SplitHead(s: Text) returns (rest: Text)
    requires Without(s, {'\0'}) && !CrlfAt(s, 0) && Split(s).Some?
    ensures Split(s).value != [] && |rest| < |s| && Without(rest, {'\0'}) && Cut(Split(s).value[0])
    ensures s == RenderHeader(Split(s).value[0]) + CRLF + rest && Split(rest) == Some(Split(s).value[1..])
  {
    hide FindChar, FindCrlf, Cut, RenderHeader, Split, Without;
    SplitUnfold(s);
    var c := FindChar(s, ':');
    var v := s[c + 2..];
    var e := FindCrlf(v);
    rest := v[e + 2..];
    OneCut(s, c, e);
    assert ([(s[..c], v[..e])] + Split(rest).value)[1..] == Split(rest).value;
  }

  lemma {:induction false} JoinHeader(k: Text, v: Text, rest: Text)
    ensures k + ": " + (v + CRLF + rest) == k + ": " + v + CRLF + rest
  {
  }

  /** What is cut so is printed back. */
  lemma {:induction false} SplitPrints(s: Text)
    requires Without(s, {'\0'}) && Split(s).Some?
    ensures RenderHeaders(Split(s).value) == s
    ensures forall i :: 0 <= i < |Split(s).value| ==> Cut(Split(s).value[i])
    decreases |s|
  {
    if CrlfAt(s, 0) {
      assert s == CRLF;
    } else {
      hide Split, Cut, RenderHeader;
      var rest := SplitHead(s);
      var hs := Split(s).value;
      SplitPrints(rest);
      assert hs == [hs[0]] + hs[1..];
    }
  }

  lemma {:induction false} SplitCons(h: (Text, Text), rest: Text, hs: Headers)
    requires Cut(h) && Split(rest) == Some(hs)
    ensures Split(RenderHeader(h) + CRLF + rest) == Some([h] + hs)
  {
    hide Cut, RenderHeader, AfterColon, ParseHeader, FindChar, FindCrlf, Split;
    PrintedHeader(h, rest, []);
    PrintedCuts(h, rest);
    SplitUnfold(RenderHeader(h) + CRLF + rest);
  }

  /** What is printed is cut so. */
  lemma {:induction false} PrintSplits(hs: Headers)
    requires forall i :: 0 <= i < |hs| ==> Cut(hs[i])
    ensures Split(RenderHeaders(hs)) == Some(hs)
    decreases |hs|
  {
    hide Cut, RenderHeader, Split;
    if hs == [] {
      SplitEnd();
    } else {
      PrintSplits(hs[1..]);
      SplitCons(hs[0], RenderHeaders(hs[1..]), hs[1..]);
      assert hs == [hs[0]] + hs[1..];
    }
  }

  lemma {:induction false} SplitEnd()
    ensures Split(CRLF) == Some([])
  {
    assert CrlfAt(CRLF, 0) && |CRLF| == 2;
  }

  lemma {:induction false} PrintedCuts(h: (Text, Text), rest: Text)
    requires Cut(h)
    ensures var s := RenderHeader(h) + CRLF + rest;
      var c := FindChar(s, ':');
      && c == |h.0| && c + 2 <= |s| && s[c + 1] == ' ' && s[..c] == h.0
      && (var v := s[c + 2..]; FindCrlf(v) == |h.1| && |h.1| + 2 <= |v| && v[..|h.1|] == h.1 && v[|h.1| + 2..] == rest)
  {
    hide FindChar, FindCrlf;
    var s := RenderHeader(h) + CRLF + rest;
    FindCharAt(s, ':', |h.0|);
    var v := s[|h.0| + 2..];
    assert v == h.1 + CRLF + rest;
    FindCrlfAfter(h.1, rest);
  }

  /** Headers that are accepted are printed back exactly when they are regular. */
  lemma {:induction false} HeadersExact(s: Text, behind: Text)
    requires Without(s, {'\0'}) && Without(behind, {'\0'}) && ParseHeaders(s, [], behind).Good?
    ensures RenderHeaders(ParseHeaders(s, [], behind).value) == s <==> RegularHeaders(s)
  {
    hide ParseHeaders, RenderHeaders, Cut, Split, SetChains, Drop, Final, DistinctKeys;
    var r := ParseHeaders(s, [], behind).value;
    EmptyList();
    ParseFinal(s, [], behind);
    HeadersSound(s, [], behind);
    forall i | 0 <= i < |r| ensures Cut(r[i]) {
      assert r[i] in r;
    }
    PrintSplits(r);
    if RegularHeaders(s) {
      var hs := Split(s).value;
      SplitPrints(s);
      PrintedSets(hs, [], behind);
      FinalSets([], hs);
      DropEmpty(Keys(hs));
      assert [] + hs == hs;
    }
  }

  lemma {:induction false} EmptyList()
    ensures DistinctKeys([]) && Final([], false)
  {
  }

  lemma {:induction false} DropEmpty(ks: set<Text>)
    ensures Drop([], ks) == []
  {
  }

  lemma {:induction false} PlainKeysFinal(hs: Headers)
    requires forall i :: 0 <= i < |hs| ==> NoCrlf(hs[i].0)
    ensures Final(hs, true)
  {
    if hs != [] {
      ChainSingle(hs[0], []);
      PlainKeysFinal(hs[1..]);
      assert [hs[0]][1..] == [];
      assert Keys([]) == {};
    }
  }

  /** Where no key has a line end in it, regular means: a space after each colon, distinct keys, and
      nothing after the empty line. */
  lemma {:induction false} PlainRegular(s: Text)
    requires Split(s).Some? && forall i :: 0 <= i < |Split(s).value| ==> NoCrlf(Split(s).value[i].0)
    ensures RegularHeaders(s) <==> DistinctKeys(Split(s).value)
  {
    hide Split, NoCrlf, DistinctKeys, Final;
    PlainKeysFinal(Split(s).value);
  }

  // ---- The whole request -----------------------------------------------------------------------------------------

  /** A text that is printed back: no NUL, a regular line and regular headers. */
  predicate Canonical(buf: Text) {
    var n := FindCrlf(buf);
    Without(buf, {'\0'}) && n < |buf| && Regular(buf[..n]) && RegularHeaders(buf[n + 2..])
  }

  lemma {:induction false} PartsOf(s: Text, behind: Text)
    requires ParseText(s, behind).Good? && Without(s, {'\0'})
    ensures var n := FindCrlf(s);
      && n + 2 <= |s| && s == s[..n] + CRLF + s[n + 2..] && Plain(s[..n]) && Without(s[n + 2..], {'\0'})
      && ParseLine(s[..n]).Good? && ParseHeaders(s[n + 2..], [], behind).Good?
      && ParseText(s, behind).value == Request(ParseLine(s[..n]).value, ParseHeaders(s[n + 2..], [], behind).value)
  {
    hide FindCrlf, HasEnd, ParseLine, ParseHeaders;
    LinePart(s, FindCrlf(s));
  }

  /** Two texts with the first line end in the same place. */
  lemma {:induction false} SameParts(a: Text, x: Text, b: Text, y: Text)
    requires NoCrlf(a) && NoCrlf(b)
    ensures a + CRLF + x == b + CRLF + y <==> a == b && x == y
  {
    var s, t := a + CRLF + x, b + CRLF + y;
    FindCrlfAfter(a, x);
    FindCrlfAfter(b, y);
    if s == t {
      assert s[..|a|] == a && t[..|b|] == b;
      assert s[|a| + 2..] == x && t[|b| + 2..] == y;
    }
  }

  /** Whatever text was accepted: it is printed back byte for byte if and only if it is canonical. */
  lemma {:induction false} PrintExact(buf: Text)
    requires Parse(buf).Good?
    ensures Render(Parse(buf).value) == buf <==> Canonical(buf)
  {
    hide ParseText, FindCrlf, CString, Behind, Regular, RegularHeaders, ParseLine, ParseHeaders, RenderLine, RenderHeaders, Without;
    hide NoCrlf, LineOk, HasEnd;
    if Without(buf, {'\0'}) {
      WholeString(buf);
      PartsOf(buf, []);
      var n := FindCrlf(buf);
      var l, rest := buf[..n], buf[n + 2..];
      LineExact(l);
      WithoutEmpty({'\0'});
      HeadersExact(rest, []);
      LineSound(l);
      LinePlain(ParseLine(l).value);
      SameParts(RenderLine(ParseLine(l).value), RenderHeaders(ParseHeaders(rest, [], []).value), l, rest);
    } else {
      PrintedNoNul(buf);
    }
  }

  lemma {:induction false} PrintedNoNul(buf: Text)
    requires Parse(buf).Good?
    ensures Without(Render(Parse(buf).value), {'\0'})
  {
    hide Parse, ParseHeaders, RenderHeaders, NoNul, LineOk, Cut, DistinctKeys, Without, RenderLine;
    ParseSound(buf);
    var rest := HeaderPart(buf);
    HeadersAgain(rest, Behind(buf));
    NoNulRender(Parse(buf).value);
  }

  lemma {:induction false} NoNulRender(r: Request)
    requires LineOk(r.line) && (forall i :: 0 <= i < |r.headers| ==> NoNul(r.headers[i]))
    ensures Without(Render(r), {'\0'})
  {
    hide RenderLine, RenderHeaders, LineOk, NoNul, NoCrlf;
    LinePlain(r.line);
    HeadersNoNul(r.headers);
  }
}
