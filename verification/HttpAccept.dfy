/** Which requests the parser accepts, and what it reads off them, on the bytes. */
module HttpAccept {
  import opened Words
  import opened CText
  import opened HttpSpec
  import opened HttpRoundTrip
  import opened HttpNormal
  import opened HttpHeaders
  import opened HttpBounds

  // ---- The address -------------------------------------------------------------------------------------

  const DELIMS := {':', '/'}

  /**
   * The protocol is `a[i..j]` and the authority `a[k..m]`. Only slashes stand between the delimiter
   * after the protocol and the authority, and no second slash follows the one after it. The authority is not as long as what the
   * length test takes for the rest of the address: the part from three places after the length of
   * the protocol on, which ends at `j` where it starts before `j`.
   */
  predicate Cut(a: Text, i: int, j: int, k: int, m: int) {
    && FirstPiece(a, DELIMS, i, j) && j < k < m <= |a|
    && Run(a, {'/'}, j + 1, k) && Piece(a, {'/'}, k, m) && (m < |a| ==> a[m] == '/')
  }

  /** Only colons stand before the host; a port is all that follows the colon after it. */
  predicate HostAt(h: Text, r: Line, x: int, y: int) {
    && FirstPiece(h, {':'}, x, y) && r.host == h[x..y]
    && r.port == if y + 1 < |h| then Some(h[y + 1..]) else None
  }

  predicate AddressAt(a: Text, r: Line, i: int, j: int, k: int, m: int, x: int, y: int) {
    && Cut(a, i, j, k, m) && (m + 1 < |a| ==> a[m + 1] != '/')
    && m - k != (if i >= 3 then i - 3 else |a| - (j - i) - 3)
    && r.protocol == a[i..j] && HostAt(a[k..m], r, x, y)
    && r.path == "/" + (if m < |a| then a[m + 1..] else "")
  }

  ghost predicate AddressReads(a: Text, r: Line) { exists i, j, k, m, x, y :: AddressAt(a, r, i, j, k, m, x, y) }

  lemma {:induction false} PathValue(rest: Text)
    requires Without(rest, {' '})
    ensures ParsePath(rest) == if rest != [] && rest[0] == '/' then Bad else Good("/" + rest)
  {
    if rest == [] {
      assert Strtok(rest, {' '}) == NoToken;
      assert "/" + rest == "/";
    } else {
      StrtokLast([], rest, {' '});
      assert [] + rest == rest;
    }
  }

  lemma {:induction false} PortValue(rest: Text)
    requires Without(rest, {'/'})
    ensures Strtok(rest, {'/'}) == if rest == [] then NoToken else Token(0, rest, [], false)
  {
    if rest != [] {
      StrtokLast([], rest, {'/'});
      assert [] + rest == rest;
    }
  }

  lemma {:induction false} AuthorityValue(host: Text, x: nat, y: nat)
    requires FirstPiece(host, {':'}, x, y) && Without(host, {'/'})
    ensures ParseAuthority(host) == Good((host[x..y], if y + 1 < |host| then Some(host[y + 1..]) else None))
  {
    TokenIs(host, {':'}, x, y);
    PortValue(if y < |host| then host[y + 1..] else []);
    hide Strtok, FirstPiece;
  }

  lemma {:induction false} AuthorityGood(host: Text) returns (x: nat, y: nat)
    requires ParseAuthority(host).Good?
    ensures FirstPiece(host, {':'}, x, y)
  {
    hide Strtok, FirstPiece;
    x, y := TokenAt(host, {':'});
  }

  /** `ParseAddress` at the two tokens. */
  lemma {:induction false} AddressPieces(verb: Text, a: Text, version: Text, r: Line)
    requires Strtok(a, DELIMS).Token? && Strtok(Strtok(a, DELIMS).rest, {'/'}).Token?
    ensures var p := Strtok(a, DELIMS);
      var h := Strtok(p.rest, {'/'});
      ParseAddress(verb, a, version) == Good(r) <==>
      && |h.text| != RemainderLen(a, version, p.skipped, |p.text|)
      && ParsePath(h.rest) == Good(r.path) && ParseAuthority(h.text) == Good((r.host, r.port))
      && r.verb == verb && r.protocol == p.text && r.version == version
  {
    hide Strtok, ParsePath, ParseAuthority, RemainderLen;
  }

  /** The length test in places of the address. */
  lemma {:induction false} LengthTest(a: Text, version: Text, i: nat, j: nat, k: nat, m: nat)
    requires i < j < k < m <= |a| && |version| > 1
    ensures m - k != RemainderLen(a, version, i, j - i) <==> m - k != if i >= 3 then i - 3 else |a| - (j - i) - 3
  {
  }

  lemma {:induction false} SecondAt(a: Text, i: nat, j: nat, k: nat, m: nat)
    requires Cut(a, i, j, k, m)
    ensures Strtok(a[j + 1..], {'/'}) == Token(k - j - 1, a[k..m], if m < |a| then a[m + 1..] else [], m < |a|)
  {
    hide Strtok, Run, Piece;
    var t, n := a[j + 1..], m - j - 1;
    SecondPiece(a, {'/'}, j, k - j - 1, n);
    TokenIs(t, {'/'}, k - j - 1, n);
    SliceAfter(a, j + 1, k - j - 1, n);
    if m < |a| {
      SliceAfter(a, j + 1, n + 1, n + 1);
    }
  }

  /** The four parts of an address whose cuts are known. */
  predicate PartsAre(a: Text, r: Line, i: nat, j: nat, k: nat, m: nat)
    requires Cut(a, i, j, k, m)
  {
    && r.protocol == a[i..j] && ParseAuthority(a[k..m]) == Good((r.host, r.port))
    && ParsePath(if m < |a| then a[m + 1..] else []) == Good(r.path)
    && m - k != if i >= 3 then i - 3 else |a| - (j - i) - 3
  }

  lemma {:induction false} AddressCuts(verb: Text, a: Text, version: Text, r: Line, i: nat, j: nat, k: nat, m: nat)
    requires Cut(a, i, j, k, m) && |version| > 1
    ensures ParseAddress(verb, a, version) == Good(r) <==> PartsAre(a, r, i, j, k, m) && r.verb == verb && r.version == version
  {
    hide Strtok, ParseAddress, ParsePath, ParseAuthority, RemainderLen, Run, Piece;
    TokenIs(a, DELIMS, i, j);
    SecondAt(a, i, j, k, m);
    AddressPieces(verb, a, version, r);
    LengthTest(a, version, i, j, k, m);
  }

  lemma {:induction false} CutWithout(a: Text, i: nat, j: nat, k: nat, m: nat)
    requires Cut(a, i, j, k, m) && Without(a, {' '})
    ensures Without(a[k..m], {'/'}) && Without(if m < |a| then a[m + 1..] else [], {' '})
  {
  }

  lemma {:induction false} HostExact(h: Text, r: Line)
    requires Without(h, {'/'})
    ensures ParseAuthority(h) == Good((r.host, r.port)) <==> exists x, y :: HostAt(h, r, x, y)
  {
    hide ParseAuthority, FirstPiece;
    if ParseAuthority(h) == Good((r.host, r.port)) {
      var x, y := AuthorityGood(h);
      FirstIn(h, x, y);
      AuthorityValue(h, x, y);
      assert HostAt(h, r, x, y);
    }
    if exists x, y :: HostAt(h, r, x, y) {
      var x, y :| HostAt(h, r, x, y);
      FirstIn(h, x, y);
      AuthorityValue(h, x, y);
    }
  }

  lemma {:induction false} FirstIn(h: Text, x: int, y: int)
    requires FirstPiece(h, {':'}, x, y)
    ensures 0 <= x < y <= |h|
  {
  }

  lemma {:induction false} PartsAreAt(a: Text, r: Line, i: nat, j: nat, k: nat, m: nat)
    requires Cut(a, i, j, k, m) && Without(a, {' '})
    ensures PartsAre(a, r, i, j, k, m) <==> exists x, y :: AddressAt(a, r, i, j, k, m, x, y)
  {
    CutWithout(a, i, j, k, m);
    hide Run, Piece, Without, ParseAuthority, ParsePath, HostAt, FirstPiece;
    PathValue(if m < |a| then a[m + 1..] else []);
    HostExact(a[k..m], r);
    if PartsAre(a, r, i, j, k, m) {
      var x, y :| HostAt(a[k..m], r, x, y);
      assert AddressAt(a, r, i, j, k, m, x, y);
    }
  }

  lemma {:induction false} AddressTokens(verb: Text, a: Text, version: Text) returns (i: nat, j: nat, k: nat, m: nat)
    requires ParseAddress(verb, a, version).Good?
    ensures Cut(a, i, j, k, m)
  {
    hide Strtok, ParsePath, ParseAuthority, RemainderLen, Run, Piece;
    i, j := TokenAt(a, DELIMS);
    NoMore();
    var u, v := TokenAt(a[j + 1..], {'/'});
    SecondPiece(a, {'/'}, j, u, v);
    k, m := j + 1 + u, j + 1 + v;
  }

  /** The addresses that are accepted, and what is read off them. */
  lemma {:induction false} AddressExact(verb: Text, a: Text, version: Text, r: Line)
    requires Without(a, {' '}) && |version| > 1
    ensures ParseAddress(verb, a, version) == Good(r) <==> AddressReads(a, r) && r.verb == verb && r.version == version
  {
    hide ParseAddress, Cut, Without, PartsAre, AddressAt;
    if ParseAddress(verb, a, version) == Good(r) {
      var i, j, k, m := AddressTokens(verb, a, version);
      AddressCuts(verb, a, version, r, i, j, k, m);
      PartsAreAt(a, r, i, j, k, m);
    }
    if AddressReads(a, r) && r.verb == verb && r.version == version {
      var i, j, k, m, x, y :| AddressAt(a, r, i, j, k, m, x, y);
      PlacesIn(a, r, i, j, k, m, x, y);
      PartsAreAt(a, r, i, j, k, m);
      AddressCuts(verb, a, version, r, i, j, k, m);
    }
  }

  lemma {:induction false} PlacesIn(a: Text, r: Line, i: int, j: int, k: int, m: int, x: int, y: int)
    requires AddressAt(a, r, i, j, k, m, x, y)
    ensures 0 <= i && 0 <= j && 0 <= k && 0 <= m && Cut(a, i, j, k, m)
  {
  }

  lemma {:induction false} NoMore()
    ensures Strtok([], {'/'}) == NoToken && Strtok([], {' '}) == NoToken
  {
  }

  // ---- The request line --------------------------------------------------------------------------------

  /** A word, an address that is accepted, and one space before a version. */
  ghost predicate LineAt(l: Text, r: Line, i: int, j: int, k: int, n: int) {
    && 0 <= i < j < k < n < |l|
    && Spaces(l, 0, i) && Word(l, i, j) && Spaces(l, j, k) && Word(l, k, n) && l[n] == ' '
    && StartsWith(l[n + 1..], "HTTP/") && AddressReads(l[k..n], r)
    && r.verb == l[i..j] && r.version == l[n + 1..]
  }

  ghost predicate Reads(l: Text, r: Line) { exists i, j, k, n :: LineAt(l, r, i, j, k, n) }

  ghost predicate Accepted(l: Text) { exists r: Line :: Reads(l, r) }

  lemma {:induction false} LineTokens(l: Text)
    requires ParseLine(l).Good?
    ensures Strtok(l, {' '}).Token? && Strtok(l, {' '}).cut
    ensures var u := Strtok(Strtok(l, {' '}).rest, {' '}); u.Token? && u.cut
  {
    StrtokSound(l, {' '});
    NoMore();
    hide Strtok, ParseAddress, StartsWith;
  }

  lemma {:induction false} WordsAt(l: Text, i: nat, j: nat, k: nat, n: nat)
    requires i < j < k < n < |l|
    requires Spaces(l, 0, i) && Word(l, i, j) && Spaces(l, j, k) && Word(l, k, n) && l[n] == ' '
    ensures Strtok(l, {' '}) == Token(i, l[i..j], l[j + 1..], true)
    ensures Strtok(l[j + 1..], {' '}) == Token(k - j - 1, l[k..n], l[n + 1..], true)
  {
    hide Strtok, Run, Piece;
    RunFrom(l, {' '}, j, k);
    TokenIs(l, {' '}, i, j);
    SecondPiece(l, {' '}, j, k - j - 1, n - j - 1);
    TokenIs(l[j + 1..], {' '}, k - j - 1, n - j - 1);
    SliceAfter(l, j + 1, k - j - 1, n - j - 1);
    SliceAfter(l, j + 1, n - j, n - j);
  }

  /** A line whose two words and the space behind them are known. */
  lemma {:induction false} LineCuts(l: Text, r: Line, i: nat, j: nat, k: nat, n: nat)
    requires i < j < k < n < |l|
    requires Spaces(l, 0, i) && Word(l, i, j) && Spaces(l, j, k) && Word(l, k, n) && l[n] == ' '
    ensures ParseLine(l) == Good(r) <==> LineAt(l, r, i, j, k, n)
  {
    hide Strtok, ParseAddress, StartsWith, AddressReads, Run, Piece;
    WordsAt(l, i, j, k, n);
    WordWithout(l, k, n);
    if StartsWith(l[n + 1..], "HTTP/") {
      LongVersion(l[n + 1..]);
      AddressExact(l[i..j], l[k..n], l[n + 1..], r);
    }
  }

  lemma {:induction false} WordWithout(l: Text, k: nat, n: nat)
    requires Word(l, k, n)
    ensures Without(l[k..n], {' '})
  {
  }

  lemma {:induction false} LongVersion(v: Text)
    requires StartsWith(v, "HTTP/")
    ensures |v| > 1
  {
  }

  /** The request lines that are accepted, and what is read off them. */
  lemma {:induction false} LineExactly(l: Text, r: Line)
    ensures ParseLine(l) == Good(r) <==> Reads(l, r)
  {
    hide Strtok, ParseLine, AddressReads, StartsWith, Run, Piece;
    if ParseLine(l).Good? {
      LineTokens(l);
      var i, j := TokenAt(l, {' '});
      var m, n := TokenAt(l[j + 1..], {' '});
      SecondPiece(l, {' '}, j, m, n);
      RunFrom(l, {' '}, j, j + 1 + m);
      LineCuts(l, r, i, j, j + 1 + m, j + 1 + n);
    }
    if Reads(l, r) {
      var i, j, k, n :| LineAt(l, r, i, j, k, n);
      LineCuts(l, r, i, j, k, n);
    }
  }

  lemma {:induction false} LineGoodExact(l: Text)
    ensures ParseLine(l).Good? <==> Accepted(l)
  {
    hide ParseLine, Reads;
    if ParseLine(l).Good? {
      LineExactly(l, ParseLine(l).value);
    }
    if Accepted(l) {
      var r: Line :| Reads(l, r);
      LineExactly(l, r);
    }
  }

  // ---- The headers and the request -----------------------------------------------------------------------

  /** From the last header line on there is a colon, and the text two places after it has a line end. */
  predicate LastColon(l: Text, behind: Text) {
    var c := FindChar(l, ':');
    c < |l| && !NoCrlf(ValueText(l, c, behind))
  }

  /** Headers are accepted or not as their last line is. */
  lemma {:induction false} HeadersGoodExact(s: Text, hs: Headers, behind: Text)
    requires Closed(s)
    ensures ParseHeaders(s, hs, behind).Good? <==> CrlfAt(s, 0) || LastColon(LastLine(s), behind)
  {
    if CrlfAt(s, 0) {
      ParseEnd(s, hs, behind);
    } else {
      LastLineDecides(s, hs, behind);
      HeaderWild(LastLine(s), behind);
      hide ParseHeaders, ParseHeader, LastLine, Closed, NoCrlf, FindChar;
    }
  }

  /** The texts that the parser accepts; with `ParseWildExact` every text is decided. */
  lemma {:induction false} ParseGoodExact(buf: Text)
    ensures Parse(buf).Good? <==>
      && 4 <= |buf| <= 65535 && HasEnd(CString(buf)) && Accepted(LineText(CString(buf)))
      && (var h := HeaderText(CString(buf)); CrlfAt(h, 0) || LastColon(LastLine(h), Behind(buf)))
  {
    hide CString, Behind, FindCrlf, ParseLine, ParseHeaders, Accepted, LastColon, LastLine, HasEnd, Closed;
    var s := CString(buf);
    if HasEnd(s) {
      LineOfClosed(s);
      LineGoodExact(LineText(s));
      HeadersGoodExact(HeaderText(s), [], Behind(buf));
    }
  }

  /**
   * The request that a parse gives, on the bytes of the text: a text is accepted with the result `r`
   * exactly when its length and its end are right, the fields of `r` are read off its first line,
   * and the headers of `r` off the lines up to the empty one.
   */
  lemma {:induction false} ParseExact(buf: Text, r: Request)
    ensures Parse(buf) == Good(r) <==>
      && 4 <= |buf| <= 65535 && HasEnd(CString(buf))
      && Reads(LineText(CString(buf)), r.line) && ReadFrom(HeaderText(CString(buf)), Behind(buf), r.headers)
  {
    hide CString, Behind, FindCrlf, ParseLine, ParseHeaders, Reads, ReadFrom, HasEnd, Closed;
    var s := CString(buf);
    if HasEnd(s) {
      LineOfClosed(s);
      LineExactly(LineText(s), r.line);
      HeadersOnBytes(HeaderText(s), Behind(buf), r.headers);
    }
  }

  // ---- An object that held headers before ----------------------------------------------------------------

  /** Whether the loop fails does not depend on the headers held before. */
  lemma {:induction false} SameEnd(s: Text, hs: Headers, hs': Headers, behind: Text)
    ensures ParseHeaders(s, hs, behind).Good? <==> ParseHeaders(s, hs', behind).Good?
    ensures ParseHeaders(s, hs, behind).Wild? <==> ParseHeaders(s, hs', behind).Wild?
    decreases |s|
  {
    hide ParseHeader, Set, FindCrlf;
    if s != [] && !CrlfAt(s, 0) {
      var p := ParseHeader(s, behind);
      if p.Good? {
        var n := FindCrlf(s);
        if n < |s| {
          SameEnd(s[n + 2..], Set(hs, p.value.0, p.value.1), Set(hs', p.value.0, p.value.1), behind);
        }
      }
    }
  }

  /** The headers of the lines of a text before a place. */
  ghost predicate HeadersPlaced(buf: Text, stop: nat, hs: Headers, ps: seq<nat>) {
    HasEnd(CString(buf)) && Placed(HeaderText(CString(buf)), Behind(buf), stop, hs, ps)
  }

  /**
   * What a parse leaves in an object that held the headers `hs`, whether it succeeds or fails: the line
   * that can be read off the text, if any; without one the old headers, and otherwise those of the lines
   * before the place where the loop stopped, behind the old ones whose keys they do not set.
   */
  lemma {:induction false} EffectOnBytes(buf: Text, hs: Headers, r: Line) returns (news: Headers, stop: nat, ps: seq<nat>)
    requires DistinctKeys(hs)
    ensures var e := ParseEffect(buf, hs);
      && (e.result.Good? <==> Parse(buf).Good?) && (e.result.Wild? <==> Parse(buf).Wild?)
      && (e.result.Good? ==> e.line.Some? && e.result.value == Request(e.line.value, e.headers))
      && (e.line == Some(r) <==> 4 <= |buf| <= 65535 && HasEnd(CString(buf)) && Reads(LineText(CString(buf)), r))
      && (e.line.None? ==> e.headers == hs)
      && (e.line.Some? ==>
            && e.headers == Drop(hs, Keys(news)) + news && DistinctKeys(news)
            && HeadersPlaced(buf, stop, news, ps))
  {
    hide CString, Behind, FindCrlf, ParseLine, ParseHeaders, HeadersUntil, Reads, HasEnd, Closed, Placed, Drop, Keys, DistinctKeys;
    var s := CString(buf);
    news, stop, ps := [], 0, [];
    if HasEnd(s) {
      LineOfClosed(s);
      LineExactly(LineText(s), r);
      var rest := HeaderText(s);
      SameEnd(rest, hs, [], Behind(buf));
      UntilFromOld(rest, hs, Behind(buf));
      news := HeadersUntil(rest, [], Behind(buf));
      NoKeys();
      UntilDistinct(rest, [], Behind(buf));
      stop, ps := UntilPlaces(rest, Behind(buf));
    }
  }
}
