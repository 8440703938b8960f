/** Which requests make the parser read outside its buffer, on the bytes. */
module HttpBounds {
  import opened Words
  import opened CText
  import opened HttpSpec
  import opened HttpRoundTrip
  import opened HttpNormal

  // ---- The request line --------------------------------------------------------------------------------

  /** Only delimiters, and none, between two places. */
  predicate Run(s: Text, d: set<char>, i: int, j: int) { forall k :: 0 <= i <= k < j <= |s| ==> s[k] in d }

  predicate Piece(s: Text, d: set<char>, i: int, j: int) { 0 <= i < j <= |s| && forall k :: i <= k < j ==> s[k] !in d }

  predicate Spaces(l: Text, i: int, j: int) { Run(l, {' '}, i, j) }

  predicate Word(l: Text, i: int, j: int) { Piece(l, {' '}, i, j) }

  /** The line is two words, with nothing after the second: no space, and no version. */
  predicate TwoWords(l: Text) {
    exists i, j, k :: 0 <= i < j < k < |l| && Spaces(l, 0, i) && Word(l, i, j) && Spaces(l, j, k) && Word(l, k, |l|)
  }

  /** The first token of a text is a piece behind a run of delimiters, up to the next delimiter. */
  predicate FirstPiece(s: Text, d: set<char>, i: int, j: int) {
    0 <= i < j <= |s| && Run(s, d, 0, i) && Piece(s, d, i, j) && (j < |s| ==> s[j] in d)
  }

  lemma {:induction false} TokenIs(s: Text, d: set<char>, i: nat, j: nat)
    requires FirstPiece(s, d, i, j)
    ensures Strtok(s, d) == Token(i, s[i..j], if j < |s| then s[j + 1..] else [], j < |s|)
  {
    hide Skip, Span;
    SkipAt(s, d, i);
    SpanAt(s[i..], d, j - i);
    assert s[i..][..j - i] == s[i..j];
    assert j < |s| ==> s[i..][j - i + 1..] == s[j + 1..];
  }

  lemma {:induction false} TokenAt(s: Text, d: set<char>) returns (i: nat, j: nat)
    requires Strtok(s, d).Token?
    ensures FirstPiece(s, d, i, j)
    ensures Strtok(s, d) == Token(i, s[i..j], if j < |s| then s[j + 1..] else [], j < |s|)
  {
    i := Skip(s, d);
    j := i + Span(s[i..], d);
    hide Skip, Span;
    var t := s[i..];
    assert forall k :: i <= k < j ==> s[k] == t[k - i];
    assert j < |s| ==> s[j] == t[j - i];
    hide Strtok;
    TokenIs(s, d, i, j);
  }

  /** The same places, seen from a later one. */
  lemma {:induction false} Shifted(s: Text, d: set<char>, p: nat, m: nat, n: nat)
    requires p + n <= |s|
    ensures Run(s[p..], d, m, n) <==> Run(s, d, p + m, p + n)
    ensures Piece(s[p..], d, m, n) <==> Piece(s, d, p + m, p + n)
  {
    var t := s[p..];
    assert forall k :: 0 <= k < n ==> t[k] == s[p + k];
    if Run(t, d, m, n) {
      forall k | p + m <= k < p + n ensures s[k] in d {
        assert t[k - p] in d;
      }
    }
    if Piece(t, d, m, n) {
      forall k | p + m <= k < p + n ensures s[k] !in d {
        assert t[k - p] !in d;
      }
    }
  }

  /** A run that starts with a delimiter. */
  lemma {:induction false} RunFrom(s: Text, d: set<char>, j: nat, k: nat)
    requires j < k <= |s|
    ensures Run(s, d, j, k) <==> s[j] in d && Run(s, d, j + 1, k)
  {
  }

  /** The second token of a text, in the places of the text. */
  lemma {:induction false} SecondPiece(s: Text, d: set<char>, j: nat, m: nat, n: nat)
    requires j < |s| && m <= n && j + 1 + n <= |s|
    ensures FirstPiece(s[j + 1..], d, m, n) <==>
      && m < n && Run(s, d, j + 1, j + 1 + m) && Piece(s, d, j + 1 + m, j + 1 + n)
      && (j + 1 + n < |s| ==> s[j + 1 + n] in d)
  {
    Shifted(s, d, j + 1, 0, m);
    Shifted(s, d, j + 1, m, n);
    hide Run, Piece;
    assert j + 1 + n < |s| ==> s[j + 1..][n] == s[j + 1 + n];
  }

  lemma {:induction false} AddressNotWild(verb: Text, addr: Text, version: Text)
    ensures !ParseAddress(verb, addr, version).Wild?
  {
    hide Strtok;
  }

  lemma {:induction false} LineWild(l: Text)
    ensures ParseLine(l).Wild? <==>
      && Strtok(l, {' '}).Token? && Strtok(l, {' '}).cut
      && Strtok(Strtok(l, {' '}).rest, {' '}).Token? && !Strtok(Strtok(l, {' '}).rest, {' '}).cut
  {
    StrtokSound(l, {' '});
    assert Strtok([], {' '}) == NoToken;
    hide Strtok, ParseAddress;
    var t := Strtok(l, {' '});
    if t.Token? {
      var u := Strtok(t.rest, {' '});
      if u.Token? {
        AddressNotWild(t.text, u.text, u.rest);
      }
    }
  }

  lemma {:induction false} WildIsTwo(l: Text)
    requires ParseLine(l).Wild?
    ensures TwoWords(l)
  {
    hide Strtok, ParseLine, Run, Piece;
    LineWild(l);
    var i, j := TokenAt(l, {' '});
    var m, n := TokenAt(l[j + 1..], {' '});
    SecondPiece(l, {' '}, j, m, n);
    RunFrom(l, {' '}, j, j + 1 + m);
    assert Spaces(l, 0, i) && Word(l, i, j) && Spaces(l, j, j + 1 + m) && Word(l, j + 1 + m, |l|);
  }

  lemma {:induction false} TwoIsWild(l: Text)
    requires TwoWords(l)
    ensures ParseLine(l).Wild?
  {
    hide Strtok, ParseLine, Run, Piece;
    var i, j, k :| 0 <= i < j < k < |l| && Spaces(l, 0, i) && Word(l, i, j) && Spaces(l, j, k) && Word(l, k, |l|);
    RunFrom(l, {' '}, j, k);
    TokenIs(l, {' '}, i, j);
    SecondPiece(l, {' '}, j, k - j - 1, |l| - j - 1);
    TokenIs(l[j + 1..], {' '}, k - j - 1, |l| - j - 1);
    LineWild(l);
  }

  /** The read of the version goes outside the buffer exactly for lines of two words. */
  lemma {:induction false} LineWildExact(l: Text)
    ensures ParseLine(l).Wild? <==> TwoWords(l)
  {
    hide ParseLine, TwoWords;
    if ParseLine(l).Wild? {
      WildIsTwo(l);
    }
    if TwoWords(l) {
      TwoIsWild(l);
    }
  }

  // ---- The headers -----------------------------------------------------------------------------------------

  /** There is an empty line: at once, or after some line end. */
  predicate Closed(s: Text) { CrlfAt(s, 0) || HasEnd(s) }

  lemma {:induction false} LineOfClosed(s: Text)
    requires HasEnd(s)
    ensures var n := FindCrlf(s); n + 2 <= |s| && Closed(s[n + 2..])
  {
    var i :| 0 <= i < |s| && CrlfAt(s, i) && CrlfAt(s, i + 2);
    var n := FindCrlf(s);
    hide FindCrlf;
    assert n <= i;
    var t := s[n + 2..];
    if n == i {
      assert CrlfAt(t, 0);
    } else {
      assert i >= n + 2;
      assert CrlfAt(t, i - n - 2) && CrlfAt(t, i - n);
    }
  }

  /** The text from the last header line on. */
  function LastLine(s: Text): Text
    requires Closed(s) && !CrlfAt(s, 0)
    decreases |s|
  {
    LineOfClosed(s);
    var n := FindCrlf(s);
    if CrlfAt(s[n + 2..], 0) then s else LastLine(s[n + 2..])
  }

  /** The last header line has no colon, and from two places after the first colon further on there
      is no line end before the next NUL, or that place is past the end of the buffer. */
  predicate LateColon(l: Text, behind: Text) {
    var n, c := FindCrlf(l), FindChar(l, ':');
    n < c < |l| && NoCrlf(ValueText(l, c, behind))
  }

  lemma {:induction false} HeaderWild(s: Text, behind: Text)
    ensures ParseHeader(s, behind).Bad? <==> FindChar(s, ':') == |s|
    ensures var c := FindChar(s, ':');
      ParseHeader(s, behind).Wild? <==> c < |s| && NoCrlf(ValueText(s, c, behind))
  {
    var c := FindChar(s, ':');
    hide FindChar;
    if c < |s| {
      var v := ValueText(s, c, behind);
      assert FindCrlf(v) < |v| ==> CrlfAt(v, FindCrlf(v));
      hide FindCrlf;
    }
  }

  /** A colon before the empty line is never read past the end. */
  lemma {:induction false} EarlyColon(s: Text, i: nat, behind: Text)
    requires CrlfAt(s, i) && CrlfAt(s, i + 2) && FindChar(s, ':') < i
    ensures ParseHeader(s, behind).Good?
  {
    hide FindChar, ParseHeader;
    HeaderWild(s, behind);
    var c := FindChar(s, ':');
    assert CrlfAt(ValueText(s, c, behind), i - c);
  }

  /** One line further on, with the colon not in the line passed. */
  lemma {:induction false} SameColonLater(s: Text, n: nat, behind: Text)
    requires n <= FindChar(s, ':')
    ensures FindChar(s[n..], ':') == FindChar(s, ':') - n
    ensures ParseHeader(s[n..], behind).Wild? <==> ParseHeader(s, behind).Wild?
    ensures ParseHeader(s[n..], behind).Bad? <==> ParseHeader(s, behind).Bad?
  {
    var c := FindChar(s, ':');
    hide FindChar, ParseHeader;
    FindCharAt(s[n..], ':', c - n);
    HeaderWild(s, behind);
    HeaderWild(s[n..], behind);
    assert c < |s| ==> ValueText(s[n..], c - n, behind) == ValueText(s, c, behind);
  }

  /** The parse of the headers fails, and fails as it does, exactly as on the last header line. */
  lemma {:induction false} LastLineDecides(s: Text, hs: Headers, behind: Text)
    requires Closed(s) && !CrlfAt(s, 0)
    ensures ParseHeaders(s, hs, behind).Wild? <==> ParseHeader(LastLine(s), behind).Wild?
    ensures ParseHeaders(s, hs, behind).Bad? <==> ParseHeader(LastLine(s), behind).Bad?
    decreases |s|
  {
    LineOfClosed(s);
    var n := FindCrlf(s);
    var t := s[n + 2..];
    if CrlfAt(t, 0) {
      OneLineLeft(s, hs, behind);
    } else {
      var h := ParseHeader(s, behind);
      hide FindCrlf, FindChar, ParseHeader, Set, Closed;
      if h.Good? {
        ParseUnfold(s, hs, behind);
        LastLineDecides(t, Set(hs, h.value.0, h.value.1), behind);
      } else {
        FailsFurther(s, behind);
        LastLineDecides(t, [], behind);
        FailedHere(s, hs, behind);
        FailedHere(t, [], behind);
      }
    }
  }

  lemma {:induction false} OneLineLeft(s: Text, hs: Headers, behind: Text)
    requires Closed(s) && !CrlfAt(s, 0) && FindCrlf(s) + 2 <= |s| && CrlfAt(s[FindCrlf(s) + 2..], 0)
    ensures ParseHeaders(s, hs, behind).Wild? <==> ParseHeader(s, behind).Wild?
    ensures ParseHeaders(s, hs, behind).Bad? <==> ParseHeader(s, behind).Bad?
  {
    hide FindCrlf, ParseHeader, Set;
    if ParseHeader(s, behind).Good? {
      ParseUnfold(s, hs, behind);
      ParseEnd(s[FindCrlf(s) + 2..], Set(hs, ParseHeader(s, behind).value.0, ParseHeader(s, behind).value.1), behind);
    }
  }

  lemma {:induction false} FailedHere(s: Text, hs: Headers, behind: Text)
    requires s != [] && !CrlfAt(s, 0) && !ParseHeader(s, behind).Good?
    ensures ParseHeaders(s, hs, behind).Wild? <==> ParseHeader(s, behind).Wild?
    ensures ParseHeaders(s, hs, behind).Bad? <==> ParseHeader(s, behind).Bad?
  {
    hide ParseHeader;
  }

  /** A header that fails has its colon, if any, beyond the empty line, so the next one fails too. */
  lemma {:induction false} FailsFurther(s: Text, behind: Text)
    requires Closed(s) && !CrlfAt(s, 0) && !ParseHeader(s, behind).Good?
    ensures var n := FindCrlf(s);
      n + 2 <= |s| && (ParseHeader(s[n + 2..], behind).Wild? <==> ParseHeader(s, behind).Wild?)
      && (ParseHeader(s[n + 2..], behind).Bad? <==> ParseHeader(s, behind).Bad?)
  {
    LineOfClosed(s);
    var i :| 0 <= i < |s| && CrlfAt(s, i) && CrlfAt(s, i + 2);
    var n, c := FindCrlf(s), FindChar(s, ':');
    hide FindCrlf, FindChar, ParseHeader, Closed;
    if c < i {
      EarlyColon(s, i, behind);
    }
    assert n <= i;
    assert c != i && c != i + 1;
    SameColonLater(s, n + 2, behind);
  }

  /** The headers are read outside the buffer exactly when the last header line has no colon and the
      text two places after the first colon further on has no line end. */
  lemma {:induction false} HeadersWildExact(s: Text, hs: Headers, behind: Text)
    requires Closed(s)
    ensures ParseHeaders(s, hs, behind).Wild? <==> !CrlfAt(s, 0) && LateColon(LastLine(s), behind)
  {
    hide ParseHeaders, ParseHeader, LastLine, Closed, LateColon;
    if CrlfAt(s, 0) {
      ParseEnd(s, hs, behind);
    } else {
      LastLineDecides(s, hs, behind);
      LastLineEnds(s);
      LateIsWild(LastLine(s), behind);
    }
  }

  lemma {:induction false} LateIsWild(l: Text, behind: Text)
    requires var n := FindCrlf(l); CrlfAt(l, n) && CrlfAt(l, n + 2)
    ensures ParseHeader(l, behind).Wild? <==> LateColon(l, behind)
  {
    hide ParseHeader, FindCrlf, FindChar, NoCrlf;
    HeaderWild(l, behind);
    var n, c := FindCrlf(l), FindChar(l, ':');
    if c < n {
      EarlyColon(l, n, behind);
    }
  }

  lemma {:induction false} LastLineEnds(s: Text)
    requires Closed(s) && !CrlfAt(s, 0)
    ensures var l := LastLine(s);
      var n := FindCrlf(l); n + 2 <= |l| && CrlfAt(l, n) && CrlfAt(l, n + 2)
    decreases |s|
  {
    hide FindCrlf, HasEnd;
    LineOfClosed(s);
    var n := FindCrlf(s);
    if !CrlfAt(s[n + 2..], 0) {
      LastLineEnds(s[n + 2..]);
    }
  }

  // ---- The whole request -------------------------------------------------------------------------------------

  /** What the parser takes for the request line and for the headers. */
  function LineText(s: Text): Text { s[..FindCrlf(s)] }

  function HeaderText(s: Text): (r: Text)
    requires HasEnd(s)
    ensures Closed(r)
  {
    LineOfClosed(s);
    s[FindCrlf(s) + 2..]
  }

  /** Headers that are read outside the buffer. */
  predicate Overrun(s: Text, behind: Text)
    requires Closed(s)
  {
    !CrlfAt(s, 0) && LateColon(LastLine(s), behind)
  }

  /**
   * The parser reads outside its buffer exactly for texts that pass its length and end tests and
   * either have a request line of two words, or a good one and headers whose last line has no
   * colon while for the first colon further on no line end follows from two places on. That place
   * may lie behind an embedded NUL, in the C string that starts there.
   */
  lemma {:induction false} ParseWildExact(buf: Text)
    ensures Parse(buf).Wild? <==>
      && 4 <= |buf| <= 65535 && HasEnd(CString(buf))
      && (|| TwoWords(LineText(CString(buf)))
          || (ParseLine(LineText(CString(buf))).Good? && Overrun(HeaderText(CString(buf)), Behind(buf))))
  {
    hide CString, Behind, FindCrlf, ParseLine, ParseHeaders, TwoWords, LateColon, LastLine, HasEnd;
    var s := CString(buf);
    if HasEnd(s) {
      LineOfClosed(s);
      LineWildExact(LineText(s));
      HeadersWildExact(HeaderText(s), [], Behind(buf));
    }
  }

  /** Every header line has a colon. */
  predicate AllColons(s: Text)
    decreases |s|
  {
    var n := FindCrlf(s);
    CrlfAt(s, 0) || (n < |s| && FindChar(s, ':') < n && AllColons(s[n + 2..]))
  }

  /** Then no header is read outside the buffer, and none is refused. */
  lemma {:induction false} ColonsAreSafe(s: Text, hs: Headers, behind: Text)
    requires AllColons(s)
    ensures ParseHeaders(s, hs, behind).Good?
    decreases |s|
  {
    hide FindCrlf, FindChar, ParseHeader, Set, ParseHeaders;
    if CrlfAt(s, 0) {
      ParseEnd(s, hs, behind);
    } else {
      var n := FindCrlf(s);
      ColonGood(s, behind);
      ParseUnfold(s, hs, behind);
      ColonsAreSafe(s[n + 2..], Set(hs, ParseHeader(s, behind).value.0, ParseHeader(s, behind).value.1), behind);
    }
  }

  lemma {:induction false} ColonGood(s: Text, behind: Text)
    requires AllColons(s) && !CrlfAt(s, 0)
    ensures ParseHeader(s, behind).Good?
  {
    var n, c := FindCrlf(s), FindChar(s, ':');
    ColonsClosed(s[n + 2..]);
    hide FindCrlf, FindChar, ParseHeader, AllColons;
    HeaderWild(s, behind);
    var t := s[n + 2..];
    var i :| 0 <= i && CrlfAt(t, i);
    CrlfAfter(s, n + 2, i);
    CrlfAfter(s, c + 2, n - c + i);
    hide CrlfAt;
    assert CrlfAt(ValueText(s, c, behind), n - c + i);
  }

  lemma {:induction false} ColonsClosed(s: Text)
    requires AllColons(s)
    ensures exists i :: 0 <= i && CrlfAt(s, i)
  {
    if !CrlfAt(s, 0) {
      assert CrlfAt(s, FindCrlf(s));
    }
  }

  /** A whole request with three words in its line and a colon in every header line is read inside the buffer. */
  lemma {:induction false} SafeRequest(buf: Text)
    requires HasEnd(CString(buf)) && !TwoWords(LineText(CString(buf))) && AllColons(HeaderText(CString(buf)))
    ensures !Parse(buf).Wild?
  {
    var s := CString(buf);
    LineOfClosed(s);
    LineWildExact(LineText(s));
    ColonsAreSafe(HeaderText(s), [], Behind(buf));
    hide CString, FindCrlf, ParseLine, ParseHeaders, TwoWords, AllColons, HasEnd;
  }

  // ---- Requests at the bounds -----------------------------------------------------------------------------------

  lemma {:induction false} NoVersion()
    ensures Parse("GET http://h/\r\n\r\n").Wild?
  {
    hide FindCrlf, FindChar, Parse, CString, Behind;
    var s := "GET http://h/\r\n\r\n";
    WholeString(s);
    assert CrlfAt(s, 13) && CrlfAt(s, 15);
    FindCrlfAt(s, 13);
    var l := s[..13];
    assert Spaces(l, 0, 0) && Word(l, 0, 3) && Spaces(l, 3, 4) && Word(l, 4, 13);
    ParseWildExact(s);
  }

  lemma {:induction false} GoodFields()
    ensures LineOk(Line("GET", "http", "h", None, "/", "HTTP/1.0"))
  {
  }

  lemma {:induction false} GoodLine()
    ensures ParseLine("GET http://h/ HTTP/1.0").Good?
  {
    var line := Line("GET", "http", "h", None, "/", "HTTP/1.0");
    GoodFields();
    hide ParseLine, LineOk;
    LineBack(line);
    assert RenderLine(line) == "GET http://h/ HTTP/1.0";
  }

  lemma {:induction false} NoColonHeader()
    ensures Closed("abc\r\n\r\nfoo:") && Overrun("abc\r\n\r\nfoo:", [])
  {
    var s := "abc\r\n\r\nfoo:";
    hide FindCrlf, FindChar;
    assert CrlfAt(s, 3) && CrlfAt(s, 5);
    FindCrlfAt(s, 3);
    FindCharAt(s, ':', 10);
    assert CrlfAt(s[5..], 0);
    assert LastLine(s) == s;
  }

  lemma {:induction false} ColonAfterTheEnd()
    ensures Parse("GET http://h/ HTTP/1.0" + "\r\n" + "abc\r\n\r\nfoo:").Wild?
  {
    hide FindCrlf, FindChar, Parse, ParseLine, CString, Behind, Overrun, Closed, TwoWords;
    var l, rest := "GET http://h/ HTTP/1.0", "abc\r\n\r\nfoo:";
    var s := l + CRLF + rest;
    WholeString(s);
    GoodLine();
    NoColonHeader();
    assert NoCrlf(l);
    FindCrlfAfter(l, rest);
    assert CrlfAt(rest, 3) && CrlfAt(rest, 5);
    assert CrlfAt(s, |l| + 2 + 3) && CrlfAt(s, |l| + 2 + 5);
    assert s[..|l|] == l && s[|l| + 2..] == rest;
    ParseWildExact(s);
  }

  /** The bytes behind a NUL that follows such a colon are read as the value. */
  lemma {:induction false} BehindTheNul()
    ensures ParseHeaders("abc\r\n\r\nfoo:", [], "xy\r\n") == Good([("abc\r\n\r\nfoo", "xy")])
  {
    var s, v := "abc\r\n\r\nfoo:", "xy\r\n";
    hide FindCrlf, FindChar, ParseHeaders;
    FindCharAt(s, ':', 10);
    assert CrlfAt(v, 2);
    FindCrlfAt(v, 2);
    assert s[..10] == "abc\r\n\r\nfoo" && v[..2] == "xy";
    assert CrlfAt(s, 3) && CrlfAt(s[5..], 0);
    FindCrlfAt(s, 3);
    ParseUnfold(s, [], v);
    assert Set([], s[..10], v[..2]) == [(s[..10], v[..2])];
    ParseEnd(s[5..], [("abc\r\n\r\nfoo", "xy")], v);
  }

  lemma {:induction false} NulIsCut(a: Text, b: Text)
    requires Without(a, {'\0'}) && Without(b, {'\0'})
    ensures CString(a + ['\0'] + b) == a && Behind(a + ['\0'] + b) == b
  {
    var s := a + ['\0'] + b;
    FindCharAt(s, '\0', |a|);
    assert s[..|a|] == a && s[|a| + 1..] == b;
    WholeString(b);
  }

  lemma {:induction false} ValueBehindNul()
    ensures var r := Parse("GET http://h/ HTTP/1.0" + CRLF + "abc\r\n\r\nfoo:" + ['\0'] + "xy\r\n");
      r.Good? && r.value.headers == [("abc\r\n\r\nfoo", "xy")]
  {
    hide FindCrlf, FindChar, ParseHeaders, ParseLine, CString, Behind;
    var l, rest, v := "GET http://h/ HTTP/1.0", "abc\r\n\r\nfoo:", "xy\r\n";
    var s := l + CRLF + rest;
    NulIsCut(s, v);
    GoodLine();
    BehindTheNul();
    assert NoCrlf(l);
    FindCrlfAfter(l, rest);
    assert CrlfAt(rest, 3) && CrlfAt(rest, 5);
    assert CrlfAt(s, |l| + 2 + 3) && CrlfAt(s, |l| + 2 + 5);
    assert s[..|l|] == l && s[|l| + 2..] == rest;
  }
}
