/** The C string functions that the HTTP parser uses, on texts without a terminating NUL. */
module CText {
  type Text = seq<char>

  const CRLF: Text := "\r\n"

  // ---- Searching -----------------------------------------------------------------------------------

  /** Index of the first `c`, or the length: `index`. */
  function FindChar(s: Text, c: char): (n: nat)
    ensures n <= |s| && (n < |s| ==> s[n] == c)
    ensures forall i :: 0 <= i < n ==> s[i] != c
  {
    if s == [] || s[0] == c then 0 else 1 + FindChar(s[1..], c)
  }

  predicate CrlfAt(s: Text, i: int) { 0 <= i && i + 1 < |s| && s[i] == '\r' && s[i + 1] == '\n' }

  predicate NoCrlf(s: Text) { forall i :: 0 <= i < |s| ==> !CrlfAt(s, i) }

  lemma {:induction false} CrlfAfter(s: Text, p: nat, i: nat)
    requires p <= |s|
    ensures CrlfAt(s[p..], i) <==> CrlfAt(s, p + i)
  {
  }

  /** Index of the first line end, or the length: `strstr` for it. */
  function FindCrlf(s: Text): (n: nat)
    ensures n <= |s| && (n < |s| ==> CrlfAt(s, n))
    ensures forall i :: 0 <= i < n ==> !CrlfAt(s, i)
  {
    if s == [] || CrlfAt(s, 0) then 0 else
    var n := 1 + FindCrlf(s[1..]);
    assert forall i :: 0 < i < |s| ==> (CrlfAt(s, i) <==> CrlfAt(s[1..], i - 1));
    n
  }

  /** An empty line somewhere: two line ends in a row. */
  predicate HasEnd(s: Text) { exists i :: 0 <= i < |s| && CrlfAt(s, i) && CrlfAt(s, i + 2) }

  /** What C sees of a buffer: everything before its first NUL. */
  function CString(buf: Text): Text { buf[..FindChar(buf, '\0')] }

  /** The C string that starts just behind the first NUL, empty where the buffer has none. */
  function Behind(buf: Text): Text {
    var n := FindChar(buf, '\0');
    if n < |buf| then CString(buf[n + 1..]) else []
  }

  lemma {:induction false} BehindWithout(buf: Text)
    ensures Without(Behind(buf), {'\0'}) && Without(CString(buf), {'\0'})
  {
  }

  /** A buffer without a NUL is one C string. */
  lemma {:induction false} WholeString(s: Text)
    requires Without(s, {'\0'})
    ensures CString(s) == s && Behind(s) == []
  {
    FindCharAt(s, '\0', |s|);
  }

  lemma {:induction false} FindCharAt(s: Text, c: char, n: nat)
    requires n <= |s| && (n < |s| ==> s[n] == c) && (forall i :: 0 <= i < n ==> s[i] != c)
    ensures FindChar(s, c) == n
  {
  }

  /** A line end after a text without one is found there, whatever follows. */
  lemma {:induction false} FindCrlfAfter(a: Text, b: Text)
    requires NoCrlf(a)
    ensures FindCrlf(a + CRLF + b) == |a|
  {
    var s := a + CRLF + b;
    assert CrlfAt(s, |a|);
    forall i | 0 <= i < |a| ensures !CrlfAt(s, i) {
      assert !CrlfAt(a, i);
    }
  }

  /** Texts without a line end, joined by a character that has no part in one. */
  lemma {:induction false} NoCrlfJoin(a: Text, c: char, b: Text)
    requires NoCrlf(a) && NoCrlf(b) && c != '\r' && c != '\n'
    ensures NoCrlf(a + [c] + b)
  {
    var s := a + [c] + b;
    forall i | 0 <= i < |s| ensures !CrlfAt(s, i) {
      if i < |a| {
        assert !CrlfAt(a, i);
      } else if i > |a| {
        assert !CrlfAt(b, i - |a| - 1);
      }
    }
  }

  lemma {:induction false} NoCrlfPart(s: Text, i: nat, j: nat)
    requires NoCrlf(s) && i <= j <= |s|
    ensures NoCrlf(s[i..j])
  {
    forall k | 0 <= k < |s[i..j]| ensures !CrlfAt(s[i..j], k) {
      assert !CrlfAt(s, i + k);
    }
  }

  // ---- Tokens --------------------------------------------------------------------------------------

  predicate Without(s: Text, d: set<char>) { forall i :: 0 <= i < |s| ==> s[i] !in d }

  /** Leading delimiters, and leading characters that are none. */
  function Skip(s: Text, d: set<char>): (n: nat)
    ensures n <= |s| && (forall i :: 0 <= i < n ==> s[i] in d) && (n < |s| ==> s[n] !in d)
  {
    if s == [] || s[0] !in d then 0 else 1 + Skip(s[1..], d)
  }

  function Span(s: Text, d: set<char>): (n: nat)
    ensures n <= |s| && (forall i :: 0 <= i < n ==> s[i] !in d) && (n < |s| ==> s[n] in d)
  {
    if s == [] || s[0] in d then 0 else 1 + Span(s[1..], d)
  }

  /** A call of `strtok_r`: delimiters skipped, the token, what the saved pointer is left at, and
      whether a delimiter was cut. */
  datatype Token = NoToken | Token(skipped: nat, text: Text, rest: Text, cut: bool)

  function Strtok(s: Text, d: set<char>): Token {
    var k := Skip(s, d);
    if k == |s| then NoToken else
    var t := s[k..];
    var n := Span(t, d);
    Token(k, t[..n], if n < |t| then t[n + 1..] else [], n < |t|)
  }

  lemma {:induction false} SkipAt(s: Text, d: set<char>, n: nat)
    requires n <= |s| && (forall i :: 0 <= i < n ==> s[i] in d) && (n < |s| ==> s[n] !in d)
    ensures Skip(s, d) == n
  {
  }

  lemma {:induction false} SpanAt(s: Text, d: set<char>, n: nat)
    requires n <= |s| && (forall i :: 0 <= i < n ==> s[i] !in d) && (n < |s| ==> s[n] in d)
    ensures Span(s, d) == n
  {
  }

  /** Cutting a token that is followed by a delimiter, or by nothing. */
  lemma {:induction false} StrtokCut(lead: Text, t: Text, c: char, rest: Text, d: set<char>)
    requires (forall i :: 0 <= i < |lead| ==> lead[i] in d) && t != [] && Without(t, d) && c in d
    ensures Strtok(lead + t + [c] + rest, d) == Token(|lead|, t, rest, true)
  {
    var s := lead + t + [c] + rest;
    SkipAt(s, d, |lead|);
    assert s[|lead|..] == t + [c] + rest;
    SpanAt(t + [c] + rest, d, |t|);
  }

  lemma {:induction false} StrtokLast(lead: Text, t: Text, d: set<char>)
    requires (forall i :: 0 <= i < |lead| ==> lead[i] in d) && t != [] && Without(t, d)
    ensures Strtok(lead + t, d) == Token(|lead|, t, [], false)
  {
    var s := lead + t;
    SkipAt(s, d, |lead|);
    assert s[|lead|..] == t;
    SpanAt(t, d, |t|);
  }

  /** A token is a non-empty piece of the text without delimiters. */
  lemma {:induction false} StrtokSound(s: Text, d: set<char>)
    ensures Strtok(s, d).Token? ==>
      var t := Strtok(s, d);
      && t.text != [] && Without(t.text, d)
      && t.skipped + |t.text| <= |s| && t.text == s[t.skipped..t.skipped + |t.text|]
      && t.rest == (if t.cut then s[t.skipped + |t.text| + 1..] else [])
      && (t.cut <==> t.skipped + |t.text| < |s|)
  {
  }
}
