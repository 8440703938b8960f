/** The request format of section 5.1 and 4.2 of RFC 1945, as the proxy prints it and as it parses it. */
module HttpSpec {
  import opened Words
  import opened CText

  datatype Line = Line(verb: Text, protocol: Text, host: Text, port: Option<Text>, path: Text, version: Text)

  /** Headers are an insertion-ordered map. */
  type Headers = seq<(Text, Text)>

  datatype Request = Request(line: Line, headers: Headers)

  // ---- Printing ------------------------------------------------------------------------------------

  /** Host and port as one piece. */
  function Authority(l: Line): Text { l.host + if l.port.Some? then ":" + l.port.value else "" }

  function Address(l: Line): Text { l.protocol + "://" + Authority(l) + l.path }

  function RenderLine(l: Line): Text { l.verb + " " + Address(l) + " " + l.version }

  function RenderHeader(h: (Text, Text)): Text { h.0 + ": " + h.1 }

  function RenderHeaders(hs: Headers): Text {
    if hs == [] then CRLF else RenderHeader(hs[0]) + CRLF + RenderHeaders(hs[1..])
  }

  function Render(r: Request): Text { RenderLine(r.line) + CRLF + RenderHeaders(r.headers) }

  // ---- The map -------------------------------------------------------------------------------------

  function Get(hs: Headers, key: Text): Option<Text> {
    if hs == [] then None else if hs[0].0 == key then Some(hs[0].1) else Get(hs[1..], key)
  }

  function Remove(hs: Headers, key: Text): Headers {
    if hs == [] then [] else if hs[0].0 == key then hs[1..] else [hs[0]] + Remove(hs[1..], key)
  }

  function Set(hs: Headers, key: Text, value: Text): Headers { Remove(hs, key) + [(key, value)] }

  predicate DistinctKeys(hs: Headers) { forall i, j :: 0 <= i < j < |hs| ==> hs[i].0 != hs[j].0 }

  // ---- Parsing -------------------------------------------------------------------------------------

  /** A result, the error return, or a read outside the buffer. */
  datatype Parsed<T> = Good(value: T) | Bad | Wild

  predicate StartsWith(s: Text, p: Text) { |p| <= |s| && s[..|p|] == p }

  /** `strlen(rem)`, where the address is cut after `skipped` delimiters and the protocol, and the
      version follows its NUL. */
  function RemainderLen(addr: Text, version: Text, skipped: nat, protocol: nat): int {
    var at, cut := protocol + 3, skipped + protocol;
    if cut < |addr| && at <= cut then cut - at
    else if at <= |addr| then |addr| - at
    else |version| - (at - |addr| - 1)
  }

  function ParsePath(rest: Text): Parsed<Text> {
    match Strtok(rest, {' '})
    case NoToken => Good("/")
    case Token(_, p, _, _) => if p != [] && p[0] == '/' then Bad else Good("/" + p)
  }

  /** The host and the port, the port's text as it is. */
  function ParseAuthority(host: Text): Parsed<(Text, Option<Text>)> {
    match Strtok(host, {':'})
    case NoToken => Bad
    case Token(_, h, rest, _) =>
      match Strtok(rest, {'/'})
      case NoToken => Good((h, None))
      case Token(_, p, _, _) => Good((h, Some(p)))
  }

  function ParseAddress(verb: Text, addr: Text, version: Text): Parsed<Line> {
    match Strtok(addr, {':', '/'})
    case NoToken => Bad
    case Token(skipped, protocol, rest, _) =>
      match Strtok(rest, {'/'})
      case NoToken => Bad
      case Token(_, host, rest2, _) =>
        if |host| == RemainderLen(addr, version, skipped, |protocol|) then Bad else
        match ParsePath(rest2)
        case Bad => Bad
        case Wild => Wild
        case Good(path) =>
          match ParseAuthority(host)
          case Bad => Bad
          case Wild => Wild
          case Good(hp) => Good(Line(verb, protocol, hp.0, hp.1, path, version))
  }

  function ParseLine(l: Text): Parsed<Line> {
    match Strtok(l, {' '})
    case NoToken => Bad
    case Token(_, verb, rest, _) =>
      match Strtok(rest, {' '})
      case NoToken => Bad
      case Token(_, addr, version, cut) =>
        if !cut then Wild
        else if !StartsWith(version, "HTTP/") then Bad
        else ParseAddress(verb, addr, version)
  }

  /**
   * What the search for the end of a value sees: it starts two places after the colon. Where the
   * colon is the last character before the NUL, that is just behind the NUL, on the text `behind` it.
   */
  function ValueText(s: Text, c: nat, behind: Text): Text
    requires c < |s|
  {
    if c + 1 < |s| then s[c + 2..] else behind
  }

  /** `ParsedHeader_parse` on the text from a header line on: the key and the value. */
  function ParseHeader(s: Text, behind: Text): Parsed<(Text, Text)> {
    var c := FindChar(s, ':');
    if c == |s| then Bad
    else
      var v := ValueText(s, c, behind);
      var e := FindCrlf(v);
      if e == |v| then Wild else Good((s[..c], v[..e]))
  }

  function ParseHeaders(s: Text, hs: Headers, behind: Text): Parsed<Headers>
    decreases |s|
  {
    if s == [] || CrlfAt(s, 0) then Good(hs) else
    match ParseHeader(s, behind)
    case Bad => Bad
    case Wild => Wild
    case Good(h) =>
      var n := FindCrlf(s);
      if n == |s| then Good(Set(hs, h.0, h.1)) else ParseHeaders(s[n + 2..], Set(hs, h.0, h.1), behind)
  }

  /** The headers set when the loop ends, whether it fails or not. */
  function HeadersUntil(s: Text, hs: Headers, behind: Text): Headers
    decreases |s|
  {
    if s == [] || CrlfAt(s, 0) then hs else
    match ParseHeader(s, behind)
    case Bad => hs
    case Wild => hs
    case Good(h) =>
      var n := FindCrlf(s);
      if n == |s| then Set(hs, h.0, h.1) else HeadersUntil(s[n + 2..], Set(hs, h.0, h.1), behind)
  }

  const MIN_REQ_LEN := 4
  const MAX_REQ_LEN := 65535

  /** The request line and the headers of a text that ends them. */
  function ParseParts(line: Text, rest: Text, behind: Text): Parsed<Request> {
    match ParseLine(line)
    case Bad => Bad
    case Wild => Wild
    case Good(l) =>
      match ParseHeaders(rest, [], behind)
      case Bad => Bad
      case Wild => Wild
      case Good(hs) => Good(Request(l, hs))
  }

  function ParseText(s: Text, behind: Text): Parsed<Request> {
    if !HasEnd(s) then Bad else
    var n := FindCrlf(s);
    if n == |s| then Bad else ParseParts(s[..n], s[n + 2..], behind)
  }

  /** `ParsedRequest_parse` on a new request object. */
  function Parse(buf: Text): Parsed<Request> {
    if |buf| < MIN_REQ_LEN || |buf| > MAX_REQ_LEN then Bad else ParseText(CString(buf), Behind(buf))
  }

  /** What a parse leaves in an object that held the headers `hs` and no request: the line once it
      is good, and the headers set until the end or until one fails. */
  datatype Effect = Effect(result: Parsed<Request>, line: Option<Line>, headers: Headers)

  function ParseEffect(buf: Text, hs: Headers): Effect {
    if |buf| < MIN_REQ_LEN || |buf| > MAX_REQ_LEN then Effect(Bad, None, hs) else
    var s := CString(buf);
    var n := FindCrlf(s);
    if !HasEnd(s) || n == |s| then Effect(Bad, None, hs) else
    match ParseLine(s[..n])
    case Bad => Effect(Bad, None, hs)
    case Wild => Effect(Wild, None, hs)
    case Good(l) =>
      var out := HeadersUntil(s[n + 2..], hs, Behind(buf));
      match ParseHeaders(s[n + 2..], hs, Behind(buf))
      case Bad => Effect(Bad, Some(l), out)
      case Wild => Effect(Wild, Some(l), out)
      case Good(_) => Effect(Good(Request(l, out)), Some(l), out)
  }

  // ---- Well-formed requests --------------------------------------------------------------------------

  predicate Plain(s: Text) { NoCrlf(s) && Without(s, {'\0'}) }

  /** Every field is non-empty where it must be and free of the delimiters that would cut it. */
  predicate LineOk(l: Line) {
    && l.verb != [] && Without(l.verb, {' '}) && Plain(l.verb)
    && l.protocol != [] && Without(l.protocol, {':', '/', ' '}) && Plain(l.protocol)
    && l.host != [] && Without(l.host, {':', '/', ' '}) && Plain(l.host)
    && (l.port.Some? ==> l.port.value != [] && Without(l.port.value, {'/', ' '}) && Plain(l.port.value))
    && l.path != [] && l.path[0] == '/' && (|l.path| > 1 ==> l.path[1] != '/')
    && Without(l.path, {' '}) && Plain(l.path)
    && StartsWith(l.version, "HTTP/") && Plain(l.version)
  }

  predicate HeaderOk(h: (Text, Text)) { Without(h.0, {':'}) && Plain(h.0) && Plain(h.1) }

  predicate HeadersOk(hs: Headers) {
    DistinctKeys(hs) && forall i :: 0 <= i < |hs| ==> HeaderOk(hs[i])
  }

  predicate RequestOk(r: Request) { LineOk(r.line) && HeadersOk(r.headers) }
}
