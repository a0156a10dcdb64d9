/** The incremental request parser on values: the bytes received so far are kept
    as they came, and URL, host and body are strings.  HttpConn.dfy proves that
    the in-place parser over the connection's buffer computes exactly this. */
module HttpMachine {
  import opened CStrings

  const READ_BUFFER_SIZE: nat := 2048

  datatype Phase = RequestLine | Header | Content
  datatype Method = GET | POST

  /** What one call answers.  Fault stands for a C operation with no defined
      result: a NULL pointer passed to strncasecmp, a store outside the buffer. */
  datatype Code = NoRequest | GetRequest | BadRequest | Fault

  datatype LineStatus = LineOk | LineBad | LineOpen

  datatype Conn = Conn(
    raw: string,          // everything received; its length is m_read_idx
    checked: nat,
    start: nat,
    phase: Phase,
    verb: Method,         // POST also means cgi == 1
    url: string,
    host: string,
    contentLength: int,
    linger: bool,
    body: string
  ) {
    predicate Wf() { start <= checked <= |raw| }
  }

  const Fresh: Conn := Conn("", 0, 0, RequestLine, GET, "", "", 0, false, "")

  function Feed(c: Conn, d: string): Conn { c.(raw := c.raw + d) }

  /** First position from `i` on that holds CR or LF, or the end. */
  function Eol(raw: string, i: nat): (j: nat)
    requires i <= |raw|
    ensures i <= j <= |raw|
    ensures forall k | i <= k < j :: raw[k] != CR && raw[k] != LF
    ensures j < |raw| ==> raw[j] == CR || raw[j] == LF
    decreases |raw| - i
  {
    if i == |raw| || raw[i] == CR || raw[i] == LF then i else Eol(raw, i + 1)
  }

  /** Where the line scan from `i` leaves m_checked_idx, and its verdict. */
  function ParseLine(raw: string, i: nat): (r: (nat, LineStatus))
    requires i <= |raw|
    ensures i <= r.0 <= |raw|
    ensures r.1.LineOk? ==> i + 2 <= r.0
  {
    var j := Eol(raw, i);
    if j == |raw| then (j, LineOpen)
    else if raw[j] == LF then (j, LineBad)
    else if j + 1 == |raw| then (j, LineOpen)
    else if raw[j + 1] == LF then (j + 2, LineOk)
    else (j, LineBad)
  }

  datatype Target = Malformed | Undefined | Target(at: nat, url: string)

  /** The URL with an absolute prefix skipped; `at` is its offset in `u`. */
  function ParseUrl(u: string): (t: Target)
    ensures t.Target? ==> t.at < |u| && t.url == u[t.at..] && t.url[0] == '/'
  {
    if StartsNoCase(u, "http://") then
      var p := 7 + Find(u[7..], '/');
      if p == |u| then Undefined else Target(p, u[p..])
    else if StartsNoCase(u, "https://") then
      var p := 8 + Find(u[8..], '/');
      if p == |u| then Malformed else Target(p, u[p..])
    else if |u| == 0 || u[0] != '/' then Malformed
    else Target(0, u)
  }

  function DefaultPage(url: string): string
  {
    if url == "/" then "/judge.html" else url
  }

  datatype RequestLineResult =
    | Rejected(code: Code)
    | Accepted(verb: Method, url: string)

  function ParseMethod(m: string): (r: seq<Method>)
    ensures |r| <= 1
  {
    if EqNoCase(m, "GET") then [GET] else if EqNoCase(m, "POST") then [POST] else []
  }

  function ResolveUrl(verb: Method, u: string): (r: RequestLineResult)
    ensures r.Rejected? ==> r.code == BadRequest || r.code == Fault
  {
    match ParseUrl(u)
    case Malformed => Rejected(BadRequest)
    case Undefined => Rejected(Fault)
    case Target(_, url) => Accepted(verb, DefaultPage(url))
  }

  /** The request line from its target on. */
  function ParseTarget(verb: Method, u: string): (r: RequestLineResult)
    ensures r.Rejected? ==> r.code == BadRequest || r.code == Fault
  {
    var v := Brk(u);
    if v == |u| || !EqNoCase(AfterBlanks(u[v + 1..]), "HTTP/1.1") then Rejected(BadRequest)
    else ResolveUrl(verb, u[..v])
  }

  function ParseRequestLine(line: string): (r: RequestLineResult)
    ensures r.Rejected? ==> r.code == BadRequest || r.code == Fault
  {
    var c := CStr(line);
    var k := Brk(c);
    if k == |c| || |ParseMethod(c[..k])| == 0 then Rejected(BadRequest)
    else ParseTarget(ParseMethod(c[..k])[0], AfterBlanks(c[k + 1..]))
  }

  function ParseHeader(c: Conn, line: string): (r: (Conn, Code))
    ensures r.0.raw == c.raw && r.0.checked == c.checked && r.0.start == c.start
    ensures r.1 == NoRequest || r.1 == GetRequest
    ensures r.1 == GetRequest <==> |CStr(line)| == 0 && c.contentLength == 0
    ensures r.0.phase == (if |CStr(line)| == 0 && c.contentLength != 0 then Content else c.phase)
  {
    var t := CStr(line);
    if |t| == 0 then
      if c.contentLength != 0 then (c.(phase := Content), NoRequest) else (c, GetRequest)
    else if StartsNoCase(t, "Connection:") then
      (if EqNoCase(AfterBlanks(t[11..]), "keep-alive") then c.(linger := true) else c, NoRequest)
    else if StartsNoCase(t, "Content-length:") then
      (c.(contentLength := Atoi(AfterBlanks(t[15..]))), NoRequest)
    else if StartsNoCase(t, "Host:") then
      (c.(host := AfterBlanks(t[5..])), NoRequest)
    else
      (c, NoRequest)
  }

  /** `text` is what the buffer holds from offset `at`, as far as it is terminated. */
  function ParseContent(c: Conn, at: nat, text: string): (r: (Conn, Code))
    ensures r.1 == NoRequest <==> |c.raw| < c.contentLength + c.checked
    ensures r.1 == NoRequest ==> r.0 == c
    ensures r.0 == c.(body := r.0.body)
    ensures r.1 != BadRequest
  {
    var n := c.contentLength;
    if |c.raw| < n + c.checked then (c, NoRequest)
    else if !(0 <= at + n < READ_BUFFER_SIZE) then (c, Fault)
    else (c.(body := if n < 0 then "" else if n <= |text| then CStr(text[..n]) else CStr(text)), GetRequest)
  }

  datatype Outcome = Next(c: Conn, ok: bool) | Done(c: Conn, code: Code)

  function After(r: (Conn, Code), ok: bool): Outcome
  {
    if r.1 == NoRequest then Next(r.0, ok) else Done(r.0, r.1)
  }

  /** What the main state machine does with the line that ends before `j - 2`. */
  function HandleLine(c: Conn, j: nat): (o: Outcome)
    requires c.Wf() && c.checked + 2 <= j <= |c.raw|
    ensures o.c.raw == c.raw && o.c.checked == o.c.start == j
    ensures o.Next? ==> o.ok == !c.phase.Content? && (o.c.phase.RequestLine? ==> c.phase.RequestLine?)
    ensures o.Done? ==> o.code != NoRequest
    ensures c.phase.Content? ==> o.c.phase.Content?
  {
    var line := c.raw[c.start..j - 2];
    var d := c.(checked := j, start := j);
    match c.phase
    case RequestLine =>
      (match ParseRequestLine(line)
       case Rejected(code) => Done(d, code)
       case Accepted(m, url) => Next(d.(phase := Header, verb := m, url := url), true))
    case Header => After(ParseHeader(d, line), true)
    case Content => After(ParseContent(d, c.start, line), false)
  }

  /** One evaluation of the loop condition and one pass through the loop body;
      `ok` says that the line status is LINE_OK. */
  function Step(c: Conn, ok: bool): (o: Outcome)
    requires c.Wf()
    ensures o.c.Wf() && o.c.raw == c.raw && c.checked <= o.c.checked
    ensures o.Next? ==> c.checked < o.c.checked || (ok && !o.ok)
  {
    if c.phase.Content? && ok then
      After(ParseContent(c.(start := c.checked), c.start, c.raw[c.start..]), false)
    else
      var (j, status) := ParseLine(c.raw, c.checked);
      if status.LineOk? then HandleLine(c, j) else Done(c.(checked := j), NoRequest)
  }

  /** The parser loop. */
  function Run(c: Conn, ok: bool): (r: (Conn, Code))
    requires c.Wf()
    ensures r.0.Wf() && r.0.raw == c.raw && c.checked <= r.0.checked
    decreases |c.raw| - c.checked, ok
  {
    match Step(c, ok)
    case Done(d, code) => (d, code)
    case Next(d, ok') => Run(d, ok')
  }

  function ProcessRead(c: Conn): (Conn, Code)
    requires c.Wf()
  {
    Run(c, true)
  }

  // ---- in the body ------------------------------------------------------------------

  /** While the body is short of its length, no line found in it completes the request. */
  lemma {:induction false} ShortBodyStays(c: Conn, ok: bool)
    requires c.Wf() && c.phase.Content? && |c.raw| < c.contentLength + c.checked
    ensures Run(c, ok).1 == NoRequest
    decreases |c.raw| - c.checked, ok
  {
    var o := Step(c, ok);
    if o.Next? { ShortBodyStays(o.c, o.ok); }
  }

  /** The header's results are settled once the body is reached. */
  lemma {:induction false} BodyKeepsFields(c: Conn, ok: bool)
    requires c.Wf() && c.phase.Content?
    ensures var w := Run(c, ok).0; w == c.(checked := w.checked, start := w.start, body := w.body)
    decreases |c.raw| - c.checked, ok
  {
    var o := Step(c, ok);
    if o.Next? { BodyKeepsFields(o.c, o.ok); }
  }
}
