/** What the parser makes of a printed message: a request line, header lines, a
    blank line and a body, as in section 3 of RFC 7230. */
module HttpMessage {
  import opened CStrings
  import opened HttpMachine

  const CRLF: string := "\r\n"

  predicate OneLine(s: string) { CR !in s && LF !in s }

  datatype Message = Message(line: string, headers: seq<string>, body: string) {
    /** One line each; a header that C reads as empty would end the headers. */
    predicate Valid()
    {
      OneLine(line) && forall h | h in headers :: OneLine(h) && |CStr(h)| > 0
    }
  }

  function PrintHeaders(hs: seq<string>): string
  {
    if |hs| == 0 then "" else hs[0] + CRLF + PrintHeaders(hs[1..])
  }

  function Print(m: Message): string
  {
    m.line + CRLF + (PrintHeaders(m.headers) + (CRLF + m.body))
  }

  // ---- request line: exactly these lines are accepted -----------------------------

  predicate Blanks(s: string) { |s| > 0 && forall i | 0 <= i < |s| :: Blank(s[i]) }

  predicate Word(s: string) { |s| > 0 && (forall i | 0 <= i < |s| :: !Blank(s[i])) && NUL !in s }

  /** A C string that reads: method, blanks, target, blanks, version. */
  predicate RequestLineForm(c: string, m: string, b1: string, u: string, b2: string, v: string)
  {
    && c == m + (b1 + (u + (b2 + v)))
    && Blanks(b1) && Blanks(b2) && Word(m) && Word(u)
    && (EqNoCase(m, "GET") || EqNoCase(m, "POST")) && EqNoCase(v, "HTTP/1.1")
  }

  /** The methods are GET and POST, in any case. */
  lemma MethodKnown(m: string)
    ensures |ParseMethod(m)| == if EqNoCase(m, "GET") || EqNoCase(m, "POST") then 1 else 0
    ensures |ParseMethod(m)| == 1 ==> ParseMethod(m)[0] == if EqNoCase(m, "GET") then GET else POST
  {
  }

  lemma BrkOfWord(w: string, rest: string)
    requires Word(w) && (|rest| > 0 ==> Blank(rest[0]))
    ensures Brk(w + rest) == |w|
  {
    BrkUnique(w + rest, |w|);
  }

  lemma SpanOfBlanks(b: string, rest: string)
    requires (forall i | 0 <= i < |b| :: Blank(b[i])) && (|rest| > 0 ==> !Blank(rest[0]))
    ensures (b + rest)[Span(b + rest)..] == rest
  {
    SpanUnique(b + rest, |b|);
  }

  lemma VersionHasNoBlanks(v: string)
    requires EqNoCase(v, "HTTP/1.1")
    ensures |v| == 8 && !Blank(v[0])
  {
    assert Lower(v[0]) == Lower("HTTP/1.1"[0]);
  }

  lemma TargetPartRead(verb: Method, u: string, b: string, v: string)
    requires Word(u) && Blanks(b) && EqNoCase(v, "HTTP/1.1")
    ensures ParseTarget(verb, u + (b + v)) == ResolveUrl(verb, u)
  {
    hide Brk, Span, EqNoCase, ResolveUrl;
    var r := u + (b + v);
    BrkOfWord(u, b + v);
    assert r[..|u|] == u;
    assert r[|u| + 1..] == b[1..] + v;
    VersionHasNoBlanks(v);
    SpanOfBlanks(b[1..], v);
  }

  /** Every line of that form is read as its method and target. */
  lemma RequestLineRead(line: string, m: string, b1: string, u: string, b2: string, v: string)
    requires RequestLineForm(CStr(line), m, b1, u, b2, v)
    ensures |ParseMethod(m)| == 1 && ParseRequestLine(line) == ResolveUrl(ParseMethod(m)[0], u)
  {
    hide CStr, Brk, Span, EqNoCase, ParseTarget, ParseMethod;
    MethodKnown(m);
    var c := CStr(line);
    var r2 := u + (b2 + v);
    BrkOfWord(m, b1 + r2);
    assert c[..|m|] == m;
    assert c[|m| + 1..] == b1[1..] + r2;
    SpanOfBlanks(b1[1..], r2);
    TargetPartRead(ParseMethod(m)[0], u, b2, v);
  }

  /** Every accepted line has that form, with a target the URL rules accept. */
  lemma AcceptedLineHasForm(line: string) returns (m: string, b1: string, u: string, b2: string, v: string)
    requires ParseRequestLine(line).Accepted?
    ensures RequestLineForm(CStr(line), m, b1, u, b2, v) && ParseUrl(u).Target?
  {
    hide CStr, Brk, Span, ParseTarget, ParseMethod;
    var r2: string;
    m, b1, r2 := CutAtBlanks(CStr(line));
    u, b2, v := AcceptedTarget(ParseMethod(m)[0], r2);
    MethodKnown(m);
    MethodIsWord(m);
  }

  lemma AcceptedTarget(verb: Method, r: string) returns (u: string, b: string, v: string)
    requires ParseTarget(verb, r).Accepted? && NUL !in r
    ensures r == u + (b + v) && Blanks(b) && Word(u) && EqNoCase(v, "HTTP/1.1") && ParseUrl(u).Target?
  {
    hide Brk, Span, EqNoCase, ParseUrl;
    u, b, v := CutAtBlanks(r);
    assert ParseUrl(u).Target?;
  }

  /** strpbrk and strspn cut a string at its first run of blanks. */
  lemma CutAtBlanks(c: string) returns (w: string, b: string, rest: string)
    requires NUL !in c && Brk(c) < |c|
    ensures c == w + (b + rest) && w == c[..Brk(c)] && Blanks(b) && NUL !in w && NUL !in rest
    ensures forall i | 0 <= i < |w| :: !Blank(w[i])
    ensures rest == AfterBlanks(c[Brk(c) + 1..])
  {
    hide Brk, Span;
    var k := Brk(c);
    var n := k + 1 + Span(c[k + 1..]);
    w, b, rest := c[..k], c[k..n], c[n..];
    BlankRun(c, k);
    assert c == w + (b + rest);
    forall ch | ch in w || ch in rest ensures ch in c {}
  }

  lemma MethodIsWord(m: string)
    requires |ParseMethod(m)| > 0
    ensures |m| > 0
  {
    assert EqNoCase(m, "GET") || EqNoCase(m, "POST");
  }

  lemma BlankRun(c: string, k: nat)
    requires k < |c| && Blank(c[k])
    ensures Blanks(c[k..k + 1 + Span(c[k + 1..])])
  {
    var t := c[k + 1..];
    var b := c[k..k + 1 + Span(t)];
    forall i | 0 <= i < |b| ensures Blank(b[i]) {
      if i > 0 { assert b[i] == t[i - 1]; }
    }
  }

  /** An absolute target and the path in it are the same resource. */
  lemma AbsoluteTarget(scheme: string, authority: string, path: string)
    requires EqNoCase(scheme, "http://") || EqNoCase(scheme, "https://")
    requires '/' !in authority && |path| > 0 && path[0] == '/'
    ensures ParseUrl(scheme + authority + path) == Target(|scheme + authority|, path)
  {
    var u := scheme + authority + path;
    assert u[|scheme|..] == authority + path;
    FindUnique(authority + path, '/', |authority|) by { assert (authority + path)[..|authority|] == authority; }
    assert u[..|scheme|] == scheme;
    assert u[|scheme + authority|..] == path;
    if EqNoCase(scheme, "http://") {
      assert StartsNoCase(u, "http://");
    } else {
      assert StartsNoCase(u, "https://");
      SchemesDiffer(u);
    }
  }

  lemma PathTarget(path: string)
    requires |path| > 0 && path[0] == '/'
    ensures ParseUrl(path) == Target(0, path)
  {
  }

  lemma SchemesDiffer(u: string)
    requires StartsNoCase(u, "https://")
    ensures !StartsNoCase(u, "http://")
  {
    StartsNoCaseAt(u, "https://", 4);
    if StartsNoCase(u, "http://") { StartsNoCaseAt(u, "http://", 4); }
  }

  lemma {:induction false} EqNoCaseSelf(a: string)
    ensures EqNoCase(a, a)
  {
    if |a| > 0 { EqNoCaseSelf(a[1..]); }
  }

  /** A request line with single blanks. */
  function PlainLine(m: string, path: string): string
  {
    m + (" " + (path + (" " + "HTTP/1.1")))
  }

  lemma PlainLineRead(m: string, path: string)
    requires Word(m) && |ParseMethod(m)| > 0 && Word(path) && path[0] == '/'
    ensures ParseRequestLine(PlainLine(m, path)) == Accepted(ParseMethod(m)[0], if path == "/" then "/judge.html" else path)
  {
    hide CStr, EqNoCase, ParseMethod, ParseRequestLine;
    var line := PlainLine(m, path);
    assert NUL !in line;
    CStrUnique(line, |line|);
    assert line[..|line|] == line;
    EqNoCaseSelf("HTTP/1.1");
    PathTarget(path);
    MethodKnown(m);
    RequestLineRead(line, m, " ", path, " ", "HTTP/1.1");
  }

  // ---- headers: what a list of header lines means -----------------------------------

  datatype Option<T> = None | Some(value: T)

  /** The value of the last header with this name (colon included). */
  function LastValue(hs: seq<string>, name: string): Option<string>
  {
    if |hs| == 0 then None
    else if LastValue(hs[1..], name).Some? then LastValue(hs[1..], name)
    else if StartsNoCase(CStr(hs[0]), name) then Some(AfterBlanks(CStr(hs[0])[|name|..]))
    else None
  }

  function ContentLength(hs: seq<string>): int
  {
    var v := LastValue(hs, "Content-length:");
    if v.Some? then Atoi(v.value) else 0
  }

  function Host(hs: seq<string>): string
  {
    var v := LastValue(hs, "Host:");
    if v.Some? then v.value else ""
  }

  predicate KeepAlive(h: string)
  {
    StartsNoCase(CStr(h), "Connection:") && EqNoCase(AfterBlanks(CStr(h)[11..]), "keep-alive")
  }

  /** The connection after one more header line. */
  function ReadHeader(c: Conn, h: string): Conn
  {
    ParseHeader(c.(checked := c.start + |h| + 2, start := c.start + |h| + 2), h).0
  }

  function ReadHeaders(c: Conn, hs: seq<string>): Conn
    decreases |hs|
  {
    if |hs| == 0 then c else ReadHeaders(ReadHeader(c, hs[0]), hs[1..])
  }

  lemma NotNamed(h: string, name: string, i: nat)
    requires i < |name| && (i < |h| ==> Lower(h[i]) != Lower(name[i]))
    ensures !StartsNoCase(h, name)
  {
    hide EqNoCase;
    if StartsNoCase(h, name) && i < |h| { StartsNoCaseAt(h, name, i); }
  }

  lemma PlainCStr(s: string)
    requires NUL !in s
    ensures CStr(s) == s
  {
    CStrUnique(s, |s|);
    assert s[..|s|] == s;
  }

  lemma JoinLine(a: string, b: string)
    requires OneLine(a) && NUL !in a && OneLine(b) && NUL !in b
    ensures OneLine(a + b) && NUL !in a + b
  {
  }

  /** A header printed as name and value has that value. */
  lemma NamedHeader(name: string, v: string)
    requires NUL !in name && NUL !in v
    ensures CStr(name + v) == name + v && StartsNoCase(name + v, name)
    ensures LastValue([name + v], name) == Some(AfterBlanks(v))
  {
    hide CStr, EqNoCase;
    var h := name + v;
    CStrUnique(h, |h|);
    assert h[..|h|] == h && h[..|name|] == name && h[|name|..] == v;
    EqNoCaseSelf(name);
    assert [h][1..] == [];
  }

  lemma NamesDiffer(t: string)
    ensures StartsNoCase(t, "Content-length:") ==> !StartsNoCase(t, "Connection:")
    ensures StartsNoCase(t, "Host:") ==> !StartsNoCase(t, "Connection:") && !StartsNoCase(t, "Content-length:")
  {
    if StartsNoCase(t, "Connection:") {
      StartsNoCaseAt(t, "Connection:", 0);
      StartsNoCaseAt(t, "Connection:", 3);
      if StartsNoCase(t, "Content-length:") { StartsNoCaseAt(t, "Content-length:", 3); }
    }
    if StartsNoCase(t, "Content-length:") { StartsNoCaseAt(t, "Content-length:", 0); }
    if StartsNoCase(t, "Host:") { StartsNoCaseAt(t, "Host:", 0); }
  }

  lemma {:induction false} HeadersMeaning(c: Conn, hs: seq<string>)
    requires forall h | h in hs :: |CStr(h)| > 0
    ensures var r := ReadHeaders(c, hs);
            && r == c.(start := r.start, checked := r.checked, host := r.host, contentLength := r.contentLength, linger := r.linger)
            && r.host == (var v := LastValue(hs, "Host:"); if v.Some? then v.value else c.host)
            && r.contentLength == (var v := LastValue(hs, "Content-length:"); if v.Some? then Atoi(v.value) else c.contentLength)
            && (r.linger <==> c.linger || exists h | h in hs :: KeepAlive(h))
    decreases |hs|
  {
    if |hs| > 0 {
      HeaderMeaning(c, hs[0]);
      HeadersMeaning(ReadHeader(c, hs[0]), hs[1..]);
      assert forall h | h in hs :: h == hs[0] || h in hs[1..];
    }
  }

  lemma HeaderMeaning(c: Conn, h: string)
    requires |CStr(h)| > 0
    ensures var r := ReadHeader(c, h);
            && r == c.(start := r.start, checked := r.checked, host := r.host, contentLength := r.contentLength, linger := r.linger)
            && r.host == (if StartsNoCase(CStr(h), "Host:") then AfterBlanks(CStr(h)[5..]) else c.host)
            && r.contentLength == (if StartsNoCase(CStr(h), "Content-length:") then Atoi(AfterBlanks(CStr(h)[15..])) else c.contentLength)
            && (r.linger <==> c.linger || KeepAlive(h))
  {
    NamesDiffer(CStr(h));
  }

  // ---- the whole message -------------------------------------------------------------

  /** A line at the scan position is found whole. */
  lemma LineRead(c: Conn, line: string, rest: string)
    requires c.Wf() && c.start == c.checked && OneLine(line)
    requires c.raw[c.start..] == line + CRLF + rest
    ensures var j := c.start + |line| + 2;
            j <= |c.raw| && ParseLine(c.raw, c.checked) == (j, LineOk) && c.raw[c.start..j - 2] == line
            && c.raw[j..] == rest
  {
    var n := c.start + |line|;
    var t := c.raw[c.start..];
    assert forall k | 0 <= k < |t| :: t[k] == c.raw[c.start + k];
    assert t[..|line|] == line && t[|line|] == CR && t[|line| + 1] == LF;
    forall k | c.start <= k < n ensures c.raw[k] != CR && c.raw[k] != LF {
      assert c.raw[k] == line[k - c.start];
    }
    var e := Eol(c.raw, c.checked);
    assert e >= n;
    assert e <= n;
    assert t[|line| + 2..] == rest;
  }

  lemma HeaderStep(c: Conn, h: string, rest: string)
    requires c.Wf() && c.phase.Header? && c.start == c.checked
    requires OneLine(h) && |CStr(h)| > 0 && c.raw[c.start..] == h + CRLF + rest
    ensures var r := ReadHeader(c, h);
            && Step(c, true) == Next(r, true) && r.raw == c.raw && r.phase.Header?
            && r.start == r.checked == c.start + |h| + 2 <= |c.raw| && r.raw[r.start..] == rest
  {
    LineRead(c, h, rest);
    HeaderLine(c, h);
  }

  lemma HeaderLine(c: Conn, h: string)
    requires c.Wf() && c.phase.Header? && c.start == c.checked && |CStr(h)| > 0
    requires var j := c.start + |h| + 2;
             j <= |c.raw| && ParseLine(c.raw, c.checked) == (j, LineOk) && c.raw[c.start..j - 2] == h
    ensures Step(c, true) == Next(ReadHeader(c, h), true)
  {
    var j := c.start + |h| + 2;
    hide HandleLine, ParseHeader;
    HandleHeaderLine(c, j);
  }

  lemma HandleHeaderLine(c: Conn, j: nat)
    requires c.Wf() && c.phase.Header? && c.checked + 2 <= j <= |c.raw|
    ensures HandleLine(c, j) == After(ParseHeader(c.(checked := j, start := j), c.raw[c.start..j - 2]), true)
  {
    hide ParseHeader, ParseRequestLine, ParseContent;
  }

  lemma RequestLineStep(c: Conn, line: string, rest: string)
    requires c.Wf() && c.phase.RequestLine? && c.start == c.checked == 0
    requires OneLine(line) && c.raw == line + CRLF + rest
    ensures var j := |line| + 2;
            && c.raw[j..] == rest
            && match ParseRequestLine(line)
               case Rejected(e) => Run(c, true) == (c.(checked := j, start := j), e)
               case Accepted(verb, url) =>
                 Run(c, true) == Run(c.(checked := j, start := j, phase := Header, verb := verb, url := url), true)
  {
    hide ParseRequestLine, ParseHeader, ParseContent, ParseLine;
    assert c.raw[0..] == c.raw;
    LineRead(c, line, rest);
  }

  lemma {:induction false} HeadersRead(c: Conn, hs: seq<string>, tail: string)
    requires c.Wf() && c.phase.Header? && c.start == c.checked
    requires forall h | h in hs :: OneLine(h) && |CStr(h)| > 0
    requires c.raw[c.start..] == PrintHeaders(hs) + tail
    ensures var r := ReadHeaders(c, hs);
            r.Wf() && r.start == r.checked == c.start + |PrintHeaders(hs)| && r.raw == c.raw
            && r.raw[r.start..] == tail && r.phase.Header? && Run(c, true) == Run(r, true)
    decreases |hs|
  {
    if |hs| > 0 {
      var h, rest := hs[0], PrintHeaders(hs[1..]) + tail;
      assert PrintHeaders(hs) + tail == h + CRLF + rest;
      HeaderStep(c, h, rest);
      HeadersRead(ReadHeader(c, h), hs[1..], tail);
    }
  }

  /** The message theorem: a printed message is read back as its request line, its
      headers' meaning and its body, and wants exactly the announced body length. */
  lemma MessageRead(m: Message)
    requires m.Valid()
    ensures var (w, code) := ProcessRead(Feed(Fresh, Print(m)));
            match ParseRequestLine(m.line)
            case Rejected(e) => code == e
            case Accepted(verb, url) =>
              var n := ContentLength(m.headers);
              var head := |Print(m)| - |m.body|;
              && w.verb == verb && w.url == url && w.host == Host(m.headers) && w.contentLength == n
              && (w.linger <==> exists h | h in m.headers :: KeepAlive(h))
              && (n == 0 ==> code == GetRequest && w.phase.Header? && w.checked == head && w.body == "")
              && (n > |m.body| ==> code == NoRequest && w.phase.Content?)
              && (n < 0 ==> w.phase.Content? && w.checked == head)
              && (n < 0 ==> code == if 0 <= head + n < READ_BUFFER_SIZE then GetRequest else Fault)
              && (0 < n <= |m.body| ==>
                    && w.phase.Content? && w.checked == head && head + n <= |Print(m)|
                    && code == (if head + n < READ_BUFFER_SIZE then GetRequest else Fault)
                    && (code == GetRequest ==> w.body == CStr(m.body[..n])))
  {
    hide Run, Step, ReadHeaders, LastValue, ParseRequestLine, KeepAlive;
    var c := Feed(Fresh, Print(m));
    assert c.raw == Print(m);
    RequestLineStep(c, m.line, PrintHeaders(m.headers) + (CRLF + m.body));
    match ParseRequestLine(m.line)
    case Rejected(e) =>
    case Accepted(verb, url) =>
      var j := |m.line| + 2;
      var d := c.(checked := j, start := j, phase := Header, verb := verb, url := url);
      HeadersRead(d, m.headers, CRLF + m.body);
      HeadersMeaning(d, m.headers);
      var r := ReadHeaders(d, m.headers);
      assert r.start + 2 + |m.body| == |r.raw|;
      BlankLineRead(r, m.body);
  }

  lemma BlankLineRead(r: Conn, body: string)
    requires r.Wf() && r.phase.Header? && r.start == r.checked && r.start + 2 + |body| == |r.raw|
    requires r.raw[r.start..] == CRLF + body
    ensures var (w, code) := Run(r, true);
            var n := r.contentLength;
            var head := r.start + 2;
            && w == r.(checked := w.checked, start := w.start, phase := w.phase, body := w.body)
            && (n == 0 ==> code == GetRequest && w.phase.Header? && w.checked == head && w.body == r.body)
            && (n > |body| ==> code == NoRequest && w.phase.Content?)
            && (n < 0 ==> w.phase.Content? && w.checked == head)
            && (n < 0 ==> code == if 0 <= head + n < READ_BUFFER_SIZE then GetRequest else Fault)
            && (0 < n <= |body| ==>
                  && w.phase.Content? && w.checked == head
                  && code == (if head + n < READ_BUFFER_SIZE then GetRequest else Fault)
                  && (code == GetRequest ==> w.body == CStr(body[..n])))
  {
    hide ParseLine, HandleLine, ParseContent, CStr, Step;
    BlankLineStep(r, body);
    var n := r.contentLength;
    if n != 0 {
      var e := r.(checked := r.start + 2, start := r.start + 2, phase := Content);
      BodyKeepsFields(e, true);
      if n > |body| { ShortBodyStays(e, true); } else { BodyRead(e, body); }
    }
  }

  lemma BlankLineStep(r: Conn, body: string)
    requires r.Wf() && r.phase.Header? && r.start == r.checked
    requires r.raw[r.start..] == CRLF + body
    ensures var d := r.(checked := r.start + 2, start := r.start + 2);
            d.Wf() && d.raw[d.start..] == body
            && Run(r, true) == if d.contentLength == 0 then (d, GetRequest) else Run(d.(phase := Content), true)
  {
    hide ParseRequestLine, ParseContent, ParseLine, StartsNoCase;
    LineRead(r, "", body);
  }

  lemma BodyRead(e: Conn, body: string)
    requires e.Wf() && e.phase.Content? && e.start == e.checked && e.raw[e.start..] == body
    requires e.contentLength <= |body|
    ensures var (w, code) := Run(e, true);
            w.checked == e.checked
            && (0 < e.contentLength && e.checked + e.contentLength < READ_BUFFER_SIZE ==>
                  code == GetRequest && w.body == CStr(body[..e.contentLength]))
            && (e.checked + e.contentLength >= READ_BUFFER_SIZE ==> code == Fault)
            && (e.contentLength < 0 ==> code == if 0 <= e.checked + e.contentLength < READ_BUFFER_SIZE then GetRequest else Fault)
  {
    hide CStr;
  }
}
