/** Cuts and bad lines on printed messages: a POST whose body arrives in two reads, and
    headers with a malformed line among them. */
module HttpBodyCut {
  import opened CStrings
  import opened HttpMachine
  import opened HttpMessage
  import opened HttpSplit
  import opened Sequences

  /** A first read ends inside the body and a second one brings the rest.  The
      request is answered if and only if the first body byte is one at which the
      line scan stops at once; a form body, which begins with a letter, is not. */
  lemma BodyInTwoReads(m: Message, first: string, rest: string)
    requires m.Valid() && ParseRequestLine(m.line).Accepted?
    requires 0 < |m.body| == ContentLength(m.headers) && |Print(m)| < READ_BUFFER_SIZE
    requires Print(m) == first + rest && |Print(m)| - |m.body| < |first| < |Print(m)|
    ensures ProcessRead(Feed(Fresh, Print(m))).1 == GetRequest
    ensures Deliver(Fresh, [first, rest]).1 != NoRequest
            <==> m.body[0] == LF || (m.body[0] == CR && (|first| + |m.body| == |Print(m)| + 1 || m.body[1] != LF))
  {
    hide Run, ParseRequestLine, ContentLength, Host, Print;
    var c := Feed(Fresh, first);
    MessageRead(m);
    assert Feed(c, rest) == Feed(Fresh, Print(m));
    HarmfulCutStalls(c, rest);
    AnsweredExactlyAtLength(c, rest);
    TwoPieces(first, rest);
    BodyIsSuffix(m);
  }

  lemma BodyIsSuffix(m: Message)
    ensures |m.body| <= |Print(m)|
    ensures |m.body| > 0 ==> Print(m)[|Print(m)| - |m.body|] == m.body[0]
    ensures |m.body| > 1 ==> Print(m)[|Print(m)| - |m.body| + 1] == m.body[1]
  {
    var h := m.line + CRLF + (PrintHeaders(m.headers) + CRLF);
    assert Print(m) == h + m.body;
  }

  lemma TwoPieces(a: string, b: string)
    ensures Deliver(Fresh, [a, b]) ==
            var (c1, code) := Run(Feed(Fresh, a), true);
            if code != NoRequest then (c1, code) else Run(Feed(c1, b), true)
  {
    hide Run;
    assert [a, b][1..] == [b];
  }

  /** A login form as a browser posts it. */
  const LOGIN: Message :=
    Message(PlainLine("POST", "/2"), ["Content-length:" + "9"], "user=a&pa")

  lemma LoginLine()
    ensures ParseRequestLine(LOGIN.line).Accepted?
  {
    hide CStr, Brk, Span, ParseRequestLine;
    EqNoCaseSelf("POST");
    assert ParseMethod("POST") == [POST];
    PlainLineRead("POST", "/2");
  }

  lemma LoginLength()
    ensures ContentLength(LOGIN.headers) == 9 && |CStr(LOGIN.headers[0])| > 0
  {
    hide CStr, EqNoCase, LastValue;
    NamedHeader("Content-length:", "9");
    SpanUnique("9", 0);
    assert AfterBlanks("9") == "9";
    assert Atoi("9") == Digits("9", 0) == Digits("9"[1..], 9) == 9;
  }

  lemma LoginReads()
    ensures ParseRequestLine(LOGIN.line).Accepted? && ContentLength(LOGIN.headers) == 9 && LOGIN.Valid()
  {
    hide CStr, ParseRequestLine, ContentLength;
    LoginLine();
    LoginLength();
  }

  /** Concretely: a login form cut after its first byte is never answered. */
  lemma LoginFormStalls()
    ensures var s := Print(LOGIN);
            var n := |s| - 8;
            && 0 <= n && ProcessRead(Feed(Fresh, s)).1 == GetRequest
            && Deliver(Fresh, [s[..n], s[n..]]).1 == NoRequest
  {
    hide Run, ParseRequestLine, ContentLength, Print, Deliver;
    LoginReads();
    BodyIsSuffix(LOGIN);
    PrintLength(LOGIN, LOGIN.headers[0]);
    var s := Print(LOGIN);
    assert s == s[..|s| - 8] + s[|s| - 8..];
    BodyInTwoReads(LOGIN, s[..|s| - 8], s[|s| - 8..]);
  }

  lemma PrintLength(m: Message, h: string)
    requires m.headers == [h]
    ensures |Print(m)| == |m.line| + |h| + |m.body| + 6
  {
    assert PrintHeaders([h]) == h + CRLF + PrintHeaders([]);
  }

  // ---- a malformed header line --------------------------------------------------------------

  lemma ScanFrom(raw: string, i: nat)
    requires i <= |raw|
    ensures var (j, status) := ParseLine(raw[i..], 0); ParseLine(raw, i) == (i + j, status)
  {
    var t := raw[i..];
    var e := Eol(t, 0);
    assert forall k | 0 <= k < |t| :: t[k] == raw[i + k];
    forall k | i <= k < i + e ensures raw[k] != CR && raw[k] != LF {
      assert raw[k] == t[k - i];
    }
    EolUnique(raw, i, i + e);
  }

  /** A request line and headers, however many, and then a line that is malformed, with
      whatever follows: no call ever answers, and none changes anything but the input. */
  lemma BadHeaderStalls(line: string, hs: seq<string>, rest: string, pieces: seq<string>)
    requires OneLine(line) && ParseRequestLine(line).Accepted? && |pieces| > 0
    requires (forall h | h in hs :: OneLine(h) && |CStr(h)| > 0) && ParseLine(rest, 0).1.LineBad?
    ensures var (w, code) := ProcessRead(Feed(Fresh, line + CRLF + (PrintHeaders(hs) + rest)));
            code == NoRequest && Deliver(w, pieces) == (Feed(w, Concat(pieces)), NoRequest)
  {
    hide Run, ParseRequestLine, ParseLine, ReadHeaders, Deliver;
    var c := Feed(Fresh, line + CRLF + (PrintHeaders(hs) + rest));
    assert c.raw == line + CRLF + (PrintHeaders(hs) + rest);
    RequestLineStep(c, line, PrintHeaders(hs) + rest);
    var a, j := ParseRequestLine(line), |line| + 2;
    var d := c.(checked := j, start := j, phase := Header, verb := a.verb, url := a.url);
    HeadersRead(d, hs, rest);
    var r := ReadHeaders(d, hs);
    ScanFrom(r.raw, r.checked);
    StopsAtBadLine(r);
    BadLineAbsorbs(c, pieces);
  }

  lemma StopsAtBadLine(r: Conn)
    requires r.Wf() && r.phase.Header? && ParseLine(r.raw, r.checked).1.LineBad?
    ensures var (w, code) := Run(r, true);
            code == NoRequest && !w.phase.Content? && ParseLine(w.raw, w.checked).1.LineBad?
  {
    ParseLineFeed(r.raw, "", r.checked);
  }
}
