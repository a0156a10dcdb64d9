/** The connection's request parser as the server runs it: one fixed buffer that is
    cut into C strings in place, three indices, and pointers kept as offsets. */
module HttpConn {
  import opened CStrings
  import opened HttpMachine
  import opened Sequences

  const NULL: int := -1

  /** How a run of recv calls on a non-blocking socket ends. */
  datatype RecvEnd = Again | Closed | Failed

  lemma NothingRead(chunks: seq<string>)
    requires forall d | d in chunks :: |d| > 0
    ensures |Concat(chunks)| == 0 <==> |chunks| == 0
  {
    if |chunks| > 0 { assert chunks[0] in chunks; }
  }

  // ---- C strings in a buffer -----------------------------------------------------

  /** The buffer holds the NUL-terminated string `s` at `at`, ending before `limit`. */
  predicate Holds(b: seq<char>, at: int, s: string, limit: int)
  {
    && 0 <= at && at + |s| < limit <= |b|
    && (forall i | 0 <= i < |s| :: b[at + i] == s[i]) && NUL !in s && b[at + |s|] == NUL
  }

  lemma HeldString(b: seq<char>, at: int, s: string, limit: int)
    requires Holds(b, at, s, limit)
    ensures 0 <= at && at + |s| < limit <= |b| && CStr(b[at..]) == s
    ensures b[at] == if |s| == 0 then NUL else s[0]
  {
    hide CStr;
    assert b[at..][..|s|] == s;
    CStrUnique(b[at..], |s|);
  }

  lemma StillHolds(b: seq<char>, b': seq<char>, at: int, s: string, limit: int, limit': int)
    requires Holds(b, at, s, limit) && limit <= limit' <= |b'| == |b|
    requires forall i | 0 <= i < limit :: b'[i] == b[i]
    ensures Holds(b', at, s, limit')
  {
  }

  /** A NUL stored into a C string cuts it in two. */
  lemma CutString(b: seq<char>, at: int, s: string, limit: int, k: nat)
    requires Holds(b, at, s, limit) && k < |s|
    ensures var b' := b[at + k := NUL];
            Holds(b', at, s[..k], limit) && Holds(b', at + k + 1, s[k + 1..], limit)
  {
    SuffixHeld(b, at, s, limit, k + 1);
  }

  lemma SuffixHeld(b: seq<char>, at: int, s: string, limit: int, k: nat)
    requires Holds(b, at, s, limit) && k <= |s|
    ensures Holds(b, at + k, s[k..], limit)
  {
    assert forall i | 0 <= i < |s| - k :: s[k..][i] == s[k + i];
  }

  lemma BlanksSkipped(b: seq<char>, at: int, s: string, limit: int)
    requires Holds(b, at, s, limit)
    ensures 0 <= at && at + |s| < limit <= |b| && CStr(b[at..]) == s
    ensures Holds(b, at + Span(s), AfterBlanks(s), limit)
  {
    hide Holds, CStr, Span;
    HeldString(b, at, s, limit);
    SuffixHeld(b, at, s, limit, Span(s));
  }

  /** What skipping the scheme and authority of the URL `u` held at `at` must come to. */
  ghost predicate Skipped(b: seq<char>, at: int, u: string, limit: int, url: int, code: Code)
  {
    match ParseUrl(u)
    case Undefined => code == Fault
    case Malformed => code == NoRequest && NULL <= url < |b| && (url == NULL || b[url] != '/')
    case Target(p, t) => code == NoRequest && 0 <= url < |b| && url == at + p && b[url] == '/' && Holds(b, url, t, limit)
  }

  /** The path found behind a scheme of `n` characters. */
  lemma PathHeld(b: seq<char>, at: int, u: string, limit: int, n: nat)
    requires Holds(b, at, u, limit) && n <= |u| && Find(u[n..], '/') < |u| - n
    requires var p := n + Find(u[n..], '/'); ParseUrl(u) == Target(p, u[p..])
    ensures var p := n + Find(u[n..], '/');
            Skipped(b, at, u, limit, at + p, NoRequest) && 0 <= at + p <= |b| && !StartsNoCase(CStr(b[at + p..]), "https://")
  {
    hide Holds, CStr, EqNoCase, ParseUrl;
    var p := n + Find(u[n..], '/');
    SuffixHeld(b, at, u, limit, p);
    HeldString(b, at + p, u[p..], limit);
    PathIsNotAbsolute(u[p..]);
  }

  lemma RelativeHeld(b: seq<char>, at: int, u: string, limit: int)
    requires Holds(b, at, u, limit) && !StartsNoCase(u, "http://") && !StartsNoCase(u, "https://")
    ensures Skipped(b, at, u, limit, at, NoRequest)
  {
    hide Holds, CStr, EqNoCase;
    HeldString(b, at, u, limit);
    assert u[0..] == u;
  }

  lemma PageAppended(b: seq<char>, at: int, limit: int)
    requires 0 <= at && at + 11 < limit <= |b|
    requires b[at] == '/' && b[at + 1..at + 11] == "judge.html" && b[at + 11] == NUL
    ensures Holds(b, at, "/judge.html", limit)
  {
    var t := b[at..at + 11];
    assert t == ['/'] + b[at + 1..at + 11] == "/judge.html";
    assert forall i | 0 <= i < 11 :: t[i] == b[at + i];
  }

  lemma PathIsNotAbsolute(p: string)
    requires |p| > 0 && p[0] == '/'
    ensures !StartsNoCase(p, "https://")
  {
  }

  lemma CStrOfPrefix(b: seq<char>, at: nat, n: nat)
    requires at + n < |b| && b[at + n] == NUL
    ensures CStr(b[at..]) == CStr(b[at..at + n])
  {
    var p := CStr(b[at..at + n]);
    assert b[at..][..|p|] == p;
    assert b[at..at + n][..|p|] == p;
    CStrUnique(b[at..], |p|);
  }

  // ---- the connection --------------------------------------------------------------

  class HttpConn {
    const buf: array<char>
    var readIdx: int
    var checkedIdx: int
    var startLine: int
    var phase: Phase
    var verb: Method
    var url: int
    var version: int
    var host: int
    var contentLength: int
    var linger: bool
    var str: int
    ghost var model: Conn

    /** The plain fields say what the value-level machine says. */
    ghost predicate Scalars()
      reads this
    {
      && buf.Length == READ_BUFFER_SIZE
      && model.Wf() && |model.raw| == readIdx <= READ_BUFFER_SIZE
      && model.checked == checkedIdx && model.start == startLine
      && model.phase == phase && model.verb == verb
      && model.contentLength == contentLength && model.linger == linger
    }

    /** URL and host are intact C strings below `limit`, the start of a line. */
    ghost predicate Strings(limit: int)
      reads this, buf
    {
      && (phase.RequestLine? || Holds(buf[..], url, model.url, limit))
      && (if host == NULL then model.host == "" else Holds(buf[..], host, model.host, limit))
    }

    /** From the current line on the buffer holds the bytes as they came, then NULs. */
    ghost predicate Buffer()
      reads this, buf
      requires Scalars()
    {
      && (forall i | startLine <= i < readIdx :: buf[i] == model.raw[i])
      && (forall i | readIdx <= i < READ_BUFFER_SIZE :: buf[i] == NUL)
      && (checkedIdx > 0 ==> buf[checkedIdx - 1] != CR)
    }

    ghost predicate Valid()
      reads this, buf
    {
      Scalars() && Strings(startLine) && Buffer()
    }

    constructor ()
      ensures Valid() && fresh(buf) && model == Fresh
    {
      buf := new char[READ_BUFFER_SIZE](_ => NUL);
      readIdx, checkedIdx, startLine := 0, 0, 0;
      phase, verb, linger, contentLength := RequestLine, GET, false, 0;
      url, version, host, str := NULL, NULL, NULL, NULL;
      model := Fresh;
    }

    /** Reads until the socket would block.  A full buffer makes recv return 0,
        which counts as a closed connection. */
    method ReadOnce(chunks: seq<string>, end: RecvEnd) returns (ok: bool)
      requires Valid()
      requires forall d | d in chunks :: |d| > 0
      requires readIdx + |Concat(chunks)| <= READ_BUFFER_SIZE
      modifies this, buf
      ensures Valid() && model == Feed(old(model), Concat(chunks))
      ensures ok <==> readIdx < READ_BUFFER_SIZE && end == Again
    {
      ghost var m0 := model;
      if readIdx >= READ_BUFFER_SIZE {
        NothingRead(chunks);
        assert m0.raw + "" == m0.raw;
        return false;
      }
      var i := 0;
      assert chunks[0..] == chunks;
      while readIdx < READ_BUFFER_SIZE && i < |chunks|
        invariant 0 <= i <= |chunks| && Valid()
        invariant model == m0.(raw := model.raw)
        invariant model.raw + Concat(chunks[i..]) == m0.raw + Concat(chunks)
      {
        assert chunks[i..][1..] == chunks[i + 1..];
        assert chunks[i] in chunks;
        assert model.raw + Concat(chunks[i..]) == model.raw + chunks[i] + Concat(chunks[i + 1..]);
        Append(chunks[i]);
        i := i + 1;
      }
      assert forall d | d in chunks[i..] :: d in chunks;
      NothingRead(chunks[i..]);
      assert |Concat(chunks[i..])| == 0;
      ok := readIdx < READ_BUFFER_SIZE && end == Again;
    }

    /** One successful recv. */
    method Append(data: string)
      requires Valid() && readIdx + |data| <= READ_BUFFER_SIZE
      modifies this`readIdx, this`model, buf
      ensures Valid() && model == Feed(old(model), data) && readIdx == old(readIdx) + |data|
    {
      ghost var b := buf[..];
      for k := 0 to |data|
        modifies buf
        invariant forall i | 0 <= i < READ_BUFFER_SIZE && !(readIdx <= i < readIdx + k) :: buf[i] == b[i]
        invariant forall i | readIdx <= i < readIdx + k :: buf[i] == data[i - readIdx]
      {
        buf[readIdx + k] := data[k];
      }
      readIdx := readIdx + |data|;
      model := Feed(model, data);
      KeptStrings(b, startLine);
    }

    /** The line scanner.  It never finds LF behind a CR it has passed: it does not
        pass a CR without its LF. */
    method ParseLine() returns (status: LineStatus)
      requires Valid()
      modifies this`checkedIdx, buf
      ensures (checkedIdx, status) == HttpMachine.ParseLine(model.raw, old(checkedIdx))
      ensures status.LineOk? ==> old(checkedIdx) + 2 <= checkedIdx <= readIdx
      ensures status.LineOk? ==> buf[..] == old(buf[..])[checkedIdx - 2 := NUL][checkedIdx - 1 := NUL]
      ensures !status.LineOk? ==> buf[..] == old(buf[..]) && (checkedIdx > 0 ==> buf[checkedIdx - 1] != CR)
    {
      ghost var e := Eol(model.raw, checkedIdx);
      while checkedIdx < readIdx
        invariant old(checkedIdx) <= checkedIdx <= e <= readIdx
        invariant buf[..] == old(buf[..])
        invariant checkedIdx > 0 ==> buf[checkedIdx - 1] != CR
        decreases readIdx - checkedIdx
      {
        var temp := buf[checkedIdx];
        if temp == CR {
          if checkedIdx + 1 == readIdx {
            return LineOpen;
          } else if buf[checkedIdx + 1] == LF {
            buf[checkedIdx] := NUL;
            checkedIdx := checkedIdx + 1;
            buf[checkedIdx] := NUL;
            checkedIdx := checkedIdx + 1;
            return LineOk;
          }
          return LineBad;
        } else if temp == LF {
          if checkedIdx > 1 && buf[checkedIdx - 1] == CR {
            assert false;
          }
          return LineBad;
        }
        checkedIdx := checkedIdx + 1;
      }
      return LineOpen;
    }

    /** strcat(m_url, "judge.html"): overwrites the NUL at `at` and what follows. */
    method Append10(at: int, text: string)
      requires 0 <= at && at + |text| < buf.Length
      modifies buf
      ensures forall i | 0 <= i < buf.Length && !(at <= i <= at + |text|) :: buf[i] == old(buf[i])
      ensures buf[at..at + |text|] == text && buf[at + |text|] == NUL
    {
      for k := 0 to |text|
        invariant forall i | 0 <= i < buf.Length && !(at <= i < at + k) :: buf[i] == old(buf[i])
        invariant forall i | at <= i < at + k :: buf[i] == text[i - at]
      {
        buf[at + k] := text[k];
      }
      buf[at + |text|] := NUL;
    }

    /** The C string at an offset. */
    ghost function At(at: int): string
      reads this, buf
      requires 0 <= at <= buf.Length
    {
      CStr(buf[at..])
    }

    /** `if (strlen(m_url) == 1) strcat(m_url, "judge.html")`: the blank after the URL,
        the 8 bytes of the version and two NULs are just room enough. */
    method AppendDefaultPage(ghost t: string, ghost limit: int)
      requires buf.Length == READ_BUFFER_SIZE && Holds(buf[..], url, t, limit) && |t| > 0 && t[0] == '/'
      requires url + |t| + 9 < limit && limit + 1 == checkedIdx <= buf.Length
      modifies buf
      ensures forall i | 0 <= i < buf.Length && !(url + |t| <= i < checkedIdx) :: buf[i] == old(buf[i])
      ensures buf[limit] == old(buf[limit]) || buf[limit] == NUL
      ensures Holds(buf[..], url, DefaultPage(t), checkedIdx)
      ensures t == "/" ==> Holds(buf[..], url, "/judge.html", checkedIdx)
      ensures t != "/" ==> Holds(buf[..], url, t, checkedIdx)
    {
      hide Holds, CStr;
      ghost var b := buf[..];
      HeldString(b, url, t, limit);
      if |CStr(buf[url..])| == 1 {
        assert t == "/";
        Append10(url + 1, "judge.html");
        PageAppended(buf[..], url, checkedIdx);
      } else {
        StillHolds(b, buf[..], url, t, limit, checkedIdx);
      }
    }

    /** What the request-line methods leave behind for the value-level result `r`. */
    ghost predicate Answers(r: RequestLineResult, code: Code)
      reads this, buf
    {
      match r
      case Rejected(e) => code == e
      case Accepted(m, u) => code == NoRequest && phase == Header && verb == m && Holds(buf[..], url, u, checkedIdx)
    }

    /** Skips "http://" or "https://" with its authority, wants a path, and gives the
        root its default page. */
    method ResolveUrl(ghost u: string, ghost limit: int) returns (code: Code)
      requires buf.Length == READ_BUFFER_SIZE && Holds(buf[..], url, u, limit)
      requires url + |u| + 9 < limit && limit + 1 == checkedIdx <= buf.Length
      modifies this`url, this`phase, buf
      ensures forall i | 0 <= i < buf.Length && !(old(url) <= i < checkedIdx) :: buf[i] == old(buf[i])
      ensures buf[limit] == old(buf[limit]) || buf[limit] == NUL
      ensures Answers(HttpMachine.ResolveUrl(verb, u), code)
    {
      hide Holds, CStr, StartsNoCase, Find;
      HeldString(buf[..], url, u, limit);
      code := SkipSchemes(u, limit);
      if code != NoRequest { return; }
      if url == NULL || buf[url] != '/' { return BadRequest; }
      ghost var t := u[url - old(url)..];
      assert ParseUrl(u) == Target(url - old(url), t);
      AppendDefaultPage(t, limit);
      phase := Header;
    }

    /** Moves m_url past an absolute URL's scheme and authority; NULL when no '/' follows. */
    method SkipSchemes(ghost u: string, ghost limit: int) returns (code: Code)
      requires buf.Length == READ_BUFFER_SIZE && Holds(buf[..], url, u, limit)
      modifies this`url
      ensures Skipped(buf[..], old(url), u, limit, url, code)
    {
      hide Holds, CStr, EqNoCase, Find;
      ghost var base := url;
      HeldString(buf[..], url, u, limit);
      if StartsNoCase(CStr(buf[url..]), "http://") {
        SuffixHeld(buf[..], base, u, limit, 7);
        url := SkipAuthority(7, u[7..], limit);
        if url == NULL { return Fault; }
        PathHeld(buf[..], base, u, limit, 7);
      } else if StartsNoCase(CStr(buf[url..]), "https://") {
        SuffixHeld(buf[..], base, u, limit, 8);
        url := SkipAuthority(8, u[8..], limit);
        if url != NULL { PathHeld(buf[..], base, u, limit, 8); }
      } else {
        RelativeHeld(buf[..], base, u, limit);
      }
      return NoRequest;
    }

    /** strchr for '/' past a scheme of `n` characters: an offset, or NULL. */
    method SkipAuthority(n: int, ghost rest: string, ghost limit: int) returns (p: int)
      requires buf.Length == READ_BUFFER_SIZE && 0 <= url && 0 <= n && Holds(buf[..], url + n, rest, limit)
      ensures p == if Find(rest, '/') == |rest| then NULL else url + n + Find(rest, '/')
    {
      HeldString(buf[..], url + n, rest, limit);
      var s := CStr(buf[url + n..]);
      p := if Find(s, '/') == |s| then NULL else url + n + Find(s, '/');
    }

    /** `strpbrk`, a NUL over the blank found, and `strspn` over the blanks after it. */
    method CutAtBlanks(at: int, ghost c: string, ghost limit: int) returns (next: int)
      requires buf.Length == READ_BUFFER_SIZE && Holds(buf[..], at, c, limit)
      modifies buf
      ensures next == NULL <==> Brk(c) == |c|
      ensures next == NULL ==> buf[..] == old(buf[..])
      ensures next != NULL ==>
                && buf[..] == old(buf[..])[at + Brk(c) := NUL] && at + Brk(c) < next
                && Holds(buf[..], at, c[..Brk(c)], limit)
                && Holds(buf[..], next, AfterBlanks(c[Brk(c) + 1..]), limit)
    {
      hide Holds, CStr, Brk, Span;
      ghost var b := buf[..];
      HeldString(b, at, c, limit);
      var k := Brk(CStr(buf[at..]));
      if k == |CStr(buf[at..])| { return NULL; }
      CutString(b, at, c, limit, k);
      buf[at + k] := NUL;
      assert buf[..] == b[at + k := NUL];
      next := at + k + 1;
      BlanksSkipped(buf[..], next, c[k + 1..], limit);
      next := next + Span(CStr(buf[next..]));
      assert Holds(buf[..], next, AfterBlanks(c[k + 1..]), limit);
      assert Brk(c) == k;
    }

    /** The target and version, from m_url on. */
    method ParseTarget(ghost u: string, ghost limit: int) returns (code: Code)
      requires buf.Length == READ_BUFFER_SIZE && Holds(buf[..], url, u, limit)
      requires limit + 1 == checkedIdx <= buf.Length
      modifies this`url, this`version, this`phase, buf
      ensures forall i | 0 <= i < buf.Length && !(old(url) <= i < checkedIdx) :: buf[i] == old(buf[i])
      ensures buf[limit] == old(buf[limit]) || buf[limit] == NUL
      ensures Answers(HttpMachine.ParseTarget(verb, u), code)
    {
      hide Holds, CStr, Brk, Span, EqNoCase;
      HeldString(buf[..], url, u, limit);
      version := CutAtBlanks(url, u, limit);
      if version == NULL { return BadRequest; }
      ghost var w := AfterBlanks(u[Brk(u) + 1..]);
      HeldString(buf[..], version, w, limit);
      if !EqNoCase(CStr(buf[version..]), "HTTP/1.1") { return BadRequest; }
      code := ResolveUrl(u[..Brk(u)], limit);
    }

    method ParseMethod(m: string) returns (ok: bool)
      modifies this`verb
      ensures ok <==> |HttpMachine.ParseMethod(m)| == 1
      ensures ok ==> verb == HttpMachine.ParseMethod(m)[0]
    {
      if EqNoCase(m, "GET") {
        verb := GET;
      } else if EqNoCase(m, "POST") {
        verb := POST;
      } else {
        return false;
      }
      return true;
    }

    /** The request line at `text`.  The NULs it stores and the default page name it
        appends all stay below m_checked_idx, so the next line is untouched. */
    method ParseRequestLine(text: int, ghost line: string) returns (code: Code)
      requires buf.Length == READ_BUFFER_SIZE && 0 < checkedIdx <= buf.Length
      requires Holds(buf[..], text, CStr(line), checkedIdx - 1)
      modifies this`url, this`version, this`verb, this`phase, buf
      ensures forall i | 0 <= i < buf.Length && !(text <= i < checkedIdx) :: buf[i] == old(buf[i])
      ensures buf[checkedIdx - 1] == old(buf[checkedIdx - 1]) || buf[checkedIdx - 1] == NUL
      ensures Answers(HttpMachine.ParseRequestLine(line), code)
    {
      hide Holds, CStr, Brk, HttpMachine.ParseMethod, HttpMachine.ParseTarget;
      ghost var c := CStr(line);
      ghost var limit := checkedIdx - 1;
      url := CutAtBlanks(text, c, limit);
      if url == NULL { return BadRequest; }
      HeldString(buf[..], text, c[..Brk(c)], limit);
      var ok := ParseMethod(CStr(buf[text..]));
      if !ok { return BadRequest; }
      code := ParseTarget(AfterBlanks(c[Brk(c) + 1..]), limit);
    }

    method ParseHeaders(text: int, ghost line: string) returns (code: Code)
      requires Scalars() && phase.Header? && Strings(text) && Holds(buf[..], text, CStr(line), startLine)
      modifies this`phase, this`linger, this`contentLength, this`host, this`model
      ensures Scalars() && Strings(startLine)
      ensures (model, code) == HttpMachine.ParseHeader(old(model), line)
    {
      hide Holds, CStr, StartsNoCase, EqNoCase, Span, AfterBlanks, Atoi;
      ghost var t := CStr(line);
      HeldString(buf[..], text, t, startLine);
      StringsRise(text, startLine);
      var s := CStr(buf[text..]);
      code := NoRequest;
      if buf[text] == NUL {
        if contentLength != 0 {
          phase := Content;
        } else {
          code := GetRequest;
        }
      } else if StartsNoCase(s, "Connection:") {
        if EqNoCase(AfterBlanks(s[11..]), "keep-alive") { linger := true; }
      } else if StartsNoCase(s, "Content-length:") {
        contentLength := Atoi(AfterBlanks(s[15..]));
      } else if StartsNoCase(s, "Host:") {
        host := text + 5 + Span(s[5..]);
        HostHeld(text, t);
      }
      model := HttpMachine.ParseHeader(model, line).0;
    }

    lemma HostHeld(text: int, t: string)
      requires Holds(buf[..], text, t, startLine) && |t| >= 5
      ensures Holds(buf[..], text + 5 + Span(t[5..]), AfterBlanks(t[5..]), startLine)
    {
      hide Holds, Span;
      SuffixHeld(buf[..], text, t, startLine, 5);
      SuffixHeld(buf[..], text + 5, t[5..], startLine, Span(t[5..]));
    }

    lemma StringsRise(limit: int, limit': int)
      requires Strings(limit) && 0 <= limit <= limit' <= buf.Length
      ensures Strings(limit')
    {
      if !phase.RequestLine? { StillHolds(buf[..], buf[..], url, model.url, limit, limit'); }
      if host != NULL { StillHolds(buf[..], buf[..], host, model.host, limit, limit'); }
    }

    /** The body, from `text` on, where the buffer holds `t` and then a NUL. */
    method ParseContent(text: int, ghost t: string) returns (code: Code)
      requires Scalars() && 0 <= text && text + |t| <= buf.Length
      requires Strings(text)
      requires forall i | 0 <= i < |t| :: buf[text + i] == t[i]
      requires text + |t| < buf.Length ==> buf[text + |t|] == NUL
      modifies this`str, this`model, buf
      ensures Scalars() && (model, code) == HttpMachine.ParseContent(old(model), text, t)
      ensures code == NoRequest ==> buf[..] == old(buf[..])
      ensures code == GetRequest && contentLength >= 0 ==>
                Strings(text) && str == text < buf.Length && CStr(buf[text..]) == model.body
    {
      ghost var b := buf[..];
      if readIdx < contentLength + checkedIdx { return NoRequest; }
      if !(0 <= text + contentLength < buf.Length) { return Fault; }
      buf[text + contentLength] := NUL;
      str := text;
      model := HttpMachine.ParseContent(model, text, t).0;
      if contentLength >= 0 {
        KeptStrings(b, text);
        BodyHeld(b, text, t, contentLength);
      }
      return GetRequest;
    }

    /** Cuts off the current line: scans it, and on success makes it a C string. */
    method TakeLine() returns (status: LineStatus, ghost line: string)
      requires Valid()
      modifies this`checkedIdx, this`startLine, this`model, buf
      ensures (checkedIdx, status) == HttpMachine.ParseLine(old(model).raw, old(checkedIdx))
      ensures !status.LineOk? ==> model == old(model).(checked := checkedIdx) && Valid()
      ensures status.LineOk? ==>
                && model == old(model).(checked := checkedIdx, start := checkedIdx)
                && old(checkedIdx) + 2 <= checkedIdx && line == model.raw[old(startLine)..checkedIdx - 2]
                && LineTaken(old(startLine), line)
    {
      hide Holds, HttpMachine.ParseLine, LineTaken;
      line := "";
      ghost var b := buf[..];
      status := ParseLine();
      model := model.(checked := checkedIdx);
      if status.LineOk? {
        KeptStrings(b, startLine);
        line := model.raw[startLine..checkedIdx - 2];
        startLine := checkedIdx;
        model := model.(start := checkedIdx);
        TakenFrom(b, old(startLine), line);
      }
    }

    /** Two NULs over the end of the line leave it a C string before the next one. */
    lemma TakenFrom(b: seq<char>, text: int, line: string)
      requires Scalars() && Strings(text) && 0 <= text <= startLine - 2 && startLine == checkedIdx <= readIdx
      requires |b| == buf.Length && buf[..] == b[startLine - 2 := NUL][startLine - 1 := NUL]
      requires line == model.raw[text..startLine - 2]
      requires forall i | text <= i < readIdx :: b[i] == model.raw[i]
      requires forall i | readIdx <= i < READ_BUFFER_SIZE :: b[i] == NUL
      ensures LineTaken(text, line)
    {
      hide Strings;
      assert forall i | 0 <= i < |line| :: buf[..][text + i] == line[i];
      assert forall i | startLine <= i < buf.Length :: buf[..][i] == b[i];
      assert buf[..][startLine - 1] == NUL && buf[..][startLine - 2] == NUL;
    }

    /** Strings below `limit` do not see stores above it. */
    lemma KeptStrings(b: seq<char>, limit: int)
      requires 0 <= limit <= |b| == buf.Length && (forall i | 0 <= i < limit :: buf[i] == b[i])
      requires phase.RequestLine? || Holds(b, url, model.url, limit)
      requires if host == NULL then model.host == "" else Holds(b, host, model.host, limit)
      ensures Strings(limit)
    {
      hide Holds;
      if !phase.RequestLine? { StillHolds(b, buf[..], url, model.url, limit, limit); }
      if host != NULL { StillHolds(b, buf[..], host, model.host, limit, limit); }
    }

    /** `line` is a C string at `text`, ended by the two NULs before the new line start. */
    ghost predicate LineTaken(text: int, line: string)
      reads this, buf
    {
      && Scalars() && Strings(text) && Buffer() && startLine == checkedIdx
      && 0 <= text && text + |line| + 2 == startLine
      && (forall i | 0 <= i < |line| :: buf[text + i] == line[i])
      && buf[startLine - 2] == NUL && buf[startLine - 1] == NUL
    }

    lemma LineHeld(text: int, line: string)
      requires LineTaken(text, line)
      ensures Holds(buf[..], text, CStr(line), startLine - 1) && Holds(buf[..], text, CStr(line), startLine)
    {
      var c := CStr(line);
      assert c <= line;
    }

    /** The result a line method must leave for the value-level outcome `o`. */
    ghost predicate Meets(o: Outcome, code: Code)
      reads this, buf
    {
      match o
      case Next(d, ok) => code == NoRequest && Valid() && model == d
      case Done(d, e) => code == e && (e == GetRequest ==> Answered(d))
    }

    lemma AnsweredByStrings(limit: int)
      requires Scalars() && Strings(limit) && !phase.RequestLine?
      requires phase.Content? && contentLength >= 0 ==> 0 <= str < buf.Length && CStr(buf[str..]) == model.body
      ensures Answered(model)
    {
      hide Holds, CStr;
      HeldString(buf[..], url, model.url, limit);
      if host != NULL { HeldString(buf[..], host, model.host, limit); }
    }

    /** `c` is the connection as it was before the line at `text` was taken. */
    ghost predicate Took(c: Conn, text: int, line: string)
      reads this, buf
    {
      && LineTaken(text, line) && c.Wf() && c.start == text && c.checked + 2 <= startLine
      && model == c.(checked := startLine, start := startLine) && line == c.raw[text..startLine - 2]
    }

    method HandleRequestLine(text: int, ghost line: string, ghost c: Conn) returns (code: Code)
      requires Took(c, text, line) && phase.RequestLine?
      modifies this`url, this`version, this`verb, this`phase, this`model, buf
      ensures Meets(HttpMachine.HandleLine(c, startLine), code)
    {
      hide Holds, HttpMachine.ParseRequestLine, HttpMachine.HandleLine, Answered, Valid;
      ghost var b := buf[..];
      RequestLineOutcome(c, startLine);
      LineHeld(text, line);
      code := ParseRequestLine(text, line);
      if code == NoRequest {
        model := model.(phase := Header, verb := verb, url := HttpMachine.ParseRequestLine(line).url);
        AfterRequestLine(b, text);
      }
    }

    lemma AfterRequestLine(b: seq<char>, text: int)
      requires Scalars() && phase.Header? && 0 <= text < startLine == checkedIdx <= |b| == buf.Length
      requires Holds(buf[..], url, model.url, startLine)
      requires if host == NULL then model.host == "" else Holds(b, host, model.host, text)
      requires forall i | 0 <= i < buf.Length && !(text <= i < startLine) :: buf[i] == b[i]
      requires forall i | startLine <= i < readIdx :: b[i] == model.raw[i]
      requires forall i | readIdx <= i < READ_BUFFER_SIZE :: b[i] == NUL
      requires buf[startLine - 1] != CR
      ensures Valid()
    {
      hide Holds;
      if host != NULL { StillHolds(b, buf[..], host, model.host, text, startLine); }
    }

    method HandleHeader(text: int, ghost line: string, ghost c: Conn) returns (code: Code)
      requires Took(c, text, line) && phase.Header?
      modifies this`phase, this`linger, this`contentLength, this`host, this`model
      ensures Meets(HttpMachine.HandleLine(c, startLine), code)
    {
      hide Holds, HttpMachine.ParseHeader;
      LineHeld(text, line);
      code := ParseHeaders(text, line);
      if code == GetRequest { AnsweredByStrings(startLine); }
    }

    method HandleBodyLine(text: int, ghost line: string, ghost c: Conn) returns (code: Code)
      requires Took(c, text, line) && phase.Content?
      modifies this`str, this`model, buf
      ensures Meets(HttpMachine.HandleLine(c, startLine), code)
    {
      hide Holds, HttpMachine.ParseContent;
      code := ParseContent(text, line);
      if code == NoRequest { StringsRise(text, startLine); }
      if code == GetRequest && contentLength >= 0 { AnsweredByStrings(text); }
    }

    /** A request is complete: the fields are the value-level result `d`, and with a
        length that is not negative its strings stand in the buffer. */
    ghost predicate Answered(d: Conn)
      reads this, buf
    {
      && Scalars() && model == d
      && (contentLength >= 0 ==>
            && 0 <= url < buf.Length && CStr(buf[url..]) == d.url
            && (if host == NULL then d.host == "" else 0 <= host < buf.Length && CStr(buf[host..]) == d.host)
            && (phase.Content? ==> 0 <= str < buf.Length && CStr(buf[str..]) == d.body))
    }

    /** The body where no line has been taken from it: `text` is where it begins. */
    method HandleBody(text: int) returns (code: Code)
      requires Valid() && phase.Content? && text == startLine
      modifies this`startLine, this`str, this`model, buf
      ensures Meets(Step(old(model), true), code)
    {
      hide Holds, HttpMachine.ParseContent;
      ghost var t := model.raw[text..];
      startLine := checkedIdx;
      model := model.(start := checkedIdx);
      code := ParseContent(text, t);
      if code == NoRequest { StringsRise(text, startLine); }
      if code == GetRequest && contentLength >= 0 { AnsweredByStrings(text); }
    }

    /** The main state machine: what the value-level machine answers, in place. */
    method ProcessRead() returns (code: Code)
      requires Valid()
      modifies this, buf
      ensures code == HttpMachine.ProcessRead(old(model)).1
      ensures code == NoRequest ==> Valid() && model == HttpMachine.ProcessRead(old(model)).0
      ensures code == GetRequest ==> Answered(HttpMachine.ProcessRead(old(model)).0)
    {
      hide Holds, HttpMachine.HandleLine, HttpMachine.ParseContent, HttpMachine.ParseLine;
      var status := LineOk;
      while true
        invariant Valid()
        invariant Run(model, status.LineOk?) == Run(old(model), true)
        decreases readIdx - checkedIdx, status.LineOk?
      {
        var text := startLine;
        ghost var c, ok := model, status.LineOk?;
        if phase.Content? && status.LineOk? {
          code := HandleBody(text);
          status := LineOpen;
          if code != NoRequest { return; }
        } else {
          ghost var line;
          status, line := TakeLine();
          if !status.LineOk? { return NoRequest; }
          assert Step(c, ok) == HttpMachine.HandleLine(c, startLine);
          match phase {
            case RequestLine => code := HandleRequestLine(text, line, c);
            case Header => code := HandleHeader(text, line, c);
            case Content => code := HandleBodyLine(text, line, c); status := LineOpen;
          }
          if code != NoRequest { return; }
        }
      }
    }
  }

  lemma RequestLineOutcome(c: Conn, j: nat)
    requires c.Wf() && c.checked + 2 <= j <= |c.raw| && c.phase.RequestLine?
    ensures var d := c.(checked := j, start := j);
            HandleLine(c, j) == match HttpMachine.ParseRequestLine(c.raw[c.start..j - 2])
                                case Rejected(code) => Done(d, code)
                                case Accepted(m, url) => Next(d.(phase := Header, verb := m, url := url), true)
  {
    hide HttpMachine.ParseRequestLine, HttpMachine.ParseHeader, HttpMachine.ParseContent;
  }

  lemma SamePart(b: seq<char>, at: nat, t: string, k: nat)
    requires at + k <= |b| && k <= |t| && forall i | 0 <= i < k :: b[at + i] == t[i]
    ensures b[at..at + k] == t[..k]
  {
  }

  lemma BodyHeld(b: seq<char>, at: nat, t: string, n: nat)
    requires at + |t| <= |b| && at + n < |b|
    requires forall i | 0 <= i < |t| :: b[at + i] == t[i]
    requires at + |t| < |b| ==> b[at + |t|] == NUL
    ensures CStr(b[at + n := NUL][at..]) == if n <= |t| then CStr(t[..n]) else CStr(t)
  {
    hide CStr;
    var b' := b[at + n := NUL];
    var k := if n <= |t| then n else |t|;
    assert b'[at + k] == NUL;
    assert forall i | 0 <= i < k :: b'[at + i] == t[i];
    CStrOfPrefix(b', at, k);
    SamePart(b', at, t, k);
    assert t[..|t|] == t;
  }
}
