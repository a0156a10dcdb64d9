/** Building a response in the write buffer and sending it. */
module Response {
  import opened CStrings
  import opened HttpMessage
  import opened GatherWrite

  const WRITE_BUFFER_SIZE: nat := 1024

  /** What do_request and the parser answer; a served file comes with its size. */
  datatype Reply = InternalError | BadRequest | NoResource | Forbidden | FileRequest(size: nat)

  // ---- %d and back ------------------------------------------------------------------------

  function PrintNat(n: nat): (s: string)
    ensures |s| > 0 && forall i | 0 <= i < |s| :: Digit(s[i])
  {
    var d := ['0' + (n % 10) as char];
    if n < 10 then d else PrintNat(n / 10) + d
  }

  function PrintInt(n: int): string
  {
    if n < 0 then "-" + PrintNat(-n) else PrintNat(n)
  }

  lemma {:induction false} DigitsAppend(s: string, c: char, acc: nat)
    requires (forall i | 0 <= i < |s| :: Digit(s[i])) && Digit(c)
    ensures Digits(s + [c], acc) == 10 * Digits(s, acc) + (c as int - '0' as int)
  {
    if |s| == 0 {
      assert s + [c] == [c] && [c][1..] == [];
    } else {
      assert (s + [c])[1..] == s[1..] + [c];
      DigitsAppend(s[1..], c, 10 * acc + (s[0] as int - '0' as int));
    }
  }

  lemma {:induction false} DigitsOfPrint(n: nat)
    ensures Digits(PrintNat(n), 0) == n
  {
    var c := '0' + (n % 10) as char;
    if n < 10 {
      assert [c][1..] == [];
    } else {
      DigitsOfPrint(n / 10);
      DigitsAppend(PrintNat(n / 10), c, 0);
    }
  }

  /** Printing an int in decimal and reading it with atoi gives it back. */
  lemma PrintedIntReadsBack(n: int)
    requires -INT_LIMIT <= n < INT_LIMIT
    ensures Atoi(PrintInt(n)) == n && NUL !in PrintInt(n) && OneLine(PrintInt(n)) && |PrintInt(n)| > 0 && !Blank(PrintInt(n)[0])
  {
    var m: nat := if n < 0 then -n else n;
    DigitsOfPrint(m);
    if n < 0 { assert PrintInt(n)[1..] == PrintNat(m); }
  }

  /** What strtol reads: blanks, a sign, digits, up to the first other character. */
  lemma {:induction false} NumberReads(blanks: string, sign: string, n: nat, rest: string)
    requires (forall i | 0 <= i < |blanks| :: Space(blanks[i])) && sign in {"", "+", "-"}
    requires |rest| == 0 || !Digit(rest[0])
    ensures Number(blanks + (sign + (PrintNat(n) + rest))) == if sign == "-" then -(n as int) else n as int
    decreases |blanks|
  {
    var t := sign + (PrintNat(n) + rest);
    if |blanks| > 0 {
      assert (blanks + t)[1..] == blanks[1..] + t;
      NumberReads(blanks[1..], sign, n, rest);
    } else {
      DigitsOfPrint(n);
      DigitsStop(PrintNat(n), rest, 0);
      assert blanks + t == t;
      if |sign| == 0 { assert t == PrintNat(n) + rest; } else { assert t[1..] == PrintNat(n) + rest; }
    }
  }

  /** And without digits there it reads zero. */
  lemma {:induction false} NoNumber(blanks: string, rest: string)
    requires forall i | 0 <= i < |blanks| :: Space(blanks[i])
    requires |rest| == 0 || !(Digit(rest[0]) || Space(rest[0]) || rest[0] == '+' || rest[0] == '-')
    ensures Number(blanks + rest) == 0
    decreases |blanks|
  {
    if |blanks| > 0 {
      assert (blanks + rest)[1..] == blanks[1..] + rest;
      NoNumber(blanks[1..], rest);
    } else {
      assert blanks + rest == rest;
    }
  }

  lemma {:induction false} PrintedLength(n: nat, digits: nat, bound: nat)
    requires n < bound && digits > 0 && bound == Pow10(digits)
    ensures |PrintNat(n)| <= digits
    decreases digits
  {
    if n >= 10 { PrintedLength(n / 10, digits - 1, Pow10(digits - 1)); }
  }

  function Pow10(k: nat): nat { if k == 0 then 1 else 10 * Pow10(k - 1) }

  // ---- the messages ---------------------------------------------------------------------

  datatype Page = Page(status: string, form: string)

  /** The error pages; a bad request is answered with 404. */
  function ErrorPage(r: Reply): Option<Page>
  {
    match r
    case InternalError => Some(Page("HTTP/1.1 500 Internal Error", "There was an unusual problem serving the request file.\n"))
    case BadRequest => Some(Page("HTTP/1.1 404 Not Found", "The requested file was not found on this server.\n"))
    case Forbidden => Some(Page("HTTP/1.1 403 Forbidden", "You do not have permission to get file form this server.\n"))
    case _ => None
  }

  /** Whether anything is sent: a missing file gets no reply, and neither does an empty
      one, whose branch falls through to the default. */
  predicate Answered(r: Reply)
  {
    ErrorPage(r).Some? || (r.FileRequest? && r.size != 0)
  }

  function HeadersFor(length: int, linger: bool): seq<string>
  {
    ["Content-Length:" + PrintInt(length), "Connection:" + if linger then "keep-alive" else "close"]
  }

  function ResponseTo(r: Reply, linger: bool): Message
    requires Answered(r)
  {
    if r.FileRequest? then Message("HTTP/1.1 200 OK", HeadersFor(ToInt(r.size), linger), "")
    else Message(ErrorPage(r).value.status, HeadersFor(|ErrorPage(r).value.form|, linger), ErrorPage(r).value.form)
  }

  /** How write ends: the connection is kept, or given up, or the call never returns. */
  datatype WriteEnd = Kept | Dropped | Spinning

  function FileSize(r: Reply): nat { if r.FileRequest? then r.size else 0 }

  class HttpResponse {
    const writeBuf: array<char>
    var writeIdx: int
    var linger: bool
    var ivBase0: int
    var ivLen0: int
    var ivBase1: int
    var ivLen1: int
    var ivCount: int
    var bytesToSend: int
    var bytesHaveSend: int
    ghost var sent: seq<Source>

    ghost predicate Valid()
      reads this
    {
      writeBuf.Length == WRITE_BUFFER_SIZE && 0 <= writeIdx < WRITE_BUFFER_SIZE && 0 <= ivLen1
    }

    ghost function Text(): string
      requires Valid()
      reads this, writeBuf
    {
      writeBuf[..writeIdx]
    }

    /** The sending state, for GatherWrite. */
    ghost function State(): Iov
      requires Valid()
      reads this
    {
      Iov(ivBase0, ivLen0, ivBase1, ivLen1, ivCount, bytesToSend, bytesHaveSend, writeIdx, sent)
    }

    /** vsnprintf of an already formatted text, refused unless a byte is left over. */
    method AddResponse(text: string) returns (ok: bool)
      requires Valid()
      modifies writeBuf, this`writeIdx
      ensures Valid()
      ensures ok <==> |old(Text())| + |text| < WRITE_BUFFER_SIZE - 1
      ensures Text() == if ok then old(Text()) + text else old(Text())
    {
      if writeIdx >= WRITE_BUFFER_SIZE { return false; }
      ghost var before := Text();
      var room := WRITE_BUFFER_SIZE - 1 - writeIdx;
      var n := if |text| < room then |text| else if room > 0 then room - 1 else 0;
      for k := 0 to n
        modifies writeBuf
        invariant Text() == before
        invariant forall i | 0 <= i < k :: writeBuf[writeIdx + i] == text[i]
      {
        writeBuf[writeIdx + k] := text[k];
      }
      if room > 0 { writeBuf[writeIdx + n] := NUL; }
      if |text| >= room { return false; }
      writeIdx := writeIdx + |text|;
      assert writeBuf[..writeIdx] == before + text;
      return true;
    }

    method AddHeaders(length: int)
      requires Valid() && |Text()| + 64 < WRITE_BUFFER_SIZE && |PrintInt(length)| <= 11
      modifies writeBuf, this`writeIdx
      ensures Valid()
      ensures Text() == old(Text()) + ("Content-Length:" + PrintInt(length) + CRLF)
                        + ("Connection:" + (if linger then "keep-alive" else "close") + CRLF) + CRLF
    {
      var ok := AddResponse("Content-Length:" + PrintInt(length) + CRLF);
      ok := AddResponse("Connection:" + (if linger then "keep-alive" else "close") + CRLF);
      ok := AddResponse(CRLF);
    }

    /** Writes status line, headers and, for an error, the page, and points the two
        buffers at what is to be sent.  The unchecked calls cannot run out of room. */
    method ProcessWrite(reply: Reply) returns (ok: bool)
      requires Valid() && writeIdx == 0 && bytesHaveSend == 0 && |sent| == 0
      modifies this`writeIdx, this`ivBase0, this`ivLen0, this`ivBase1, this`ivLen1, this`ivCount, this`bytesToSend, writeBuf
      ensures Valid()
      ensures ok <==> Answered(reply)
      ensures ok <==> reply == InternalError || reply == BadRequest || reply == Forbidden || (reply.FileRequest? && reply.size != 0)
      ensures ok ==> Text() == Print(ResponseTo(reply, linger))
      ensures ok ==> bytesToSend == ToInt(writeIdx + FileSize(reply))
      ensures ok && writeIdx + FileSize(reply) < INT_LIMIT ==> Starts(State(), FileSize(reply))
    {
      hide Print, ResponseTo, ErrorPage, PrintInt, Starts, ToInt;
      IntRange(if reply.FileRequest? then reply.size else 0);
      FilesHaveNoPage(reply);
      AnsweredOnes(reply);
      if reply.FileRequest? {
        AddHead("HTTP/1.1 200 OK", if reply.size == 0 then 26 else ToInt(reply.size));
        if reply.size == 0 {
          ok := AddResponse("<html><body></body></html>");
          return false;
        }
        FileText(reply, linger);
        ivBase1, ivLen1, ivCount := 0, reply.size, 2;
      } else if ErrorPage(reply).Some? {
        var page := ErrorPage(reply).value;
        PageFits(reply);
        AddHead(page.status, |page.form|);
        ok := AddResponse(page.form);
        ErrorText(reply, linger);
        ivCount := 1;
      } else {
        return false;
      }
      ivBase0, ivLen0 := 0, writeIdx;
      bytesToSend := ToInt(writeIdx + FileSize(reply));
      ReadyToSend(State(), FileSize(reply));
      return true;
    }

    /** One call of write: `ks` are the lengths the writev calls return until the last
        of them finishes the response or the socket stops it with EAGAIN or an error.
        As a ghost, what has been sent.  EAGAIN does not come when nothing is on offer:
        then the loop spins. */
    method Write(ks: seq<nat>, again: bool) returns (end: WriteEnd, ghost fin: Iov)
      requires Valid() && bytesHaveSend >= 0 && Bounded(State()) && Feasible(State(), ks)
      modifies this
      ensures fin == Final(old(State()), ks) && Bounded(fin)
      ensures Valid()
      ensures end == if old(bytesToSend) == 0 then Kept
                     else if fin.toSend <= 0 then (if old(linger) then Kept else Dropped)
                     else if !again then Dropped
                     else if Starved(fin) then Spinning else Kept
      ensures fin.toSend > 0 ==> State() == fin && linger == old(linger)
      ensures fin.toSend <= 0 && end == Kept ==>
                writeIdx == 0 && bytesHaveSend == 0 && bytesToSend == 0 && |sent| == 0 && !linger
    {
      hide Span0, Span1, Starts, Advance;
      ghost var w0 := State();
      if bytesToSend == 0 {
        Init();
        return Kept, w0;
      }
      var i := 0;
      while i < |ks|
        invariant 0 <= i <= |ks| && Valid() && linger == old(linger)
        invariant bytesToSend > 0 && bytesHaveSend >= 0 && Bounded(State())
        invariant Feasible(State(), ks[i..]) && Final(State(), ks[i..]) == Final(w0, ks)
      {
        assert ks[i..][0] == ks[i] && ks[i..][1..] == ks[i + 1..];
        Account(ks[i]);
        i := i + 1;
        if bytesToSend <= 0 {
          assert |ks[i..]| == 0;
          fin := State();
          if linger {
            Init();
            return Kept, fin;
          } else {
            return Dropped, fin;
          }
        }
      }
      fin := State();
      end := if !again then Dropped else if ivCount == 1 && ivLen0 == 0 then Spinning else Kept;
    }

    /** What a writev that took `temp` bytes does to the two buffers. */
    method Account(temp: nat)
      requires Valid() && bytesHaveSend >= 0 && Bounded(State()) && temp <= |Offered(State())|
      modifies this`bytesHaveSend, this`bytesToSend, this`ivLen0, this`ivBase0, this`ivLen1, this`ivBase1, this`sent
      ensures Valid() && State() == Advance(old(State()), temp) && Bounded(State()) && bytesHaveSend >= 0
      ensures bytesHaveSend == old(bytesHaveSend) + temp && bytesToSend == old(bytesToSend) - temp
      ensures if bytesHaveSend >= old(ivLen0)
              then ivLen0 == 0 && ivBase0 == old(ivBase0) && ivBase1 == bytesHaveSend - writeIdx && ivLen1 == bytesToSend
              else ivLen0 == old(ivLen0) - bytesHaveSend && ivBase0 == bytesHaveSend && ivBase1 == old(ivBase1) && ivLen1 == old(ivLen1)
    {
      ghost var w := State();
      StaysBounded(w, temp);
      sent := sent + Offered(w)[..temp];
      bytesHaveSend := bytesHaveSend + temp;
      bytesToSend := bytesToSend - temp;
      if bytesHaveSend >= ivLen0 {
        ivLen0 := 0;
        ivBase1 := bytesHaveSend - writeIdx;
        ivLen1 := bytesToSend;
      } else {
        ivBase0 := bytesHaveSend;
        ivLen0 := ivLen0 - bytesHaveSend;
      }
    }

    /** The part of init that concerns the response. */
    method Init()
      requires Valid()
      modifies this`writeIdx, this`bytesToSend, this`bytesHaveSend, this`linger, this`sent
      ensures Valid() && writeIdx == 0 && bytesHaveSend == 0 && bytesToSend == 0 && |sent| == 0 && !linger
    {
      bytesToSend, bytesHaveSend, writeIdx, linger, sent := 0, 0, 0, false, [];
    }

    /** Status line and headers. */
    method AddHead(status: string, length: int)
      requires Valid() && writeIdx == 0 && |status| <= 64 && 0 <= length + INT_LIMIT < 2 * INT_LIMIT
      modifies this`writeIdx, writeBuf
      ensures Valid() && |Text()| <= 256
      ensures Text() == Head(status, length, linger)
    {
      hide PrintInt;
      var ok := AddResponse(status + CRLF);
      assert "" + (status + CRLF) == status + CRLF;
      IntFits(length);
      AddHeaders(length);
    }
  }

  // ---- what the reader of the response gets -----------------------------------------------

  lemma HeaderValues(length: int, linger: bool)
    requires -INT_LIMIT <= length < INT_LIMIT
    ensures var hs := HeadersFor(length, linger);
            && ContentLength(hs) == length && ((exists h | h in hs :: KeepAlive(h)) <==> linger)
            && (forall h | h in hs :: OneLine(h) && |CStr(h)| > 0)
  {
    hide CStr, StartsNoCase, PrintInt, LastValue, KeepAlive, OneLine;
    var a, b := "Content-Length:" + PrintInt(length), "Connection:" + if linger then "keep-alive" else "close";
    PrintedIntReadsBack(length);
    LengthHeader(PrintInt(length));
    ConnectionHeader(linger);
    LastOfTwo(a, b, "Content-length:");
    TwoHeaders(a, b, linger);
  }

  lemma TwoHeaders(a: string, b: string, linger: bool)
    requires !KeepAlive(a) && (KeepAlive(b) <==> linger)
    requires OneLine(a) && OneLine(b) && |CStr(a)| > 0 && |CStr(b)| > 0
    ensures (exists h | h in [a, b] :: KeepAlive(h)) <==> linger
    ensures forall h | h in [a, b] :: OneLine(h) && |CStr(h)| > 0
  {
    hide KeepAlive, OneLine, CStr;
    assert [a, b][1] == b;
  }

  lemma LastOfTwo(a: string, b: string, name: string)
    requires StartsNoCase(CStr(a), name) && !StartsNoCase(CStr(b), name)
    ensures LastValue([a, b], name) == Some(AfterBlanks(CStr(a)[|name|..]))
  {
    hide StartsNoCase, CStr;
    assert [a, b][1..] == [b] && [b][1..] == [];
    assert LastValue([b], name) == None;
    assert LastValue([a, b][1..], name) == None;
  }

  /** "Content-Length:" as printed is the name the reader looks for, but for case. */
  lemma LengthHeader(v: string)
    requires NUL !in v && OneLine(v) && |v| > 0 && !Blank(v[0])
    ensures var h := "Content-Length:" + v;
            CStr(h) == h && |h| > 0 && StartsNoCase(h, "Content-length:") && AfterBlanks(h[15..]) == v && OneLine(h) && !KeepAlive(h)
  {
    hide CStr, EqNoCase, Span, OneLine;
    var n := "Content-Length:";
    LengthName();
    LiteralNames();
    JoinLine(n, v);
    PlainCStr(n + v);
    assert (n + v)[..15] == n && (n + v)[15..] == v;
    SpanUnique(v, 0);
    NotNamed(n + v, "Connection:", 3);
  }

  lemma LengthName()
    ensures EqNoCase("Content-Length:", "Content-length:")
  {
    hide EqNoCase;
    EqNoCaseFrom("Content-Length:", "Content-length:");
  }

  lemma LiteralNames()
    ensures OneLine("Content-Length:") && NUL !in "Content-Length:"
    ensures OneLine("Connection:") && NUL !in "Connection:"
  {
  }

  lemma LiteralValues()
    ensures OneLine("keep-alive") && NUL !in "keep-alive"
    ensures OneLine("close") && NUL !in "close" && !EqNoCase("close", "keep-alive")
  {
  }

  lemma ConnectionHeader(linger: bool)
    ensures var h := "Connection:" + if linger then "keep-alive" else "close";
            CStr(h) == h && |h| > 0 && !StartsNoCase(h, "Content-length:") && OneLine(h) && (KeepAlive(h) <==> linger)
  {
    hide CStr, EqNoCase, Span, OneLine;
    var n, v := "Connection:", if linger then "keep-alive" else "close";
    LiteralNames();
    LiteralValues();
    JoinLine(n, v);
    PlainCStr(n + v);
    assert (n + v)[..11] == n && (n + v)[11..] == v;
    SpanUnique(v, 0);
    EqNoCaseSelf(n);
    EqNoCaseSelf("keep-alive");
    NotNamed(n + v, "Content-length:", 3);
  }

  /** A head with this status line and length, and the page. */
  function Wire(status: string, length: string, linger: bool, page: string): string
  {
    status + "\r\n" + "Content-Length:" + length + "\r\n"
    + ("Connection:" + (if linger then "keep-alive" else "close") + "\r\n\r\n") + page
  }

  /** Each reply on the wire; a bad request is answered with 404. */
  lemma ReplyText(r: Reply, linger: bool)
    requires Answered(r)
    ensures r == InternalError ==>
      Print(ResponseTo(r, linger)) == Wire("HTTP/1.1 500 Internal Error", "55", linger, "There was an unusual problem serving the request file.\n")
    ensures r == BadRequest ==>
      Print(ResponseTo(r, linger)) == Wire("HTTP/1.1 404 Not Found", "49", linger, "The requested file was not found on this server.\n")
    ensures r == Forbidden ==>
      Print(ResponseTo(r, linger)) == Wire("HTTP/1.1 403 Forbidden", "57", linger, "You do not have permission to get file form this server.\n")
    ensures r.FileRequest? ==>
      Print(ResponseTo(r, linger)) == Wire("HTTP/1.1 200 OK", PrintInt(ToInt(r.size)), linger, "")
  {
    hide Print, PrintInt, Wire, ToInt;
    FilesHaveNoPage(r);
    if r.FileRequest? {
      WireIs("HTTP/1.1 200 OK", PrintInt(ToInt(r.size)), linger, "");
    } else {
      ErrorReplies(r);
      var p := ErrorPage(r).value;
      WireIs(p.status, PrintInt(|p.form|), linger, p.form);
    }
  }

  lemma ErrorReplies(r: Reply)
    requires ErrorPage(r).Some?
    ensures r == InternalError || r == BadRequest || r == Forbidden
    ensures r == InternalError ==>
      ErrorPage(r).value == Page("HTTP/1.1 500 Internal Error", "There was an unusual problem serving the request file.\n")
    ensures r == BadRequest ==>
      ErrorPage(r).value == Page("HTTP/1.1 404 Not Found", "The requested file was not found on this server.\n")
    ensures r == Forbidden ==>
      ErrorPage(r).value == Page("HTTP/1.1 403 Forbidden", "You do not have permission to get file form this server.\n")
    ensures PrintInt(|ErrorPage(r).value.form|) == if r == InternalError then "55" else if r == BadRequest then "49" else "57"
  {
    Lengths();
    hide PrintInt;
    match r {
      case InternalError => assert |ErrorPage(r).value.form| == 55;
      case BadRequest => assert |ErrorPage(r).value.form| == 49;
      case Forbidden => assert |ErrorPage(r).value.form| == 57;
      case _ =>
    }
  }

  lemma AnsweredOnes(r: Reply)
    ensures Answered(r) <==> r == InternalError || r == BadRequest || r == Forbidden || (r.FileRequest? && r.size != 0)
  {
  }

  lemma Lengths()
    ensures PrintInt(55) == "55" && PrintInt(57) == "57" && PrintInt(49) == "49"
  {
    assert PrintNat(5) == "5" && PrintNat(4) == "4";
  }

  lemma WireIs(status: string, length: string, linger: bool, page: string)
    ensures Print(Message(status, ["Content-Length:" + length, "Connection:" + if linger then "keep-alive" else "close"], page))
            == Wire(status, length, linger, page)
  {
    var a, b := "Content-Length:" + length, "Connection:" + if linger then "keep-alive" else "close";
    assert [a, b][1..] == [b] && [b][1..] == [];
    assert PrintHeaders([b]) == b + CRLF;
    assert PrintHeaders([a, b]) == a + CRLF + (b + CRLF);
    assert CRLF + CRLF == "\r\n\r\n";
  }

  /** The framing theorem.  The length announced is the number of bytes that follow the
      blank line if and only if the file's size fits an int, and the connection header
      says whether the connection is kept. */
  lemma FramingIsRight(r: Reply, linger: bool)
    requires Answered(r)
    ensures var m := ResponseTo(r, linger);
            && m.Valid() && ((exists h | h in m.headers :: KeepAlive(h)) <==> linger)
            && (ContentLength(m.headers) == |m.body| + FileSize(r) <==> FileSize(r) < INT_LIMIT)
  {
    hide ContentLength, KeepAlive, CStr, PrintInt, ToInt;
    var m := ResponseTo(r, linger);
    FilesHaveNoPage(r);
    IntRange(FileSize(r));
    if r.FileRequest? {
      HeaderValues(ToInt(r.size), linger);
    } else {
      HeaderValues(|ErrorPage(r).value.form|, linger);
    }
    StatusLinesAreLines(r);
  }

  lemma StatusLinesAreLines(r: Reply)
    ensures OneLine("HTTP/1.1 200 OK") && (ErrorPage(r).Some? ==> OneLine(ErrorPage(r).value.status))
  {
    hide OneLine;
    Line200();
    Line403();
    Line404();
    Line500();
  }

  lemma Line200() ensures OneLine("HTTP/1.1 200 OK") {}
  lemma Line403() ensures OneLine("HTTP/1.1 403 Forbidden") {}
  lemma Line404() ensures OneLine("HTTP/1.1 404 Not Found") {}
  lemma Line500() ensures OneLine("HTTP/1.1 500 Internal Error") {}

  /** The bytes behind a list of sources. */
  function Bytes(sent: seq<Source>, head: string, file: string): string
    requires forall s | s in sent :: if s.Header? then 0 <= s.i < |head| else 0 <= s.j < |file|
  {
    seq(|sent|, k requires 0 <= k < |sent| =>
      assert sent[k] in sent;
      if sent[k].Header? then head[sent[k].i] else file[sent[k].j])
  }

  /** A response that finished with at most one stop inside its header arrives as one
      message: its head as printed, then a body of exactly the length it announces. */
  lemma ArrivesFramed(r: Reply, linger: bool, file: string, w: Iov, ks: seq<nat>)
    requires Answered(r) && |file| == FileSize(r) < INT_LIMIT
    requires w.h == |Print(ResponseTo(r, linger))| && Starts(w, |file|)
    requires Feasible(w, ks) && Final(w, ks).toSend == 0 && Stops(w, ks) <= 1
    ensures var sent := Final(w, ks).sent;
            var m := ResponseTo(r, linger);
            && (forall s | s in sent :: if s.Header? then 0 <= s.i < w.h else 0 <= s.j < |file|)
            && Bytes(sent, Print(m), file) == Print(m.(body := m.body + file))
            && ContentLength(m.headers) == |m.body + file|
  {
    hide Feasible, Final, Stops, ContentLength, ResponseTo, KeepAlive;
    var m := ResponseTo(r, linger);
    ExactIffOneStop(w, |file|, ks);
    FramingIsRight(r, linger);
    var sent := Final(w, ks).sent;
    assert sent == Whole(w.h, |file|);
    assert Bytes(sent, Print(m), file) == Print(m) + file;
    BodyAppends(m, file);
  }

  lemma BodyAppends(m: Message, file: string)
    ensures Print(m) + file == Print(m.(body := m.body + file))
  {
    var h := PrintHeaders(m.headers);
    assert h + (CRLF + m.body) + file == h + (CRLF + (m.body + file));
  }

  lemma FilesHaveNoPage(r: Reply)
    ensures r.FileRequest? ==> ErrorPage(r).None?
  {
  }

  lemma IntRange(n: int)
    ensures 0 <= ToInt(n) + INT_LIMIT < 2 * INT_LIMIT
    ensures 0 <= n < INT_LIMIT <==> 0 <= n && ToInt(n) == n
  {
  }

  function Head(status: string, length: int, linger: bool): string
  {
    (status + CRLF) + ("Content-Length:" + PrintInt(length) + CRLF)
    + ("Connection:" + (if linger then "keep-alive" else "close") + CRLF) + CRLF
  }

  lemma FileText(r: Reply, linger: bool)
    requires r.FileRequest? && r.size != 0
    ensures Answered(r) && Print(ResponseTo(r, linger)) == Head("HTTP/1.1 200 OK", ToInt(r.size), linger)
  {
    hide Print, PrintInt, ToInt;
    PrintOfTwo(ResponseTo(r, linger));
    var h := Head("HTTP/1.1 200 OK", ToInt(r.size), linger);
    assert h + "" == h;
  }

  lemma ErrorText(r: Reply, linger: bool)
    requires ErrorPage(r).Some?
    ensures var p := ErrorPage(r).value;
            Answered(r) && Print(ResponseTo(r, linger)) == Head(p.status, |p.form|, linger) + p.form && !r.FileRequest?
  {
    hide Print, PrintInt;
    PrintOfTwo(ResponseTo(r, linger));
  }

  lemma ReadyToSend(w: Iov, f: nat)
    requires w.base0 == 0 && w.len0 == w.h > 0 && 0 <= w.len1 && w.count == (if f > 0 then 2 else 1)
    requires f > 0 ==> w.base1 == 0 && w.len1 == f
    requires w.have == 0 && |w.sent| == 0 && w.toSend == ToInt(w.h + f)
    ensures w.h + f < INT_LIMIT ==> Starts(w, f)
  {
    IntRange(w.h + f);
    assert w.sent == Whole(w.h, f)[..0];
  }

  lemma PageFits(r: Reply)
    requires ErrorPage(r).Some?
    ensures var p := ErrorPage(r).value; |p.status| <= 64 && 0 < |p.form| <= 64
  {
  }

  lemma IntFits(n: int)
    requires 0 <= n + INT_LIMIT < 2 * INT_LIMIT
    ensures |PrintInt(n)| <= 11
  {
    assert Pow10(5) == 100000;
    assert Pow10(10) == 10000000000;
    PrintedLength(if n < 0 then -n else n, 10, 10000000000);
  }

  lemma PrintOfTwo(m: Message)
    requires |m.headers| == 2
    ensures Print(m) == (m.line + CRLF) + ((m.headers[0] + CRLF)) + (m.headers[1] + CRLF) + CRLF + m.body
  {
    var a, b := m.headers[0], m.headers[1];
    assert m.headers == [a, b] && [a, b][1..] == [b] && [b][1..] == [];
    assert PrintHeaders([b]) == b + CRLF + "" == b + CRLF;
    assert PrintHeaders([a, b]) == a + CRLF + (b + CRLF);
  }
}
