/** Cutting a request into several reads: when the calls on the pieces end in
    the state one call on the whole input reaches, and when they do not. */
module HttpSplit {
  import opened CStrings
  import opened HttpMachine
  import opened Sequences

  // ---- the line scan and later bytes -------------------------------------------

  lemma EolUnique(raw: string, i: nat, j: nat)
    requires i <= j <= |raw|
    requires forall k | i <= k < j :: raw[k] != CR && raw[k] != LF
    requires j < |raw| ==> raw[j] == CR || raw[j] == LF
    ensures Eol(raw, i) == j
  {
    var r := Eol(raw, i);
    assert r >= j;
    assert r <= j;
  }

  /** More bytes do not change a verdict already reached, and an open scan
      resumes where it stopped without losing anything. */
  lemma ParseLineFeed(raw: string, d: string, i: nat)
    requires i <= |raw|
    ensures var (j, status) := ParseLine(raw, i);
            ParseLine(raw + d, i) == if status.LineOpen? then ParseLine(raw + d, j) else (j, status)
    ensures var (j, status) := ParseLine(raw, i); !status.LineOk? ==> ParseLine(raw, j) == (j, status)
  {
    var j := Eol(raw, i);
    var j' := Eol(raw + d, j);
    EolUnique(raw + d, i, j');
    EolUnique(raw, j, j);
  }

  /** The verdict of the scan, by the first CR or LF it meets, at `k`. */
  lemma LineVerdict(raw: string, i: nat, k: nat)
    requires i <= k <= |raw| && forall l | i <= l < k :: raw[l] != '\r' && raw[l] != '\n'
    ensures k == |raw| ==> ParseLine(raw, i) == (k, LineOpen)
    ensures k < |raw| && raw[k] == '\n' ==> ParseLine(raw, i) == (k, LineBad)
    ensures k + 1 == |raw| && raw[k] == '\r' ==> ParseLine(raw, i) == (k, LineOpen)
    ensures k + 1 < |raw| && raw[k] == '\r' ==>
              ParseLine(raw, i) == if raw[k + 1] == '\n' then (k + 2, LineOk) else (k, LineBad)
  {
    if k == |raw| || raw[k] == CR || raw[k] == LF { EolUnique(raw, i, k); }
  }

  // ---- one loop iteration and later bytes ---------------------------------------

  /** A place between two loop iterations at which the status is LINE_OK and no
      body byte has been looked at: what a call finds on entry when the calls
      before it have not scanned into the body. */
  predicate Clean(c: Conn)
  {
    c.Wf() && (c.phase.Content? ==> c.start == c.checked)
  }

  function FeedOutcome(o: Outcome, d: string): Outcome { o.(c := Feed(o.c, d)) }

  lemma HeaderLineFeed(c: Conn, d: string, j: nat)
    requires c.Wf() && !c.phase.Content? && c.checked + 2 <= j <= |c.raw|
    ensures HandleLine(Feed(c, d), j) == FeedOutcome(HandleLine(c, j), d)
  {
    assert Feed(c, d).raw[c.start..j - 2] == c.raw[c.start..j - 2];
  }

  /** Outside the body an iteration never looks past what it has received, except
      to find that its line is not finished. */
  lemma HeaderStepFeed(c: Conn, d: string)
    requires c.Wf() && !c.phase.Content?
    ensures var o := Step(c, true);
            if o.Done? && o.code == NoRequest
            then o.c == c.(checked := o.c.checked) && Step(Feed(c, d), true) == Step(Feed(o.c, d), true)
            else Clean(o.c) && (o.Next? ==> o.ok) && Step(Feed(c, d), true) == FeedOutcome(o, d)
  {
    ParseLineFeed(c.raw, d, c.checked);
    var (j, status) := ParseLine(c.raw, c.checked);
    if status.LineOk? {
      HeaderLineFeed(c, d, j);
    } else {
      assert Step(c, true) == Done(c.(checked := j), NoRequest);
      ParseLineFeed(c.raw + d, "", j);
      SameStep(Feed(c, d), j);
    }
  }

  lemma SameStep(f: Conn, j: nat)
    requires f.Wf() && !f.phase.Content? && f.checked <= j <= |f.raw|
    requires ParseLine(f.raw, f.checked) == ParseLine(f.raw, j)
    ensures Step(f, true) == Step(f.(checked := j), true)
  {
  }

  /** A complete body is read the same whatever follows it. */
  lemma BodyStepFeed(c: Conn, d: string)
    requires Clean(c) && c.phase.Content? && c.contentLength + c.checked <= |c.raw|
    ensures Step(c, true).Done? && Step(c, true).code != NoRequest
    ensures Step(Feed(c, d), true) == FeedOutcome(Step(c, true), d)
  {
    var n := c.contentLength;
    if 0 <= n {
      assert Feed(c, d).raw[c.start..][..n] == c.raw[c.start..][..n];
    }
  }

  // ---- one call and later bytes ---------------------------------------------------

  /** An answer, once given, is the answer on every longer input. */
  lemma {:induction false} AnswerIsFinal(c: Conn, d: string)
    requires Clean(c) && Run(c, true).1 != NoRequest
    ensures Run(Feed(c, d), true) == (Feed(Run(c, true).0, d), Run(c, true).1)
    decreases |c.raw| - c.checked
  {
    if c.phase.Content? {
      if |c.raw| < c.contentLength + c.checked { ShortBodyStays(c, true); } else { BodyStepFeed(c, d); }
      BodyKeepsFields(c, true);
    } else {
      HeaderStepFeed(c, d);
      var o := Step(c, true);
      if o.Next? { AnswerIsFinal(o.c, d); }
    }
  }

  /** A call that stops before the body leaves a state from which a later call
      goes on exactly as one call on all the bytes would. */
  lemma {:induction false} HeaderCutIsInvisible(c: Conn, d: string)
    requires Clean(c) && Run(c, true).1 == NoRequest && !Run(c, true).0.phase.Content?
    ensures Run(Feed(Run(c, true).0, d), true) == Run(Feed(c, d), true)
    decreases |c.raw| - c.checked
  {
    if c.phase.Content? {
      if |c.raw| < c.contentLength + c.checked { ShortBodyStays(c, true); } else { BodyStepFeed(c, d); }
      BodyKeepsFields(c, true);
    } else {
      HeaderStepFeed(c, d);
      var o := Step(c, true);
      if o.Next? { HeaderCutIsInvisible(o.c, d); }
    }
  }

  /** What comes of more bytes after such a cut comes of the bytes past the cut. */
  lemma {:induction false} HeaderCutComesFirst(c: Conn, d: string)
    requires Clean(c) && Run(c, true).1 == NoRequest && !Run(c, true).0.phase.Content?
    requires Run(Feed(c, d), true).0.phase.Content? || Run(Feed(c, d), true).1 != NoRequest
    ensures |c.raw| < Run(Feed(c, d), true).0.checked
    decreases |c.raw| - c.checked
  {
    if c.phase.Content? {
      if |c.raw| < c.contentLength + c.checked { ShortBodyStays(c, true); } else { BodyStepFeed(c, d); }
      BodyKeepsFields(c, true);
    } else {
      var o := Step(c, true);
      if o.Next? {
        HeaderStepFeed(c, d);
        HeaderCutComesFirst(o.c, d);
      } else {
        ParseLineFeed(c.raw, d, c.checked);
        LineEndsAfter(c, d);
      }
    }
  }

  /** A line that is not whole in `raw` ends, if at all, past it. */
  lemma LineEndsPast(raw: string, d: string, i: nat)
    requires i <= |raw| && !ParseLine(raw, i).1.LineOk? && ParseLine(raw + d, i).1.LineOk?
    ensures |raw| < ParseLine(raw + d, i).0
  {
    ParseLineFeed(raw, d, i);
  }

  lemma LineEndsAfter(c: Conn, d: string)
    requires c.Wf() && !c.phase.Content? && !ParseLine(c.raw, c.checked).1.LineOk?
    requires !Step(Feed(c, d), true).Done? || Step(Feed(c, d), true).code != NoRequest
    ensures |c.raw| < Step(Feed(c, d), true).c.checked
  {
    hide HandleLine, ParseLine;
    ParseLineFeed(c.raw, d, c.checked);
    if ParseLine(c.raw + d, c.checked).1.LineOk? { LineEndsPast(c.raw, d, c.checked); }
  }

  /** A call that gets into the body passes through a clean state at its first byte. */
  lemma {:induction false} BodyEntry(c: Conn, d: string) returns (b: Conn)
    requires Clean(c) && Run(c, true).1 == NoRequest && Run(c, true).0.phase.Content?
    ensures Clean(b) && b.phase.Content? && b.raw == c.raw
    ensures Run(b, true) == Run(c, true) && Run(Feed(b, d), true) == Run(Feed(c, d), true)
    decreases |c.raw| - c.checked
  {
    b := c;
    if !c.phase.Content? {
      HeaderStepFeed(c, d);
      b := BodyEntry(Step(c, true).c, d);
    }
  }

  /** Whether reading up to `n` leaves the body from `b` on unscanned: no body byte
      has come yet, or the first one stops the line scan where it stands. */
  predicate Harmless(input: string, b: nat, n: nat)
    requires n <= |input|
  {
    n <= b || input[b] == LF || (input[b] == CR && (n == b + 1 || input[b + 1] != LF))
  }

  lemma ScanStays(raw: string, d: string, b: nat)
    requires b <= |raw|
    ensures ParseLine(raw, b).0 == b <==> Harmless(raw + d, b, |raw|)
  {
  }

  /** A cut inside the body, from the first body byte on. */
  lemma BodyCut(b: Conn, d: string)
    requires Clean(b) && b.phase.Content? && Run(b, true).1 == NoRequest
    requires Run(Feed(b, d), true).1 != NoRequest
    ensures Run(Feed(b, d), true).0.checked == b.checked
    ensures if Harmless((b.raw + d), b.checked, |b.raw|)
            then Run(b, true).0 == b
            else b.checked < Run(b, true).0.checked
  {
    hide ParseLine, HandleLine;
    var (w, code) := Run(Feed(b, d), true);
    if |b.raw| + |d| < b.contentLength + b.checked { ShortBodyStays(Feed(b, d), true); }
    assert w.checked == b.checked;
    if b.contentLength + b.checked <= |b.raw| { BodyStepFeed(b, d); }
    assert Step(b, true) == Next(b, false);
    var (j, status) := ParseLine(b.raw, b.checked);
    ScanStays(b.raw, d, b.checked);
    if status.LineOk? {
      assert b.checked < Step(b, false).c.checked;
    }
  }

  /** One cut.  The input after it either ends in the header or is a finished
      request; the cut does not show exactly when it is harmless, and a harmful
      cut has moved the scan past the place where one call would have left it. */
  lemma SingleCut(c: Conn, d: string)
    requires Clean(c) && Run(c, true).1 == NoRequest
    requires Run(Feed(c, d), true).0.phase.Content? ==> Run(Feed(c, d), true).1 != NoRequest
    ensures var c1 := Run(c, true).0;
            var w := Run(Feed(c, d), true).0;
            if w.phase.Content? && !Harmless(w.raw, w.checked, |c.raw|)
            then w.checked < c1.checked
            else Clean(c1) && Run(Feed(c1, d), true) == Run(Feed(c, d), true)
  {
    hide Step, Run;
    var c1 := Run(c, true).0;
    if c1.phase.Content? {
      var b := BodyEntry(c, d);
      if Run(Feed(b, d), true).1 == NoRequest {
        BodyKeepsFields(Feed(b, d), true);
      } else {
        BodyKeepsFields(Feed(b, d), true);
        BodyCut(b, d);
      }
    } else {
      HeaderCutIsInvisible(c, d);
      if Run(Feed(c, d), true).0.phase.Content? { HeaderCutComesFirst(c, d); }
    }
  }

  // ---- any number of pieces -------------------------------------------------------

  /** The calls on the pieces, one after each read, until one of them answers. */
  function Deliver(c: Conn, pieces: seq<string>): (r: (Conn, Code))
    requires c.Wf() && |pieces| > 0
    ensures r.0.Wf() && c.checked <= r.0.checked
    decreases |pieces|
  {
    var (c1, code) := Run(Feed(c, pieces[0]), true);
    if code != NoRequest || |pieces| == 1 then (c1, code) else Deliver(c1, pieces[1..])
  }

  /** The offsets in the input at which the pieces after the first one begin,
      when the first piece begins at `at`. */
  function Cuts(at: nat, pieces: seq<string>): seq<nat>
    decreases |pieces|
  {
    if |pieces| <= 1 then [] else [at + |pieces[0]|] + Cuts(at + |pieces[0]|, pieces[1..])
  }

  /** How many bytes a finished request takes: a call on fewer answers nothing. */
  function Length(w: Conn): int
  {
    w.checked + if w.phase.Content? && 0 <= w.contentLength then w.contentLength else 0
  }

  lemma {:induction false} AnswerFitsLength(c: Conn, ok: bool)
    requires c.Wf() && Run(c, ok).1 != NoRequest
    ensures Length(Run(c, ok).0) <= |c.raw|
    decreases |c.raw| - c.checked, ok
  {
    var o := Step(c, ok);
    if o.Next? { AnswerFitsLength(o.c, o.ok); }
  }

  /** A prefix of a finished request is answered exactly when it holds all of it. */
  lemma AnsweredExactlyAtLength(c: Conn, d: string)
    requires Clean(c) && Run(Feed(c, d), true).1 != NoRequest
    ensures Run(c, true).1 == NoRequest <==> |c.raw| < Length(Run(Feed(c, d), true).0)
  {
    hide Step, Run, Harmless;
    var (c1, code) := Run(c, true);
    if code != NoRequest {
      AnswerIsFinal(c, d);
      AnswerFitsLength(c, true);
    } else if c1.phase.Content? {
      var b := BodyEntry(c, d);
      BodyIsLonger(b, d);
    } else {
      HeaderCutComesFirst(c, d);
    }
  }

  lemma BodyIsLonger(b: Conn, d: string)
    requires Clean(b) && b.phase.Content? && Run(b, true).1 == NoRequest
    requires Run(Feed(b, d), true).1 != NoRequest
    ensures |b.raw| < Length(Run(Feed(b, d), true).0)
  {
    BodyCut(b, d);
    BodyKeepsFields(Feed(b, d), true);
    if b.contentLength + b.checked <= |b.raw| { BodyStepFeed(b, d); }
  }

  predicate AllHarmless(w: Conn, cuts: seq<nat>)
    requires forall n | n in cuts :: n <= |w.raw|
  {
    w.phase.Content? ==> forall n | n in cuts :: Harmless(w.raw, w.checked, n)
  }

  lemma {:induction false} CutsWithin(at: nat, pieces: seq<string>)
    ensures forall n | n in Cuts(at, pieces) :: n <= at + |Concat(pieces)|
    decreases |pieces|
  {
    if |pieces| > 1 { CutsWithin(at + |pieces[0]|, pieces[1..]); }
  }

  /** The cut theorem.  Let one call on the whole input end in the request line or
      the headers, or give an answer, and let no piece but the last complete the
      request.  Then the calls on the pieces end in the very state and with the
      code of that one call if and only if every cut is harmless. */
  lemma {:induction false} CutTheorem(c: Conn, pieces: seq<string>)
    requires Clean(c) && |pieces| > 0
    requires var (w, code) := Run(Feed(c, Concat(pieces)), true);
             if code == NoRequest then !w.phase.Content?
             else forall n | n in Cuts(|c.raw|, pieces) :: n < Length(w)
    ensures forall n | n in Cuts(|c.raw|, pieces) :: n <= |Feed(c, Concat(pieces)).raw|
    ensures Deliver(c, pieces) == Run(Feed(c, Concat(pieces)), true)
            <==> AllHarmless(Run(Feed(c, Concat(pieces)), true).0, Cuts(|c.raw|, pieces))
    decreases |pieces|
  {
    hide Step, Run, Harmless;
    CutsWithin(|c.raw|, pieces);
    var (w, code) := Run(Feed(c, Concat(pieces)), true);
    var c0, d := Feed(c, pieces[0]), Concat(pieces[1..]);
    if |pieces| == 1 {
      assert Feed(c, Concat(pieces)) == c0;
    } else {
      assert c.raw + (pieces[0] + d) == c.raw + pieces[0] + d;
      assert Feed(c, Concat(pieces)) == Feed(c0, d);
      assert |c0.raw| in Cuts(|c.raw|, pieces);
      if code != NoRequest { AnsweredExactlyAtLength(c0, d); }
      if Run(c0, true).1 != NoRequest { AnswerIsFinal(c0, d); }
      SingleCut(c0, d);
      var c1 := Run(c0, true).0;
      if w.phase.Content? && !Harmless(w.raw, w.checked, |c0.raw|) {
        assert w.checked < Deliver(c1, pieces[1..]).0.checked;
      } else {
        assert forall n | n in Cuts(|c1.raw|, pieces[1..]) :: n in Cuts(|c.raw|, pieces);
        CutTheorem(c1, pieces[1..]);
        assert forall n | n in Cuts(|c.raw|, pieces) :: n == |c0.raw| || n in Cuts(|c1.raw|, pieces[1..]);
      }
    }
  }

  /** What a harmful cut costs: when nothing follows the body, the call on the
      rest answers exactly if the cut was harmless; otherwise the request that has
      arrived in full is never answered. */
  lemma HarmfulCutStalls(c: Conn, d: string)
    requires Clean(c)
    requires var (w, code) := Run(Feed(c, d), true);
             w.phase.Content? && code != NoRequest && |w.raw| == Length(w) && |d| > 0
    ensures var w := Run(Feed(c, d), true).0;
            Run(Feed(Run(c, true).0, d), true).1 != NoRequest <==> Harmless(w.raw, w.checked, |c.raw|)
  {
    hide Step, Run, Harmless;
    AnsweredExactlyAtLength(c, d);
    SingleCut(c, d);
    var w := Run(Feed(c, d), true).0;
    if !Harmless(w.raw, w.checked, |c.raw|) {
      var c1 := Run(c, true).0;
      if !c1.phase.Content? { HeaderCutIsInvisible(c, d); }
      var b := BodyEntry(c, d);
      BodyKeepsFields(b, true);
      BodyKeepsFields(Feed(b, d), true);
      ShortBodyStays(Feed(c1, d), true);
    }
  }

  // ---- in the body ------------------------------------------------------------------

  /** Where a scan over whole lines from `i` on stops, and where its last line begins. */
  function ScanLines(raw: string, i: nat): (nat, nat)
    requires i <= |raw|
    decreases |raw| - i
  {
    var (j, status) := ParseLine(raw, i);
    if status.LineOk? then ScanLines(raw, j) else (j, i)
  }

  /** While the body is short a call scans it for lines all the same, and leaves the
      indices there: this is what a cut in the body costs. */
  lemma ShortBodyScans(c: Conn)
    requires c.Wf() && c.phase.Content? && |c.raw| < c.contentLength + c.checked
    ensures var (w, code) := Run(c, true);
            var (checked, start) := ScanLines(c.raw, c.checked);
            code == NoRequest && w == c.(checked := checked, start := start)
  {
    assert Step(c, true) == Next(c.(start := c.checked), false);
    ScansOn(c.(start := c.checked));
  }

  lemma {:induction false} ScansOn(c: Conn)
    requires c.Wf() && c.phase.Content? && c.start == c.checked && |c.raw| < c.contentLength + c.checked
    ensures var (checked, start) := ScanLines(c.raw, c.checked);
            Run(c, false) == (c.(checked := checked, start := start), NoRequest)
    decreases |c.raw| - c.checked
  {
    var (j, status) := ParseLine(c.raw, c.checked);
    if status.LineOk? {
      ScanStep(c, j);
      ScansOn(c.(checked := j, start := j));
    }
  }

  lemma ScanStep(c: Conn, j: nat)
    requires c.Wf() && c.phase.Content? && c.start == c.checked && |c.raw| < c.contentLength + c.checked
    requires ParseLine(c.raw, c.checked) == (j, LineOk)
    ensures Step(c, false) == Next(c.(checked := j, start := j), false)
  {
    hide ParseLine;
  }

  /** From wherever the scan stands in the body, the request is answered when as many bytes
      as were announced follow that place, and its body is read from the line's beginning. */
  lemma LateAnswer(c: Conn)
    requires c.Wf() && c.phase.Content? && 0 <= c.contentLength && c.start + c.contentLength < READ_BUFFER_SIZE
    ensures Run(c, true).1 == GetRequest <==> c.checked + c.contentLength <= |c.raw|
    ensures c.checked + c.contentLength <= |c.raw| ==>
              Run(c, true).0 == c.(start := c.checked, body := CStr(c.raw[c.start..c.start + c.contentLength]))
  {
    hide CStr, Step;
    if c.checked + c.contentLength <= |c.raw| { BodyAnswered(c); } else { ShortBodyStays(c, true); }
  }

  lemma BodyAnswered(c: Conn)
    requires c.Wf() && c.phase.Content? && 0 <= c.contentLength && c.start + c.contentLength < READ_BUFFER_SIZE
    requires c.checked + c.contentLength <= |c.raw|
    ensures Step(c, true) ==
            Done(c.(start := c.checked, body := CStr(c.raw[c.start..c.start + c.contentLength])), GetRequest)
  {
    hide CStr, HandleLine, ParseLine;
    var t, n := c.raw[c.start..], c.contentLength;
    assert n <= |t| && t[..n] == c.raw[c.start..c.start + n];
    ContentRead(c.(start := c.checked), c.start, t);
  }

  lemma ContentRead(c: Conn, at: nat, text: string)
    requires 0 <= c.contentLength <= |text| && c.contentLength + c.checked <= |c.raw| && at + c.contentLength < READ_BUFFER_SIZE
    ensures ParseContent(c, at, text) == (c.(body := CStr(text[..c.contentLength])), GetRequest)
  {
    hide CStr;
  }

  // ---- lines that are malformed ------------------------------------------------------

  /** The scan stands at a line that is neither finished nor open. */
  predicate Stuck(w: Conn)
  {
    w.Wf() && !w.phase.Content? && ParseLine(w.raw, w.checked) == (w.checked, LineBad)
  }

  lemma StuckStep(w: Conn, d: string)
    requires Stuck(w)
    ensures Stuck(Feed(w, d)) && Run(Feed(w, d), true) == (Feed(w, d), NoRequest)
  {
    ParseLineFeed(w.raw, d, w.checked);
  }

  lemma {:induction false} StuckStays(w: Conn, pieces: seq<string>)
    requires Stuck(w) && |pieces| > 0
    ensures Deliver(w, pieces) == (Feed(w, Concat(pieces)), NoRequest)
    decreases |pieces|
  {
    hide Stuck, Run;
    StuckStep(w, pieces[0]);
    if |pieces| == 1 {
      assert Concat(pieces) == pieces[0] + "" == pieces[0];
    } else {
      StuckStays(Feed(w, pieces[0]), pieces[1..]);
      assert w.raw + pieces[0] + Concat(pieces[1..]) == w.raw + (pieces[0] + Concat(pieces[1..]));
    }
  }

  /** A malformed line, after any number of good ones, is never got past: when a call has
      stopped at one, every later call answers nothing and changes nothing but the input. */
  lemma BadLineAbsorbs(c: Conn, pieces: seq<string>)
    requires c.Wf() && |pieces| > 0
    requires var (w, code) := Run(c, true);
             code == NoRequest && !w.phase.Content? && ParseLine(w.raw, w.checked).1.LineBad?
    ensures var w := Run(c, true).0; Deliver(w, pieces) == (Feed(w, Concat(pieces)), NoRequest)
  {
    hide ParseLine, Deliver;
    StopsWhereItScanned(c, true);
    StuckStays(Run(c, true).0, pieces);
  }

  /** A call that answers nothing outside the body leaves the scan where it stopped. */
  lemma {:induction false} StopsWhereItScanned(c: Conn, ok: bool)
    requires c.Wf() && Run(c, ok).1 == NoRequest && !Run(c, ok).0.phase.Content?
    ensures var w := Run(c, ok).0; ParseLine(w.raw, w.checked).0 == w.checked
    decreases |c.raw| - c.checked, ok
  {
    ParseLineFeed(c.raw, "", c.checked);
    var o := Step(c, ok);
    if o.Next? { StopsWhereItScanned(o.c, o.ok); }
  }

  /** While the buffer is not full, only an absolute URL without a path or a
      negative body length makes a call end in an undefined operation. */
  lemma {:induction false} FaultCauses(c: Conn, ok: bool)
    requires c.Wf() && |c.raw| < READ_BUFFER_SIZE && Run(c, ok).1 == Fault
    ensures var w := Run(c, ok).0; w.phase.RequestLine? || (w.phase.Content? && w.contentLength < 0)
    decreases |c.raw| - c.checked, ok
  {
    var o := Step(c, ok);
    if o.Next? { FaultCauses(o.c, o.ok); }
  }
}
