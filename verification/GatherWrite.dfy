/** Sending a response with writev over two buffers, resumed after short writes. */
module GatherWrite {

  /** Where a sent byte came from: an index into the header buffer or into the file
      mapping.  An index outside them is a read of something else. */
  datatype Source = Header(i: int) | File(j: int)

  datatype Iov = Iov(
    base0: int, len0: int,      // what is left of the header
    base1: int, len1: int,      // what is left of the file
    count: int,                 // m_iv_count
    toSend: int, have: int,     // bytes_to_send, bytes_have_send
    h: nat,                     // m_write_idx
    sent: seq<Source>           // everything the kernel has taken so far
  )

  function Span0(w: Iov): seq<Source>
    requires 0 <= w.len0
  {
    seq(w.len0, i requires 0 <= i => Header(w.base0 + i))
  }

  function Span1(w: Iov): seq<Source>
    requires 0 <= w.len1
  {
    if w.count == 2 then seq(w.len1, j requires 0 <= j => File(w.base1 + j)) else []
  }

  /** The bytes the next writev is offered, in order. */
  function Offered(w: Iov): seq<Source>
    requires 0 <= w.len0 && 0 <= w.len1
  {
    Span0(w) + Span1(w)
  }

  predicate Lens(w: Iov) { 0 <= w.len0 && 0 <= w.len1 }

  /** The kernel took the first `k` bytes offered. */
  function Advance(w: Iov, k: nat): (r: Iov)
    requires Lens(w) && k <= |Offered(w)|
    ensures r.sent == w.sent + Offered(w)[..k]
    ensures r.have == w.have + k && r.toSend == w.toSend - k && r.h == w.h && r.count == w.count
  {
    var have, toSend := w.have + k, w.toSend - k;
    var r := w.(have := have, toSend := toSend, sent := w.sent + Offered(w)[..k]);
    if have >= w.len0 then r.(len0 := 0, base1 := have - w.h, len1 := toSend)
    else r.(base0 := have, len0 := w.len0 - have)
  }

  /** Never more is offered than is still to be sent. */
  predicate Bounded(w: Iov)
  {
    Lens(w) && |Offered(w)| <= w.toSend
  }

  lemma StaysBounded(w: Iov, k: nat)
    requires Bounded(w) && 0 <= w.have && k <= |Offered(w)|
    ensures Bounded(Advance(w, k))
  {
  }

  /** A run: the lengths of the successful writev calls, over any number of calls of
      write.  EAGAIN between them changes nothing. */
  predicate Feasible(w: Iov, ks: seq<nat>)
    decreases |ks|
  {
    |ks| == 0 || (w.toSend > 0 && Lens(w) && ks[0] <= |Offered(w)| && Feasible(Advance(w, ks[0]), ks[1..]))
  }

  function Final(w: Iov, ks: seq<nat>): (r: Iov)
    requires Feasible(w, ks)
    ensures r.h == w.h
    decreases |ks|
  {
    if |ks| == 0 then w else Final(Advance(w, ks[0]), ks[1..])
  }

  /** How many of the calls stop strictly inside the header. */
  function Stops(w: Iov, ks: seq<nat>): nat
    requires Feasible(w, ks)
    decreases |ks|
  {
    if |ks| == 0 then 0
    else
      var r := Advance(w, ks[0]);
      (if 0 < r.have < r.h then 1 else 0) + Stops(r, ks[1..])
  }

  /** The response as it should arrive. */
  function Whole(h: nat, f: nat): seq<Source>
  {
    seq(h + f, i requires 0 <= i => if i < h then Header(i) else File(i - h))
  }

  // ---- conservation, for every run ---------------------------------------------------

  lemma {:induction false} Conservation(w: Iov, ks: seq<nat>)
    requires Feasible(w, ks) && |w.sent| == w.have
    ensures var r := Final(w, ks); r.have + r.toSend == w.have + w.toSend && |r.sent| == r.have && w.sent <= r.sent
    decreases |ks|
  {
    if |ks| > 0 { Conservation(Advance(w, ks[0]), ks[1..]); }
  }

  // ---- the shapes a run goes through ---------------------------------------------------

  predicate Counts(w: Iov, f: nat)
  {
    w.have + w.toSend == w.h + f && |w.sent| == w.have >= 0 && w.count == if f > 0 then 2 else 1
  }

  /** No byte of the header has gone, or one call has stopped inside it. */
  predicate InHeader(w: Iov, f: nat)
  {
    && Counts(w, f) && 0 <= w.have < w.h
    && w.base0 == w.have && w.len0 == w.h - w.have && 0 <= w.len1
    && (f > 0 ==> w.base1 == 0 && w.len1 == f)
    && w.sent == Whole(w.h, f)[..w.have]
  }

  /** As process_write leaves it; without a file the second buffer is what it was. */
  predicate Starts(w: Iov, f: nat)
  {
    InHeader(w, f) && w.have == 0
  }

  predicate PastHeader(w: Iov, f: nat)
  {
    && Counts(w, f) && w.h <= w.have <= w.h + f
    && w.len0 == 0 && w.base1 == w.have - w.h && w.len1 == w.toSend
    && w.sent == Whole(w.h, f)[..w.have]
  }

  /** Too little of the header is left on offer: it can no longer be sent in full. */
  predicate Deficient(w: Iov, f: nat)
  {
    Counts(w, f) && 0 <= w.have < w.h && 0 <= w.len0 < w.h - w.have && 0 <= w.len1
  }

  predicate Wrong(w: Iov, f: nat)
  {
    exists p: nat :: p < |w.sent| && p < w.h + f && w.sent[p] != Whole(w.h, f)[p]
  }

  lemma HeaderStep(w: Iov, f: nat, k: nat)
    requires InHeader(w, f) && k <= |Offered(w)|
    ensures var r := Advance(w, k);
            if r.h <= r.have then PastHeader(r, f)
            else if w.have == 0 then InHeader(r, f)
            else Deficient(r, f)
  {
    var r := Advance(w, k);
    var whole := Whole(w.h, f);
    if r.h <= r.have || w.have == 0 {
      assert Offered(w) == whole[w.have..];
      assert r.sent == whole[..r.have];
    }
  }

  lemma PastStep(w: Iov, f: nat, k: nat)
    requires PastHeader(w, f) && k <= |Offered(w)|
    ensures PastHeader(Advance(w, k), f)
  {
    var whole := Whole(w.h, f);
    assert Offered(w) == whole[w.have..];
    assert Advance(w, k).sent == whole[..w.have + k];
  }

  lemma DeficientStep(w: Iov, f: nat, k: nat)
    requires Deficient(w, f) && k <= |Offered(w)|
    ensures var r := Advance(w, k); Deficient(r, f) || Wrong(r, f)
  {
    var r := Advance(w, k);
    if k > w.len0 {
      var p := w.have + w.len0;
      assert r.sent[p] == Offered(w)[w.len0] == Span1(w)[0];
      assert Whole(w.h, f)[p] == Header(p);
    }
  }

  lemma {:induction false} WrongStays(w: Iov, f: nat, ks: seq<nat>)
    requires Feasible(w, ks) && Wrong(w, f) && |w.sent| == w.have
    ensures Final(w, ks).sent != Whole(w.h, f)
    decreases |ks|
  {
    if |ks| > 0 {
      var p: nat :| p < |w.sent| && p < w.h + f && w.sent[p] != Whole(w.h, f)[p];
      var r := Advance(w, ks[0]);
      assert r.sent[p] == w.sent[p];
      WrongStays(r, f, ks[1..]);
    }
  }

  lemma {:induction false} DeficientFails(w: Iov, f: nat, ks: seq<nat>)
    requires Feasible(w, ks) && Deficient(w, f)
    ensures Final(w, ks).toSend > 0 || Final(w, ks).sent != Whole(w.h, f)
    decreases |ks|
  {
    if |ks| > 0 {
      var r := Advance(w, ks[0]);
      DeficientStep(w, f, ks[0]);
      if Wrong(r, f) { WrongStays(r, f, ks[1..]); } else { DeficientFails(r, f, ks[1..]); }
    }
  }

  lemma {:induction false} PastIsExact(w: Iov, f: nat, ks: seq<nat>)
    requires Feasible(w, ks) && PastHeader(w, f)
    ensures PastHeader(Final(w, ks), f) && Stops(w, ks) == 0
    decreases |ks|
  {
    if |ks| > 0 {
      PastStep(w, f, ks[0]);
      PastIsExact(Advance(w, ks[0]), f, ks[1..]);
    }
  }

  /** From inside the header, where at most one call has stopped so far. */
  lemma {:induction false} HeaderRun(w: Iov, f: nat, ks: seq<nat>)
    requires Feasible(w, ks) && InHeader(w, f)
    ensures var r := Final(w, ks);
            var stops := Stops(w, ks) + if w.have > 0 then 1 else 0;
            if stops <= 1 then InHeader(r, f) || PastHeader(r, f)
            else r.toSend > 0 || r.sent != Whole(w.h, f)
    decreases |ks|
  {
    if |ks| > 0 {
      var r := Advance(w, ks[0]);
      HeaderStep(w, f, ks[0]);
      if r.h <= r.have {
        PastIsExact(r, f, ks[1..]);
      } else if w.have == 0 {
        HeaderRun(r, f, ks[1..]);
      } else {
        DeficientFails(r, f, ks[1..]);
      }
    }
  }

  /** With at most one stop inside the header, what has been sent is at every moment
      the right beginning of header and file. */
  lemma SentIsPrefix(w: Iov, f: nat, ks: seq<nat>)
    requires Starts(w, f) && Feasible(w, ks) && Stops(w, ks) <= 1
    ensures var r := Final(w, ks); 0 <= r.have <= w.h + f && r.sent == Whole(w.h, f)[..r.have]
  {
    HeaderRun(w, f, ks);
  }

  /** A run that finishes has sent exactly header and file if and only if at most one
      call stopped strictly inside the header. */
  lemma ExactIffOneStop(w: Iov, f: nat, ks: seq<nat>)
    requires Starts(w, f) && Feasible(w, ks) && Final(w, ks).toSend == 0
    ensures Final(w, ks).sent == Whole(w.h, f) <==> Stops(w, ks) <= 1
  {
    HeaderRun(w, f, ks);
    assert Whole(w.h, f)[..w.h + f] == Whole(w.h, f);
  }

  // ---- two stops ---------------------------------------------------------------------------

  /** The bound is sharp for every header of three bytes or more: stop after one byte
      and again after two, and too little of the header is left on offer. */
  lemma TwoStopsGoWrong(w: Iov, f: nat)
    requires Starts(w, f) && w.h >= 3
    ensures var r := Advance(Advance(w, 1), 1); Deficient(r, f) && r.len0 == (if w.h == 3 then 0 else w.h - 3)
  {
    HeaderStep(w, f, 1);
    HeaderStep(Advance(w, 1), f, 1);
  }

  // ---- what becomes of a run with two stops ----------------------------------------------

  /** A run from an untouched header that finishes wrong: two one-byte stops, then all
      that is on offer, then the byte that is left. */
  function WrongRun(h: nat, f: nat): seq<nat>
    requires h >= 3
  {
    if h == 3 then [1, 1, f + 1] else [1, 1, h - 3 + f, 1]
  }

  lemma FirstCall(w: Iov, ks: seq<nat>)
    requires |ks| > 0 && w.toSend > 0 && Lens(w) && ks[0] <= |Offered(w)| && Feasible(Advance(w, ks[0]), ks[1..])
    ensures Feasible(w, ks) && Final(w, ks) == Final(Advance(w, ks[0]), ks[1..])
    ensures Stops(w, ks) == (if 0 < Advance(w, ks[0]).have < w.h then 1 else 0) + Stops(Advance(w, ks[0]), ks[1..])
  {
  }

  /** The state after the two stops. */
  lemma AfterTwo(w: Iov, f: nat)
    requires Starts(w, f) && w.h >= 3
    ensures var r := Advance(Advance(w, 1), 1);
            && r.have == 2 && r.toSend == w.h + f - 2 && r.h == w.h && r.count == w.count
            && r.len0 == w.h - 3 && Lens(r) && (f > 0 ==> r.len1 == if w.h == 3 then f + 1 else f)
    ensures Lens(w) && Lens(Advance(w, 1)) && 1 <= |Offered(w)| && 1 <= |Offered(Advance(w, 1))|
  {
    hide Whole;
  }

  lemma TwoStopsThen(w: Iov, f: nat, rest: seq<nat>)
    requires Starts(w, f) && w.h >= 3 && Feasible(Advance(Advance(w, 1), 1), rest)
    ensures var ks := [1, 1] + rest;
            Feasible(w, ks) && Stops(w, ks) >= 2 && Final(w, ks) == Final(Advance(Advance(w, 1), 1), rest)
  {
    hide Feasible, Final, Stops, Offered, Starts;
    AfterTwo(w, f);
    StartsMeans(w, f);
    var ks := [1, 1] + rest;
    assert ks[1..] == [1] + rest && ks[1..][1..] == rest;
    FirstCall(Advance(w, 1), ks[1..]);
    FirstCall(w, ks);
  }

  lemma StartsMeans(w: Iov, f: nat)
    requires Starts(w, f)
    ensures w.have == 0 && w.toSend == w.h + f
  {
  }

  lemma LastOne(w: Iov, k: nat)
    requires Lens(w) && k <= |Offered(w)| && w.toSend > 0
    ensures Feasible(w, [k]) && Final(w, [k]) == Advance(w, k)
  {
    assert [k][1..] == [];
  }

  /** With a file, a header of three bytes or more can be sent wrong: the run finishes. */
  lemma TwoStopsCorrupt(w: Iov, f: nat)
    requires Starts(w, f) && w.h >= 3 && f > 0
    ensures var ks := WrongRun(w.h, f);
            Feasible(w, ks) && Stops(w, ks) >= 2 && Final(w, ks).toSend == 0 && Final(w, ks).sent != Whole(w.h, f)
  {
    hide Feasible, Final, Stops, Whole;
    AfterTwo(w, f);
    var r := Advance(Advance(w, 1), 1);
    if w.h == 3 {
      LastOne(r, f + 1);
      TwoStopsThen(w, f, [f + 1]);
      assert WrongRun(w.h, f) == [1, 1] + [f + 1];
    } else {
      var k := w.h - 3 + f;
      var q := Advance(r, k);
      LastOne(q, 1);
      assert [k, 1][1..] == [1];
      FirstCall(r, [k, 1]);
      TwoStopsThen(w, f, [k, 1]);
      assert WrongRun(w.h, f) == [1, 1] + [k, 1];
    }
    ExactIffOneStop(w, f, WrongRun(w.h, f));
  }

  /** Bytes are left to send and none is on offer: writev takes nothing, for ever. */
  predicate Starved(w: Iov)
  {
    w.count == 1 && w.len0 == 0 && w.toSend > 0 && 0 <= w.have
  }

  lemma {:induction false} StarvedStays(w: Iov, ks: seq<nat>)
    requires Starved(w) && Feasible(w, ks)
    ensures Starved(Final(w, ks)) && Final(w, ks).sent == w.sent && forall k | k in ks :: k == 0
    decreases |ks|
  {
    if |ks| > 0 {
      assert ks[0] == 0;
      StarvedStays(Advance(w, 0), ks[1..]);
      assert forall k | k in ks :: k == ks[0] || k in ks[1..];
    }
  }

  lemma {:induction false} DeficientNeverFinishes(w: Iov, ks: seq<nat>)
    requires Deficient(w, 0) && Feasible(w, ks)
    ensures Final(w, ks).toSend > 0
    decreases |ks|
  {
    if |ks| > 0 {
      assert ks[0] <= w.len0;
      DeficientNeverFinishes(Advance(w, ks[0]), ks[1..]);
    }
  }

  lemma {:induction false} SecondStopSticks(w: Iov, ks: seq<nat>)
    requires InHeader(w, 0) && Feasible(w, ks) && Stops(w, ks) + (if w.have > 0 then 1 else 0) >= 2
    ensures Final(w, ks).toSend > 0
    decreases |ks|
  {
    hide Whole;
    var r := Advance(w, ks[0]);
    HeaderStep(w, 0, ks[0]);
    if r.have < r.h {
      if w.have == 0 { SecondStopSticks(r, ks[1..]); } else { DeficientNeverFinishes(r, ks[1..]); }
    }
  }

  /** Without a file a run with two stops never finishes, and one with at most one stop
      that finishes is exact; so nothing wrong is ever sent in full. */
  lemma WithoutFile(w: Iov, ks: seq<nat>)
    requires Starts(w, 0) && Feasible(w, ks)
    ensures Final(w, ks).toSend == 0 ==> Stops(w, ks) <= 1 && Final(w, ks).sent == Whole(w.h, 0)
  {
    if Stops(w, ks) >= 2 { SecondStopSticks(w, ks); }
    if Final(w, ks).toSend == 0 { ExactIffOneStop(w, 0, ks); }
  }

  /** Instead it starves as soon as all that is on offer is taken. */
  lemma TwoStopsStarve(w: Iov)
    requires Starts(w, 0) && w.h >= 3
    ensures var ks := [1, 1, w.h - 3]; Feasible(w, ks) && Starved(Final(w, ks))
  {
    hide Feasible, Final, Stops;
    AfterTwo(w, 0);
    var r := Advance(Advance(w, 1), 1);
    LastOne(r, w.h - 3);
    TwoStopsThen(w, 0, [w.h - 3]);
    assert [1, 1, w.h - 3] == [1, 1] + [w.h - 3];
  }

  // ---- the repair --------------------------------------------------------------------------

  /** The bookkeeping with the header's remainder taken from m_write_idx instead. */
  function AdvanceFixed(w: Iov, k: nat): Iov
    requires Lens(w) && k <= |Offered(w)|
  {
    var have, toSend := w.have + k, w.toSend - k;
    var r := w.(have := have, toSend := toSend, sent := w.sent + Offered(w)[..k]);
    if have >= w.h then r.(len0 := 0, base1 := have - w.h, len1 := toSend)
    else r.(base0 := have, len0 := w.h - have)
  }

  lemma OfferedIsNext(w: Iov, f: nat)
    requires InHeader(w, f) || PastHeader(w, f)
    ensures Offered(w) == Whole(w.h, f)[w.have..]
  {
  }

  /** It sends the right bytes wherever the calls stop. */
  lemma FixedStepIsExact(w: Iov, f: nat, k: nat)
    requires (InHeader(w, f) || PastHeader(w, f)) && k <= |Offered(w)|
    ensures InHeader(AdvanceFixed(w, k), f) || PastHeader(AdvanceFixed(w, k), f)
  {
    hide Whole, Offered;
    OfferedIsNext(w, f);
    WholeLength(w.h, f);
    var whole := Whole(w.h, f);
    assert AdvanceFixed(w, k).sent == whole[..w.have + k];
  }

  lemma WholeLength(h: nat, f: nat)
    ensures |Whole(h, f)| == h + f
  {
  }

  predicate FeasibleFixed(w: Iov, ks: seq<nat>)
    decreases |ks|
  {
    |ks| == 0 || (w.toSend > 0 && Lens(w) && ks[0] <= |Offered(w)| && FeasibleFixed(AdvanceFixed(w, ks[0]), ks[1..]))
  }

  function FinalFixed(w: Iov, ks: seq<nat>): Iov
    requires FeasibleFixed(w, ks)
    decreases |ks|
  {
    if |ks| == 0 then w else FinalFixed(AdvanceFixed(w, ks[0]), ks[1..])
  }

  /** So every run sends a beginning of header and file, and all of it when it finishes. */
  lemma {:induction false} FixedIsExact(w: Iov, f: nat, ks: seq<nat>)
    requires (InHeader(w, f) || PastHeader(w, f)) && FeasibleFixed(w, ks)
    ensures var r := FinalFixed(w, ks);
            0 <= r.have <= w.h + f && r.sent == Whole(w.h, f)[..r.have] && (r.toSend == 0 ==> r.sent == Whole(w.h, f))
    decreases |ks|
  {
    hide AdvanceFixed;
    if |ks| > 0 {
      FixedStepIsExact(w, f, ks[0]);
      FixedStays(w, ks[0]);
      FixedIsExact(AdvanceFixed(w, ks[0]), f, ks[1..]);
    } else {
      assert w.toSend == 0 ==> Whole(w.h, f)[..w.have] == Whole(w.h, f);
    }
  }

  lemma FixedStays(w: Iov, k: nat)
    requires Lens(w) && k <= |Offered(w)|
    ensures AdvanceFixed(w, k).h == w.h
  {
  }
}
