/** The asynchronous log with its files: a call counts its line and opens the file that is
    due, the consumer writes the line later, to whichever file is open by then. */
module LaggingLog {
  import opened AsyncLog
  import opened LogFiles

  datatype State = State(log: Log, files: Files)

  /** A step of a thread, and the date at that moment. */
  datatype Event = Event(step: Step, now: Date)

  predicate Calls(s: State, t: Step)
  {
    t.Call? && t.p < |s.log.producers| && s.log.producers[t.p].Idle?
  }

  function Take(s: State, split: nat, e: Event): State
    requires split > 0
  {
    State(Act(s.log, e.step),
          if Calls(s, e.step) then Reopen(s.files, split, e.now)
          else if e.step.Write? && s.log.hand.Holding? then AddLine(s.files)
          else s.files)
  }

  function Run(s: State, split: nat, es: seq<Event>): State
    requires split > 0
    decreases |es|
  {
    if |es| == 0 then s else Run(Take(s, split, es[0]), split, es[1..])
  }

  /** The dates of the calls are a calendar. */
  predicate Dated(s: State, split: nat, last: Date, es: seq<Event>)
    requires split > 0
    decreases |es|
  {
    |es| == 0
    || if Calls(s, es[0].step)
       then Follows(last, es[0].now) && Dated(Take(s, split, es[0]), split, es[0].now, es[1..])
       else Dated(Take(s, split, es[0]), split, last, es[1..])
  }

  /** One producer, over files with room for the day. */
  function Begin(capacity: nat, d: Date, lines: map<File, nat>): State
  {
    State(Fresh(capacity, 1), Opened(d, lines))
  }

  // ---- how long a file can get -----------------------------------------------------------

  /** Lines called and not yet written. */
  function Backlog(s: Log): nat
  {
    |InHand(s.hand)| + |s.queue| + if |s.producers| == 1 then |Pending(s.producers[0])| else 0
  }

  /** When a file is opened at most a full queue and the line in hand are on their way. */
  predicate Bounded(s: State, split: nat, last: Date)
    requires split > 0
  {
    && InOrder(s.log) && |s.log.producers| == 1 && Current(s.files, split, last)
    && LinesIn(s.files, s.files.file) + Backlog(s.log) <= s.files.count % split + 1 + (s.log.capacity + 1)
    && WithinLimit(s.files, split + s.log.capacity + 1)
    && (forall f | f in s.files.lines && After(s.files.file, f) :: s.files.lines[f] == 0)
  }

  lemma CallKeepsBound(s: State, split: nat, last: Date, e: Event)
    requires split > 0 && Bounded(s, split, last) && Calls(s, e.step) && Follows(last, e.now)
    ensures Bounded(Take(s, split, e), split, e.now)
  {
    hide Act, InOrder;
    StepKeepsOrder(s.log, e.step);
    CallGrows(s.log, e.step);
    CurrentAfterWrite(s.files, split, last, e.now);
    CountOn(s.files.count, split);
    Quotient(0, 0, split);
    if (s.files.count + 1) % split == 0 { NextFile(s.files.count, split); }
  }

  lemma CallGrows(s: Log, t: Step)
    requires InOrder(s) && |s.producers| == 1 && t.Call? && t.p == 0 && s.producers[0].Idle?
    ensures var r := Act(s, t); Backlog(r) == Backlog(s) + 1 && |r.producers| == 1 && r.capacity == s.capacity
    ensures Backlog(s) <= s.capacity + 1
  {
  }

  lemma OtherShrinks(s: Log, t: Step)
    requires InOrder(s) && |s.producers| == 1 && !(t.Call? && t.p == 0 && s.producers[0].Idle?)
    ensures var r := Act(s, t);
            Backlog(r) == Backlog(s) - (if t.Write? && s.hand.Holding? then 1 else 0)
            && |r.producers| == 1 && r.capacity == s.capacity
  {
  }

  lemma OtherKeepsBound(s: State, split: nat, last: Date, e: Event)
    requires split > 0 && Bounded(s, split, last) && !Calls(s, e.step)
    ensures Bounded(Take(s, split, e), split, last)
  {
    hide Act, InOrder;
    StepKeepsOrder(s.log, e.step);
    OtherShrinks(s.log, e.step);
  }

  lemma {:induction false} RunKeepsBound(s: State, split: nat, last: Date, es: seq<Event>)
    requires split > 0 && Bounded(s, split, last) && Dated(s, split, last, es)
    ensures var r := Run(s, split, es); WithinLimit(r.files, split + s.log.capacity + 1)
    decreases |es|
  {
    hide Bounded, Act;
    if |es| == 0 {
      BoundedMeans(s, split, last);
    } else {
      var e := es[0];
      SameCapacity(s.log, e.step);
      if Calls(s, e.step) {
        CallKeepsBound(s, split, last, e);
        RunKeepsBound(Take(s, split, e), split, e.now, es[1..]);
      } else {
        OtherKeepsBound(s, split, last, e);
        RunKeepsBound(Take(s, split, e), split, last, es[1..]);
      }
    }
  }

  lemma BoundedMeans(s: State, split: nat, last: Date)
    requires split > 0 && Bounded(s, split, last)
    ensures WithinLimit(s.files, split + s.log.capacity + 1)
  {
  }

  lemma SameCapacity(s: Log, t: Step)
    ensures Act(s, t).capacity == s.capacity
  {
  }

  /** In every run with one producer no file exceeds its limit by more than the queue's
      capacity and one. */
  lemma LagIsBounded(capacity: nat, d: Date, lines: map<File, nat>, split: nat, es: seq<Event>)
    requires split > 0 && Room(lines, d, split) && Dated(Begin(capacity, d, lines), split, d, es)
    ensures WithinLimit(Run(Begin(capacity, d, lines), split, es).files, split + capacity + 1)
  {
    OpenedIff(lines, d, split);
    RoomIsBounds(lines, d, split);
    RunKeepsBound(Begin(capacity, d, lines), split, d, es);
  }

  // ---- and that it gets that long ---------------------------------------------------------

  /** The one producer is outside or waits for room, `q` lines are queued, and the
      consumer has one in hand or not. */
  predicate Shape(s: State, capacity: nat, blocked: bool, q: nat, holding: bool)
  {
    && s.log.capacity == capacity && s.log.producers == [if blocked then Spinning(0) else Idle]
    && |s.log.queue| == q && s.log.hand.Holding? == holding
  }

  predicate On(es: seq<Event>, d: Date)
  {
    forall e | e in es :: e.now == d
  }

  lemma Joined(s: State, split: nat, a: seq<Event>, b: seq<Event>)
    requires split > 0
    ensures Run(s, split, a + b) == Run(Run(s, split, a), split, b)
    decreases |a|
  {
    hide Take;
    if |a| == 0 {
      assert a + b == b;
    } else {
      assert (a + b)[1..] == a[1..] + b;
      Joined(Take(s, split, a[0]), split, a[1..], b);
    }
  }

  lemma OneStep(s: State, split: nat, d: Date, t: Step) returns (es: seq<Event>)
    requires split > 0
    ensures On(es, d) && Run(s, split, es) == Take(s, split, Event(t, d))
  {
    es := [Event(t, d)];
    assert es[1..] == [];
  }

  lemma DoCall(s: State, split: nat, d: Date, capacity: nat, q: nat, holding: bool) returns (es: seq<Event>)
    requires split > 0 && Shape(s, capacity, false, q, holding)
    ensures On(es, d)
    ensures var r := Run(s, split, es); Shape(r, capacity, true, q, holding) && r.files == Reopen(s.files, split, d)
  {
    hide Run;
    es := OneStep(s, split, d, Call(0, 0));
  }

  lemma DoEnter(s: State, split: nat, d: Date, capacity: nat, q: nat, holding: bool) returns (es: seq<Event>)
    requires split > 0 && Shape(s, capacity, true, q, holding) && q < capacity
    ensures On(es, d)
    ensures var r := Run(s, split, es); Shape(r, capacity, false, q + 1, holding) && r.files == s.files
  {
    hide Run;
    es := OneStep(s, split, d, Check(0));
    var m := Run(s, split, es);
    assert m.log.producers == [Cleared(0)];
    var more := OneStep(m, split, d, Push(0));
    Joined(s, split, es, more);
    es := es + more;
  }

  lemma DoFetch(s: State, split: nat, d: Date, capacity: nat, blocked: bool, q: nat) returns (es: seq<Event>)
    requires split > 0 && Shape(s, capacity, blocked, q, false) && q > 0
    ensures On(es, d)
    ensures var r := Run(s, split, es); Shape(r, capacity, blocked, q - 1, true) && r.files == s.files
  {
    hide Run;
    es := OneStep(s, split, d, Pop);
  }

  lemma DoWrite(s: State, split: nat, d: Date, capacity: nat, blocked: bool, q: nat) returns (es: seq<Event>)
    requires split > 0 && Shape(s, capacity, blocked, q, true)
    ensures On(es, d)
    ensures var r := Run(s, split, es); Shape(r, capacity, blocked, q, false) && r.files == AddLine(s.files)
  {
    hide Run;
    es := OneStep(s, split, d, Write);
  }

  /** A call whose line is queued at once. */
  lemma DoSend(s: State, split: nat, d: Date, capacity: nat, q: nat, holding: bool) returns (es: seq<Event>)
    requires split > 0 && Shape(s, capacity, false, q, holding) && q < capacity
    ensures On(es, d)
    ensures var r := Run(s, split, es); Shape(r, capacity, false, q + 1, holding) && r.files == Reopen(s.files, split, d)
  {
    hide Run, Shape, Reopen;
    es := DoCall(s, split, d, capacity, q, holding);
    var more := DoEnter(Run(s, split, es), split, d, capacity, q, holding);
    Joined(s, split, es, more);
    es := es + more;
  }

  /** The queue is written to the open file. */
  lemma {:induction false} Drain(s: State, split: nat, d: Date, capacity: nat, blocked: bool, q: nat) returns (es: seq<Event>)
    requires split > 0 && Shape(s, capacity, blocked, q, false)
    ensures On(es, d)
    ensures var r := Run(s, split, es);
            && Shape(r, capacity, blocked, 0, false)
            && r.files == s.files.(lines := r.files.lines) && LinesIn(r.files, s.files.file) == LinesIn(s.files, s.files.file) + q
    decreases q
  {
    hide Run, Shape;
    es := [];
    if q == 0 {
      Nothing(s, split);
    } else {
      var a := DoFetch(s, split, d, capacity, blocked, q);
      var s1 := Run(s, split, a);
      var b := DoWrite(s1, split, d, capacity, blocked, q - 1);
      var s2 := Run(s1, split, b);
      var c := Drain(s2, split, d, capacity, blocked, q - 1);
      Joined(s, split, a, b);
      Joined(s, split, a + b, c);
      es := a + b + c;
    }
  }

  lemma Nothing(s: State, split: nat)
    requires split > 0
    ensures Run(s, split, []) == s
  {
  }

  /** Calls whose lines are written at once. */
  lemma {:induction false} Cycles(s: State, split: nat, d: Date, capacity: nat, n: nat) returns (es: seq<Event>)
    requires split > 0 && capacity > 0 && Shape(s, capacity, false, 0, false)
    ensures On(es, d)
    ensures var r := Run(s, split, es); Shape(r, capacity, false, 0, false) && r.files == WriteAll(s.files, split, seq(n, _ => d))
    decreases n
  {
    hide Run, Shape, Reopen;
    es := [];
    if n == 0 {
      Nothing(s, split);
    } else {
      var a := DoSend(s, split, d, capacity, 0, false);
      var s1 := Run(s, split, a);
      var b := DoFetch(s1, split, d, capacity, false, 1);
      var s2 := Run(s1, split, b);
      var c := DoWrite(s2, split, d, capacity, false, 0);
      var s3 := Run(s2, split, c);
      assert s3.files == WriteLine(s.files, split, d);
      var rest := Cycles(s3, split, d, capacity, n - 1);
      assert seq(n, _ => d)[1..] == seq(n - 1, _ => d);
      Joined(s, split, a, b);
      Joined(s, split, a + b, c);
      Joined(s, split, a + b + c, rest);
      es := a + b + c + rest;
    }
  }

  /** Calls whose lines only pile up. */
  lemma {:induction false} Sends(s: State, split: nat, d: Date, capacity: nat, q: nat, n: nat) returns (es: seq<Event>)
    requires split > 0 && Shape(s, capacity, false, q, true) && q + n <= capacity && Current(s.files, split, d)
    ensures On(es, d)
    ensures var r := Run(s, split, es);
            && Shape(r, capacity, false, q + n, true) && Current(r.files, split, d)
            && r.files.lines == s.files.lines && r.files.count == s.files.count + n
    decreases n
  {
    hide Run, Shape, Current;
    es := [];
    if n == 0 {
      Nothing(s, split);
    } else {
      var a := DoSend(s, split, d, capacity, q, true);
      Counted(s.files, split, d);
      var rest := Sends(Run(s, split, a), split, d, capacity, q + 1, n - 1);
      Joined(s, split, a, rest);
      es := a + rest;
    }
  }

  lemma Counted(s: Files, split: nat, d: Date)
    requires split > 0 && Current(s, split, d)
    ensures var r := Reopen(s, split, d); Current(r, split, d) && r.lines == s.lines && r.count == s.count + 1
  {
    CurrentAfterWrite(s, split, d, d);
  }

  lemma {:induction false} CountOfWrites(s: Files, split: nat, d: Date, n: nat)
    requires split > 0 && Current(s, split, d)
    ensures WriteAll(s, split, seq(n, _ => d)).count == s.count + n && Calendar(d, seq(n, _ => d))
    decreases n
  {
    if n > 0 {
      assert seq(n, _ => d)[1..] == seq(n - 1, _ => d);
      CurrentAfterWrite(s, split, d, d);
      CountOfWrites(WriteLine(s, split, d), split, d, n - 1);
    }
  }

  lemma {:induction false} OneDayIsDated(s: State, split: nat, d: Date, es: seq<Event>)
    requires split > 0 && On(es, d)
    ensures Dated(s, split, d, es)
    decreases |es|
  {
    hide Take;
    if |es| > 0 { OneDayIsDated(Take(s, split, es[0]), split, d, es[1..]); }
  }

  /** `n` lines called and written, with file `k` still to come. */
  lemma WrittenUp(capacity: nat, d: Date, split: nat, n: nat, k: nat) returns (es: seq<Event>)
    requires split > 0 && capacity > 0 && n < k * split
    ensures On(es, d)
    ensures var r := Run(Begin(capacity, d, map[]), split, es);
            && Shape(r, capacity, false, 0, false) && Current(r.files, split, d)
            && r.files.count == n && LinesIn(r.files, File(d.day, k)) == 0
  {
    hide Run, Shape, WriteAll, WithinLimit, Calendar;
    var s := Begin(capacity, d, map[]);
    BeginShape(capacity, d);
    es := Cycles(s, split, d, capacity, n);
    RoomIsBounds(map[], d, split);
    OpenedIff(map[], d, split);
    CountOfWrites(s.files, split, d, n);
    RotationIsRight(s.files, split, d, seq(n, _ => d));
    LastDate(d, n);
    Below(n, split, k);
  }

  lemma LastDate(d: Date, n: nat)
    ensures var ds := seq(n, _ => d); (if |ds| == 0 then d else ds[|ds| - 1]) == d
  {
  }

  /** With the queue full, one line in hand and the next call opening file `k`. */
  lemma PiledUp(capacity: nat, d: Date, split: nat) returns (es: seq<Event>)
    requires split > 0 && capacity > 0
    ensures On(es, d)
    ensures var r := Run(Begin(capacity, d, map[]), split, es);
            && Shape(r, capacity, false, capacity, true) && Current(r.files, split, d)
            && r.files.count == (capacity + 2) * split - 1 && LinesIn(r.files, File(d.day, capacity + 2)) == 0
  {
    hide Run, Shape, Current, Begin, Reopen;
    var s, k := Begin(capacity, d, map[]), capacity + 2;
    assert k * split >= k;
    var a := WrittenUp(capacity, d, split, k * split - 1 - (capacity + 1), k);
    var s1 := Run(s, split, a);
    var b := DoSend(s1, split, d, capacity, 0, false);
    Counted(s1.files, split, d);
    var s2 := Run(s1, split, b);
    var c := DoFetch(s2, split, d, capacity, false, 1);
    var s3 := Run(s2, split, c);
    var e := Sends(s3, split, d, capacity, 0, capacity);
    Joined(s, split, a, b);
    Joined(s, split, a + b, c);
    Joined(s, split, a + b + c, e);
    es := a + b + c + e;
  }

  lemma BeginShape(capacity: nat, d: Date)
    ensures Shape(Begin(capacity, d, map[]), capacity, false, 0, false)
  {
  }

  lemma Below(n: nat, split: nat, k: nat)
    requires split > 0 && n < k * split
    ensures n / split < k
  {
    assert n == n / split * split + n % split;
  }

  /** The bound is reached, whatever the queue's capacity and the limit: the call that
      opens a file finds the queue full and a line in hand, and all of it goes there. */
  lemma LagIsReached(capacity: nat, d: Date, split: nat) returns (es: seq<Event>)
    requires split > 0 && capacity > 0
    ensures Dated(Begin(capacity, d, map[]), split, d, es)
    ensures LinesIn(Run(Begin(capacity, d, map[]), split, es).files, File(d.day, capacity + 2)) == split + capacity + 1
  {
    hide Run, Shape, WriteAll, Dated, Begin;
    var s, f := Begin(capacity, d, map[]), File(d.day, capacity + 2);
    var a := PiledUp(capacity, d, split);
    var s1 := Run(s, split, a);
    Opens(s1.files, split, d, capacity + 2);
    var b := DoCall(s1, split, d, capacity, capacity, true);
    var s2 := Run(s1, split, b);
    var c := DoWrite(s2, split, d, capacity, true, capacity);
    var s3 := Run(s2, split, c);
    var e := Drain(s3, split, d, capacity, true, capacity);
    var s4 := Run(s3, split, e);
    var g := DoEnter(s4, split, d, capacity, 0, false);
    var s5 := Run(s4, split, g);
    var h := Drain(s5, split, d, capacity, false, 1);
    var s6 := Run(s5, split, h);
    assert LinesIn(s6.files, f) == capacity + 2;
    var i := Cycles(s6, split, d, capacity, split - 1);
    Filled(s6.files, split, d, split - 1);
    Joined(s, split, a, b);
    Joined(s, split, a + b, c);
    Joined(s, split, a + b + c, e);
    Joined(s, split, a + b + c + e, g);
    Joined(s, split, a + b + c + e + g, h);
    Joined(s, split, a + b + c + e + g + h, i);
    es := a + b + c + e + g + h + i;
    OneDayIsDated(s, split, d, es);
  }

  lemma Opens(s: Files, split: nat, d: Date, k: nat)
    requires split > 0 && Current(s, split, d) && s.count == k * split - 1
    ensures var r := Reopen(s, split, d);
            r.count % split == 0 && Current(r, split, d) && r.file == File(d.day, k) && r.lines == s.lines
  {
    Quotient(k, 0, split);
    Counted(s, split, d);
  }
}
