/** The asynchronous log: producers that wait for room and then push, one consumer that
    writes. */
module AsyncLog {

  // ---- asynchronous: nothing lost, in order, with one producer ------------------------------

  /** A caller of write_log: not in it, spinning on full(), or past it with its line not
      yet pushed. */
  datatype Producer = Idle | Spinning(line: int) | Cleared(line: int)

  datatype Hand = Empty | Holding(line: int)

  datatype Log = Log(
    capacity: nat,
    queue: seq<int>,
    producers: seq<Producer>,
    hand: Hand,               // what the consumer has popped and not yet written
    called: seq<int>,         // the lines of all calls, in order
    written: seq<int>,        // the file
    dropped: nat              // pushes that found the queue full
  )

  datatype Step =
    | Call(p: nat, line: int)
    | Check(p: nat)           // m_log_queue->full()
    | Push(p: nat)            // m_log_queue->push(log_str), its result ignored
    | Pop
    | Write

  function Fresh(capacity: nat, producers: nat): Log
  {
    Log(capacity, [], seq(producers, _ => Idle), Empty, [], [], 0)
  }

  function Act(s: Log, t: Step): Log
  {
    match t
    case Call(p, line) =>
      if p < |s.producers| && s.producers[p].Idle?
      then s.(producers := s.producers[p := Spinning(line)], called := s.called + [line]) else s
    case Check(p) =>
      if p < |s.producers| && s.producers[p].Spinning? && |s.queue| < s.capacity
      then s.(producers := s.producers[p := Cleared(s.producers[p].line)]) else s
    case Push(p) =>
      if !(p < |s.producers| && s.producers[p].Cleared?) then s
      else if |s.queue| < s.capacity
      then s.(queue := s.queue + [s.producers[p].line], producers := s.producers[p := Idle])
      else s.(dropped := s.dropped + 1, producers := s.producers[p := Idle])
    case Pop =>
      if s.hand.Empty? && |s.queue| > 0 then s.(hand := Holding(s.queue[0]), queue := s.queue[1..]) else s
    case Write =>
      if s.hand.Holding? then s.(hand := Empty, written := s.written + [s.hand.line]) else s
  }

  function Exec(s: Log, ts: seq<Step>): Log
    decreases |ts|
  {
    if |ts| == 0 then s else Exec(Act(s, ts[0]), ts[1..])
  }

  function Pending(p: Producer): seq<int> { if p.Idle? then [] else [p.line] }

  function InHand(h: Hand): seq<int> { if h.Empty? then [] else [h.line] }

  /** Every called line is written, in the consumer's hand, queued or with the one
      producer, in call order; and once past the check there is room. */
  predicate InOrder(s: Log)
  {
    && |s.producers| <= 1 && s.dropped == 0 && |s.queue| <= s.capacity
    && s.called == s.written + (InHand(s.hand) + (s.queue + if |s.producers| == 1 then Pending(s.producers[0]) else []))
    && (|s.producers| == 1 && s.producers[0].Cleared? ==> |s.queue| < s.capacity)
  }

  lemma StepKeepsOrder(s: Log, t: Step)
    requires InOrder(s)
    ensures InOrder(Act(s, t))
  {
    match t {
      case Call(p, line) => CallKeeps(s, p, line);
      case Check(p) =>
      case Push(p) => PushKeeps(s, p);
      case Pop => PopKeeps(s);
      case Write => WriteKeeps(s);
    }
  }

  lemma CallKeeps(s: Log, p: nat, line: int)
    requires InOrder(s)
    ensures InOrder(Act(s, Call(p, line)))
  {
    if p < |s.producers| && s.producers[p].Idle? {
      var a, b := s.written, InHand(s.hand);
      assert a + (b + (s.queue + [])) + [line] == a + (b + (s.queue + [line]));
    }
  }

  lemma PushKeeps(s: Log, p: nat)
    requires InOrder(s)
    ensures InOrder(Act(s, Push(p)))
  {
    if p < |s.producers| && s.producers[p].Cleared? {
      assert s.queue + [s.producers[p].line] + [] == s.queue + [s.producers[p].line];
    }
  }

  lemma PopKeeps(s: Log)
    requires InOrder(s)
    ensures InOrder(Act(s, Pop))
  {
    if s.hand.Empty? && |s.queue| > 0 {
      var p := if |s.producers| == 1 then Pending(s.producers[0]) else [];
      var h, rest := [s.queue[0]], s.queue[1..];
      assert s.queue == h + rest;
      assert [] + (h + rest + p) == h + (rest + p);
    }
  }

  lemma WriteKeeps(s: Log)
    requires InOrder(s)
    ensures InOrder(Act(s, Write))
  {
    if s.hand.Holding? {
      var p := if |s.producers| == 1 then Pending(s.producers[0]) else [];
      assert s.written + ([s.hand.line] + (s.queue + p)) == s.written + [s.hand.line] + ([] + (s.queue + p));
    }
  }

  lemma {:induction false} OneProducerKeepsOrder(s: Log, ts: seq<Step>)
    requires InOrder(s)
    ensures InOrder(Exec(s, ts))
    decreases |ts|
  {
    if |ts| > 0 {
      StepKeepsOrder(s, ts[0]);
      OneProducerKeepsOrder(Act(s, ts[0]), ts[1..]);
    }
  }

  // ---- two producers can lose a line ------------------------------------------------------

  lemma {:induction false} ExecConcat(s: Log, a: seq<Step>, b: seq<Step>)
    ensures Exec(s, a + b) == Exec(Exec(s, a), b)
    decreases |a|
  {
    if |a| == 0 {
      assert a + b == b;
    } else {
      assert (a + b)[1..] == a[1..] + b;
      ExecConcat(Act(s, a[0]), a[1..], b);
    }
  }

  lemma Three(s: Log, a: Step, b: Step, c: Step)
    ensures Exec(s, [a, b, c]) == Act(Act(Act(s, a), b), c)
  {
    assert [a, b, c][1..] == [b, c] && [b, c][1..] == [c] && [c][1..] == [];
    var x := Act(Act(s, a), b);
    assert Exec(x, [c]) == Exec(Act(x, c), []) == Act(x, c);
  }

  function FillSteps(n: nat): seq<Step>
  {
    if n == 0 then [] else FillSteps(n - 1) + [Call(0, 0), Check(0), Push(0)]
  }

  lemma {:induction false} Fill(s: Log, n: nat)
    requires |s.producers| >= 2 && (forall p | 0 <= p < |s.producers| :: s.producers[p] == Idle)
    requires |s.queue| == 0 && n <= s.capacity && s.dropped == 0
    ensures var r := Exec(s, FillSteps(n));
            r.producers == s.producers && |r.queue| == n && r.capacity == s.capacity && r.dropped == 0
  {
    if n > 0 {
      Fill(s, n - 1);
      var m := Exec(s, FillSteps(n - 1));
      ExecConcat(s, FillSteps(n - 1), [Call(0, 0), Check(0), Push(0)]);
      Three(m, Call(0, 0), Check(0), Push(0));
      assert Act(Act(Act(m, Call(0, 0)), Check(0)), Push(0)).producers == s.producers;
    }
  }

  /** Both see the last free place, both push. */
  lemma RaceDrops(m: Log)
    requires |m.producers| >= 2 && m.producers[0] == Idle && m.producers[1] == Idle
    requires |m.queue| + 1 == m.capacity && m.dropped == 0
    ensures Exec(Exec(m, [Call(0, 1), Check(0), Call(1, 2)]), [Check(1), Push(0), Push(1)]).dropped == 1
  {
    Three(m, Call(0, 1), Check(0), Call(1, 2));
    var n := Exec(m, [Call(0, 1), Check(0), Call(1, 2)]);
    Three(n, Check(1), Push(0), Push(1));
  }

  /** The log theorem: no run loses a line if and only if there is at most one producer. */
  lemma NothingDroppedIff(capacity: nat, producers: nat)
    requires capacity > 0
    ensures (forall ts :: Exec(Fresh(capacity, producers), ts).dropped == 0) <==> producers <= 1
  {
    hide Act, Exec;
    var s := Fresh(capacity, producers);
    if producers <= 1 {
      forall ts ensures Exec(s, ts).dropped == 0 { OneProducerKeepsOrder(s, ts); }
    } else {
      Fill(s, capacity - 1);
      var m := Exec(s, FillSteps(capacity - 1));
      RaceDrops(m);
      var a, b := [Call(0, 1), Check(0), Call(1, 2)], [Check(1), Push(0), Push(1)];
      ExecConcat(s, FillSteps(capacity - 1), a);
      ExecConcat(s, FillSteps(capacity - 1) + a, b);
      assert Exec(s, FillSteps(capacity - 1) + a + b).dropped == 1;
    }
  }

  /** The lines of the calls that were made, each when its producer was outside. */
  function AllCalled(s: Log, ts: seq<Step>): seq<int>
    decreases |ts|
  {
    if |ts| == 0 then []
    else
      var t := ts[0];
      (if t.Call? && t.p < |s.producers| && s.producers[t.p] == Idle then [t.line] else []) + AllCalled(Act(s, t), ts[1..])
  }

  lemma {:induction false} CalledLaw(s: Log, ts: seq<Step>)
    ensures Exec(s, ts).called == s.called + AllCalled(s, ts)
    decreases |ts|
  {
    if |ts| > 0 { CalledLaw(Act(s, ts[0]), ts[1..]); }
  }

  /** With one producer the file is always a beginning of the calls, and all of them
      once the producer, the queue and the consumer are done. */
  lemma WrittenInCallOrder(capacity: nat, ts: seq<Step>)
    ensures var r := Exec(Fresh(capacity, 1), ts);
            && r.written <= r.called == AllCalled(Fresh(capacity, 1), ts)
            && (|r.queue| == 0 && r.hand.Empty? && r.producers == [Idle] ==> r.written == r.called)
  {
    OneProducerKeepsOrder(Fresh(capacity, 1), ts);
    CalledLaw(Fresh(capacity, 1), ts);
    assert [] + AllCalled(Fresh(capacity, 1), ts) == AllCalled(Fresh(capacity, 1), ts);
  }
}
