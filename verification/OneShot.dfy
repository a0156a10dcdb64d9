/** Who may touch a connection: the kernel, the main thread, the request queue and the
    workers hand it to one another through EPOLLONESHOT. */
module OneShot {
  import opened Sequences

  const IDLE: int := -1
  const MAX_FD: nat := 65536

  datatype Server = Server(
    oneShot: bool,           // whether an event disarms its descriptor
    maxRequests: nat,
    open: set<int>,
    armed: set<int>,         // the kernel may report these
    batch: seq<int>,         // reported, not yet handled by the main thread
    queue: seq<int>,
    workers: seq<int>,       // the connection each worker has
    lost: set<int>,          // disarmed and with nobody: a refused append, an unknown event
    userCount: int
  )

  datatype WriteResult = WouldBlock | KeptAlive | Finished

  /** What epoll reports of a connection, with what read() or write() then make of it. */
  datatype Event = HangUp | Readable(ok: bool) | Writable(result: WriteResult) | SomethingElse

  /** One step of the main thread or of a worker. */
  datatype Step =
    | Accept(c: int)
    | Wait(events: seq<int>)
    | Handle(e: Event)
    | Pick(w: nat)
    | Rearm(w: nat)          // the last thing process() does is modfd

  predicate Distinct(s: seq<int>)
  {
    forall i, j | 0 <= i < j < |s| :: s[i] != s[j]
  }

  function Close(s: Server, c: int): Server
  {
    s.(open := s.open - {c}, armed := s.armed - {c}, userCount := s.userCount - 1)
  }

  function DoAccept(s: Server, c: int): Server
  {
    if c < 0 || c in s.open || s.userCount >= MAX_FD then s
    else s.(open := s.open + {c}, armed := s.armed + {c}, userCount := s.userCount + 1)
  }

  function DoWait(s: Server, events: seq<int>): Server
  {
    if |s.batch| > 0 || !Distinct(events) || exists c | c in events :: c !in s.armed then s
    else s.(batch := events, armed := if s.oneShot then s.armed - (set c | c in events) else s.armed)
  }

  function DoAppend(s: Server, c: int): Server
  {
    if |s.queue| > s.maxRequests then s.(lost := s.lost + {c}) else s.(queue := s.queue + [c])
  }

  function DoPick(s: Server, w: nat): Server
  {
    if !(w < |s.workers| && s.workers[w] == IDLE) || |s.queue| == 0 then s
    else s.(workers := s.workers[w := s.queue[0]], queue := s.queue[1..])
  }

  function DoRearm(s: Server, w: nat): Server
  {
    if !(w < |s.workers| && s.workers[w] != IDLE) then s
    else s.(armed := s.armed + {s.workers[w]}, workers := s.workers[w := IDLE])
  }

  /** The main thread deals with the first event of its batch. */
  function DoHandle(s: Server, e: Event): Server
  {
    if |s.batch| == 0 then s
    else
      var c, r := s.batch[0], s.(batch := s.batch[1..]);
      match e
      case HangUp => Close(r, c)
      case Readable(ok) => if ok then DoAppend(r, c) else Close(r, c)
      case Writable(result) => if result == Finished then Close(r, c) else r.(armed := r.armed + {c})
      case SomethingElse => r.(lost := r.lost + {c})
  }

  function Act(s: Server, t: Step): Server
  {
    match t
    case Accept(c) => DoAccept(s, c)
    case Wait(events) => DoWait(s, events)
    case Pick(w) => DoPick(s, w)
    case Rearm(w) => DoRearm(s, w)
    case Handle(e) => DoHandle(s, e)
  }

  function Exec(s: Server, ts: seq<Step>): Server
    decreases |ts|
  {
    if |ts| == 0 then s else Exec(Act(s, ts[0]), ts[1..])
  }

  function Start(oneShot: bool, workers: nat, maxRequests: nat): Server
  {
    Server(oneShot, maxRequests, {}, {}, [], [], seq(workers, _ => IDLE), {}, 0)
  }

  // ---- one place at a time ------------------------------------------------------------

  /** In how many places a connection is. */
  ghost function Places(s: Server, c: int): nat
  {
    (if c in s.armed then 1 else 0) + multiset(s.batch)[c] + multiset(s.queue)[c]
    + multiset(s.workers)[c] + (if c in s.lost then 1 else 0)
  }

  /** An open connection is in exactly one place, a closed one nowhere; `held` is the
      connection the main thread has taken off its batch, or IDLE. */
  ghost predicate Sound(s: Server, held: int)
  {
    && (forall c :: 0 <= c ==> Places(s, c) + (if c == held then 1 else 0) == if c in s.open then 1 else 0)
    && Inside(s) && s.userCount == |s.open|
  }

  ghost predicate Inside(s: Server)
  {
    && (forall c | c in s.open :: 0 <= c) && s.armed <= s.open && s.lost <= s.open
    && (forall i | 0 <= i < |s.batch| :: s.batch[i] in s.open)
    && (forall i | 0 <= i < |s.queue| :: s.queue[i] in s.open)
    && (forall i | 0 <= i < |s.workers| :: s.workers[i] == IDLE || s.workers[i] in s.open)
  }

  ghost predicate Exclusive(s: Server)
  {
    Sound(s, IDLE)
  }

  lemma HeadCounts(q: seq<int>)
    requires |q| > 0
    ensures forall p :: multiset(q)[p] == multiset(q[1..])[p] + (if p == q[0] then 1 else 0)
  {
    assert q == [q[0]] + q[1..];
  }

  lemma DistinctCounts(q: seq<int>)
    requires Distinct(q)
    ensures forall p :: multiset(q)[p] == if p in q then 1 else 0
  {
    if |q| > 0 {
      DistinctCounts(q[1..]);
      HeadCounts(q);
      assert q[0] !in q[1..];
      assert forall p :: p in q <==> p == q[0] || p in q[1..];
    }
  }

  lemma AcceptKeeps(s: Server, c: int)
    requires Exclusive(s)
    ensures Exclusive(DoAccept(s, c))
  {
    assert c >= 0 ==> Places(s, c) == if c in s.open then 1 else 0;
  }

  lemma WaitKeeps(s: Server, events: seq<int>)
    requires Exclusive(s) && s.oneShot
    ensures Exclusive(DoWait(s, events))
  {
    if Distinct(events) { DistinctCounts(events); }
    var r := DoWait(s, events);
    if r != s {
      forall c | 0 <= c ensures Places(r, c) == if c in r.open then 1 else 0 {
        assert Places(s, c) == if c in s.open then 1 else 0;
      }
    }
  }

  lemma TakeKeeps(s: Server)
    requires Exclusive(s) && |s.batch| > 0
    ensures Sound(s.(batch := s.batch[1..]), s.batch[0])
  {
    HeadCounts(s.batch);
    var c, r := s.batch[0], s.(batch := s.batch[1..]);
    forall d | 0 <= d ensures Places(r, d) + (if d == c then 1 else 0) == if d in r.open then 1 else 0 {
      assert Places(s, d) + (if d == IDLE then 1 else 0) == if d in s.open then 1 else 0;
    }
  }

  lemma CloseKeeps(s: Server, c: int)
    requires Sound(s, c) && c in s.open
    ensures Exclusive(Close(s, c))
  {
    var r := Close(s, c);
    assert Places(s, c) == 0;
    assert multiset(s.batch)[c] == 0 && multiset(s.queue)[c] == 0 && multiset(s.workers)[c] == 0;
    NowhereIn(s.batch, c);
    NowhereIn(s.queue, c);
    NowhereIn(s.workers, c);
    forall d | 0 <= d ensures Places(r, d) == if d in r.open then 1 else 0 {
      assert Places(s, d) + (if d == c then 1 else 0) == if d in s.open then 1 else 0;
    }
  }

  lemma NowhereIn(q: seq<int>, c: int)
    requires multiset(q)[c] == 0
    ensures c !in q
  {
  }

  lemma AppendKeeps(s: Server, c: int)
    requires Sound(s, c) && c in s.open
    ensures Exclusive(DoAppend(s, c))
  {
    var r := DoAppend(s, c);
    forall d | 0 <= d ensures Places(r, d) == if d in r.open then 1 else 0 {
      assert Places(s, d) + (if d == c then 1 else 0) == if d in s.open then 1 else 0;
    }
  }

  lemma ArmKeeps(s: Server, c: int)
    requires Sound(s, c) && c in s.open
    ensures Exclusive(s.(armed := s.armed + {c}))
  {
    var r := s.(armed := s.armed + {c});
    forall d | 0 <= d ensures Places(r, d) == if d in r.open then 1 else 0 {
      assert Places(s, d) + (if d == c then 1 else 0) == if d in s.open then 1 else 0;
    }
  }

  lemma LoseKeeps(s: Server, c: int)
    requires Sound(s, c) && c in s.open
    ensures Exclusive(s.(lost := s.lost + {c}))
  {
    var r := s.(lost := s.lost + {c});
    forall d | 0 <= d ensures Places(r, d) == if d in r.open then 1 else 0 {
      assert Places(s, d) + (if d == c then 1 else 0) == if d in s.open then 1 else 0;
    }
  }

  lemma HandleKeeps(s: Server, e: Event)
    requires Exclusive(s)
    ensures Exclusive(DoHandle(s, e))
  {
    if |s.batch| > 0 {
      var c, r := s.batch[0], s.(batch := s.batch[1..]);
      assert c in r.open;
      hide Exclusive, Sound, Close, DoAppend;
      TakeKeeps(s);
      match e {
        case HangUp => CloseKeeps(r, c);
        case Readable(ok) => if ok { AppendKeeps(r, c); } else { CloseKeeps(r, c); }
        case Writable(result) => if result == Finished { CloseKeeps(r, c); } else { ArmKeeps(r, c); }
        case SomethingElse => LoseKeeps(r, c);
      }
    }
  }

  lemma PickKeeps(s: Server, w: nat)
    requires Exclusive(s)
    ensures Exclusive(DoPick(s, w))
  {
    var r := DoPick(s, w);
    if r != s {
      HeadCounts(s.queue);
      Moves(s.workers, w, s.queue[0]);
      forall d | 0 <= d ensures Places(r, d) == if d in r.open then 1 else 0 {
        assert Places(s, d) == if d in s.open then 1 else 0;
      }
    }
  }

  lemma RearmKeeps(s: Server, w: nat)
    requires Exclusive(s)
    ensures Exclusive(DoRearm(s, w))
  {
    var r := DoRearm(s, w);
    if r != s {
      var c := s.workers[w];
      Moves(s.workers, w, IDLE);
      assert multiset(s.workers)[c] > 0;
      forall d | 0 <= d ensures Places(r, d) == if d in r.open then 1 else 0 {
        assert Places(s, d) == if d in s.open then 1 else 0;
      }
    }
  }

  lemma {:induction false} RunKeeps(s: Server, ts: seq<Step>)
    requires Exclusive(s) && s.oneShot
    ensures Exclusive(Exec(s, ts))
    decreases |ts|
  {
    hide Exclusive, DoAccept, DoWait, DoHandle, DoPick, DoRearm;
    if |ts| > 0 {
      var t := ts[0];
      match t {
        case Accept(c) => AcceptKeeps(s, c);
        case Wait(events) => WaitKeeps(s, events);
        case Pick(w) => PickKeeps(s, w);
        case Rearm(w) => RearmKeeps(s, w);
        case Handle(e) => HandleKeeps(s, e);
      }
      FlagStays(s, t);
      RunKeeps(Act(s, t), ts[1..]);
    }
  }

  lemma FlagStays(s: Server, t: Step)
    ensures Act(s, t).oneShot == s.oneShot && |Act(s, t).workers| == |s.workers|
  {
  }

  lemma NotCounted(q: seq<int>, c: int)
    requires c !in q
    ensures multiset(q)[c] == 0
  {
  }

  lemma StartIsExclusive(oneShot: bool, workers: nat, maxRequests: nat)
    ensures Exclusive(Start(oneShot, workers, maxRequests))
  {
    var s := Start(oneShot, workers, maxRequests);
    forall c | 0 <= c ensures Places(s, c) == 0 {
      NotCounted(s.workers, c);
    }
  }

  // ---- what that means for the queue and the workers -----------------------------------

  /** Nobody handles a connection that somebody else handles, or that the kernel may report. */
  ghost predicate OneHandler(s: Server)
  {
    && Distinct(s.queue)
    && (forall v, w | 0 <= v < w < |s.workers| :: s.workers[v] == IDLE || s.workers[v] != s.workers[w])
    && (forall w | 0 <= w < |s.workers| && s.workers[w] != IDLE ::
      s.workers[w] in s.open && s.workers[w] !in s.queue && s.workers[w] !in s.batch && s.workers[w] !in s.armed)
    && (forall i | 0 <= i < |s.queue| :: s.queue[i] in s.open && s.queue[i] !in s.batch && s.queue[i] !in s.armed)
  }

  lemma ExclusiveMeans(s: Server)
    requires Exclusive(s)
    ensures OneHandler(s)
  {
    forall i, j | 0 <= i < j < |s.queue| ensures s.queue[i] != s.queue[j] {
      var c := s.queue[i];
      assert 0 <= c && Places(s, c) <= 1;
      if c == s.queue[j] { HeldTwice(s.queue, i, j); }
    }
    forall v, w | 0 <= v < w < |s.workers| ensures s.workers[v] == IDLE || s.workers[v] != s.workers[w] {
      var c := s.workers[v];
      if c != IDLE && c == s.workers[w] {
        assert 0 <= c && Places(s, c) <= 1;
        HeldTwice(s.workers, v, w);
      }
    }
    forall w | 0 <= w < |s.workers| && s.workers[w] != IDLE
      ensures s.workers[w] in s.open && s.workers[w] !in s.queue && s.workers[w] !in s.batch && s.workers[w] !in s.armed
    {
      var c := s.workers[w];
      assert 0 <= c && Places(s, c) <= 1 && multiset(s.workers)[c] > 0;
      NowhereIn(s.queue, c);
      NowhereIn(s.batch, c);
    }
    forall i | 0 <= i < |s.queue|
      ensures s.queue[i] in s.open && s.queue[i] !in s.batch && s.queue[i] !in s.armed
    {
      var c := s.queue[i];
      assert 0 <= c && Places(s, c) <= 1 && multiset(s.queue)[c] > 0;
      NowhereIn(s.batch, c);
    }
  }

  /** One client that sends twice is queued twice when events do not disarm the descriptor. */
  function Doubled(): seq<Step>
  {
    [Accept(0), Wait([0]), Handle(Readable(true)), Wait([0]), Handle(Readable(true))]
  }

  lemma DoubledIsQueuedTwice(workers: nat, maxRequests: nat)
    requires maxRequests > 0
    ensures Exec(Start(false, workers, maxRequests), Doubled()).queue == [0, 0]
  {
    var s0, ts := Start(false, workers, maxRequests), Doubled();
    var s1 := s0.(open := {0}, armed := {0}, userCount := 1);
    assert Act(s0, ts[0]) == s1 by { assert s0.open + {0} == {0} && s0.armed + {0} == {0}; }
    var s2 := s1.(batch := [0]);
    assert Distinct([0]);
    assert Act(s1, ts[1]) == s2;
    var s3 := s1.(queue := [0]);
    assert Act(s2, ts[2]) == s3;
    var s4 := s3.(batch := [0]);
    assert Act(s3, ts[3]) == s4;
    var s5 := s3.(queue := [0, 0]);
    assert Act(s4, ts[4]) == s5;
    hide Act;
    Unfold(s0, ts); Unfold(s1, ts[1..]); Unfold(s2, ts[2..]); Unfold(s3, ts[3..]); Unfold(s4, ts[4..]);
    assert ts[1..][1..] == ts[2..] && ts[2..][1..] == ts[3..] && ts[3..][1..] == ts[4..] && ts[4..][1..] == [];
  }

  lemma Unfold(s: Server, ts: seq<Step>)
    requires |ts| > 0
    ensures Exec(s, ts) == Exec(Act(s, ts[0]), ts[1..])
  {
  }

  /** With a queue that takes at least two, every run keeps one handler for each connection
      exactly when the descriptors are registered with EPOLLONESHOT. */
  lemma OneHandlerIff(oneShot: bool, workers: nat, maxRequests: nat)
    requires maxRequests > 0
    ensures (forall ts :: OneHandler(Exec(Start(oneShot, workers, maxRequests), ts))) <==> oneShot
  {
    hide Exec, OneHandler, Doubled;
    if oneShot {
      forall ts ensures OneHandler(Exec(Start(oneShot, workers, maxRequests), ts)) {
        EveryRun(workers, maxRequests, ts);
      }
    } else {
      DoubledIsQueuedTwice(workers, maxRequests);
      QueuedTwice(Exec(Start(false, workers, maxRequests), Doubled()));
      assert !OneHandler(Exec(Start(oneShot, workers, maxRequests), Doubled()));
    }
  }

  lemma QueuedTwice(s: Server)
    requires s.queue == [0, 0]
    ensures !OneHandler(s)
  {
    assert s.queue[0] == s.queue[1];
  }

  lemma EveryRun(workers: nat, maxRequests: nat, ts: seq<Step>)
    ensures var s := Exec(Start(true, workers, maxRequests), ts);
      Exclusive(s) && OneHandler(s) && s.userCount == |s.open|
  {
    var s0 := Start(true, workers, maxRequests);
    StartIsExclusive(true, workers, maxRequests);
    RunKeeps(s0, ts);
    ExclusiveMeans(Exec(s0, ts));
  }

  // ---- which place ------------------------------------------------------------------------

  /** The step handles a hang-up, a failed read or a finished write of `c`. */
  predicate Ends(s: Server, t: Step, c: int)
  {
    && t.Handle? && |s.batch| > 0 && s.batch[0] == c
    && (t.e == HangUp || t.e == Readable(false) || t.e == Writable(Finished))
  }

  predicate Arrives(s: Server, t: Step, c: int)
  {
    t == Accept(c) && 0 <= c && c !in s.open && s.userCount < MAX_FD
  }

  /** A connection is opened by its accept and closed by its end, and by nothing else. */
  lemma OpenLaw(s: Server, t: Step, c: int)
    ensures c in Act(s, t).open <==> Arrives(s, t, c) || (c in s.open && !Ends(s, t, c))
  {
  }

  /** So over a run one that is not open any more has met its end in it. */
  lemma {:induction false} ClosedByItsEnd(s: Server, ts: seq<Step>, c: int) returns (k: nat)
    requires c in s.open && c !in Exec(s, ts).open
    ensures k < |ts| && Ends(Exec(s, ts[..k]), ts[k], c)
    decreases |ts|
  {
    hide Act, Ends;
    OpenLaw(s, ts[0], c);
    if Ends(s, ts[0], c) {
      k := 0;
    } else {
      k := ClosedByItsEnd(Act(s, ts[0]), ts[1..], c);
      k := k + 1;
      assert ts[..k][1..] == ts[1..][..k - 1];
    }
  }

  predicate Frees(s: Server, w: nat) { w < |s.workers| && s.workers[w] != IDLE }

  /** Accepting arms a connection, and so do a write that would block or is kept alive and
      the end of a worker's call. */
  predicate Arms(s: Server, t: Step, c: int)
  {
    || Arrives(s, t, c)
    || (t.Handle? && |s.batch| > 0 && s.batch[0] == c && (t.e == Writable(WouldBlock) || t.e == Writable(KeptAlive)))
    || (t.Rearm? && Frees(s, t.w) && s.workers[t.w] == c)
  }

  /** The kernel reports descriptors that are armed, each once, when the last batch is done. */
  predicate Reported(s: Server, t: Step, c: int)
  {
    t.Wait? && |s.batch| == 0 && c in t.events && Distinct(t.events) && forall d | d in t.events :: d in s.armed
  }

  lemma ArmedLaw(s: Server, t: Step, c: int)
    ensures c in Act(s, t).armed
            <==> Arms(s, t, c) || (c in s.armed && !Ends(s, t, c) && !(s.oneShot && Reported(s, t, c)))
  {
    hide Distinct;
    if t.Handle? && |s.batch| > 0 { ArmedByHandle(s, t.e, c); }
  }

  lemma ArmedByHandle(s: Server, e: Event, c: int)
    requires |s.batch| > 0
    ensures c in DoHandle(s, e).armed
            <==> (c == s.batch[0] && (e == Writable(WouldBlock) || e == Writable(KeptAlive)))
                 || (c in s.armed && !Ends(s, Handle(e), c))
  {
  }

  /** What a step puts at the end of the queue, and what it takes from its front. */
  function Queued(s: Server, t: Step): seq<int>
  {
    if t == Handle(Readable(true)) && |s.batch| > 0 && |s.queue| <= s.maxRequests then [s.batch[0]] else []
  }

  function Picked(s: Server, t: Step): seq<int>
  {
    if t.Pick? && t.w < |s.workers| && s.workers[t.w] == IDLE && |s.queue| > 0 then [s.queue[0]] else []
  }

  function AllQueued(s: Server, ts: seq<Step>): seq<int>
    decreases |ts|
  {
    if |ts| == 0 then [] else Queued(s, ts[0]) + AllQueued(Act(s, ts[0]), ts[1..])
  }

  function AllPicked(s: Server, ts: seq<Step>): seq<int>
    decreases |ts|
  {
    if |ts| == 0 then [] else Picked(s, ts[0]) + AllPicked(Act(s, ts[0]), ts[1..])
  }

  lemma QueueStep(s: Server, t: Step)
    ensures s.queue + Queued(s, t) == Picked(s, t) + Act(s, t).queue
  {
    if |Picked(s, t)| > 0 { assert s.queue == [s.queue[0]] + s.queue[1..]; }
  }

  /** Over every run the workers pick exactly what was queued, in order. */
  lemma {:induction false} QueueLaw(s: Server, ts: seq<Step>)
    ensures s.queue + AllQueued(s, ts) == AllPicked(s, ts) + Exec(s, ts).queue
    decreases |ts|
  {
    hide Act, Queued, Picked;
    if |ts| > 0 {
      QueueStep(s, ts[0]);
      var r := Act(s, ts[0]);
      QueueLaw(r, ts[1..]);
      var q, p, rest := Queued(s, ts[0]), Picked(s, ts[0]), AllQueued(r, ts[1..]);
      assert s.queue + (q + rest) == s.queue + q + rest;
      assert p + r.queue + rest == p + (r.queue + rest);
      assert p + (AllPicked(r, ts[1..]) + Exec(r, ts[1..]).queue) == p + AllPicked(r, ts[1..]) + Exec(r, ts[1..]).queue;
    }
  }

  /** A worker has what it picked until its call ends. */
  lemma WorkerLaw(s: Server, t: Step, w: nat)
    requires w < |s.workers|
    ensures |Act(s, t).workers| == |s.workers|
    ensures Act(s, t).workers[w] ==
            if t == Pick(w) && |Picked(s, t)| > 0 then Picked(s, t)[0] else if t == Rearm(w) then IDLE else s.workers[w]
  {
  }

  /** The next batch is what was reported, and is handled from the front. */
  lemma BatchLaw(s: Server, t: Step)
    ensures Act(s, t).batch ==
            if t.Wait? && (forall c | c in t.events :: Reported(s, t, c)) && |s.batch| == 0 && Distinct(t.events) then t.events
            else if t.Handle? && |s.batch| > 0 then s.batch[1..] else s.batch
  {
  }

  /** Set aside are those whose append was refused or whose event is unknown. */
  lemma LostLaw(s: Server, t: Step, c: int)
    ensures c in Act(s, t).lost
            <==> c in s.lost
                 || (t.Handle? && |s.batch| > 0 && s.batch[0] == c
                     && (t.e == SomethingElse || (t.e == Readable(true) && |s.queue| > s.maxRequests)))
  {
  }

  // ---- the main thread's loop, in place ----------------------------------------------------

  /** What the main thread and the workers share: the descriptors and the request queue. */
  class MainThread {
    const maxRequests: nat
    var open: set<int>
    var armed: set<int>
    var queue: seq<int>
    var workers: seq<int>
    var lost: set<int>
    var userCount: int

    /** The state while `batch` is still to be handled. */
    ghost function State(batch: seq<int>): Server
      reads this
    {
      Server(true, maxRequests, open, armed, batch, queue, workers, lost, userCount)
    }

    /** While `batch` is still to be handled each open connection is in exactly one place,
        or is `held`, the one the thread is dealing with. */
    ghost predicate Valid(batch: seq<int>, held: int)
      reads this
    {
      Sound(State(batch), held)
    }

    method CloseConn(c: int, ghost batch: seq<int>)
      modifies `open, `armed, `userCount
      ensures State(batch) == Close(old(State(batch)), c)
      ensures open == old(open) - {c} && armed == old(armed) - {c} && userCount == old(userCount) - 1
      ensures old(Valid(batch, c)) && c in old(open) ==> Valid(batch, IDLE)
    {
      if Valid(batch, c) && c in open { CloseKeeps(State(batch), c); }
      open, armed := open - {c}, armed - {c};
      userCount := userCount - 1;
    }

    /** Queues the connection; a refused one, whose refusal is ignored, is set aside. */
    method Append(c: int, ghost batch: seq<int>) returns (taken: bool)
      modifies `queue, `lost
      ensures taken <==> |old(queue)| <= maxRequests
      ensures State(batch) == DoAppend(old(State(batch)), c)
      ensures if taken then queue == old(queue) + [c] && lost == old(lost) else queue == old(queue) && lost == old(lost) + {c}
      ensures old(Valid(batch, c)) && c in open ==> Valid(batch, IDLE)
    {
      if Valid(batch, c) && c in open { AppendKeeps(State(batch), c); }
      taken := |queue| <= maxRequests;
      if taken { queue := queue + [c]; } else { lost := lost + {c}; }
    }

    /** One event of the batch.  The connection goes from the batch to one other place. */
    method HandleOne(c: int, e: Event, ghost rest: seq<int>)
      modifies this
      ensures State(rest) == DoHandle(old(State([c] + rest)), e)
      ensures e == HangUp || e == Readable(false) || e == Writable(Finished) ==>
                && open == old(open) - {c} && armed == old(armed) - {c} && userCount == old(userCount) - 1
                && queue == old(queue) && lost == old(lost)
      ensures e == Readable(true) ==>
                && open == old(open) && armed == old(armed) && userCount == old(userCount)
                && (if |old(queue)| <= maxRequests then queue == old(queue) + [c] && lost == old(lost)
                    else queue == old(queue) && lost == old(lost) + {c})
      ensures e == Writable(WouldBlock) || e == Writable(KeptAlive) ==>
                && open == old(open) && armed == old(armed) + {c} && userCount == old(userCount)
                && queue == old(queue) && lost == old(lost)
      ensures e == SomethingElse ==>
                && open == old(open) && armed == old(armed) && userCount == old(userCount)
                && queue == old(queue) && lost == old(lost) + {c}
      ensures workers == old(workers)
      ensures old(Valid([c] + rest, IDLE)) ==> Valid(rest, IDLE)
    {
      hide Sound;
      assert ([c] + rest)[1..] == rest;
      if Valid([c] + rest, IDLE) { HandleKeeps(State([c] + rest), e); }
      match e {
        case HangUp => CloseConn(c, rest);
        case Readable(ok) =>
          if ok {
            var taken := Append(c, rest);
          } else {
            CloseConn(c, rest);
          }
        case Writable(result) =>
          if result == Finished { CloseConn(c, rest); } else { armed := armed + {c}; }
        case SomethingElse => lost := lost + {c};
      }
    }

    /** The loop over what epoll_wait reported: afterwards no connection has two handlers. */
    method HandleAll(conns: seq<int>, events: seq<Event>)
      requires |conns| == |events|
      modifies this
      ensures State([]) == Exec(old(State(conns)), Handles(events))
      ensures old(Valid(conns, IDLE)) ==> Valid([], IDLE) && OneHandler(State([]))
    {
      hide Valid, OneHandler, DoHandle;
      var i := 0;
      while i < |conns|
        invariant i <= |conns|
        invariant Exec(State(conns[i..]), Handles(events)[i..]) == Exec(old(State(conns)), Handles(events))
        invariant old(Valid(conns, IDLE)) ==> Valid(conns[i..], IDLE)
      {
        assert conns[i..] == [conns[i]] + conns[i + 1..] && Handles(events)[i..][1..] == Handles(events)[i + 1..];
        Unfold(State(conns[i..]), Handles(events)[i..]);
        HandleOne(conns[i], events[i], conns[i + 1..]);
        i := i + 1;
      }
      assert conns[i..] == [];
      if Valid([], IDLE) { SafeNow(); }
    }

    lemma SafeNow()
      requires Valid([], IDLE)
      ensures OneHandler(State([]))
    {
      ExclusiveMeans(State([]));
    }
  }

  ghost function Handles(events: seq<Event>): seq<Step>
  {
    seq(|events|, i requires 0 <= i < |events| => Handle(events[i]))
  }
}
