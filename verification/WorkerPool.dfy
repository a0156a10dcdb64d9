/** The worker threads, their request queue and the database connection pool, as the
    steps of all threads in any order.  A critical section is one step, since its
    mutex is held throughout; everything outside the mutexes is a step of its own. */
module WorkerPool {
  import opened Sequences

  datatype Pc =
    | Idle         // before m_queuestat.wait
    | Woken        // past it, before the queue is looked at
    | HasJob       // before GetConnection looks at connList.size(), without the lock
    | Wanting      // the list was not empty: before reserve.wait
    | Granted      // past it, before a connection is taken
    | Working      // process() with a connection
    | NoConn       // process() with a null connection
    | Posting      // connection given back, before reserve.post

  datatype AppPc = Outside | Pushed   // Pushed: request queued, before m_queuestat.post

  const NONE: int := -1

  datatype Pool = Pool(
    maxRequests: nat,
    queue: seq<int>,
    sem: nat,
    apps: seq<AppPc>,
    pcs: seq<Pc>,
    held: seq<int>,          // the connection of each worker
    free: seq<int>,          // connList
    reserve: nat,
    freeConn: int,
    curConn: int,
    accepted: seq<int>,      // every request append has taken
    taken: seq<int>          // every request a worker has taken
  )

  datatype Step =
    | Append(a: nat, request: int)
    | Post(a: nat)
    | Wake(w: nat)
    | Take(w: nat)
    | Look(w: nat)
    | Reserve(w: nat)
    | Grab(w: nat)
    | GiveBack(w: nat)
    | Release(w: nat)

  function Start(workers: nat, appenders: nat, conns: nat, maxRequests: nat): Pool
  {
    Pool(maxRequests, [], 0, seq(appenders, _ => Outside), seq(workers, _ => Idle), seq(workers, _ => NONE),
         seq(conns, i => i), conns, conns, 0, [], [])
  }

  predicate At(s: Pool, w: nat, pc: Pc) { w < |s.pcs| && s.pcs[w] == pc }

  function Go(s: Pool, w: nat, pc: Pc): Pool
    requires w < |s.pcs|
  {
    s.(pcs := s.pcs[w := pc])
  }

  function DoAppend(s: Pool, a: nat, request: int): Pool
  {
    if !(a < |s.apps| && s.apps[a] == Outside) || |s.queue| > s.maxRequests then s
    else s.(queue := s.queue + [request], accepted := s.accepted + [request], apps := s.apps[a := Pushed])
  }

  function DoPost(s: Pool, a: nat): Pool
  {
    if !(a < |s.apps| && s.apps[a] == Pushed) then s
    else s.(sem := s.sem + 1, apps := s.apps[a := Outside])
  }

  function DoWake(s: Pool, w: nat): Pool
  {
    if At(s, w, Idle) && s.sem > 0 then Go(s, w, Woken).(sem := s.sem - 1) else s
  }

  function DoTake(s: Pool, w: nat): Pool
  {
    if !At(s, w, Woken) then s
    else if |s.queue| == 0 then Go(s, w, Idle)
    else Go(s, w, HasJob).(queue := s.queue[1..], taken := s.taken + [s.queue[0]])
  }

  function DoLook(s: Pool, w: nat): Pool
  {
    if At(s, w, HasJob) then Go(s, w, if |s.free| == 0 then NoConn else Wanting) else s
  }

  function DoReserve(s: Pool, w: nat): Pool
  {
    if At(s, w, Wanting) && s.reserve > 0 then Go(s, w, Granted).(reserve := s.reserve - 1) else s
  }

  function DoGrab(s: Pool, w: nat): Pool
    requires |s.held| == |s.pcs|
  {
    if !At(s, w, Granted) || |s.free| == 0 then s
    else Go(s, w, Working).(held := s.held[w := s.free[0]], free := s.free[1..],
                            freeConn := s.freeConn - 1, curConn := s.curConn + 1)
  }

  function DoGiveBack(s: Pool, w: nat): Pool
    requires |s.held| == |s.pcs|
  {
    if At(s, w, NoConn) then Go(s, w, Idle)
    else if At(s, w, Working) then
      Go(s, w, Posting).(held := s.held[w := NONE], free := s.free + [s.held[w]],
                         freeConn := s.freeConn + 1, curConn := s.curConn - 1)
    else s
  }

  function DoRelease(s: Pool, w: nat): Pool
  {
    if At(s, w, Posting) then Go(s, w, Idle).(reserve := s.reserve + 1) else s
  }

  /** One step of one thread; a step that is not its turn changes nothing. */
  function Act(s: Pool, t: Step): (r: Pool)
    requires |s.held| == |s.pcs|
    ensures |r.held| == |r.pcs| == |s.pcs|
  {
    match t
    case Append(a, request) => DoAppend(s, a, request)
    case Post(a) => DoPost(s, a)
    case Wake(w) => DoWake(s, w)
    case Take(w) => DoTake(s, w)
    case Look(w) => DoLook(s, w)
    case Reserve(w) => DoReserve(s, w)
    case Grab(w) => DoGrab(s, w)
    case GiveBack(w) => DoGiveBack(s, w)
    case Release(w) => DoRelease(s, w)
  }

  /** A run is any sequence of steps. */
  function Exec(s: Pool, ts: seq<Step>): (r: Pool)
    requires |s.held| == |s.pcs|
    ensures |r.held| == |r.pcs| == |s.pcs|
    decreases |ts|
  {
    if |ts| == 0 then s else Exec(Act(s, ts[0]), ts[1..])
  }

  // ---- what every step keeps ----------------------------------------------------------

  ghost function Count(s: Pool, pc: Pc): nat { multiset(s.pcs)[pc] }

  /** The queue holds what the semaphore counts, what appenders have yet to post, and
      what woken workers have yet to take; requests leave in the order they came. */
  ghost predicate QueueAccount(s: Pool)
  {
    && |s.queue| == s.sem + multiset(s.apps)[Pushed] + Count(s, Woken)
    && |s.queue| <= s.maxRequests + 1
    && s.accepted == s.taken + s.queue
  }

  /** The free list holds what the semaphore counts, what granted workers have yet to
      take, and what was given back and not yet posted. */
  ghost predicate ConnAccount(s: Pool, conns: nat)
  {
    && |s.free| == s.reserve + Count(s, Granted) + Count(s, Posting)
    && |s.free| + Count(s, Working) == conns
    && s.freeConn == |s.free| && s.curConn == Count(s, Working)
  }

  /** Every connection is in the free list once or held by one worker. */
  ghost predicate OneHolder(s: Pool, conns: nat)
  {
    && |s.held| == |s.pcs|
    && (forall c | 0 <= c < conns :: multiset(s.free)[c] + multiset(s.held)[c] == 1)
    && (forall i | 0 <= i < |s.free| :: 0 <= s.free[i] < conns)
    && (forall w | 0 <= w < |s.held| :: (s.held[w] == NONE <==> s.pcs[w] != Working) && NONE <= s.held[w] < conns)
  }

  ghost predicate Inv(s: Pool, conns: nat)
  {
    |s.held| == |s.pcs| && QueueAccount(s) && ConnAccount(s, conns) && OneHolder(s, conns)
  }

  lemma AppendKeeps(s: Pool, a: nat, request: int, conns: nat)
    requires Inv(s, conns)
    ensures Inv(DoAppend(s, a, request), conns)
  {
    if a < |s.apps| { Moves(s.apps, a, Pushed); }
    assert s.accepted + [request] == s.taken + (s.queue + [request]);
  }

  lemma PostKeeps(s: Pool, a: nat, conns: nat)
    requires Inv(s, conns)
    ensures Inv(DoPost(s, a), conns)
  {
    if a < |s.apps| { Moves(s.apps, a, Outside); }
  }

  lemma WakeKeeps(s: Pool, w: nat, conns: nat)
    requires Inv(s, conns)
    ensures Inv(DoWake(s, w), conns)
  {
    if w < |s.pcs| { Moves(s.pcs, w, Woken); }
  }

  /** The worker that has been woken finds a request: the empty branch is never taken. */
  lemma TakeKeeps(s: Pool, w: nat, conns: nat)
    requires Inv(s, conns)
    ensures Inv(DoTake(s, w), conns) && (At(s, w, Woken) ==> |s.queue| > 0)
  {
    if At(s, w, Woken) {
      Moves(s.pcs, w, HasJob);
      assert multiset(s.pcs)[Woken] > 0;
      assert s.taken + s.queue == s.taken + [s.queue[0]] + s.queue[1..];
    }
  }

  lemma LookKeeps(s: Pool, w: nat, conns: nat)
    requires Inv(s, conns)
    ensures Inv(DoLook(s, w), conns)
  {
    if w < |s.pcs| { Moves(s.pcs, w, if |s.free| == 0 then NoConn else Wanting); }
  }

  lemma ReserveKeeps(s: Pool, w: nat, conns: nat)
    requires Inv(s, conns)
    ensures Inv(DoReserve(s, w), conns)
  {
    if w < |s.pcs| { Moves(s.pcs, w, Granted); }
  }

  /** A granted worker finds a connection. */
  lemma GrabKeeps(s: Pool, w: nat, conns: nat)
    requires Inv(s, conns)
    ensures Inv(DoGrab(s, w), conns) && (At(s, w, Granted) ==> |s.free| > 0)
  {
    if At(s, w, Granted) {
      assert multiset(s.pcs)[Granted] > 0;
      Moves(s.pcs, w, Working);
      Moves(s.held, w, s.free[0]);
      assert s.free == [s.free[0]] + s.free[1..];
    }
  }

  lemma GiveBackKeeps(s: Pool, w: nat, conns: nat)
    requires Inv(s, conns)
    ensures Inv(DoGiveBack(s, w), conns)
  {
    hide OneHolder, QueueAccount, ConnAccount;
    HolderGiveBack(s, w, conns);
    QueueGiveBack(s, w);
    ConnGiveBack(s, w, conns);
  }

  lemma QueueGiveBack(s: Pool, w: nat)
    requires QueueAccount(s) && |s.held| == |s.pcs|
    ensures QueueAccount(DoGiveBack(s, w))
  {
    if At(s, w, NoConn) { Moves(s.pcs, w, Idle); }
    if At(s, w, Working) { Moves(s.pcs, w, Posting); }
  }

  lemma ConnGiveBack(s: Pool, w: nat, conns: nat)
    requires ConnAccount(s, conns) && |s.held| == |s.pcs|
    ensures ConnAccount(DoGiveBack(s, w), conns)
  {
    if At(s, w, NoConn) { Moves(s.pcs, w, Idle); }
    if At(s, w, Working) { Moves(s.pcs, w, Posting); }
  }

  lemma HolderGiveBack(s: Pool, w: nat, conns: nat)
    requires OneHolder(s, conns)
    ensures OneHolder(DoGiveBack(s, w), conns)
  {
    if At(s, w, Working) {
      Moves(s.held, w, NONE);
      var c := s.held[w];
      assert multiset(s.free + [c]) == multiset(s.free) + multiset{c};
    }
  }

  lemma ReleaseKeeps(s: Pool, w: nat, conns: nat)
    requires Inv(s, conns)
    ensures Inv(DoRelease(s, w), conns)
  {
    if w < |s.pcs| { Moves(s.pcs, w, Idle); }
  }

  lemma StepKeeps(s: Pool, t: Step, conns: nat)
    requires Inv(s, conns)
    ensures Inv(Act(s, t), conns)
  {
    hide DoAppend, DoPost, DoWake, DoTake, DoLook, DoReserve, DoGrab, DoGiveBack, DoRelease, QueueAccount, ConnAccount;
    match t
    case Append(a, request) => AppendKeeps(s, a, request, conns);
    case Post(a) => PostKeeps(s, a, conns);
    case Wake(w) => WakeKeeps(s, w, conns);
    case Take(w) => TakeKeeps(s, w, conns);
    case Look(w) => LookKeeps(s, w, conns);
    case Reserve(w) => ReserveKeeps(s, w, conns);
    case Grab(w) => GrabKeeps(s, w, conns);
    case GiveBack(w) => GiveBackKeeps(s, w, conns);
    case Release(w) => ReleaseKeeps(s, w, conns);
  }

  // ---- every run ------------------------------------------------------------------------

  lemma {:induction false} SameCount<T>(n: nat, x: T, y: T)
    ensures multiset(seq(n, _ => x))[y] == if x == y then n else 0
  {
    if n > 0 {
      SameCount(n - 1, x, y);
      assert seq(n, _ => x) == seq(n - 1, _ => x) + [x];
    }
  }

  lemma {:induction false} RangeCount(n: nat, c: int)
    ensures multiset(seq(n, i => i))[c] == if 0 <= c < n then 1 else 0
  {
    if n > 0 {
      RangeCount(n - 1, c);
      assert seq(n, i => i) == seq(n - 1, i => i) + [n - 1];
    }
  }

  lemma StartKeeps(workers: nat, appenders: nat, conns: nat, maxRequests: nat)
    ensures Inv(Start(workers, appenders, conns, maxRequests), conns)
  {
    SameCount(appenders, Outside, Pushed);
    SameCount(workers, Idle, Woken);
    SameCount(workers, Idle, Granted);
    SameCount(workers, Idle, Posting);
    SameCount(workers, Idle, Working);
    var s := Start(workers, appenders, conns, maxRequests);
    forall c | 0 <= c < conns ensures multiset(s.free)[c] + multiset(s.held)[c] == 1 {
      RangeCount(conns, c);
      SameCount(workers, NONE, c);
    }
  }

  lemma {:induction false} RunKeeps(s: Pool, ts: seq<Step>, conns: nat)
    requires Inv(s, conns)
    ensures Inv(Exec(s, ts), conns)
    decreases |ts|
  {
    hide Act, QueueAccount, ConnAccount, OneHolder;
    if |ts| > 0 {
      StepKeeps(s, ts[0], conns);
      RunKeeps(Act(s, ts[0]), ts[1..], conns);
    }
  }

  /** What a step takes in: the request of an append that starts and finds at most the
      maximum queued. */
  function Accepts(s: Pool, t: Step): seq<int>
  {
    if t.Append? && t.a < |s.apps| && s.apps[t.a] == Outside && |s.queue| <= s.maxRequests then [t.request] else []
  }

  function AllAccepted(s: Pool, ts: seq<Step>): seq<int>
    requires |s.held| == |s.pcs|
    decreases |ts|
  {
    if |ts| == 0 then [] else Accepts(s, ts[0]) + AllAccepted(Act(s, ts[0]), ts[1..])
  }

  lemma AcceptStep(s: Pool, t: Step)
    requires |s.held| == |s.pcs|
    ensures Act(s, t).accepted == s.accepted + Accepts(s, t)
  {
  }

  lemma {:induction false} AcceptedLaw(s: Pool, ts: seq<Step>)
    requires |s.held| == |s.pcs|
    ensures Exec(s, ts).accepted == s.accepted + AllAccepted(s, ts)
    decreases |ts|
  {
    hide Act, Accepts;
    if |ts| > 0 {
      AcceptStep(s, ts[0]);
      AcceptedLaw(Act(s, ts[0]), ts[1..]);
      var a, rest := Accepts(s, ts[0]), AllAccepted(Act(s, ts[0]), ts[1..]);
      assert s.accepted + (a + rest) == s.accepted + a + rest;
    }
  }

  /** In every run, whatever the numbers: requests are taken in the order they were
      accepted and each at most once, the queue never holds more than one above its
      maximum, a woken worker finds a request, a granted one a connection, and no
      connection is with two workers or with one and in the list. */
  lemma EveryRun(workers: nat, appenders: nat, conns: nat, maxRequests: nat, ts: seq<Step>)
    ensures var r := Exec(Start(workers, appenders, conns, maxRequests), ts);
            && r.taken + r.queue == r.accepted == AllAccepted(Start(workers, appenders, conns, maxRequests), ts)
            && |r.queue| <= r.maxRequests + 1
            && (forall w | 0 <= w < workers :: (r.pcs[w] == Woken ==> |r.queue| > 0) && (r.pcs[w] == Granted ==> |r.free| > 0))
            && (forall v, w | 0 <= v < w < workers && r.pcs[v] == Working && r.pcs[w] == Working :: r.held[v] != r.held[w])
            && (forall w | 0 <= w < workers && r.pcs[w] == Working :: r.held[w] != NONE && r.held[w] !in r.free)
            && r.freeConn == |r.free| && r.curConn == conns - |r.free|
  {
    hide Exec, AllAccepted;
    var s := Start(workers, appenders, conns, maxRequests);
    StartKeeps(workers, appenders, conns, maxRequests);
    RunKeeps(s, ts, conns);
    AcceptedLaw(s, ts);
    assert [] + AllAccepted(s, ts) == AllAccepted(s, ts);
    var r := Exec(s, ts);
    forall w | 0 <= w < workers ensures multiset(r.pcs)[r.pcs[w]] > 0 {}
    forall v, w | 0 <= v < w < workers && r.pcs[v] == Working && r.pcs[w] == Working ensures r.held[v] != r.held[w] {
      if r.held[v] == r.held[w] { HeldTwice(r.held, v, w); }
    }
    forall w | 0 <= w < workers && r.pcs[w] == Working ensures r.held[w] !in r.free {
      assert multiset(r.held)[r.held[w]] > 0;
    }
  }

  // ---- nobody gets stuck -----------------------------------------------------------------

  function Rank(pc: Pc): nat
  {
    match pc
    case Idle => 0 case Woken => 0 case HasJob => 7 case Wanting => 6
    case Granted => 5 case Working => 4 case Posting => 3 case NoConn => 1
  }

  function Ranks(pcs: seq<Pc>): nat
  {
    if |pcs| == 0 then 0 else Rank(pcs[0]) + Ranks(pcs[1..])
  }

  function PushedOnes(apps: seq<AppPc>): nat
  {
    if |apps| == 0 then 0 else (if apps[0] == Pushed then 1 else 0) + PushedOnes(apps[1..])
  }

  /** How much there is left to do when nothing more is appended. */
  function Work(s: Pool): nat { 10 * |s.queue| + 2 * PushedOnes(s.apps) + s.sem + Ranks(s.pcs) }

  predicate AtRest(s: Pool)
  {
    && |s.queue| == 0 && s.sem == 0
    && (forall w | 0 <= w < |s.pcs| :: s.pcs[w] == Idle) && (forall a | 0 <= a < |s.apps| :: s.apps[a] == Outside)
  }

  lemma {:induction false} RankMoves(pcs: seq<Pc>, w: nat, pc: Pc)
    requires w < |pcs|
    ensures Ranks(pcs[w := pc]) == Ranks(pcs) - Rank(pcs[w]) + Rank(pc)
    decreases |pcs|
  {
    hide Rank;
    if w == 0 {
      assert pcs[0 := pc][1..] == pcs[1..];
    } else {
      assert pcs[w := pc][1..] == pcs[1..][w - 1 := pc];
      RankMoves(pcs[1..], w - 1, pc);
    }
  }

  lemma {:induction false} PushedMoves(apps: seq<AppPc>, a: nat)
    requires a < |apps| && apps[a] == Pushed
    ensures PushedOnes(apps[a := Outside]) == PushedOnes(apps) - 1
    decreases |apps|
  {
    if a == 0 {
      assert apps[0 := Outside][1..] == apps[1..];
    } else {
      assert apps[a := Outside][1..] == apps[1..][a - 1 := Outside];
      PushedMoves(apps[1..], a - 1);
    }
  }

  /** A worker's own step lowers the work, unless it waits for a connection. */
  lemma WorkerProceeds(s: Pool, w: nat, conns: nat) returns (t: Step)
    requires Inv(s, conns) && w < |s.pcs| && s.pcs[w] != Idle && (s.pcs[w] == Wanting ==> s.reserve > 0)
    ensures Work(Act(s, t)) < Work(s) && !t.Append?
  {
    hide Ranks, PushedOnes;
    assert multiset(s.pcs)[s.pcs[w]] > 0;
    t := match s.pcs[w]
      case Woken => Take(w) case HasJob => Look(w) case Wanting => Reserve(w) case Granted => Grab(w)
      case Working => GiveBack(w) case NoConn => GiveBack(w) case Posting => Release(w) case Idle => Wake(w);
    RankMoves(s.pcs, w, Act(s, t).pcs[w]);
    assert Act(s, t).pcs == s.pcs[w := Act(s, t).pcs[w]];
  }

  /** In a state of the pool that is not at rest some thread can go on. */
  lemma SomebodyProceeds(s: Pool, conns: nat) returns (t: Step)
    requires Inv(s, conns) && !AtRest(s) && |s.pcs| > 0 && conns > 0
    ensures Work(Act(s, t)) < Work(s) && !t.Append?
  {
    hide Ranks, PushedOnes, Inv;
    if a :| 0 <= a < |s.apps| && s.apps[a] == Pushed {
      t := Post(a);
      PushedMoves(s.apps, a);
    } else if w :| 0 <= w < |s.pcs| && s.pcs[w] != Idle && s.pcs[w] != Wanting {
      t := WorkerProceeds(s, w, conns);
    } else if w :| 0 <= w < |s.pcs| && s.pcs[w] == Wanting {
      AllWaiting(s, conns);
      t := WorkerProceeds(s, w, conns);
    } else {
      NoneUnderWay(s, conns);
      t := Wake(0);
      RankMoves(s.pcs, 0, Woken);
    }
  }

  lemma AllWaiting(s: Pool, conns: nat)
    requires Inv(s, conns) && conns > 0
    requires forall w | 0 <= w < |s.pcs| :: s.pcs[w] == Idle || s.pcs[w] == Wanting
    ensures s.reserve > 0
  {
    assert Count(s, Granted) == Count(s, Posting) == Count(s, Working) == 0;
  }

  lemma NoneUnderWay(s: Pool, conns: nat)
    requires Inv(s, conns) && !AtRest(s)
    requires forall w | 0 <= w < |s.pcs| :: s.pcs[w] == Idle
    requires forall a | 0 <= a < |s.apps| :: s.apps[a] != Pushed
    ensures s.sem > 0
  {
    assert Count(s, Woken) == 0 && multiset(s.apps)[Pushed] == 0;
  }

  lemma {:induction false} Drained(s: Pool, conns: nat) returns (ts: seq<Step>)
    requires |s.held| == |s.pcs| && Inv(s, conns) && |s.pcs| > 0 && conns > 0
    ensures AtRest(Exec(s, ts)) && (forall t | t in ts :: !t.Append?)
    decreases Work(s)
  {
    hide Inv, Work, AtRest, Act;
    ts := [];
    if !AtRest(s) {
      var t := SomebodyProceeds(s, conns);
      StepKeeps(s, t, conns);
      var rest := Drained(Act(s, t), conns);
      ts := [t] + rest;
      Chain(s, t, rest);
    } else {
      Stops(s);
    }
  }

  /** The pool never gets stuck: with a worker and a connection every run can be continued,
      nothing more being appended, until every accepted request has been taken, all
      threads are idle and all connections are back. */
  lemma EveryRunCanFinish(workers: nat, appenders: nat, conns: nat, maxRequests: nat, ts: seq<Step>) returns (more: seq<Step>)
    requires workers > 0 && conns > 0
    ensures forall t | t in more :: !t.Append?
    ensures var r := Exec(Start(workers, appenders, conns, maxRequests), ts + more);
            && AtRest(r) && |r.free| == r.reserve == conns
            && r.taken == AllAccepted(Start(workers, appenders, conns, maxRequests), ts + more)
  {
    hide Exec, Inv, AtRest, AllAccepted;
    var s := Start(workers, appenders, conns, maxRequests);
    StartKeeps(workers, appenders, conns, maxRequests);
    RunKeeps(s, ts, conns);
    more := Drained(Exec(s, ts), conns);
    ExecConcat(s, ts, more);
    RunKeeps(s, ts + more, conns);
    AcceptedLaw(s, ts + more);
    assert [] + AllAccepted(s, ts + more) == AllAccepted(s, ts + more);
    RestMeans(Exec(s, ts + more), conns);
  }

  lemma RestMeans(s: Pool, conns: nat)
    requires Inv(s, conns) && AtRest(s)
    ensures |s.free| == s.reserve == conns && s.taken == s.accepted
  {
    assert Count(s, Granted) == Count(s, Posting) == Count(s, Working) == 0;
    assert s.taken + [] == s.taken;
  }

  // ---- when a null connection is possible ---------------------------------------------

  lemma {:induction false} CountsFit(q: seq<Pc>)
    ensures var m := multiset(q);
            m[Working] + m[Granted] + m[Posting] + m[HasJob] + m[Wanting] <= |q|
  {
    if |q| > 0 {
      CountsFit(q[1..]);
      assert q == [q[0]] + q[1..];
    }
  }

  /** With no more workers than connections, a worker that asks for one finds the list
      filled and the semaphore up. */
  lemma EnoughConnections(s: Pool, w: nat, conns: nat)
    requires ConnAccount(s, conns) && w < |s.pcs| <= conns
    ensures s.pcs[w] == HasJob ==> |s.free| > 0
    ensures s.pcs[w] == Wanting ==> s.reserve > 0
  {
    CountsFit(s.pcs);
    assert multiset(s.pcs)[s.pcs[w]] > 0;
  }

  lemma {:induction false} NoNullInRun(s: Pool, ts: seq<Step>, conns: nat)
    requires Inv(s, conns) && |s.pcs| <= conns && NoConn !in s.pcs
    ensures NoConn !in Exec(s, ts).pcs
    decreases |ts|
  {
    hide QueueAccount, ConnAccount, OneHolder;
    if |ts| > 0 {
      var t := ts[0];
      if t.Look? && t.w < |s.pcs| { EnoughConnections(s, t.w, conns); }
      StepKeeps(s, t, conns);
      NoNullInRun(Act(s, t), ts[1..], conns);
    }
  }

  /** So with no more workers than connections GetConnection neither answers NULL nor
      waits on the semaphore, in any run. */
  lemma NobodyWaitsForConnection(workers: nat, appenders: nat, conns: nat, maxRequests: nat, ts: seq<Step>, w: nat)
    requires w < workers <= conns
    ensures var r := Exec(Start(workers, appenders, conns, maxRequests), ts);
            && r.pcs[w] != NoConn && (r.pcs[w] == HasJob ==> |r.free| > 0) && (r.pcs[w] == Wanting ==> r.reserve > 0)
  {
    hide Exec, Act;
    var s := Start(workers, appenders, conns, maxRequests);
    StartKeeps(workers, appenders, conns, maxRequests);
    RunKeeps(s, ts, conns);
    NoNullInRun(s, ts, conns);
    EnoughConnections(Exec(s, ts), w, conns);
  }

  // ---- and with more workers than connections -------------------------------------------

  lemma Chain(s: Pool, t: Step, rest: seq<Step>)
    requires |s.held| == |s.pcs|
    ensures Exec(s, [t] + rest) == Exec(Act(s, t), rest)
  {
    assert ([t] + rest)[1..] == rest;
  }

  lemma {:induction false} ExecConcat(s: Pool, a: seq<Step>, b: seq<Step>)
    requires |s.held| == |s.pcs|
    ensures Exec(s, a + b) == Exec(Exec(s, a), b)
    decreases |a|
  {
    if |a| == 0 {
      assert a + b == b;
    } else {
      assert (a + b)[1..] == a[1..] + b;
      ExecConcat(Act(s, a[0]), a[1..], b);
    }
  }

  /** The first `i` workers are working, the others wait, and no request is about. */
  predicate Busy(s: Pool, i: nat, conns: nat)
  {
    && i <= |s.pcs| == |s.held| && |s.apps| > 0 && s.apps[0] == Outside
    && |s.queue| == 0 && s.sem == 0
    && (forall w | i <= w < |s.pcs| :: s.pcs[w] == Idle)
    && i + |s.free| == conns && s.reserve == |s.free|
  }

  /** A request is queued and taken, and the worker looks for a connection. */
  lemma Ask(s: Pool, i: nat, conns: nat, rest: seq<Step>)
    requires Busy(s, i, conns) && i < |s.pcs|
    ensures var r := s.(queue := [], accepted := s.accepted + [0], taken := s.taken + [0],
                        apps := s.apps[0 := Outside], pcs := s.pcs[i := if |s.free| == 0 then NoConn else Wanting]);
            Exec(s, [Append(0, 0)] + ([Post(0)] + ([Wake(i)] + ([Take(i)] + ([Look(i)] + rest))))) == Exec(r, rest)
  {
    hide Exec;
    var s1 := Act(s, Append(0, 0));
    var s2 := Act(s1, Post(0));
    var s3 := Act(s2, Wake(i));
    var s4 := Act(s3, Take(i));
    var s5 := Act(s4, Look(i));
    var t4 := [Look(i)] + rest;
    var t3 := [Take(i)] + t4;
    var t2 := [Wake(i)] + t3;
    Chain(s, Append(0, 0), [Post(0)] + t2);
    Chain(s1, Post(0), t2);
    Chain(s2, Wake(i), t3);
    Chain(s3, Take(i), t4);
    Chain(s4, Look(i), rest);
    assert s1.queue == [0] && s1.queue[1..] == [];
    assert s4.apps == s.apps[0 := Outside];
    assert s5.pcs == s.pcs[i := if |s.free| == 0 then NoConn else Wanting];
  }

  function Block(i: nat): seq<Step>
  {
    [Append(0, 0)] + ([Post(0)] + ([Wake(i)] + ([Take(i)] + ([Look(i)] + ([Reserve(i)] + ([Grab(i)] + []))))))
  }

  lemma BlockStep(s: Pool, i: nat, conns: nat)
    requires Busy(s, i, conns) && i < |s.pcs| && i < conns
    ensures Busy(Exec(s, Block(i)), i + 1, conns)
  {
    hide Exec;
    Ask(s, i, conns, [Reserve(i)] + ([Grab(i)] + []));
    var r := s.(queue := [], accepted := s.accepted + [0], taken := s.taken + [0],
                apps := s.apps[0 := Outside], pcs := s.pcs[i := Wanting]);
    var s6 := Act(r, Reserve(i));
    Chain(r, Reserve(i), [Grab(i)] + []);
    Chain(s6, Grab(i), []);
    assert Exec(Act(s6, Grab(i)), []) == Act(s6, Grab(i)) by { Stops(Act(s6, Grab(i))); }
  }

  lemma Stops(s: Pool)
    requires |s.held| == |s.pcs|
    ensures Exec(s, []) == s
  {
  }

  function Script(i: nat): seq<Step>
  {
    if i == 0 then [] else Script(i - 1) + Block(i - 1)
  }

  lemma {:induction false} ScriptFills(s: Pool, i: nat, conns: nat)
    requires Busy(s, 0, conns) && i <= conns && i <= |s.pcs|
    ensures Busy(Exec(s, Script(i)), i, conns)
  {
    if i > 0 {
      ScriptFills(s, i - 1, conns);
      ExecConcat(s, Script(i - 1), Block(i - 1));
      BlockStep(Exec(s, Script(i - 1)), i - 1, conns);
    }
  }

  /** The connection theorem: no run hands a worker a null connection if and only if
      there are at most as many workers as connections. */
  lemma NullConnectionIff(workers: nat, appenders: nat, conns: nat, maxRequests: nat)
    requires appenders > 0
    ensures (forall ts :: NoConn !in Exec(Start(workers, appenders, conns, maxRequests), ts).pcs) <==> workers <= conns
  {
    hide Inv, Busy;
    var s := Start(workers, appenders, conns, maxRequests);
    StartKeeps(workers, appenders, conns, maxRequests);
    if workers <= conns {
      forall ts ensures NoConn !in Exec(s, ts).pcs { NoNullInRun(s, ts, conns); }
    } else {
      StartIsBusy(workers, appenders, conns, maxRequests);
      ScriptFills(s, conns, conns);
      var r := Exec(s, Script(conns));
      OneTooMany(r, conns);
      ExecConcat(s, Script(conns), AskSteps(conns));
      assert NoConn in Exec(s, Script(conns) + AskSteps(conns)).pcs;
    }
  }

  lemma StartIsBusy(workers: nat, appenders: nat, conns: nat, maxRequests: nat)
    requires appenders > 0
    ensures Busy(Start(workers, appenders, conns, maxRequests), 0, conns)
  {
  }

  function AskSteps(i: nat): seq<Step>
  {
    [Append(0, 0)] + ([Post(0)] + ([Wake(i)] + ([Take(i)] + ([Look(i)] + []))))
  }

  lemma OneTooMany(r: Pool, conns: nat)
    requires Busy(r, conns, conns) && conns < |r.pcs|
    ensures NoConn in Exec(r, AskSteps(conns)).pcs
  {
    hide Exec;
    Ask(r, conns, conns, []);
    var e := Exec(r, AskSteps(conns));
    var x := r.(queue := [], accepted := r.accepted + [0], taken := r.taken + [0],
                apps := r.apps[0 := Outside], pcs := r.pcs[conns := NoConn]);
    Stops(x);
    assert e == x && e.pcs[conns] == NoConn;
  }
}
