/** The main loop over connections and their inactivity timers. */
module EventLoop {
  import opened HeapTimer

  const TIMESLOT: int := 5
  const MAX_FD: nat := 65536

  datatype Accepted = Accepted(fd: nat, now: int)
  datatype Signal = SigAlrm | SigTerm | OtherSignal

  /** What epoll_wait can report, with what the calls made on it return. */
  datatype Event =
    | Listen(accepted: seq<Accepted>)          // the accepts that succeed, in order
    | HangUp(fd: nat)
    | Pipe(signals: seq<Signal>)
    | Readable(fd: nat, ok: bool, now: int)    // read_once
    | Writable(fd: nat, ok: bool, now: int)    // write
    | Nothing

  datatype Batch = Batch(events: seq<Event>, tickTime: int)

  // ---- the protocol: open connections with their last activity -----------------------

  type Activity = map<nat, int>

  function AcceptAllOf(a: Activity, conns: seq<Accepted>): Activity
    decreases |conns|
  {
    if |conns| == 0 || |a| >= MAX_FD then a
    else if conns[0].fd in a then AcceptAllOf(a, conns[1..])   // the kernel reuses closed descriptors only
    else AcceptAllOf(a[conns[0].fd := conns[0].now], conns[1..])
  }

  function Touch(a: Activity, fd: nat, ok: bool, now: int): Activity
  {
    if fd !in a then a else if ok then a[fd := now] else a - {fd}
  }

  /** The protocol's answer to one event.  Events of closed descriptors do not occur. */
  function React(a: Activity, e: Event): Activity
  {
    match e
    case Listen(conns) => AcceptAllOf(a, conns)
    case HangUp(fd) => a - {fd}
    case Readable(fd, ok, now) => Touch(a, fd, ok, now)
    case Writable(fd, ok, now) => Touch(a, fd, ok, now)
    case Pipe(_) => a
    case Nothing => a
  }

  function ReactAll(a: Activity, es: seq<Event>): Activity
    decreases |es|
  {
    if |es| == 0 then a else ReactAll(React(a, es[0]), es[1..])
  }

  /** A tick closes exactly the connections idle for three time slots. */
  function Expire(a: Activity, cur: int): Activity
  {
    map fd | fd in a && cur < a[fd] + 3 * TIMESLOT :: a[fd]
  }

  predicate Rings(e: Event, s: Signal) { e.Pipe? && s in e.signals }

  /** One pass of the loop: the events, then a tick if an alarm is pending. */
  function Pass(a: Activity, b: Batch): Activity
  {
    var r := ReactAll(a, b.events);
    if Alarmed(b) then Expire(r, b.tickTime) else r
  }

  predicate Alarmed(b: Batch) { exists e | e in b.events :: Rings(e, SigAlrm) }

  predicate Stops(b: Batch) { exists e | e in b.events :: Rings(e, SigTerm) }

  function Loop(a: Activity, bs: seq<Batch>): Activity
    decreases |bs|
  {
    if |bs| == 0 then a
    else if Stops(bs[0]) then Pass(a, bs[0])
    else Loop(Pass(a, bs[0]), bs[1..])
  }

  // ---- what the protocol promises over runs ---------------------------------------------

  /** The event neither closes `fd` nor dates its activity before `from`. */
  predicate Spares(e: Event, fd: nat, from: int)
  {
    match e
    case HangUp(f) => f != fd
    case Readable(f, ok, now) => f == fd ==> ok && from <= now
    case Writable(f, ok, now) => f == fd ==> ok && from <= now
    case _ => true
  }

  /** The event is not about `fd`. */
  predicate Ignores(e: Event, fd: nat)
  {
    match e
    case HangUp(f) => f != fd
    case Readable(f, _, _) => f != fd
    case Writable(f, _, _) => f != fd
    case Listen(conns) => forall c | c in conns :: c.fd != fd
    case _ => true
  }

  lemma {:induction false} AcceptKeeps(a: Activity, conns: seq<Accepted>, fd: nat)
    ensures fd in a ==> fd in AcceptAllOf(a, conns) && AcceptAllOf(a, conns)[fd] == a[fd]
    ensures fd !in a && (forall c | c in conns :: c.fd != fd) ==> fd !in AcceptAllOf(a, conns)
    decreases |conns|
  {
    if |conns| > 0 && |a| < MAX_FD {
      AcceptKeeps(if conns[0].fd in a then a else a[conns[0].fd := conns[0].now], conns[1..], fd);
    }
  }

  lemma {:induction false} EventsSpare(a: Activity, es: seq<Event>, fd: nat, from: int)
    requires fd in a && from <= a[fd] && forall e | e in es :: Spares(e, fd, from)
    ensures fd in ReactAll(a, es) && from <= ReactAll(a, es)[fd]
    decreases |es|
  {
    if |es| > 0 {
      if es[0].Listen? { AcceptKeeps(a, es[0].accepted, fd); }
      assert Spares(es[0], fd, from);
      EventsSpare(React(a, es[0]), es[1..], fd, from);
    }
  }

  /** Safety: a connection active at `from` is open after any run of events that spare
      it whose alarms all tick less than three slots later. */
  lemma {:induction false} ActiveStaysOpen(a: Activity, bs: seq<Batch>, fd: nat, from: int)
    requires fd in a && from <= a[fd]
    requires forall b | b in bs :: (Alarmed(b) ==> b.tickTime < from + 3 * TIMESLOT) && forall e | e in b.events :: Spares(e, fd, from)
    ensures fd in Loop(a, bs) && from <= Loop(a, bs)[fd]
    decreases |bs|
  {
    if |bs| > 0 {
      assert bs[0] in bs;
      EventsSpare(a, bs[0].events, fd, from);
      if !Stops(bs[0]) { ActiveStaysOpen(Pass(a, bs[0]), bs[1..], fd, from); }
    }
  }

  /** The event closes `fd` if it is open. */
  predicate Ends(e: Event, fd: nat)
  {
    match e
    case HangUp(f) => f == fd
    case Readable(f, ok, _) => f == fd && !ok
    case Writable(f, ok, _) => f == fd && !ok
    case _ => false
  }

  /** One event: an open connection is closed exactly by a hang-up, a failed read or a
      failed write of its own, and good traffic of its own, nothing else, sets its date. */
  lemma EventLaw(a: Activity, e: Event, fd: nat)
    requires fd in a
    ensures fd !in React(a, e) <==> Ends(e, fd)
    ensures !Ends(e, fd) ==>
              React(a, e)[fd] == if (e.Readable? || e.Writable?) && e.fd == fd then e.now else a[fd]
  {
    if e.Listen? { AcceptKeeps(a, e.accepted, fd); }
  }

  /** A closed connection is opened by nothing but an accept. */
  lemma ClosedLaw(a: Activity, e: Event, fd: nat)
    requires fd !in a && (e.Listen? ==> forall c | c in e.accepted :: c.fd != fd)
    ensures fd !in React(a, e)
  {
    if e.Listen? { AcceptKeeps(a, e.accepted, fd); }
  }

  /** Over a batch: what an event has closed stays closed unless it is accepted again. */
  lemma {:induction false} EndedIsClosed(a: Activity, es: seq<Event>, fd: nat, k: nat)
    requires k < |es| && Ends(es[k], fd)
    requires forall i | k < i < |es| && es[i].Listen? :: forall c | c in es[i].accepted :: c.fd != fd
    ensures fd !in ReactAll(a, es)
    decreases |es|
  {
    if k > 0 {
      EndedIsClosed(React(a, es[0]), es[1..], fd, k - 1);
    } else {
      if fd in a { EventLaw(a, es[0], fd); } else { ClosedLaw(a, es[0], fd); }
      NotReopened(React(a, es[0]), es[1..], fd);
    }
  }

  lemma {:induction false} NotReopened(a: Activity, es: seq<Event>, fd: nat)
    requires fd !in a
    requires forall i | 0 <= i < |es| && es[i].Listen? :: forall c | c in es[i].accepted :: c.fd != fd
    ensures fd !in ReactAll(a, es)
    decreases |es|
  {
    if |es| > 0 {
      ClosedLaw(a, es[0], fd);
      NotReopened(React(a, es[0]), es[1..], fd);
    }
  }

  predicate NewOnes(a: Activity, conns: seq<Accepted>)
  {
    && (forall i | 0 <= i < |conns| :: conns[i].fd !in a)
    && (forall i, j | 0 <= i < j < |conns| :: conns[i].fd != conns[j].fd)
  }

  /** How many of `n` arriving connections find room. */
  function Taken(a: Activity, n: nat): nat
  {
    if |a| + n <= MAX_FD then n else if |a| <= MAX_FD then MAX_FD - |a| else 0
  }

  /** Exactly the first connections for which there is room are open afterwards, each
      from the moment it was accepted. */
  lemma {:induction false} AcceptedAreOpen(a: Activity, conns: seq<Accepted>)
    requires NewOnes(a, conns)
    ensures var r, k := AcceptAllOf(a, conns), Taken(a, |conns|);
            && (forall i | 0 <= i < k :: conns[i].fd in r && r[conns[i].fd] == conns[i].now)
            && (forall i | k <= i < |conns| :: conns[i].fd !in r)
            && |r| == |a| + k
    decreases |conns|
  {
    if |conns| > 0 && |a| < MAX_FD {
      var b := a[conns[0].fd := conns[0].now];
      assert b.Keys == a.Keys + {conns[0].fd};
      AcceptedAreOpen(b, conns[1..]);
      AcceptKeeps(b, conns[1..], conns[0].fd);
      forall i | 0 < i < |conns| ensures conns[i] == conns[1..][i - 1] {}
    } else {
      assert AcceptAllOf(a, conns) == a;
    }
  }

  /** Safety from the accept on: a connection that arrives at `now` and finds room is open
      after any run that spares it whose alarms tick less than three slots later. */
  lemma AcceptedStaysOpen(a: Activity, conns: seq<Accepted>, i: nat, rest: seq<Event>, tickTime: int, bs: seq<Batch>)
    requires NewOnes(a, conns) && i < Taken(a, |conns|)
    requires var b := Batch([Listen(conns)] + rest, tickTime);
             && (Alarmed(b) ==> tickTime < conns[i].now + 3 * TIMESLOT)
             && (forall e | e in rest :: Spares(e, conns[i].fd, conns[i].now))
    requires forall b | b in bs :: (Alarmed(b) ==> b.tickTime < conns[i].now + 3 * TIMESLOT)
               && forall e | e in b.events :: Spares(e, conns[i].fd, conns[i].now)
    ensures conns[i].fd in Loop(a, [Batch([Listen(conns)] + rest, tickTime)] + bs)
  {
    hide AcceptAllOf;
    var b, fd, now := Batch([Listen(conns)] + rest, tickTime), conns[i].fd, conns[i].now;
    AcceptedAreOpen(a, conns);
    var r := AcceptAllOf(a, conns);
    assert b.events[1..] == rest;
    EventsSpare(r, rest, fd, now);
    assert ReactAll(a, b.events) == ReactAll(r, rest);
    assert ([b] + bs)[1..] == bs;
    if !Stops(b) { ActiveStaysOpen(Pass(a, b), bs, fd, now); }
  }

  /** The batch that brings SIGTERM is the last one to be handled, and no other is. */
  lemma {:induction false} LoopSplits(a: Activity, x: seq<Batch>, y: seq<Batch>)
    ensures Loop(a, x + y) == if exists b | b in x :: Stops(b) then Loop(a, x) else Loop(Loop(a, x), y)
    decreases |x|
  {
    if |x| == 0 {
      assert x + y == y;
    } else {
      assert (x + y)[1..] == x[1..] + y && x[0] in x;
      if !Stops(x[0]) {
        LoopSplits(Pass(a, x[0]), x[1..], y);
        assert (exists b | b in x :: Stops(b)) <==> exists b | b in x[1..] :: Stops(b);
      }
    }
  }

  lemma {:induction false} EventsIgnore(a: Activity, es: seq<Event>, fd: nat)
    requires forall e | e in es :: Ignores(e, fd)
    ensures fd in ReactAll(a, es) <==> fd in a
    ensures fd in a ==> ReactAll(a, es)[fd] == a[fd]
    decreases |es|
  {
    if |es| > 0 {
      if es[0].Listen? { AcceptKeeps(a, es[0].accepted, fd); }
      assert Ignores(es[0], fd);
      EventsIgnore(React(a, es[0]), es[1..], fd);
    }
  }

  lemma {:induction false} StaysClosed(a: Activity, bs: seq<Batch>, fd: nat)
    requires fd !in a && forall b | b in bs :: forall e | e in b.events :: Ignores(e, fd)
    ensures fd !in Loop(a, bs)
    decreases |bs|
  {
    if |bs| > 0 {
      assert bs[0] in bs;
      EventsIgnore(a, bs[0].events, fd);
      if !Stops(bs[0]) { StaysClosed(Pass(a, bs[0]), bs[1..], fd); }
    }
  }

  /** Progress: a connection nothing is heard of is closed by the first alarm pass, the
      `k`th, whose tick comes three slots after its last activity. */
  lemma {:induction false} IdleIsClosed(a: Activity, bs: seq<Batch>, fd: nat, k: nat)
    requires fd in a && (forall b | b in bs :: forall e | e in b.events :: Ignores(e, fd))
    requires k < |bs| && (exists e | e in bs[k].events :: Rings(e, SigAlrm)) && a[fd] + 3 * TIMESLOT <= bs[k].tickTime
    requires forall i | 0 <= i < k :: !Stops(bs[i])
    ensures fd !in Loop(a, bs)
    decreases |bs|
  {
    assert bs[0] in bs;
    EventsIgnore(a, bs[0].events, fd);
    var r := Pass(a, bs[0]);
    if Stops(bs[0]) {
    } else if fd in r {
      IdleIsClosed(r, bs[1..], fd, k - 1);
    } else {
      StaysClosed(r, bs[1..], fd);
    }
  }

  // ---- timers and connections -----------------------------------------------------------

  /** The queued timers are those of the open connections, one each. */
  ghost predicate Tracked(q: seq<UtilTimer>, timerOf: map<nat, UtilTimer>, a: Activity)
  {
    && (forall t | t in q :: multiset(q)[t] == 1 && t.userData in a && t.userData in timerOf && timerOf[t.userData] == t)
    && (forall fd | fd in a :: fd in timerOf && timerOf[fd] in q && timerOf[fd].userData == fd)
  }

  ghost predicate Tracks(q: seq<UtilTimer>, timerOf: map<nat, UtilTimer>, a: Activity)
    reads q
  {
    && Tracked(q, timerOf, a)
    && (forall t | t in q :: t.expire == a[t.userData] + 3 * TIMESLOT)
  }

  lemma Untrack(q: seq<UtilTimer>, r: seq<UtilTimer>, timerOf: map<nat, UtilTimer>, a: Activity, fd: nat)
    requires Tracks(q, timerOf, a) && fd in a && multiset(r) == multiset(q)[timerOf[fd] := 0]
    ensures Tracks(r, timerOf, a - {fd}) && |r| == |q| - 1 && |a - {fd}| == |a| - 1 && forall u | u in r :: u in q
  {
    var t := timerOf[fd];
    assert t in multiset(q);
    assert multiset(r) + multiset{t} == multiset(q);
    assert |multiset(r)| == |r| && |multiset(q)| == |q|;
    forall u | u in r ensures u in q && u != t {
      assert u in multiset(r);
      assert u in multiset(q);
    }
    assert (a - {fd}).Keys == a.Keys - {fd};
    forall f | f in a - {fd} ensures timerOf[f] in r {
      assert timerOf[f] in multiset(q);
      assert timerOf[f] in multiset(r);
    }
  }

  /** One timer's key changed and the queue rebuilt with the same timers. */
  lemma Retrack(q: seq<UtilTimer>, r: seq<UtilTimer>, timerOf: map<nat, UtilTimer>, a: Activity, fd: nat, now: int)
    requires fd in a && fd in timerOf && timerOf[fd] in q && timerOf[fd].expire == now + 3 * TIMESLOT
    requires Tracked(q, timerOf, a) && (forall t | t in q && t != timerOf[fd] :: t.expire == a[t.userData] + 3 * TIMESLOT)
    requires multiset(r) == multiset(q)[timerOf[fd] := 1]
    ensures Tracks(r, timerOf, a[fd := now]) && |r| == |q| && |a[fd := now]| == |a| && forall u | u in r :: u in q
  {
    var t := timerOf[fd];
    assert t in multiset(q);
    assert multiset(r) == multiset(q);
    assert |multiset(r)| == |r| && |multiset(q)| == |q|;
    assert a[fd := now].Keys == a.Keys;
    forall u | u in r ensures u in q { assert u in multiset(q); }
    forall f | f in a ensures timerOf[f] in r { assert timerOf[f] in multiset(q); }
  }

  lemma TrackNew(q: seq<UtilTimer>, r: seq<UtilTimer>, timerOf: map<nat, UtilTimer>, a: Activity, t: UtilTimer, now: int)
    requires Tracks(q, timerOf, a) && t.userData !in a && t.expire == now + 3 * TIMESLOT
    requires multiset(r) == multiset(q) + multiset{t}
    ensures Tracks(r, timerOf[t.userData := t], a[t.userData := now]) && |r| == |q| + 1 && |a[t.userData := now]| == |a| + 1
    ensures forall u | u in r :: u in q || u == t
  {
    assert |multiset(r)| == |r| && |multiset(q)| == |q|;
    assert a[t.userData := now].Keys == a.Keys + {t.userData};
    assert t !in multiset(q);
    forall u | u in r ensures u in q || u == t { assert u in multiset(r); }
    forall f | f in a ensures timerOf[f] in r { assert timerOf[f] in multiset(q) && timerOf[f] in multiset(r); }
    assert t in multiset(r);
  }

  ghost function Fds(ts: seq<UtilTimer>): set<nat>
  {
    set t | t in ts :: t.userData
  }

  /** A tick splits the queue into what it fired and what stays. */
  lemma ExpireTracks(q: seq<UtilTimer>, fired: seq<UtilTimer>, r: seq<UtilTimer>, timerOf: map<nat, UtilTimer>, a: Activity, cur: int)
    requires Tracks(q, timerOf, a) && multiset(fired) + multiset(r) == multiset(q)
    requires AllExpired(fired, cur) && forall t | t in r :: cur < t.expire
    ensures Tracks(r, timerOf, Expire(a, cur)) && Expire(a, cur).Keys == a.Keys - Fds(fired)
  {
    forall t ensures t in q <==> t in fired || t in r {
      assert t in q <==> t in multiset(q);
      assert t in fired <==> t in multiset(fired);
      assert t in r <==> t in multiset(r);
    }
    forall t | t in r ensures multiset(r)[t] == 1 {
      assert t in multiset(r) && multiset(r)[t] <= multiset(q)[t];
    }
    forall fd | fd in a ensures fd in Fds(fired) <==> timerOf[fd] in fired {
    }
    forall fd | fd in a ensures cur < a[fd] + 3 * TIMESLOT <==> timerOf[fd] !in fired {
      assert timerOf[fd].userData == fd;
    }
  }

  /** The correspondence counts: as many timers as connections. */
  lemma {:induction false} CountTracked(q: seq<UtilTimer>, timerOf: map<nat, UtilTimer>, a: Activity)
    requires Tracked(q, timerOf, a)
    ensures |q| == |a|
    decreases |q|
  {
    if |q| == 0 {
      assert a.Keys == {};
    } else {
      var t, r := q[0], q[1..];
      assert q == [t] + r;
      assert multiset(q) == multiset{t} + multiset(r);
      var b := a - {t.userData};
      assert b.Keys == a.Keys - {t.userData};
      assert t !in multiset(r) by { assert multiset(q)[t] == 1; }
      forall u | u in r ensures multiset(r)[u] == 1 && u.userData in b {
        assert u in multiset(r) && u in q;
        assert u != t;
      }
      forall fd | fd in b ensures timerOf[fd] in r {
        assert timerOf[fd] in q && timerOf[fd] != t;
      }
      CountTracked(r, timerOf, b);
    }
  }

  // ---- the server ---------------------------------------------------------------------

  class Server {
    const timers: HeapTimer
    var usersTimer: map<nat, UtilTimer>
    var userCount: int
    var open: set<nat>
    var timeout: bool
    var stopServer: bool
    ghost var activity: Activity

    /** Timers in the heap and open connections are in one-to-one correspondence, and
        every timer is due three slots after its connection's last activity. */
    ghost predicate Valid()
      reads this, timers, timers.pq
    {
      && open == activity.Keys && userCount == |activity| == |timers.pq|
      && Ordered(timers.pq)
      && Tracks(timers.pq, usersTimer, activity)
    }

    constructor ()
      ensures Valid() && |activity| == 0 && fresh(timers) && !timeout && !stopServer
    {
      timers := new HeapTimer();
      usersTimer, userCount, open, timeout, stopServer := map[], 0, {}, false, false;
      activity := map[];
      new;
    }

    /** cb_func: closes the connection and counts it out. */
    method CloseBack(fd: nat)
      modifies this`open, this`userCount
      ensures open == old(open) - {fd} && userCount == old(userCount) - 1
    {
      open := open - {fd};
      userCount := userCount - 1;
    }

    method Close(fd: nat)
      requires Valid() && fd in activity
      modifies this`open, this`userCount, this`activity, timers
      ensures Valid() && activity == old(activity) - {fd} && forall t | t in timers.pq :: t in old(timers.pq)
    {
      var timer := usersTimer[fd];
      CloseBack(fd);
      ghost var q := timers.pq;
      var threw := timers.DelTimer(timer);
      Untrack(q, timers.pq, usersTimer, activity, fd);
      activity := activity - {fd};
    }

    /** A connection that has just been read or written stays for three slots more:
        its timer's key is changed in place, then the queue put right. */
    method Refresh(fd: nat, now: int)
      requires Valid() && fd in activity
      modifies this`activity, timers, set t | t in timers.pq
      ensures Valid() && activity == old(activity)[fd := now] && forall t | t in timers.pq :: t in old(timers.pq)
    {
      hide Ordered;
      ghost var q := timers.pq;
      var timer := usersTimer[fd];
      timer.expire := now + 3 * TIMESLOT;
      var threw := timers.AdjustTimer(timer);
      assert timer in multiset(q);
      assert multiset(q)[timer := 1] == multiset(q);
      Retrack(q, timers.pq, usersTimer, activity, fd, now);
      activity := activity[fd := now];
    }

    /** The branches for a readable and for a writable connection do the same with what
        read_once and write return. */
    method Traffic(fd: nat, ok: bool, now: int)
      requires Valid()
      modifies this`open, this`userCount, this`activity, timers, set t | t in timers.pq
      ensures Valid() && activity == Touch(old(activity), fd, ok, now)
      ensures forall t | t in timers.pq :: t in old(timers.pq)
    {
      if fd in open {
        if ok { Refresh(fd, now); } else { Close(fd); }
      }
    }

    method Accept(conn: Accepted)
      requires Valid() && conn.fd !in activity
      modifies this`open, this`userCount, this`activity, this`usersTimer, timers
      ensures Valid() && activity == old(activity)[conn.fd := conn.now]
      ensures forall t | t in timers.pq :: t in old(timers.pq) || fresh(t)
    {
      hide Ordered, Tracked, Tracks;
      ghost var q := timers.pq;
      open := open + {conn.fd};
      userCount := userCount + 1;
      var timer := new UtilTimer(conn.fd, conn.now + 3 * TIMESLOT);
      timers.AddTimer(timer);
      TrackNew(q, timers.pq, usersTimer, activity, timer, conn.now);
      usersTimer := usersTimer[conn.fd := timer];
      activity := activity[conn.fd := conn.now];
    }

    /** accept until it fails or the server is full. */
    method AcceptAll(conns: seq<Accepted>)
      requires Valid()
      modifies this`open, this`userCount, this`activity, this`usersTimer, timers
      ensures Valid() && activity == AcceptAllOf(old(activity), conns)
      ensures forall t | t in timers.pq :: t in old(timers.pq) || fresh(t)
    {
      var i := 0;
      while i < |conns|
        invariant 0 <= i <= |conns| && Valid()
        invariant AcceptAllOf(activity, conns[i..]) == AcceptAllOf(old(activity), conns)
        invariant forall t | t in timers.pq :: t in old(timers.pq) || fresh(t)
      {
        if userCount >= MAX_FD { return; }
        assert conns[i..][1..] == conns[i + 1..];
        if conns[i].fd !in open { Accept(conns[i]); }
        i := i + 1;
      }
    }

    /** The pending alarm: every connection idle for three slots is closed, no other. */
    method TimerHandler(cur: int)
      requires Valid()
      modifies this`open, this`userCount, this`activity, timers
      ensures Valid() && activity == Expire(old(activity), cur)
      ensures forall t | t in timers.pq :: t in old(timers.pq)
    {
      hide Ordered, Tracked, Tracks, Expire, AllExpired, Fds;
      ghost var q, a := timers.pq, activity;
      var fired := timers.Tick(cur);
      ExpireTracks(q, fired, timers.pq, usersTimer, a, cur);
      SplitSizes(q, fired, timers.pq);
      CloseFired(fired);
      activity := Expire(a, cur);
      CountTrackedBy(timers.pq, usersTimer, activity);
    }

    /** The callbacks of the timers that fired. */
    method CloseFired(fired: seq<UtilTimer>)
      modifies this`open, this`userCount
      ensures open == old(open) - Fds(fired) && userCount == old(userCount) - |fired|
    {
      var i := 0;
      while i < |fired|
        invariant 0 <= i <= |fired|
        invariant open == old(open) - Fds(fired[..i]) && userCount == old(userCount) - i
      {
        assert fired[..i + 1] == fired[..i] + [fired[i]];
        CloseBack(fired[i].userData);
        i := i + 1;
      }
      assert fired[..i] == fired;
    }

    /** Reads the signals off the pipe and remembers what they ask for. */
    method TakeSignals(signals: seq<Signal>)
      modifies this`timeout, this`stopServer
      ensures timeout == (old(timeout) || SigAlrm in signals)
      ensures stopServer == (old(stopServer) || SigTerm in signals)
    {
      for i := 0 to |signals|
        invariant timeout == (old(timeout) || SigAlrm in signals[..i])
        invariant stopServer == (old(stopServer) || SigTerm in signals[..i])
      {
        match signals[i]
        case SigAlrm => timeout := true;
        case SigTerm => stopServer := true;
        case OtherSignal =>
      }
      assert signals[..|signals|] == signals;
    }

    method Handle(e: Event)
      requires Valid()
      modifies this, timers, set t | t in timers.pq
      ensures Valid() && activity == React(old(activity), e)
      ensures timeout == (old(timeout) || Rings(e, SigAlrm)) && stopServer == (old(stopServer) || Rings(e, SigTerm))
      ensures forall t | t in timers.pq :: t in old(timers.pq) || fresh(t)
    {
      hide Ordered, Tracks, AcceptAllOf;
      match e
      case Listen(conns) => AcceptAll(conns);
      case HangUp(fd) => if fd in open { Close(fd); } else { assert activity - {fd} == activity; }
      case Pipe(signals) => TakeSignals(signals);
      case Readable(fd, ok, now) => Traffic(fd, ok, now);
      case Writable(fd, ok, now) => Traffic(fd, ok, now);
      case Nothing =>
    }

    method HandleAll(es: seq<Event>)
      requires Valid()
      modifies this, timers, set t | t in timers.pq
      ensures Valid() && activity == ReactAll(old(activity), es)
      ensures timeout == (old(timeout) || exists e | e in es :: Rings(e, SigAlrm))
      ensures stopServer == (old(stopServer) || exists e | e in es :: Rings(e, SigTerm))
      ensures forall t | t in timers.pq :: t in old(timers.pq) || fresh(t)
    {
      hide Ordered, Tracks, React, Rings;
      var i := 0;
      while i < |es|
        invariant 0 <= i <= |es| && Valid()
        invariant ReactAll(activity, es[i..]) == ReactAll(old(activity), es)
        invariant timeout == (old(timeout) || exists e | e in es[..i] :: Rings(e, SigAlrm))
        invariant stopServer == (old(stopServer) || exists e | e in es[..i] :: Rings(e, SigTerm))
        invariant forall t | t in timers.pq :: t in old(timers.pq) || fresh(t)
      {
        assert es[i..][1..] == es[i + 1..];
        assert es[..i + 1] == es[..i] + [es[i]];
        Handle(es[i]);
        i := i + 1;
      }
      assert es[..i] == es;
    }

    /** The main loop.  Its heap of timers with keys changed under it does to the
        connections exactly what the protocol says. */
    method Run(bs: seq<Batch>)
      requires Valid() && !timeout && !stopServer
      modifies this, timers, set t | t in timers.pq
      ensures Valid() && activity == Loop(old(activity), bs)
    {
      hide Ordered, Tracks, Expire, ReactAll;
      var i := 0;
      while i < |bs| && !stopServer
        invariant 0 <= i <= |bs| && Valid() && !timeout
        invariant (if stopServer then activity else Loop(activity, bs[i..])) == Loop(old(activity), bs)
        invariant forall t | t in timers.pq :: t in old(timers.pq) || fresh(t)
      {
        assert bs[i..][1..] == bs[i + 1..];
        HandleAll(bs[i].events);
        if timeout {
          TimerHandler(bs[i].tickTime);
          timeout := false;
        }
        i := i + 1;
      }
    }
  }

  lemma SplitSizes(q: seq<UtilTimer>, fired: seq<UtilTimer>, r: seq<UtilTimer>)
    requires multiset(fired) + multiset(r) == multiset(q)
    ensures |fired| + |r| == |q| && forall t | t in r :: t in q
  {
    forall t | t in r ensures t in q { assert t in multiset(r) && t in multiset(q); }
    assert |multiset(fired) + multiset(r)| == |multiset(q)|;
  }

  lemma CountTrackedBy(q: seq<UtilTimer>, timerOf: map<nat, UtilTimer>, a: Activity)
    requires Tracks(q, timerOf, a)
    ensures |q| == |a|
  {
    CountTracked(q, timerOf, a);
  }
}
