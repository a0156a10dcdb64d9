/** The parent of the process pool: new connections go round-robin to the children
    that are still alive. */
module Dispatcher {
  import opened Sequences

  const DEAD: int := -1

  // ---- positions on a circle of `n` --------------------------------------------------

  function Next(j: nat, n: nat): nat
    requires j < n
  {
    if j + 1 == n then 0 else j + 1
  }

  lemma NextIsMod(j: nat, n: nat)
    requires j < n
    ensures (j + 1) % n == Next(j, n)
  {
  }

  function Shift(j: nat, k: nat, n: nat): (r: nat)
    requires j < n && k <= n
    ensures r < n
  {
    if j + k < n then j + k else j + k - n
  }

  /** How many places `x` is ahead of `j`. */
  function Ahead(j: nat, x: nat, n: nat): (d: nat)
    requires j < n && x < n
    ensures d < n
  {
    if x >= j then x - j else x + n - j
  }

  // ---- the order in which live children come up ------------------------------------------

  /** The live children among the `k` places from `j` on, in order. */
  function From(pids: seq<int>, j: nat, k: nat): (s: seq<nat>)
    requires j < |pids| && k <= |pids|
    decreases k
  {
    if k == 0 then []
    else (if pids[j] != DEAD then [j] else []) + From(pids, Next(j, |pids|), k - 1)
  }

  function Order(pids: seq<int>, c: nat): seq<nat>
    requires c < |pids|
  {
    From(pids, c, |pids|)
  }

  predicate AllDead(pids: seq<int>) { forall i | 0 <= i < |pids| :: pids[i] == DEAD }

  /** The place lists exactly the live children ahead by less than `k`, each once. */
  lemma {:induction false} FromLists(pids: seq<int>, j: nat, k: nat, x: nat)
    requires j < |pids| && k <= |pids| && x < |pids|
    ensures multiset(From(pids, j, k))[x] == if pids[x] != DEAD && Ahead(j, x, |pids|) < k then 1 else 0
    decreases k
  {
    if k > 0 {
      FromLists(pids, Next(j, |pids|), k - 1, x);
    }
  }

  /** Every live child once, no other. */
  lemma OrderListsLive(pids: seq<int>, c: nat, x: nat)
    requires c < |pids| && x < |pids|
    ensures multiset(Order(pids, c))[x] == if pids[x] != DEAD then 1 else 0
    ensures x in Order(pids, c) <==> pids[x] != DEAD
  {
    FromLists(pids, c, |pids|, x);
  }

  lemma {:induction false} FromSplit(pids: seq<int>, j: nat, a: nat, b: nat)
    requires j < |pids| && a + b <= |pids|
    ensures From(pids, j, a + b) == From(pids, j, a) + From(pids, Shift(j, a, |pids|), b)
    decreases a
  {
    if a > 0 {
      FromSplit(pids, Next(j, |pids|), a - 1, b);
    }
  }

  /** The first live child is the nearest one. */
  lemma {:induction false} FromFirst(pids: seq<int>, j: nat, k: nat)
    requires j < |pids| && k <= |pids| && |From(pids, j, k)| > 0
    ensures var p := From(pids, j, k)[0];
            p < |pids|
            && var d := Ahead(j, p, |pids|);
            d < k && pids[p] != DEAD && From(pids, j, d) == [] && From(pids, j, d + 1) == [p]
            && From(pids, j, k) == [p] + From(pids, Next(p, |pids|), k - d - 1)
    decreases k
  {
    if pids[j] == DEAD {
      FromFirst(pids, Next(j, |pids|), k - 1);
    } else {
      assert From(pids, j, 1) == [j] + From(pids, Next(j, |pids|), 0);
    }
  }

  /** Serving the first child and stepping past it rotates the order. */
  lemma Rotation(pids: seq<int>, c: nat)
    requires c < |pids| && |Order(pids, c)| > 0
    ensures var p := Order(pids, c)[0];
            p < |pids| && Order(pids, Next(p, |pids|)) == Order(pids, c)[1..] + [p]
  {
    var n := |pids|;
    FromFirst(pids, c, n);
    var p := Order(pids, c)[0];
    var d := Ahead(c, p, n);
    FromSplit(pids, Next(p, n), n - d - 1, d + 1);
    assert Shift(Next(p, n), n - d - 1, n) == c;
  }

  lemma OrderNotEmpty(pids: seq<int>, c: nat)
    requires c < |pids|
    ensures |Order(pids, c)| == 0 <==> AllDead(pids)
  {
    if |Order(pids, c)| > 0 {
      FromFirst(pids, c, |pids|);
      assert pids[Order(pids, c)[0]] != DEAD;
    } else {
      forall i | 0 <= i < |pids| ensures pids[i] == DEAD { OrderListsLive(pids, c, i); }
    }
  }

  /** The child the next connection goes to: the first live one from the counter on. */
  function Pick(pids: seq<int>, c: nat): (p: nat)
    requires c < |pids| && !AllDead(pids)
    ensures p < |pids| && pids[p] != DEAD && |Order(pids, c)| > 0 && p == Order(pids, c)[0]
  {
    OrderNotEmpty(pids, c);
    FromFirst(pids, c, |pids|);
    Order(pids, c)[0]
  }

  // ---- fairness while no child dies ---------------------------------------------------

  /** The children served by `m` dispatches in a row. */
  function Served(pids: seq<int>, c: nat, m: nat): (s: seq<nat>)
    requires c < |pids| && !AllDead(pids)
    ensures |s| == m
    decreases m
  {
    if m == 0 then []
    else
      var p := Pick(pids, c);
      [p] + Served(pids, Next(p, |pids|), m - 1)
  }

  /** Where the counter stands after `m` dispatches. */
  function CounterAfter(pids: seq<int>, c: nat, m: nat): (r: nat)
    requires c < |pids| && !AllDead(pids)
    ensures r < |pids|
    decreases m
  {
    if m == 0 then c
    else
      CounterAfter(pids, Next(Pick(pids, c), |pids|), m - 1)
  }

  lemma {:induction false} ServedSplit(pids: seq<int>, c: nat, a: nat, b: nat)
    requires c < |pids| && !AllDead(pids)
    ensures Served(pids, c, a + b) == Served(pids, c, a) + Served(pids, CounterAfter(pids, c, a), b)
    decreases a
  {
    if a > 0 {
      ServedSplit(pids, Next(Pick(pids, c), |pids|), a - 1, b);
    }
  }

  /** One round serves the live children in order. */
  lemma {:induction false} RoundIsOrder(pids: seq<int>, c: nat, m: nat)
    requires c < |pids| && !AllDead(pids) && m <= |Order(pids, c)|
    ensures Served(pids, c, m) == Order(pids, c)[..m]
    decreases m
  {
    if m > 0 {
      var l := Order(pids, c);
      var c' := Next(Pick(pids, c), |pids|);
      Rotation(pids, c);
      RoundIsOrder(pids, c', m - 1);
      assert (l[1..] + [l[0]])[..m - 1] == l[1..m];
    }
  }

  /** Fairness: among any `k` dispatches in a row, with `k` children alive, each live
      child is served exactly once. */
  lemma EachOncePerRound(pids: seq<int>, c: nat, before: nat, x: nat)
    requires c < |pids| && !AllDead(pids) && x < |pids|
    ensures var k := |Order(pids, c)|;
            var window := Served(pids, c, before + k)[before..];
            multiset(window)[x] == if pids[x] != DEAD then 1 else 0
  {
    var k := |Order(pids, c)|;
    var c' := CounterAfter(pids, c, before);
    ServedSplit(pids, c, before, k);
    SameLength(pids, c, before);
    RoundIsOrder(pids, c', k);
    assert Order(pids, c')[..k] == Order(pids, c');
    OrderListsLive(pids, c', x);
  }

  lemma {:induction false} SameLength(pids: seq<int>, c: nat, m: nat)
    requires c < |pids| && !AllDead(pids)
    ensures |Order(pids, CounterAfter(pids, c, m))| == |Order(pids, c)|
    decreases m
  {
    if m > 0 {
      var c' := Next(Pick(pids, c), |pids|);
      Rotation(pids, c);
      SameLength(pids, c', m - 1);
    }
  }

  /** Over any interval, two live children's shares differ by at most one. */
  lemma {:induction false} SharesDifferByOne(pids: seq<int>, c: nat, m: nat, x: nat, y: nat)
    requires c < |pids| && !AllDead(pids) && x < |pids| && y < |pids| && pids[x] != DEAD && pids[y] != DEAD
    ensures multiset(Served(pids, c, m))[x] <= multiset(Served(pids, c, m))[y] + 1
    decreases m
  {
    hide Order, Served;
    var k := |Order(pids, c)|;
    var l := Order(pids, c);
    assert k > 0 by { var p := Pick(pids, c); }
    OrderListsLive(pids, c, x);
    OrderListsLive(pids, c, y);
    if m < k {
      RoundIsOrder(pids, c, m);
      assert multiset(l) == multiset(l[..m]) + multiset(l[m..]) by { assert l == l[..m] + l[m..]; }
    } else {
      RoundIsOrder(pids, c, k);
      assert l[..k] == l;
      ServedSplit(pids, c, k, m - k);
      SharesDifferByOne(pids, CounterAfter(pids, c, k), m - k, x, y);
    }
  }

  // ---- children dying in between --------------------------------------------------------

  datatype Signal = Chld(reaped: seq<int>) | Terminate | OtherSignal
  datatype Event = Connect | Signals(signals: seq<Signal>)

  /** The pids waitpid returned are struck off. */
  function Strike(pids: seq<int>, reaped: seq<int>): (r: seq<int>)
    ensures |r| == |pids|
  {
    seq(|pids|, i requires 0 <= i < |pids| => if pids[i] in reaped then DEAD else pids[i])
  }

  function StrikeAll(pids: seq<int>, signals: seq<Signal>): (r: seq<int>)
    ensures |r| == |pids|
    decreases |signals|
  {
    if |signals| == 0 then pids
    else StrikeAll(if signals[0].Chld? then Strike(pids, signals[0].reaped) else pids, signals[1..])
  }

  /** The children the parent of a pool sends connections to, event by event; it stops
      when a connection finds all children dead. */
  function Dispatched(pids: seq<int>, c: nat, es: seq<Event>): seq<nat>
    requires c < |pids|
    decreases |es|
  {
    if |es| == 0 then []
    else match es[0]
      case Connect =>
        if AllDead(pids) then []
        else [Pick(pids, c)] + Dispatched(pids, Next(Pick(pids, c), |pids|), es[1..])
      case Signals(ss) => Dispatched(StrikeAll(pids, ss), c, es[1..])
  }

  function Connects(es: seq<Event>): nat
  {
    if |es| == 0 then 0 else (if es[0].Connect? then 1 else 0) + Connects(es[1..])
  }

  /** No event reports the death of the child whose pid is `pid`. */
  predicate Survives(es: seq<Event>, pid: int)
  {
    forall e | e in es && e.Signals? :: forall s | s in e.signals && s.Chld? :: pid !in s.reaped
  }

  lemma {:induction false} StrikeSpares(pids: seq<int>, ss: seq<Signal>, x: nat)
    requires x < |pids| && forall s | s in ss && s.Chld? :: pids[x] !in s.reaped
    ensures StrikeAll(pids, ss)[x] == pids[x]
    decreases |ss|
  {
    if |ss| > 0 {
      assert ss[0] in ss;
      StrikeSpares(if ss[0].Chld? then Strike(pids, ss[0].reaped) else pids, ss[1..], x);
    }
  }

  /** The pick is no further ahead than any live child. */
  lemma PickIsNearest(pids: seq<int>, c: nat, x: nat)
    requires c < |pids| && x < |pids| && pids[x] != DEAD
    ensures Ahead(c, Pick(pids, c), |pids|) <= Ahead(c, x, |pids|)
  {
    var p := Pick(pids, c);
    FromFirst(pids, c, |pids|);
    var d := Ahead(c, Pick(pids, c), |pids|);
    FromLists(pids, c, d, x);
    assert multiset(From(pids, c, d))[x] == 0;
  }

  /** However the others die, a child that stays alive gets a connection among any `n`
      in a row; more exactly, as soon as there are more than the places it is ahead. */
  lemma {:induction false} SurvivorIsServed(pids: seq<int>, c: nat, es: seq<Event>, x: nat)
    requires c < |pids| && x < |pids| && pids[x] != DEAD && Survives(es, pids[x])
    requires Connects(es) > Ahead(c, x, |pids|)
    ensures x in Dispatched(pids, c, es)
    decreases |es|
  {
    assert es[0] in es;
    match es[0]
    case Connect =>
      var p := Pick(pids, c);
      PickIsNearest(pids, c, x);
      if p != x { SurvivorIsServed(pids, Next(p, |pids|), es[1..], x); }
    case Signals(ss) =>
      StrikeSpares(pids, ss, x);
      SurvivorIsServed(StrikeAll(pids, ss), c, es[1..], x);
  }

  // ---- the dead get nothing ------------------------------------------------------------

  /** Some signal reports the death of `pid`. */
  predicate Reports(ss: seq<Signal>, pid: int)
  {
    exists s | s in ss && s.Chld? :: pid in s.reaped
  }

  lemma {:induction false} StrikeHits(pids: seq<int>, ss: seq<Signal>, x: nat)
    requires x < |pids|
    ensures StrikeAll(pids, ss)[x] == if Reports(ss, pids[x]) then DEAD else pids[x]
    decreases |ss|
  {
    if |ss| > 0 {
      var q := if ss[0].Chld? then Strike(pids, ss[0].reaped) else pids;
      StrikeHits(q, ss[1..], x);
      assert ss[0] in ss && forall s | s in ss :: s == ss[0] || s in ss[1..];
    }
  }

  lemma {:induction false} DeadNeverServed(pids: seq<int>, c: nat, es: seq<Event>, x: nat)
    requires c < |pids| && x < |pids| && pids[x] == DEAD
    ensures x !in Dispatched(pids, c, es)
    decreases |es|
  {
    if |es| > 0 {
      match es[0] {
        case Connect => if !AllDead(pids) { DeadNeverServed(pids, Next(Pick(pids, c), |pids|), es[1..], x); }
        case Signals(ss) =>
          StrikeHits(pids, ss, x);
          DeadNeverServed(StrikeAll(pids, ss), c, es[1..], x);
      }
    }
  }

  /** Once an event has reported the death of a child, no later connection goes to it. */
  lemma {:induction false} ReapedNeverServed(pids: seq<int>, c: nat, es: seq<Event>, k: nat, x: nat)
    requires c < |pids| && x < |pids| && k < |es| && es[k].Signals? && Reports(es[k].signals, pids[x])
    ensures var before, all := Dispatched(pids, c, es[..k + 1]), Dispatched(pids, c, es);
            before <= all && x !in all[|before|..]
    decreases k
  {
    if k == 0 {
      StrikeHits(pids, es[0].signals, x);
      DeadNeverServed(StrikeAll(pids, es[0].signals), c, es[1..], x);
      assert es[..1][1..] == [];
    } else {
      assert es[..k + 1][1..] == es[1..][..k];
      match es[0] {
        case Connect => if !AllDead(pids) { ReapedNeverServed(pids, Next(Pick(pids, c), |pids|), es[1..], k - 1, x); }
        case Signals(ss) =>
          StrikeHits(pids, ss, x);
          var q := StrikeAll(pids, ss);
          if q[x] == DEAD {
            DeadNeverServed(q, c, es[1..], x);
            Prefix(q, c, es[1..], k);
          } else {
            ReapedNeverServed(q, c, es[1..], k - 1, x);
          }
      }
    }
  }

  lemma {:induction false} Prefix(pids: seq<int>, c: nat, es: seq<Event>, k: nat)
    requires c < |pids| && k <= |es|
    ensures Dispatched(pids, c, es[..k]) <= Dispatched(pids, c, es)
    decreases k
  {
    if k > 0 {
      assert es[..k][1..] == es[1..][..k - 1];
      match es[0] {
        case Connect => if !AllDead(pids) { Prefix(pids, Next(Pick(pids, c), |pids|), es[1..], k - 1); }
        case Signals(ss) => Prefix(StrikeAll(pids, ss), c, es[1..], k - 1);
      }
    }
  }

  /** A connection right after some signals finds nobody if and only if they report every
      child that was alive. */
  lemma NobodyLeftIff(pids: seq<int>, c: nat, ss: seq<Signal>)
    requires c < |pids|
    ensures Dispatched(pids, c, [Signals(ss), Connect]) == []
            <==> forall i | 0 <= i < |pids| :: pids[i] != DEAD ==> Reports(ss, pids[i])
  {
    forall i | 0 <= i < |pids| ensures StrikeAll(pids, ss)[i] == if Reports(ss, pids[i]) then DEAD else pids[i] {
      StrikeHits(pids, ss, i);
    }
    var es := [Signals(ss), Connect];
    assert es[1..] == [Connect];
    assert Dispatched(pids, c, es) == Dispatched(StrikeAll(pids, ss), c, [Connect]);
  }

  /** While nobody dies the events' children are those of so many dispatches in a row. */
  lemma {:induction false} ConnectsAreServed(pids: seq<int>, c: nat, es: seq<Event>)
    requires c < |pids| && !AllDead(pids) && forall e | e in es :: e.Connect?
    ensures Dispatched(pids, c, es) == Served(pids, c, |es|)
    decreases |es|
  {
    if |es| > 0 {
      assert es[0] in es;
      ConnectsAreServed(pids, Next(Pick(pids, c), |pids|), es[1..]);
    }
  }

  // ---- the parent ----------------------------------------------------------------------

  class ProcessPool {
    const processNumber: nat
    const subProcess: array<int>    // m_sub_process[i].m_pid
    var subProcessCounter: nat
    var stop: bool

    ghost predicate Valid()
      reads this
    {
      0 < processNumber == subProcess.Length && subProcessCounter < processNumber
    }

    constructor (pids: seq<int>)
      requires |pids| > 0
      ensures Valid() && subProcess[..] == pids && fresh(subProcess) && !stop && subProcessCounter == 0
    {
      processNumber := |pids|;
      subProcess := new int[|pids|](i requires 0 <= i < |pids| => pids[i]);
      subProcessCounter, stop := 0, false;
    }

    /** Looks for a live child from the counter on, once around; none stops the pool. */
    method Dispatch() returns (sent: bool, j: nat)
      requires Valid()
      modifies this`subProcessCounter, this`stop
      ensures Valid() && (sent <==> !AllDead(subProcess[..]))
      ensures sent ==> j == Pick(subProcess[..], old(subProcessCounter)) && subProcessCounter == Next(j, processNumber) && stop == old(stop)
      ensures !sent ==> subProcessCounter == old(subProcessCounter) && stop
    {
      ghost var pids, c := subProcess[..], subProcessCounter;
      ghost var k := 0;
      j := subProcessCounter;
      while true
        modifies {}
        invariant 0 <= k < processNumber && j == Shift(c, k, processNumber)
        invariant Order(pids, c) == From(pids, j, processNumber - k)
        decreases processNumber - k
      {
        if subProcess[j] != DEAD { break; }
        NextIsMod(j, processNumber);
        j := (j + 1) % processNumber;
        k := k + 1;
        if j == subProcessCounter { break; }
      }
      OrderNotEmpty(pids, c);
      if subProcess[j] == DEAD {
        stop := true;
        return false, j;
      }
      NextIsMod(j, processNumber);
      subProcessCounter := (j + 1) % processNumber;
      return true, j;
    }

    /** waitpid gave `pid`: its place is marked dead. */
    method StrikeOff(pid: int)
      requires Valid()
      modifies subProcess
      ensures subProcess[..] == Strike(old(subProcess[..]), [pid])
      ensures forall i | 0 <= i < subProcess.Length :: subProcess[i] == if old(subProcess[i]) == pid then DEAD else old(subProcess[i])
    {
      for i := 0 to processNumber
        invariant forall k | 0 <= k < i :: subProcess[k] == if old(subProcess[k]) == pid then DEAD else old(subProcess[k])
        invariant forall k | i <= k < processNumber :: subProcess[k] == old(subProcess[k])
      {
        if subProcess[i] == pid { subProcess[i] := DEAD; }
      }
    }

    /** SIGCHLD: strikes off whoever waitpid returns; the pool stops when nobody is left. */
    method Reap(reaped: seq<int>)
      requires Valid() && DEAD !in reaped
      modifies subProcess, this`stop
      ensures subProcess[..] == Strike(old(subProcess[..]), reaped) && stop == AllDead(subProcess[..])
      ensures forall i | 0 <= i < subProcess.Length ::
                subProcess[i] == if old(subProcess[i]) in reaped then DEAD else old(subProcess[i])
    {
      ghost var p := subProcess[..];
      assert p == Strike(p, []);
      for k := 0 to |reaped|
        invariant subProcess[..] == Strike(p, reaped[..k])
      {
        StrikeOff(reaped[k]);
        assert reaped[..k + 1] == reaped[..k] + [reaped[k]];
      }
      assert reaped[..|reaped|] == reaped;
      stop := true;
      for i := 0 to processNumber
        modifies this`stop
        invariant stop == forall k | 0 <= k < i :: subProcess[k] == DEAD
      {
        if subProcess[i] != DEAD { stop := false; }
      }
    }

    /** SIGTERM and SIGINT only pass the signal on to the children. */
    method TakeSignals(signals: seq<Signal>)
      requires Valid() && WaitpidResults(signals) && (stop ==> AllDead(subProcess[..]))
      modifies subProcess, this`stop
      ensures subProcess[..] == StrikeAll(old(subProcess[..]), signals) && (stop ==> AllDead(subProcess[..]))
    {
      var k := 0;
      while k < |signals|
        invariant 0 <= k <= |signals| && (stop ==> AllDead(subProcess[..]))
        invariant StrikeAll(subProcess[..], signals[k..]) == StrikeAll(old(subProcess[..]), signals)
      {
        assert signals[k..][1..] == signals[k + 1..] && signals[k] in signals;
        if signals[k].Chld? { Reap(signals[k].reaped); }
        k := k + 1;
      }
    }

    /** The events of one epoll_wait; a connection that finds no child ends them. */
    method HandleBatch(es: seq<Event>) returns (log: seq<nat>)
      requires Valid() && (forall e | e in es && e.Signals? :: WaitpidResults(e.signals)) && (stop ==> AllDead(subProcess[..]))
      modifies this`subProcessCounter, this`stop, subProcess
      ensures Valid() && (stop ==> AllDead(subProcess[..]))
      ensures forall rest :: Dispatched(old(subProcess[..]), old(subProcessCounter), es + rest)
                             == log + Dispatched(subProcess[..], subProcessCounter, rest)
    {
      ghost var p, c := subProcess[..], subProcessCounter;
      log := [];
      var k := 0;
      while k < |es|
        invariant 0 <= k <= |es| && Valid() && (stop ==> AllDead(subProcess[..]))
        invariant forall rest :: Dispatched(p, c, es + rest) == log + Dispatched(subProcess[..], subProcessCounter, es[k..] + rest)
      {
        forall rest: seq<Event> ensures (es[k..] + rest)[0] == es[k] && (es[k..] + rest)[1..] == es[k + 1..] + rest {}
        match es[k] {
          case Connect =>
            ghost var q := subProcess[..];
            var sent, j := Dispatch();
            if !sent {
              forall rest ensures Dispatched(q, subProcessCounter, rest) == [] { NoneLeft(q, subProcessCounter, rest); }
              return;
            }
            log := log + [j];
          case Signals(ss) => TakeSignals(ss);
        }
        k := k + 1;
      }
      forall rest: seq<Event> ensures es[k..] + rest == rest {}
    }

    /** run_parent: the children served are those of the dispatcher without batches. */
    method RunParent(bs: seq<seq<Event>>) returns (log: seq<nat>)
      requires Valid() && !stop && forall es | es in bs :: forall e | e in es && e.Signals? :: WaitpidResults(e.signals)
      modifies this`subProcessCounter, this`stop, subProcess
      ensures Valid() && log == Dispatched(old(subProcess[..]), old(subProcessCounter), Concat(bs))
    {
      hide Dispatched, AllDead;
      ghost var p, c := subProcess[..], subProcessCounter;
      log := [];
      var k := 0;
      while k < |bs| && !stop
        invariant 0 <= k <= |bs| && Valid() && (stop ==> AllDead(subProcess[..]))
        invariant Dispatched(p, c, Concat(bs)) == log + Dispatched(subProcess[..], subProcessCounter, Concat(bs[k..]))
      {
        assert bs[k] in bs && bs[k..][1..] == bs[k + 1..];
        assert Concat(bs[k..]) == bs[k] + Concat(bs[k + 1..]);
        var more := HandleBatch(bs[k]);
        log := log + more;
        k := k + 1;
      }
      if stop { NoneLeft(subProcess[..], subProcessCounter, Concat(bs[k..])); }
      NothingDispatched(subProcess[..], subProcessCounter);
    }
  }

  lemma NothingDispatched(pids: seq<int>, c: nat)
    requires c < |pids|
    ensures Dispatched(pids, c, []) == []
  {
  }

  /** waitpid returns positive pids. */
  predicate WaitpidResults(signals: seq<Signal>)
  {
    forall s | s in signals && s.Chld? :: DEAD !in s.reaped
  }

  lemma {:induction false} NoneLeft(pids: seq<int>, c: nat, es: seq<Event>)
    requires c < |pids| && AllDead(pids)
    ensures Dispatched(pids, c, es) == []
    decreases |es|
  {
    if |es| > 0 && es[0].Signals? {
      StrikeDead(pids, es[0].signals);
      NoneLeft(pids, c, es[1..]);
    }
  }

  lemma {:induction false} StrikeDead(pids: seq<int>, ss: seq<Signal>)
    requires AllDead(pids)
    ensures StrikeAll(pids, ss) == pids
    decreases |ss|
  {
    if |ss| > 0 {
      if ss[0].Chld? { assert Strike(pids, ss[0].reaped) == pids; }
      StrikeDead(pids, ss[1..]);
    }
  }
}
