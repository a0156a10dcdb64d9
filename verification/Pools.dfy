/** The two pools as objects.  Each method is what one thread does when it runs alone; its
    contract ties it to the steps of WorkerPool, where the threads mix. */
module Pools {
  import opened WorkerPool

  class ConnectionPool {
    var connList: seq<int>
    var freeConn: int
    var curConn: int
    var reserve: nat

    constructor (maxConn: nat)
      ensures connList == seq(maxConn, i => i) && freeConn == reserve == maxConn && curConn == 0
    {
      connList, freeConn, curConn, reserve := [], 0, 0, 0;
      new;
      var i := 0;
      while i < maxConn
        modifies this
        invariant i <= maxConn && connList == seq(i, j => j) && freeConn == i && curConn == 0
      {
        connList := connList + [i];
        freeConn := freeConn + 1;
        i := i + 1;
      }
      reserve := freeConn;
    }

    /** NONE is the null connection, given when the list is seen empty; the semaphore
        must not be at zero then, or the thread would wait. */
    method GetConnection() returns (con: int)
      requires |connList| > 0 ==> reserve > 0
      modifies this
      ensures old(|connList|) == 0 ==> con == NONE && connList == [] && reserve == old(reserve)
      ensures old(|connList|) == 0 ==> freeConn == old(freeConn) && curConn == old(curConn)
      ensures old(|connList|) > 0 ==> [con] + connList == old(connList) && reserve == old(reserve) - 1
      ensures old(|connList|) > 0 ==> freeConn == old(freeConn) - 1 && curConn == old(curConn) + 1
    {
      if |connList| == 0 { return NONE; }
      reserve := reserve - 1;
      con := connList[0];
      connList := connList[1..];
      freeConn := freeConn - 1;
      curConn := curConn + 1;
    }

    method ReleaseConnection(con: int) returns (ok: bool)
      modifies this
      ensures ok <==> con != NONE
      ensures ok ==> connList == old(connList) + [con] && reserve == old(reserve) + 1
      ensures ok ==> freeConn == old(freeConn) + 1 && curConn == old(curConn) - 1
      ensures !ok ==> unchanged(this)
    {
      if con == NONE { return false; }
      connList := connList + [con];
      freeConn := freeConn + 1;
      curConn := curConn - 1;
      reserve := reserve + 1;
      return true;
    }
  }

  /** One pass of a worker that nothing interrupts. */
  function PassSteps(): seq<Step>
  {
    [Wake(0)] + ([Take(0)] + ([Look(0)] + ([Reserve(0)] + ([Grab(0)] + ([GiveBack(0)] + ([Release(0)] + []))))))
  }

  class ThreadPool {
    const maxRequests: nat
    const conns: ConnectionPool
    var workqueue: seq<int>
    var queuestat: nat
    ghost var accepted: seq<int>
    ghost var taken: seq<int>

    constructor (maxRequests: nat, conns: ConnectionPool)
      ensures this.maxRequests == maxRequests && this.conns == conns
      ensures workqueue == [] && queuestat == 0 && accepted == taken == []
    {
      this.maxRequests, this.conns := maxRequests, conns;
      workqueue, queuestat, accepted, taken := [], 0, [], [];
    }

    /** The state between passes, with one worker and one appender. */
    ghost function State(): Pool
      reads this, conns
    {
      Pool(maxRequests, workqueue, queuestat, [Outside], [Idle], [NONE], conns.connList, conns.reserve,
           conns.freeConn, conns.curConn, accepted, taken)
    }

    method Append(request: int) returns (ok: bool)
      modifies this
      ensures State() == Exec(old(State()), [WorkerPool.Append(0, request), Post(0)])
      ensures ok <==> old(|workqueue|) <= maxRequests
      ensures ok ==> workqueue == old(workqueue) + [request] && queuestat == old(queuestat) + 1
      ensures !ok ==> unchanged(this)
    {
      TwoSteps(State(), WorkerPool.Append(0, request), Post(0));
      if |workqueue| > maxRequests { return false; }
      workqueue := workqueue + [request];
      accepted := accepted + [request];
      queuestat := queuestat + 1;
      return true;
    }

    /** One pass of a worker's loop, with process() left out.  It blocks at neither semaphore. */
    method RunOnce() returns (request: int, con: int)
      requires 0 < queuestat <= |workqueue|
      requires conns.reserve == |conns.connList| && NONE !in conns.connList
      modifies this, conns
      ensures State() == Exec(old(State()), PassSteps())
      ensures [request] + workqueue == old(workqueue) && conns.reserve == |conns.connList|
      ensures queuestat == old(queuestat) - 1 && conns.freeConn == old(conns.freeConn) && conns.curConn == old(conns.curConn)
      ensures conns.connList == if |old(conns.connList)| == 0 then [] else old(conns.connList)[1..] + [con]
      ensures con == if |old(conns.connList)| == 0 then NONE else old(conns.connList)[0]
    {
      hide Exec, PassSteps;
      ghost var s := State();
      queuestat := queuestat - 1;
      request := workqueue[0];
      workqueue := workqueue[1..];
      taken := taken + [request];
      con := conns.GetConnection();
      assert |s.free| > 0 ==> s.free[0] == con && conns.connList == s.free[1..];
      var released := conns.ReleaseConnection(con);
      PassIs(s);
      assert conns.connList == if |s.free| == 0 then s.free else s.free[1..] + [s.free[0]];
    }
  }

  lemma TwoSteps(s: Pool, t: Step, u: Step)
    requires |s.held| == |s.pcs|
    ensures Exec(s, [t, u]) == Act(Act(s, t), u)
  {
    hide Act;
    assert [t, u][1..] == [u];
    assert Exec(s, [t, u]) == Exec(Act(s, t), [u]);
    assert [u][1..] == [];
  }

  /** After a pass the request is gone and the connection is back, at the end of the list. */
  lemma PassIs(s: Pool)
    requires s.pcs == [Idle] && s.held == [NONE] && s.sem > 0 && |s.queue| > 0 && s.reserve == |s.free|
    ensures Exec(s, PassSteps()) ==
      s.(sem := s.sem - 1, queue := s.queue[1..], taken := s.taken + [s.queue[0]],
         free := if |s.free| == 0 then s.free else s.free[1..] + [s.free[0]])
  {
    hide Exec;
    var e7 := [Release(0)] + [];
    var e6 := [GiveBack(0)] + e7;
    var e5 := [Grab(0)] + e6;
    var e4 := [Reserve(0)] + e5;
    var e3 := [Look(0)] + e4;
    var e2 := [Take(0)] + e3;
    var r := s.(sem := s.sem - 1, queue := s.queue[1..], taken := s.taken + [s.queue[0]], pcs := [HasJob]);
    Chain(s, Wake(0), e2);
    Chain(Act(s, Wake(0)), Take(0), e3);
    assert Act(Act(s, Wake(0)), Take(0)) == r;
    PassEnds(r);
  }

  /** GetConnection as its three steps. */
  function Got(s: Pool): Pool
    requires s.reserve == |s.free|
  {
    if |s.free| == 0 then s.(pcs := [NoConn])
    else s.(pcs := [Working], held := [s.free[0]], free := s.free[1..], reserve := s.reserve - 1,
            freeConn := s.freeConn - 1, curConn := s.curConn + 1)
  }

  lemma Get(s: Pool, rest: seq<Step>)
    requires s.pcs == [HasJob] && s.held == [NONE] && s.reserve == |s.free|
    ensures Exec(s, [Look(0)] + ([Reserve(0)] + ([Grab(0)] + rest))) == Exec(Got(s), rest)
  {
    hide Exec;
    var s1 := s.(pcs := [if |s.free| == 0 then NoConn else Wanting]);
    var s2 := if |s.free| == 0 then s1 else s1.(pcs := [Granted], reserve := s.reserve - 1);
    assert DoLook(s, 0) == s1 && DoReserve(s1, 0) == s2 && DoGrab(s2, 0) == Got(s);
    Chain(s, Look(0), [Reserve(0)] + ([Grab(0)] + rest));
    Chain(s1, Reserve(0), [Grab(0)] + rest);
    Chain(s2, Grab(0), rest);
  }

  lemma Give(s: Pool)
    requires |s.held| == 1 && (s.pcs == [Working] || s.pcs == [NoConn])
    ensures Exec(s, [GiveBack(0)] + ([Release(0)] + [])) ==
      if s.pcs == [NoConn] then s.(pcs := [Idle])
      else s.(pcs := [Idle], held := [NONE], free := s.free + [s.held[0]], reserve := s.reserve + 1,
              freeConn := s.freeConn + 1, curConn := s.curConn - 1)
  {
    hide Exec;
    var s1 := Act(s, GiveBack(0));
    Chain(s, GiveBack(0), [Release(0)] + []);
    Chain(s1, Release(0), []);
    Stops(Act(s1, Release(0)));
    assert s.pcs == [NoConn] ==> s1 == s.(pcs := [Idle]);
    assert s.pcs == [Working] ==> s1.pcs == [Posting] && s1.held == [NONE];
  }

  lemma PassEnds(s: Pool)
    requires s.pcs == [HasJob] && s.held == [NONE] && s.reserve == |s.free|
    ensures Exec(s, [Look(0)] + ([Reserve(0)] + ([Grab(0)] + ([GiveBack(0)] + ([Release(0)] + []))))) ==
      s.(pcs := [Idle], free := if |s.free| == 0 then s.free else s.free[1..] + [s.free[0]])
  {
    hide Exec;
    Get(s, [GiveBack(0)] + ([Release(0)] + []));
    Give(Got(s));
  }
}
