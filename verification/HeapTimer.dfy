/** The timer container: a priority queue of timer objects whose keys live in the
    objects, so that the event loop can change a key while the timer is queued. */
module HeapTimer {

  class UtilTimer {
    var expire: int
    const userData: nat   // the descriptor of the connection it watches

    constructor (fd: nat, expire: int)
      ensures userData == fd && this.expire == expire
    {
      userData, this.expire := fd, expire;
    }
  }

  function Parent(i: int): int { (i - 1) / 2 }

  /** timer_cmp puts the timer that expires first on top. */
  ghost predicate Ordered(s: seq<UtilTimer>)
    reads s
  {
    forall i | 0 < i < |s| :: s[Parent(i)].expire <= s[i].expire
  }

  /** Ordered but for the edge above `k`. */
  ghost predicate Rising(s: seq<UtilTimer>, k: int)
    reads s
  {
    && 0 <= k < |s|
    && (forall i | 0 < i < |s| && i != k :: s[Parent(i)].expire <= s[i].expire)
    && (k > 0 ==> forall i | 0 < i < |s| && Parent(i) == k :: s[Parent(k)].expire <= s[i].expire)
  }

  /** Ordered but for the edges below `k`. */
  ghost predicate Sinking(s: seq<UtilTimer>, k: int)
    reads s
  {
    && 0 <= k
    && (forall i | 0 < i < |s| && Parent(i) != k :: s[Parent(i)].expire <= s[i].expire)
    && (0 < k < |s| ==> forall i | 0 < i < |s| && Parent(i) == k :: s[Parent(k)].expire <= s[i].expire)
  }

  function Swap(s: seq<UtilTimer>, i: int, j: int): (r: seq<UtilTimer>)
    requires 0 <= i < |s| && 0 <= j < |s|
    ensures multiset(r) == multiset(s) && |r| == |s|
  {
    s[i := s[j]][j := s[i]]
  }

  /** The top exchanged with the last place, and cut off. */
  function WithoutTop(s: seq<UtilTimer>): (r: seq<UtilTimer>)
    requires |s| > 0
    ensures |r| == |s| - 1 && multiset(r) == multiset(s) - multiset{s[0]}
    ensures forall i | 0 < i < |r| :: r[i] == s[i]
  {
    var t := Swap(s, 0, |s| - 1);
    assert t == t[..|s| - 1] + [s[0]];
    t[..|s| - 1]
  }

  lemma RiseStep(s: seq<UtilTimer>, k: int)
    requires Rising(s, k)
    ensures k == 0 || s[Parent(k)].expire <= s[k].expire ==> Ordered(s)
    ensures k > 0 && s[Parent(k)].expire > s[k].expire ==> Rising(Swap(s, Parent(k), k), Parent(k))
  {
  }

  function LesserChild(s: seq<UtilTimer>, k: nat): (c: nat)
    requires 2 * k + 1 < |s|
    reads s
    ensures c < |s| && Parent(c) == k && (forall i | 0 < i < |s| && Parent(i) == k :: s[c].expire <= s[i].expire)
  {
    if 2 * k + 2 < |s| && s[2 * k + 2].expire < s[2 * k + 1].expire then 2 * k + 2 else 2 * k + 1
  }

  lemma SinkStep(s: seq<UtilTimer>, k: nat)
    requires Sinking(s, k)
    ensures 2 * k + 1 >= |s| || s[k].expire <= s[LesserChild(s, k)].expire ==> Ordered(s)
    ensures 2 * k + 1 < |s| && s[k].expire > s[LesserChild(s, k)].expire ==>
              Sinking(Swap(s, k, LesserChild(s, k)), LesserChild(s, k))
  {
  }

  lemma TopRemoved(s: seq<UtilTimer>)
    requires Ordered(s) && |s| > 0
    ensures Sinking(WithoutTop(s), 0)
  {
    hide Swap, WithoutTop;
    var r := WithoutTop(s);
    forall i | 0 < i < |r| && Parent(i) != 0 ensures r[Parent(i)].expire <= r[i].expire {
      assert s[Parent(i)].expire <= s[i].expire;
    }
  }

  lemma {:induction false} TopIsLeast(s: seq<UtilTimer>, i: nat)
    requires Ordered(s) && i < |s|
    ensures s[0].expire <= s[i].expire
    decreases i
  {
    if i > 0 { TopIsLeast(s, Parent(i)); }
  }

  class HeapTimer {
    var pq: seq<UtilTimer>

    constructor ()
      ensures |pq| == 0
    {
      pq := [];
    }

    /** m_pq.push: the new timer rises while its parent expires later. */
    method Push(timer: UtilTimer)
      modifies this
      ensures multiset(pq) == multiset(old(pq)) + multiset{timer}
      ensures Ordered(old(pq)) ==> Ordered(pq)
    {
      hide Swap;
      ghost var ordered := Ordered(pq);
      var s := pq + [timer];
      var k := |s| - 1;
      while k > 0 && s[Parent(k)].expire > s[k].expire
        modifies {}
        invariant 0 <= k < |s|
        invariant multiset(s) == multiset(pq) + multiset{timer}
        invariant ordered ==> Rising(s, k)
      {
        if ordered { RiseStep(s, k); }
        s := Swap(s, Parent(k), k);
        k := Parent(k);
      }
      if ordered { RiseStep(s, k); }
      pq := s;
    }

    /** m_pq.pop: the last timer takes the top's place and sinks below the child that
        expires first.  Whatever the order was, exactly the top is removed. */
    method Pop()
      requires |pq| > 0
      modifies this
      ensures multiset(pq) == multiset(old(pq)) - multiset{old(pq)[0]} && |pq| == |old(pq)| - 1
      ensures Ordered(old(pq)) ==> Ordered(pq)
    {
      hide Ordered, Sinking, Swap, WithoutTop;
      ghost var ordered := Ordered(pq);
      var n := |pq| - 1;
      var s := WithoutTop(pq);
      if ordered { TopRemoved(pq); }
      var k := 0;
      while 2 * k + 1 < n && s[k].expire > s[LesserChild(s, k)].expire
        modifies {}
        invariant 0 <= k && |s| == n
        invariant multiset(s) == multiset(pq) - multiset{pq[0]}
        invariant ordered ==> Sinking(s, k)
        decreases n - k
      {
        var c := LesserChild(s, k);
        if ordered { SinkStep(s, k); }
        s := Swap(s, k, c);
        k := c;
      }
      if ordered { SinkStep(s, k); }
      pq := s;
    }

    method AddTimer(timer: UtilTimer)
      modifies this
      ensures multiset(pq) == multiset(old(pq)) + multiset{timer}
      ensures Ordered(old(pq)) ==> Ordered(pq)
    {
      Push(timer);
    }

    /** Drains the queue and pushes everything but `timer` back.  Nothing is asked of
        the order on entry: keys may have been changed under it.  On an empty queue
        the vector's reserve throws. */
    method DelTimer(timer: UtilTimer) returns (threw: bool)
      modifies this
      ensures threw <==> |old(pq)| == 0
      ensures multiset(pq) == multiset(old(pq))[timer := 0]
      ensures Ordered(pq)
    {
      if |pq| == 0 { return true; }
      var vec: seq<UtilTimer> := [];
      ghost var all := multiset(pq);
      while |pq| > 0
        invariant (multiset(pq) + multiset(vec))[timer := 0] == all[timer := 0]
        invariant timer !in vec
        decreases |pq|
      {
        ghost var q := pq;
        if pq[0] != timer { vec := vec + [pq[0]]; }
        Pop();
        assert q[0] in multiset(q);
      }
      assert multiset(vec) == all[timer := 0] by { assert multiset(vec)[timer] == 0; assert |multiset(pq)| == 0; }
      var i := 0;
      while i < |vec|
        invariant 0 <= i <= |vec| && Ordered(pq)
        invariant multiset(pq) == multiset(vec[..i])
      {
        Push(vec[i]);
        assert vec[..i + 1] == vec[..i] + [vec[i]];
        i := i + 1;
      }
      assert vec[..i] == vec;
      return false;
    }

    /** After the caller has changed the key of a queued timer: the same timers, each
        once more what it was, and the order is right again. */
    method AdjustTimer(timer: UtilTimer) returns (threw: bool)
      modifies this
      ensures threw <==> |old(pq)| == 0
      ensures !threw ==> Ordered(pq) && multiset(pq) == multiset(old(pq))[timer := 1]
    {
      threw := DelTimer(timer);
      if !threw { AddTimer(timer); }
    }

    /** Removes and reports the expired timers, the one that expired first in front. */
    method Tick(cur: int) returns (fired: seq<UtilTimer>)
      modifies this
      ensures multiset(fired) + multiset(pq) == multiset(old(pq))
      ensures AllExpired(fired, cur)
      ensures Ordered(old(pq)) ==>
                && Ordered(pq) && (forall t | t in pq :: cur < t.expire)
                && (forall i, j | 0 <= i < j < |fired| :: fired[i].expire <= fired[j].expire)
    {
      hide Ordered, FiredBefore, AllExpired;
      ghost var ordered := Ordered(pq);
      fired := [];
      NothingFired(pq, cur);
      while |pq| > 0 && pq[0].expire <= cur
        invariant multiset(fired) + multiset(pq) == multiset(old(pq))
        invariant AllExpired(fired, cur)
        invariant ordered ==> Ordered(pq) && FiredBefore(fired, pq)
        decreases |pq|
      {
        var tmp := pq[0];
        ghost var q := pq;
        if ordered { TopFiresNext(fired, q); }
        OneMoreExpired(fired, tmp, cur);
        Pop();
        Moved(fired, q, pq);
        fired := fired + [tmp];
        if ordered { SubsetFires(fired, q, pq); }
      }
      if ordered { AllFired(fired, pq, cur); }
    }
  }

  /** What has fired is in order and before everything still queued. */
  ghost predicate FiredBefore(fired: seq<UtilTimer>, s: seq<UtilTimer>)
    reads fired, s
  {
    && (forall i, j | 0 <= i < j < |fired| :: fired[i].expire <= fired[j].expire)
    && (forall t, u | t in fired && u in s :: t.expire <= u.expire)
  }

  lemma TopFiresNext(fired: seq<UtilTimer>, s: seq<UtilTimer>)
    requires FiredBefore(fired, s) && Ordered(s) && |s| > 0
    ensures FiredBefore(fired + [s[0]], s)
  {
    forall u | u in s ensures s[0].expire <= u.expire {
      var i :| 0 <= i < |s| && s[i] == u;
      TopIsLeast(s, i);
    }
    assert s[0] in s;
  }

  lemma SubsetFires(fired: seq<UtilTimer>, s: seq<UtilTimer>, r: seq<UtilTimer>)
    requires FiredBefore(fired, s) && multiset(r) <= multiset(s)
    ensures FiredBefore(fired, r)
  {
    forall u | u in r ensures u in s {
      assert u in multiset(r);
      assert u in multiset(s);
    }
  }

  ghost predicate AllExpired(fired: seq<UtilTimer>, cur: int)
    reads fired
  {
    forall t | t in fired :: t.expire <= cur
  }

  lemma NothingFired(s: seq<UtilTimer>, cur: int)
    ensures FiredBefore([], s) && AllExpired([], cur)
  {
  }

  lemma Moved(fired: seq<UtilTimer>, q: seq<UtilTimer>, r: seq<UtilTimer>)
    requires |q| > 0 && multiset(r) == multiset(q) - multiset{q[0]}
    ensures multiset(fired + [q[0]]) + multiset(r) == multiset(fired) + multiset(q)
  {
    assert q[0] in multiset(q);
  }

  lemma OneMoreExpired(fired: seq<UtilTimer>, t: UtilTimer, cur: int)
    requires AllExpired(fired, cur) && t.expire <= cur
    ensures AllExpired(fired + [t], cur)
  {
  }

  lemma AllFired(fired: seq<UtilTimer>, s: seq<UtilTimer>, cur: int)
    requires FiredBefore(fired, s) && Ordered(s) && (|s| == 0 || s[0].expire > cur)
    ensures forall t | t in s :: cur < t.expire
    ensures forall i, j | 0 <= i < j < |fired| :: fired[i].expire <= fired[j].expire
  {
    forall t | t in s ensures cur < t.expire {
      var i :| 0 <= i < |s| && s[i] == t;
      TopIsLeast(s, i);
    }
  }
}
