/** The blocking queue: a circular array under a mutex and a condition variable. */
module BlockQueue {

  // ---- the circular array ---------------------------------------------------------------

  /** The fields of the queue; front and back are the slots last popped and last pushed,
      -1 before the first. */
  datatype Ring<T> = Ring(slots: seq<T>, size: int, front: int, back: int) {
    predicate Valid()
    {
      && 0 < |slots| && 0 <= size <= |slots| && -1 <= front < |slots| && -1 <= back < |slots|
      && back == Wrap(front + size)
    }

    function Wrap(i: int): int { if i < |slots| then i else i - |slots| }

    /** What is queued, first in first. */
    function Contents(): (c: seq<T>)
      requires Valid()
      ensures |c| == size
    {
      seq(size, k requires 0 <= k < size => slots[Wrap(front + 1 + k)])
    }

    predicate Full() { size >= |slots| }

    function Push(x: T): Ring<T>
      requires Valid()
    {
      if Full() then this
      else
        var b := (back + 1) % |slots|;
        this.(slots := slots[b := x], size := size + 1, back := b)
    }

    function Pop(): Ring<T>
      requires Valid() && size > 0
    {
      this.(front := (front + 1) % |slots|, size := size - 1)
    }

    /** The item Pop hands out. */
    function Head(): T
      requires Valid() && size > 0
    {
      slots[(front + 1) % |slots|]
    }

    function Clear(): Ring<T> { this.(size := 0, front := -1, back := -1) }

    lemma StepIsMod(i: int)
      requires 0 < |slots| && -1 <= i < |slots|
      ensures (i + 1) % |slots| == Wrap(i + 1)
    {
    }

    /** From the start at -1, after any pushes, pops and clears, the two indices agree
        with the size modulo the capacity. */
    lemma IndicesAgree()
      requires Valid()
      ensures (front + size - back) % |slots| == 0
    {
      assert front + size - back == 0 || front + size - back == |slots|;
    }

    lemma PushAppends(x: T)
      requires Valid()
      ensures Push(x).Valid() && |Push(x).slots| == |slots|
      ensures Push(x).Contents() == if Full() then Contents() else Contents() + [x]
    {
      StepIsMod(back);
      if !Full() {
        var p := Push(x);
        assert p.back == Wrap(front + 1 + size);
        forall k | 0 <= k < size ensures p.Contents()[k] == Contents()[k] {
          var i := Wrap(front + 1 + k);
          assert i != p.back && p.Wrap(p.front + 1 + k) == i;
          assert p.slots[i] == slots[i];
        }
        assert p.Contents()[size] == x by { assert p.Wrap(p.front + 1 + size) == p.back; }
        assert p.Contents() == Contents() + [x];
      }
    }

    lemma PopTakesHead()
      requires Valid() && size > 0
      ensures Pop().Valid() && |Pop().slots| == |slots|
      ensures Contents() == [Head()] + Pop().Contents()
    {
      StepIsMod(front);
      var p := Pop();
      forall k | 0 <= k < size - 1 ensures p.Contents()[k] == Contents()[k + 1] {
        assert p.Wrap(p.front + 1 + k) == Wrap(front + 1 + (k + 1));
      }
      assert Contents() == [Head()] + p.Contents();
    }
  }

  class BlockQueue<T(0)> {
    const maxSize: int
    const arr: array<T>
    var size: int
    var front: int
    var back: int

    ghost function State(): Ring<T>
      reads this, arr
    {
      Ring(arr[..], size, front, back)
    }

    ghost predicate Valid()
      reads this, arr
    {
      arr.Length == maxSize && State().Valid()
    }

    constructor (capacity: int)
      requires capacity > 0
      ensures Valid() && maxSize == capacity && State().Contents() == [] && fresh(arr)
    {
      maxSize := capacity;
      arr := new T[capacity];
      size, front, back := 0, -1, -1;
    }

    method Clear()
      requires Valid()
      modifies this
      ensures Valid() && State() == old(State()).Clear() && State().Contents() == []
    {
      size, front, back := 0, -1, -1;
    }

    method Full() returns (full: bool)
      requires Valid()
      ensures full <==> |State().Contents()| == maxSize
    {
      full := size >= maxSize;
    }

    /** The last item pushed. */
    method Back() returns (ok: bool, value: T)
      requires Valid()
      ensures ok <==> State().Contents() != []
      ensures ok ==> value == State().Contents()[|State().Contents()| - 1]
    {
      if size == 0 {
        value := *;
        return false, value;
      }
      return true, arr[back];
    }

    method Push(item: T) returns (ok: bool)
      requires Valid()
      modifies this, arr
      ensures Valid() && State() == old(State()).Push(item)
      ensures ok <==> |old(State().Contents())| < maxSize
      ensures State().Contents() == if ok then old(State().Contents()) + [item] else old(State().Contents())
    {
      old(State()).PushAppends(item);
      if size >= maxSize { return false; }
      back := (back + 1) % maxSize;
      State().StepIsMod(old(back));
      arr[back] := item;
      size := size + 1;
      return true;
    }

    /** The part of pop behind its wait loop. */
    method Pop() returns (item: T)
      requires Valid() && State().Contents() != []
      modifies this
      ensures Valid() && State() == old(State()).Pop()
      ensures old(State().Contents()) == [item] + State().Contents()
    {
      old(State()).PopTakesHead();
      State().StepIsMod(front);
      front := (front + 1) % maxSize;
      item := arr[front];
      size := size - 1;
    }
  }

  // ---- the monitor: producers and consumers in any order ---------------------------------

  /** A consumer outside pop, asleep on the condition, or woken and about to look again. */
  datatype Consumer = Outside | Waiting | Woken

  datatype Monitor<T> = Monitor(
    ring: Ring<T>,
    consumers: seq<Consumer>,
    accepted: seq<T>,       // pushed since the last clear, in order
    popped: seq<T>          // popped since the last clear, in order
  )

  /** One turn inside the mutex, or a wake-up the system sends on its own. */
  datatype Turn<T> =
    | Push(item: T)
    | Enter(c: nat)         // a call of pop
    | Spurious(c: nat)
    | Resume(c: nat)        // behind wait, round the while loop
    | WaitFails(c: nat)     // wait reports an error: pop gives up
    | Clear

  function Broadcast(cs: seq<Consumer>): seq<Consumer>
  {
    seq(|cs|, i requires 0 <= i < |cs| => if cs[i] == Waiting then Woken else cs[i])
  }

  /** Takes an item or goes to sleep. */
  function TryPop<T>(m: Monitor<T>, c: nat): Monitor<T>
    requires m.ring.Valid() && c < |m.consumers|
  {
    if m.ring.size <= 0 then m.(consumers := m.consumers[c := Waiting])
    else m.(ring := m.ring.Pop(), consumers := m.consumers[c := Outside], popped := m.popped + [m.ring.Head()])
  }

  function Take<T>(m: Monitor<T>, t: Turn<T>): Monitor<T>
    requires m.ring.Valid()
  {
    match t
    case Push(item) =>
      m.(ring := m.ring.Push(item), consumers := Broadcast(m.consumers),
         accepted := if m.ring.Full() then m.accepted else m.accepted + [item])
    case Enter(c) => if c < |m.consumers| && m.consumers[c] == Outside then TryPop(m, c) else m
    case Resume(c) => if c < |m.consumers| && m.consumers[c] == Woken then TryPop(m, c) else m
    case Spurious(c) =>
      if c < |m.consumers| && m.consumers[c] == Waiting then m.(consumers := m.consumers[c := Woken]) else m
    case WaitFails(c) =>
      if c < |m.consumers| && m.consumers[c] != Outside then m.(consumers := m.consumers[c := Outside]) else m
    case Clear => m.(ring := m.ring.Clear(), accepted := [], popped := [])
  }

  /** Bounded, first in first out, and nobody asleep over a queue that is not empty. */
  predicate Good<T(==)>(m: Monitor<T>, capacity: nat)
  {
    && m.ring.Valid() && |m.ring.slots| == capacity
    && m.accepted == m.popped + m.ring.Contents()
    && (m.ring.size > 0 ==> Waiting !in m.consumers)
  }

  lemma TurnKeepsGood<T>(m: Monitor<T>, t: Turn<T>, capacity: nat)
    requires Good(m, capacity)
    ensures Good(Take(m, t), capacity)
  {
    match t
    case Push(item) =>
      m.ring.PushAppends(item);
      assert m.accepted + [item] == m.popped + (m.ring.Contents() + [item]);
    case Enter(c) => if c < |m.consumers| { TryPopKeepsGood(m, c, capacity); }
    case Resume(c) => if c < |m.consumers| { TryPopKeepsGood(m, c, capacity); }
    case Spurious(c) =>
    case WaitFails(c) =>
    case Clear => assert m.ring.Clear().Contents() == [];
  }

  lemma TryPopKeepsGood<T>(m: Monitor<T>, c: nat, capacity: nat)
    requires Good(m, capacity) && c < |m.consumers|
    ensures Good(TryPop(m, c), capacity)
  {
    if m.ring.size > 0 {
      m.ring.PopTakesHead();
      var h, r := m.ring.Head(), m.ring.Pop().Contents();
      assert m.popped + ([h] + r) == m.popped + [h] + r;
    }
  }

  function Play<T>(m: Monitor<T>, ts: seq<Turn<T>>, capacity: nat): (r: Monitor<T>)
    requires Good(m, capacity)
    ensures Good(r, capacity)
    decreases |ts|
  {
    if |ts| == 0 then m
    else
      TurnKeepsGood(m, ts[0], capacity);
      Play(Take(m, ts[0]), ts[1..], capacity)
  }

  /** A consumer leaves pop exactly when its wait fails or when, woken, it finds an item;
      then it has the oldest one. */
  lemma ConsumerLeaves<T>(m: Monitor<T>, t: Turn<T>, c: nat, capacity: nat)
    requires Good(m, capacity) && c < |m.consumers| && m.consumers[c] != Outside
    ensures |Take(m, t).consumers| == |m.consumers|
    ensures Take(m, t).consumers[c] == Outside
            <==> t == WaitFails(c) || (t == Resume(c) && m.consumers[c] == Woken && m.ring.Contents() != [])
    ensures t == Resume(c) && m.consumers[c] == Woken && m.ring.Contents() != [] ==>
              Take(m, t).popped == m.popped + [m.ring.Contents()[0]]
    ensures t == Resume(c) && m.consumers[c] == Woken && m.ring.Contents() == [] ==> Take(m, t).consumers[c] == Waiting
  {
    if m.ring.size > 0 { m.ring.PopTakesHead(); }
  }

  /** A push wakes every sleeper, and nothing but a push or the system wakes one. */
  lemma PushWakes<T>(m: Monitor<T>, t: Turn<T>, c: nat, capacity: nat)
    requires Good(m, capacity) && c < |m.consumers| && m.consumers[c] == Waiting
    ensures Take(m, t).consumers[c] == Woken <==> t.Push? || t == Spurious(c)
  {
  }

  /** One that calls pop gets the oldest item at once, or goes to sleep on an empty queue. */
  lemma ConsumerEnters<T>(m: Monitor<T>, c: nat, capacity: nat)
    requires Good(m, capacity) && c < |m.consumers| && m.consumers[c] == Outside
    ensures var r := Take(m, Enter(c));
            if m.ring.Contents() == [] then r == m.(consumers := m.consumers[c := Waiting])
            else r.consumers == m.consumers && r.popped == m.popped + [m.ring.Contents()[0]]
  {
    if m.ring.size > 0 { m.ring.PopTakesHead(); }
    assert m.consumers[c := Outside] == m.consumers;
  }

  /** The items pushed while there was room, since the last clear. */
  function Kept<T>(m: Monitor<T>, ts: seq<Turn<T>>, kept: seq<T>, capacity: nat): seq<T>
    requires Good(m, capacity)
    decreases |ts|
  {
    if |ts| == 0 then kept
    else
      TurnKeepsGood(m, ts[0], capacity);
      Kept(Take(m, ts[0]), ts[1..],
           if ts[0].Clear? then [] else if ts[0].Push? && |m.ring.Contents()| < capacity then kept + [ts[0].item] else kept,
           capacity)
  }

  lemma {:induction false} AcceptedLaw<T>(m: Monitor<T>, ts: seq<Turn<T>>, capacity: nat)
    requires Good(m, capacity)
    ensures Play(m, ts, capacity).accepted == Kept(m, ts, m.accepted, capacity)
    decreases |ts|
  {
    if |ts| > 0 {
      TurnKeepsGood(m, ts[0], capacity);
      AcceptedLaw(Take(m, ts[0]), ts[1..], capacity);
    }
  }

  /** Under every interleaving from an empty queue. */
  lemma EveryInterleaving<T>(slots: seq<T>, consumers: nat, ts: seq<Turn<T>>)
    requires |slots| > 0
    ensures var m := Monitor(Ring(slots, 0, -1, -1), seq(consumers, _ => Outside), [], []);
            && Good(m, |slots|)
            && var r := Play(m, ts, |slots|);
            && r.popped + r.ring.Contents() == r.accepted == Kept(m, ts, [], |slots|) && |r.ring.Contents()| <= |slots|
            && (r.ring.front + r.ring.size - r.ring.back) % |slots| == 0
            && (r.ring.size > 0 ==> Waiting !in r.consumers)
  {
    var m := Monitor(Ring(slots, 0, -1, -1), seq(consumers, _ => Outside), [], []);
    assert m.ring.Contents() == [];
    var r := Play(m, ts, |slots|);
    r.ring.IndicesAgree();
    AcceptedLaw(m, ts, |slots|);
  }
}
