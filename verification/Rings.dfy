/** Two ring buffers: the observation queue and the event history. */
module Rings {

  /** The position x steps into a ring of n slots, once around at most. */
  function Wrap(x: nat, n: nat): nat
    requires x < 2 * n
  {
    if x < n then x else x - n
  }

  lemma WrapIsMod(x: nat, n: nat)
    requires x < 2 * n
    ensures x % n == Wrap(x, n)
  {
    if x >= n {
      assert x == 1 * n + (x - n);
    }
  }

  /** The elements of a ring from its head on. */
  function Ring<E>(slots: seq<E>, head: nat, count: nat): (r: seq<E>)
    requires head < |slots| && count <= |slots|
    ensures |r| == count && forall i :: 0 <= i < count ==> r[i] == slots[Wrap(head + i, |slots|)]
  {
    seq(count, i requires 0 <= i < count => slots[Wrap(head + i, |slots|)])
  }

  lemma RingPop<E>(slots: seq<E>, head: nat, count: nat, blank: E)
    requires head < |slots| && 0 < count < |slots|
    ensures Ring(slots[head := blank], Wrap(head + 1, |slots|), count - 1) == Ring(slots, head, count)[1..]
    ensures Ring(slots, head, count)[0] == slots[head]
  {
    var popped := Ring(slots[head := blank], Wrap(head + 1, |slots|), count - 1);
    forall i | 0 <= i < count - 1 ensures popped[i] == Ring(slots, head, count)[i + 1] {
      assert Wrap(Wrap(head + 1, |slots|) + i, |slots|) == Wrap(head + i + 1, |slots|) != head;
    }
  }

  lemma RingPush<E>(slots: seq<E>, head: nat, count: nat, e: E)
    requires head < |slots| && count < |slots|
    ensures Ring(slots[Wrap(head + count, |slots|) := e], head, count + 1) == Ring(slots, head, count) + [e]
  {
  }

  lemma RingSkip<E>(slots: seq<E>, head: nat, count: nat)
    requires head < |slots| && 0 < count <= |slots|
    ensures Ring(slots, Wrap(head + 1, |slots|), count - 1) == Ring(slots, head, count)[1..]
  {
    var skipped := Ring(slots, Wrap(head + 1, |slots|), count - 1);
    forall i | 0 <= i < count - 1 ensures skipped[i] == Ring(slots, head, count)[i + 1] {
      assert Wrap(Wrap(head + 1, |slots|) + i, |slots|) == Wrap(head + i + 1, |slots|);
    }
  }

  datatype DropPolicy = Block | Drop | Oldest

  /** `EventQueue`, used by one goroutine at a time. One slot always stays free. */
  class EventQueue<E> {
    const blank: E
    const policy: DropPolicy
    const events: array<E>
    var head: nat
    var tail: nat
    var count: nat
    var dropped: nat
    var closed: bool
    /** Everything ever accepted, and how much of it is out again: delivered, or pushed out by newer events. */
    ghost var accepted: seq<E>
    ghost var gone: nat
    ghost var delivered: nat
    ghost var evicted: nat

    ghost predicate Shape()
      reads this, events
    {
      && events.Length >= 2 && head < events.Length && tail < events.Length && count < events.Length
      && tail == Wrap(head + count, events.Length)
    }

    /** What was accepted and is not out is queued, in order. */
    ghost predicate Ordered()
      requires Shape()
      reads this, events
    {
      |accepted| == gone + count && accepted[gone..] == Queued()
    }

    ghost predicate Valid()
      reads this, events
    {
      Shape() && Ordered() && gone == delivered + evicted
    }

    ghost function Queued(): (q: seq<E>)
      requires Shape()
      reads this, events
      ensures |q| == count
    {
      Ring(events[..], head, count)
    }

    constructor (capacity: int, policy: DropPolicy, blank: E)
      requires capacity != 1
      ensures Valid() && fresh(events) && events.Length == (if capacity <= 0 then 10000 else capacity)
      ensures this.policy == policy && this.blank == blank && accepted == [] && dropped == 0 && !closed
    {
      this.policy, this.blank := policy, blank;
      events := new E[if capacity <= 0 then 10000 else capacity](_ => blank);
      head, tail, count, dropped, closed := 0, 0, 0, 0, false;
      accepted, gone, delivered, evicted := [], 0, 0, 0;
    }

    /** The counter is the distance from head to tail around the ring. */
    lemma CountIsDistance()
      requires Shape()
      ensures count == (tail - head) % events.Length
    {
      if tail < head {
        assert tail - head == -1 * events.Length + count;
      }
    }

    /** Takes the oldest event out. */
    method DequeueOne() returns (event: E, ok: bool)
      requires Shape() && Ordered()
      modifies this`head, this`count, this`gone, events
      ensures Shape() && Ordered() && (ok <==> old(count) > 0)
      ensures !ok ==> event == blank && Queued() == old(Queued()) && gone == old(gone)
      ensures ok ==> old(Queued()) == [event] + Queued() && gone == old(gone) + 1
    {
      if head == tail {
        return blank, false;
      }
      event, ok := events[head], true;
      ghost var slots, queued := events[..], Queued();
      RingPop(slots, head, count, blank);
      WrapIsMod(head + 1, events.Length);
      events[head] := blank;
      assert events[..] == slots[head := blank];
      head := (head + 1) % events.Length;
      count := count - 1;
      gone := gone + 1;
      hide Ring;
      assert queued == [event] + Queued();
      assert accepted[gone - 1..][1..] == accepted[gone..];
    }

    /** Puts an event behind the last one of a ring that is not full. */
    method Append(event: E)
      requires Shape() && Ordered() && count < events.Length - 1
      modifies this`tail, this`count, this`accepted, events
      ensures Shape() && Ordered() && accepted == old(accepted) + [event] && Queued() == old(Queued()) + [event]
    {
      ghost var slots := events[..];
      RingPush(slots, head, count, event);
      WrapIsMod(tail + 1, events.Length);
      events[tail] := event;
      assert events[..] == slots[tail := event];
      tail := (tail + 1) % events.Length;
      count := count + 1;
      accepted := accepted + [event];
      hide Ring;
      assert accepted[gone..] == old(accepted)[gone..] + [event];
    }

    /** Adds an event, or reports that it was refused; on a full ring the policy decides. */
    method Enqueue(event: E) returns (ok: bool)
      requires Valid()
      modifies this`head, this`tail, this`count, this`dropped, this`accepted, this`gone, this`evicted, events
      ensures Valid() && (ok <==> !closed && (old(count) < events.Length - 1 || policy == Oldest))
      ensures ok ==> accepted == old(accepted) + [event]
      ensures ok ==> Queued() == (if old(count) < events.Length - 1 then old(Queued())
                                  else old(Queued())[1..]) + [event]
      ensures ok ==> evicted - old(evicted) == dropped - old(dropped) == if old(count) < events.Length - 1 then 0 else 1
      ensures !ok ==> Queued() == old(Queued()) && accepted == old(accepted) && evicted == old(evicted)
      ensures !ok ==> dropped - old(dropped) == if !closed && policy == Drop then 1 else 0
    {
      if closed {
        return false;
      }
      WrapIsMod(tail + 1, events.Length);
      var nextTail := (tail + 1) % events.Length;
      hide Ring;
      if nextTail == head {
        match policy
        case Block =>
          return false;
        case Drop =>
          dropped := dropped + 1;
          return false;
        case Oldest =>
          dropped := dropped + 1;
          var oldest, found := DequeueOne();
          evicted := evicted + 1;
      }
      Append(event);
      ok := true;
    }

    /** Nothing is accepted any more; what is queued stays. */
    method Close()
      requires Valid()
      modifies this`closed
      ensures Valid() && closed && Queued() == old(Queued())
    {
      closed := true;
    }

    /** Everything queued, oldest first. */
    method DequeueAll() returns (all: seq<E>)
      requires Valid()
      modifies this`head, this`count, this`gone, this`delivered, events
      ensures Valid() && all == old(Queued()) && Queued() == [] && delivered == old(delivered) + |all|
    {
      all := [];
      hide Ring;
      ghost var queued := Queued();
      while true
        invariant Valid() && queued == all + Queued() && delivered == old(delivered) + |all|
        decreases count
      {
        var event, ok := DequeueOne();
        if !ok {
          break;
        }
        Shift(all, event, Queued());
        all := all + [event];
        delivered := delivered + 1;
      }
      assert Queued() == [];
      assert all + [] == all;
    }
  }

  lemma Shift<E>(a: seq<E>, e: E, b: seq<E>)
    ensures a + ([e] + b) == (a + [e]) + b
  {
  }

  /** The events of a history that fit into the buffer: the last ones. */
  function Last<E>(all: seq<E>, n: nat): seq<E> {
    if |all| <= n then all else all[|all| - n..]
  }

  lemma LastGrows<E>(all: seq<E>, n: nat, e: E)
    requires n > 0
    ensures Last(all + [e], n) == (if |all| >= n then Last(all, n)[1..] else Last(all, n)) + [e]
  {
  }

  /** The history buffer of `EventEngine`. */
  class EventEngine<E> {
    const maxBuf: nat
    const buffer: array<E>
    var bufferHead: nat
    var bufferLen: nat
    var seen: nat
    var dropped: nat
    ghost var emitted: seq<E>

    ghost predicate Valid()
      reads this, buffer
    {
      && maxBuf == buffer.Length > 0 && bufferHead < maxBuf && bufferLen <= maxBuf
      && Ring(buffer[..], bufferHead, bufferLen) == Last(emitted, maxBuf)
      && seen == |emitted| && dropped == |emitted| - bufferLen
    }

    constructor (size: int, blank: E)
      ensures Valid() && fresh(buffer) && emitted == [] && maxBuf == if size <= 0 then 1024 else size
    {
      maxBuf := if size <= 0 then 1024 else size;
      buffer := new E[if size <= 0 then 1024 else size](_ => blank);
      bufferHead, bufferLen, seen, dropped, emitted := 0, 0, 0, 0, [];
    }

    ghost predicate Shape()
      reads this, buffer
    {
      maxBuf == buffer.Length > 0 && bufferHead < maxBuf && bufferLen <= maxBuf
    }

    ghost function History(): seq<E>
      requires Shape()
      reads this, buffer
    {
      Ring(buffer[..], bufferHead, bufferLen)
    }

    /** A full buffer loses its oldest event. */
    method MakeRoom()
      requires Shape()
      modifies this`bufferHead, this`bufferLen, this`dropped
      ensures Shape() && bufferLen < maxBuf
      ensures History() == if old(bufferLen) == maxBuf then old(History())[1..] else old(History())
      ensures dropped - old(dropped) == old(bufferLen) - bufferLen == if old(bufferLen) == maxBuf then 1 else 0
    {
      if bufferLen == maxBuf {
        dropped := dropped + 1;
        RingSkip(buffer[..], bufferHead, bufferLen);
        WrapIsMod(bufferHead + 1, maxBuf);
        bufferHead := (bufferHead + 1) % maxBuf;
        bufferLen := bufferLen - 1;
      }
    }

    method Append(event: E)
      requires Shape() && bufferLen < maxBuf
      modifies this`bufferLen, buffer
      ensures Shape() && bufferLen == old(bufferLen) + 1 && History() == old(History()) + [event]
    {
      WrapIsMod(bufferHead + bufferLen, maxBuf);
      var index := (bufferHead + bufferLen) % maxBuf;
      ghost var slots := buffer[..];
      RingPush(slots, bufferHead, bufferLen, event);
      buffer[index] := event;
      assert buffer[..] == slots[index := event];
      bufferLen := bufferLen + 1;
    }

    /** The part of `Emit` that keeps the history. */
    method Emit(event: E)
      requires Valid()
      modifies this, buffer
      ensures Valid() && emitted == old(emitted) + [event]
    {
      LastGrows(emitted, maxBuf, event);
      assert |History()| == bufferLen == |Last(emitted, maxBuf)|;
      seen := seen + 1;
      hide Ring, Last;
      MakeRoom();
      Append(event);
      emitted := emitted + [event];
    }

    /** The last events emitted, as many as the buffer holds, in order. */
    method Snapshot() returns (out: seq<E>)
      requires Valid()
      ensures out == Last(emitted, maxBuf)
      ensures |out| == (if |emitted| <= maxBuf then |emitted| else maxBuf) && out == emitted[|emitted| - |out|..]
    {
      out := [];
      for i := 0 to bufferLen
        invariant out == Ring(buffer[..], bufferHead, bufferLen)[..i]
      {
        WrapIsMod(bufferHead + i, maxBuf);
        out := out + [buffer[(bufferHead + i) % maxBuf]];
      }
    }
  }
}
