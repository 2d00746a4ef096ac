/** Boost_Searcher/limonp/include/limonp/BoundedQueue.hpp: a ring buffer that is a queue of bounded length. */
module BoundedQueue {
  lemma NextIndex(i: nat, n: nat)
    requires i < n
    ensures (i + 1) % n == if i + 1 == n then 0 else i + 1
  {
  }

  /** Position `i` of a ring of `n`, counted on past its end. */
  function Wrapped(i: nat, n: nat): nat
    requires i < 2 * n
  {
    if i < n then i else i - n
  }

  /** `size` elements of a ring, from position `head` on. */
  function Ring<T>(buffer: seq<T>, head: nat, size: nat): (r: seq<T>)
    requires head < |buffer| && size <= |buffer|
    ensures |r| == size && forall k :: 0 <= k < size ==> r[k] == buffer[Wrapped(head + k, |buffer|)]
  {
    seq(size, k requires 0 <= k < size => buffer[Wrapped(head + k, |buffer|)])
  }

  lemma RingFirst<T>(buffer: seq<T>, head: nat, size: nat)
    requires head < |buffer| && 0 < size <= |buffer|
    ensures Ring(buffer, head, size) == [buffer[head]] + Ring(buffer, Wrapped(head + 1, |buffer|), size - 1)
  {
    hide Ring;
  }

  lemma RingLast<T>(buffer: seq<T>, head: nat, size: nat, t: T)
    requires head < |buffer| && size < |buffer|
    ensures var tail := Wrapped(head + size, |buffer|);
            Ring(buffer[tail := t], head, size + 1) == Ring(buffer, head, size) + [t]
  {
    hide Ring;
  }

  class BoundedQueue<T(0)> {
    var head: nat
    var tail: nat
    var size: nat
    const capacity: nat
    const circularBuffer: array<T>

    ghost predicate Valid()
      reads this
    {
      && 0 < capacity == circularBuffer.Length
      && head < capacity && tail < capacity && size <= capacity
      && tail == Wrapped(head + size, capacity)
    }

    /** The abstract value: the elements from the oldest to the newest. */
    ghost function Contents(): (s: seq<T>)
      reads this, circularBuffer
      requires Valid()
    {
      Ring(circularBuffer[..], head, size)
    }

    constructor (capacity: nat)
      requires capacity > 0
      ensures Valid() && fresh(circularBuffer)
      ensures this.capacity == capacity && Contents() == []
    {
      this.capacity := capacity;
      circularBuffer := new T[capacity];
      head, tail, size := 0, 0, 0;
    }

    method Clear()
      requires Valid()
      modifies this
      ensures Valid() && Contents() == []
    {
      head, tail, size := 0, 0, 0;
    }

    method Empty() returns (r: bool)
      requires Valid()
      ensures r <==> Contents() == []
    {
      r := size == 0;
    }

    method Full() returns (r: bool)
      requires Valid()
      ensures r <==> |Contents()| == capacity
    {
      r := capacity == size;
    }

    method Size() returns (n: nat)
      requires Valid()
      ensures n == |Contents()|
    {
      n := size;
    }

    method Push(t: T)
      requires Valid() && |Contents()| < capacity
      modifies this, circularBuffer
      ensures Valid() && Contents() == old(Contents()) + [t]
    {
      hide Ring;
      NextIndex(tail, capacity);
      RingLast(circularBuffer[..], head, size, t);
      circularBuffer[tail] := t;
      tail := (tail + 1) % capacity;
      size := size + 1;
    }

    method Pop() returns (t: T)
      requires Valid() && Contents() != []
      modifies this
      ensures Valid() && [t] + Contents() == old(Contents())
    {
      hide Ring;
      NextIndex(head, capacity);
      RingFirst(circularBuffer[..], head, size);
      var oldPos := head;
      head := (head + 1) % capacity;
      size := size - 1;
      t := circularBuffer[oldPos];
    }
  }
}
