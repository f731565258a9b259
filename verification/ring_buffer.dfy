/**
 * The bounded FIFO queue of the dispatcher: a fixed array of `capacity + 1`
 * optional slots with a `head` (next free slot) and a `tail` (oldest live
 * slot).  The extra slot lets `head == tail` mean "empty" and
 * `(head + 1) % size == tail` mean "full".  The lock that serialises each call
 * is not modelled: every method is one atomic step.
 */
module RingBuffers {
  import opened Wrappers

  class RingBuffer<T> {
    /** Number of slots: the capacity plus the sentinel slot. */
    const size: nat
    const buffer: array<Option<T>>
    var head: nat
    var tail: nat

    /** The capacity the buffer was built with. */
    ghost const Cap: nat
    /** The live items, oldest first. */
    ghost var Contents: seq<T>

    /** How far slot `j` lies after `tail`, going round the ring. */
    ghost function Offset(j: nat): nat
      reads this
      requires tail < size
    {
      if j >= tail then j - tail else j + size - tail
    }

    ghost predicate IndicesInRange()
      reads this
    {
      && size == Cap + 1
      && head < size && tail < size
      && |Contents| <= Cap
      && Offset(head) == |Contents|
    }

    /** The slots from `tail` up to (not including) `head` hold the live items in order. */
    ghost predicate LiveSlotsHold()
      reads this, buffer
      requires IndicesInRange() && buffer.Length == size
    {
      forall j :: 0 <= j < size && Offset(j) < |Contents| ==> buffer[j] == Some(Contents[Offset(j)])
    }

    /** Every slot outside the live range is empty. */
    ghost predicate DeadSlotsEmpty()
      reads this, buffer
      requires IndicesInRange() && buffer.Length == size
    {
      forall j :: 0 <= j < size && |Contents| <= Offset(j) ==> buffer[j] == None
    }

    ghost predicate Valid()
      reads this, buffer
    {
      && IndicesInRange()
      && buffer.Length == size
      && LiveSlotsHold()
      && DeadSlotsEmpty()
    }

    /** The number of live items, computed as the source computes it. */
    ghost function LiveCount(): nat
      reads this
      requires size > 0
    {
      (head + size - tail) % size
    }

    constructor (capacity: nat)
      ensures Valid() && fresh(buffer)
      ensures Cap == capacity && size == capacity + 1 && buffer.Length == capacity + 1
      ensures Contents == [] && head == 0 && tail == 0
      ensures forall j :: 0 <= j < buffer.Length ==> buffer[j] == None
    {
      size := capacity + 1;
      Cap := capacity;
      buffer := new Option<T>[capacity + 1](_ => None);
      head, tail := 0, 0;
      Contents := [];
    }

    /** Appends `item` unless the buffer is full; a full buffer is left exactly as it was. */
    method TryPush(item: T) returns (ok: bool)
      requires Valid()
      modifies this, buffer
      ensures Valid()
      ensures ok <==> |old(Contents)| < Cap
      ensures ok ==> && Contents == old(Contents) + [item]
                     && buffer[old(head)] == Some(item)
                     && head == (old(head) + 1) % size
                     && tail == old(tail)
      ensures !ok ==> && Contents == old(Contents)
                      && head == old(head) && tail == old(tail)
                      && buffer[..] == old(buffer[..])
    {
      var next := (head + 1) % size;
      NextSlot(head, size);
      if next == tail {
        return false;
      }
      buffer[head] := Some(item);
      head := next;
      Contents := Contents + [item];
      ok := true;
    }

    /** Removes and returns the oldest item, clearing its slot; an empty buffer is left as it was. */
    method TryPop() returns (r: Option<T>)
      requires Valid()
      modifies this, buffer
      ensures Valid()
      ensures old(Contents) == [] ==> && r == None && Contents == []
                                      && head == old(head) && tail == old(tail)
                                      && buffer[..] == old(buffer[..])
      ensures old(Contents) != [] ==> && r == Some(old(Contents)[0])
                                      && Contents == old(Contents)[1..]
                                      && buffer[old(tail)] == None
                                      && tail == (old(tail) + 1) % size
                                      && head == old(head)
    {
      if head == tail {
        return None;
      }
      r := buffer[tail];
      buffer[tail] := None;
      NextSlot(tail, size);
      tail := (tail + 1) % size;
      Contents := Contents[1..];
    }

    method IsEmpty() returns (empty: bool)
      requires Valid()
      ensures empty <==> Contents == []
      ensures empty <==> head == tail
    {
      empty := head == tail;
    }

    method Capacity() returns (c: nat)
      requires Valid()
      ensures c == Cap && c + 1 == buffer.Length
    {
      c := size - 1;
    }

    /** The source's count formula agrees with the abstract contents and never exceeds the capacity. */
    lemma LiveCountIsLength()
      requires Valid()
      ensures LiveCount() == |Contents| <= Cap
    {
      if tail <= head {
        ModSmall(head + size - tail, size);
      } else {
        ModBelow(head + size - tail, size);
      }
    }

    /** The source's fullness test holds exactly when the live items fill the capacity. */
    lemma FullIffAtCapacity()
      requires Valid()
      ensures (head + 1) % size == tail <==> |Contents| == Cap
    {
      NextSlot(head, size);
    }
  }

  lemma ModSmall(x: nat, n: nat)
    requires n <= x < 2 * n
    ensures x % n == x - n
  {
  }

  lemma ModBelow(x: nat, n: nat)
    requires x < n
    ensures x % n == x
  {
  }

  lemma NextSlot(i: nat, n: nat)
    requires i < n
    ensures (i + 1) % n == if i + 1 == n then 0 else i + 1
  {
  }

  /**
   * Capacity 2: push A, push B, push C (refused); pop A, pop B, pop nothing.
   */
  method CapacityTwoScenario<T>(a: T, b: T, c: T) returns (pushed: seq<bool>, popped: seq<Option<T>>, emptyAfter: bool)
    ensures pushed == [true, true, false]
    ensures popped == [Some(a), Some(b), None]
    ensures emptyAfter
  {
    var q := new RingBuffer<T>(2);
    var p1 := q.TryPush(a);
    var p2 := q.TryPush(b);
    var p3 := q.TryPush(c);
    pushed := [p1, p2, p3];
    var r1 := q.TryPop();
    var r2 := q.TryPop();
    var r3 := q.TryPop();
    popped := [r1, r2, r3];
    emptyAfter := q.IsEmpty();
  }
}
