/** Ring buffers that keep one slot free: what lies between tail and head, in order. */
module RingBuffers {
  /** How many items are in the buffer. */
  function Count(size: nat, head: nat, tail: nat): (n: nat)
    requires head < size && tail < size
    ensures n < size
  {
    if head >= tail then head - tail else head + size - tail
  }

  function Advance(size: nat, i: nat): (j: nat)
    requires i < size
    ensures j < size
  {
    if i + 1 == size then 0 else i + 1
  }

  /** It is the next index, around the ring. */
  lemma AdvanceWraps(size: nat, i: nat)
    requires i < size
    ensures Advance(size, i) == (i + 1) % size
  {
  }

  /** The items from tail up to head. */
  function Pending<T>(buffer: seq<T>, head: nat, tail: nat): (r: seq<T>)
    requires head < |buffer| && tail < |buffer|
    ensures |r| == Count(|buffer|, head, tail)
  {
    if head >= tail then buffer[tail..head] else buffer[tail..] + buffer[..head]
  }

  predicate IsFull(size: nat, head: nat, tail: nat)
    requires head < size && tail < size
  {
    Advance(size, head) == tail
  }

  lemma FullCount(size: nat, head: nat, tail: nat)
    requires head < size && tail < size
    ensures IsFull(size, head, tail) <==> Count(size, head, tail) == size - 1
    ensures head == tail <==> Count(size, head, tail) == 0
  {
  }

  /** An item put at the head is the last one pending. */
  lemma PutPending<T>(buffer: seq<T>, head: nat, tail: nat, x: T)
    requires head < |buffer| && tail < |buffer| && !IsFull(|buffer|, head, tail)
    ensures Pending(buffer[head := x], Advance(|buffer|, head), tail) == Pending(buffer, head, tail) + [x]
  {
  }

  /** The item at the tail is the first one pending, and is gone when the tail moves on. */
  lemma TakePending<T>(buffer: seq<T>, head: nat, tail: nat)
    requires head < |buffer| && tail < |buffer| && head != tail
    ensures Pending(buffer, head, tail) == [buffer[tail]] + Pending(buffer, head, Advance(|buffer|, tail))
  {
  }
}
