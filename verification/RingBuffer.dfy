/** The lossy ring buffer between capture and writer (packetql/capture/ringbuffer.py). */
module RingBuffer {
  import Bits

  /** A bounded queue that makes room by dropping its oldest item. */
  function PutQueue<T>(q: seq<T>, item: T, capacity: nat): seq<T>
    requires capacity >= 1
  {
    (if |q| == capacity then q[1..] else q) + [item]
  }

  /** What a batch takes. */
  function Taken<T>(q: seq<T>, maxItems: int): (r: seq<T>)
    ensures r <= q
  {
    if maxItems <= 0 then [] else if maxItems < |q| then q[..maxItems] else q
  }

  datatype Slot<T> = Empty | Full(item: T)

  class Ring<T(0)> {
    const capacity: nat
    const slots: array<Slot<T>>
    var head: nat
    var tail: nat
    var size: nat
    var closed: bool
    var dropped: nat
    var enqueued: nat

    /** The slot of the k-th item. */
    function At(k: nat): nat
      reads this
    {
      if tail + k < capacity then tail + k else tail + k - capacity
    }

    /** How far a slot is from the tail. */
    function Distance(i: nat): int
      reads this
    {
      if i >= tail then i - tail else i - tail + capacity
    }

    /** The pointers agree and every live slot is filled. */
    ghost predicate Live()
      reads this, slots
    {
      && slots.Length == capacity && capacity >= 1
      && tail < capacity && size <= capacity && head < capacity && head == At(size)
      && (forall i :: 0 <= i < capacity && Distance(i) < size ==> slots[i].Full?)
    }

    ghost predicate Valid()
      reads this, slots
    {
      Live() && forall i :: 0 <= i < capacity && slots[i].Full? ==> Distance(i) < size
    }

    function Contents(): (q: seq<T>)
      requires Live()
      reads this, slots
      ensures |q| == size
    {
      seq(size, k requires 0 <= k < size && Live() reads this, slots => slots[At(k)].item)
    }

    constructor (n: nat)
      requires n >= 1
      ensures Valid() && fresh(slots) && capacity == n
      ensures Contents() == [] && !closed && dropped == 0 && enqueued == 0
    {
      capacity := n;
      slots := new Slot<T>[n](_ => Empty);
      head, tail, size, closed, dropped, enqueued := 0, 0, 0, false, 0, 0;
    }

    /** In the program's terms: positions are taken modulo the capacity. */
    lemma PositionsAreModular(k: nat)
      requires Valid() && k <= capacity
      ensures head == (tail + size) % capacity
      ensures At(k) == (tail + k) % capacity
    {
      WrapIsMod(tail + size, capacity);
      WrapIsMod(tail + k, capacity);
    }

    /** `(i + 1) % capacity` */
    function Next(i: nat): nat
      requires i < capacity
      ensures Next(i) == if i + 1 == capacity then 0 else i + 1
    {
      (i + 1) % capacity
    }

    /** Drop the oldest item if full, then publish the new one. */
    method Put(item: T)
      requires Valid()
      modifies this`head, this`tail, this`size, this`dropped, this`enqueued, slots
      ensures Valid() && Contents() == PutQueue(old(Contents()), item, capacity)
      ensures dropped == old(dropped) + (if old(size) == capacity then 1 else 0)
      ensures enqueued == old(enqueued) + 1
    {
      if size == capacity {
        DropOldest();
      }
      Publish(item);
    }

    method DropOldest()
      requires Valid() && size == capacity
      modifies this`tail, this`size, this`dropped
      ensures Live() && Contents() == old(Contents())[1..] && dropped == old(dropped) + 1
      ensures forall i :: 0 <= i < capacity && i != head ==> Distance(i) < size
    {
      hide Next;
      tail := Next(tail);
      size := size - 1;
      dropped := dropped + 1;
      assert forall k :: 0 <= k < size ==> At(k) == old(At(k + 1));
    }

    method Publish(item: T)
      requires Live() && size < capacity
      requires forall i :: 0 <= i < capacity && slots[i].Full? ==> Distance(i) < size || i == head
      modifies this`head, this`size, this`enqueued, slots
      ensures Valid() && Contents() == old(Contents()) + [item]
      ensures enqueued == old(enqueued) + 1
    {
      hide Next;
      slots[head] := Full(item);
      head := Next(head);
      size := size + 1;
      enqueued := enqueued + 1;
    }

    /** Take the oldest item and clear its slot. */
    method TakeOne() returns (item: T)
      requires Valid() && size > 0
      modifies this`tail, this`size, slots
      ensures Valid() && [item] + Contents() == old(Contents())
    {
      hide Next;
      assert At(0) == tail;
      item := slots[tail].item;
      slots[tail] := Empty;
      tail := Next(tail);
      size := size - 1;
    }

    /** The drain of `get_batch`, once its wait is over (items, closed or timed out). */
    method GetBatch(maxItems: int) returns (out: seq<T>)
      requires Valid()
      modifies this`tail, this`size, slots
      ensures Valid() && out + Contents() == old(Contents())
      ensures out == Taken(old(Contents()), maxItems)
    {
      hide Live;
      hide Contents;
      out := [];
      while size > 0 && |out| < maxItems
        invariant Valid() && out + Contents() == old(Contents())
        invariant |out| == 0 || |out| <= maxItems
        decreases size
      {
        var item := TakeOne();
        out := out + [item];
      }
    }

    method Close()
      requires Valid()
      modifies this`closed
      ensures Valid() && closed && Contents() == old(Contents())
    {
      closed := true;
    }
  }

  lemma WrapIsMod(a: nat, n: nat)
    requires n >= 1 && a < 2 * n
    ensures a % n == if a < n then a else a - n
  {
    if a < n { Bits.DivUnique(a, n, 0, a); } else { Bits.DivUnique(a, n, 1, a - n); }
  }
}
