/** Fixed-size ring buffers as kernel/tcp_stream.c and kernel/ipv4.c keep them: a backing
    array, the index of the oldest element and the number of elements.  The class ties
    them to the sequence of elements, oldest first, so that callers never see an index
    modulo the capacity. */
module Rings {
  /** Where element `i` of a ring lies. */
  function Slot(head: nat, i: nat, capacity: nat): nat {
    if head + i < capacity then head + i else head + i - capacity
  }

  lemma SlotIsRemainder(head: nat, i: nat, capacity: nat)
    requires head < capacity && i <= capacity
    ensures (head + i) % capacity == Slot(head, i, capacity)
  {
    var x := head + i;
    var q := x / capacity;
    assert x == q * capacity + x % capacity;
    if q == 0 {
      assert q * capacity == 0;
    } else if q == 1 {
      assert q * capacity == capacity;
    } else {
      TwiceAtMost(q, capacity);
    }
  }

  lemma TwiceAtMost(q: int, d: nat)
    requires q >= 2
    ensures q * d >= 2 * d
  {
  }

  /** The elements of a ring, oldest first. */
  ghost function Elements<T>(a: seq<T>, head: nat, count: nat): (s: seq<T>)
    requires head < |a| && count <= |a|
    ensures |s| == count
  {
    seq(count, i requires 0 <= i < count => a[Slot(head, i, |a|)])
  }

  class Ring<T> {
    const data: array<T>
    var head: nat
    var count: nat
    ghost var contents: seq<T>

    ghost predicate Valid()
      reads this, data
    {
      && head < data.Length && count <= data.Length
      && contents == Elements(data[..], head, count)
    }

    constructor (capacity: nat, fill: T)
      requires capacity > 0
      ensures Valid() && contents == [] && data.Length == capacity && fresh(data)
    {
      data := new T[capacity](_ => fill);
      head, count, contents := 0, 0, [];
    }

    method Push(x: T)
      requires Valid() && count < data.Length
      modifies this`count, this`contents, data
      ensures Valid() && contents == old(contents) + [x]
    {
      SlotIsRemainder(head, count, data.Length);
      var tail := (head + count) % data.Length;
      data[tail] := x;
      count := count + 1;
      contents := contents + [x];
    }

    method Get(i: nat) returns (x: T)
      requires Valid() && i < count
      ensures x == contents[i]
    {
      SlotIsRemainder(head, i, data.Length);
      x := data[(head + i) % data.Length];
    }

    method Set(i: nat, x: T)
      requires Valid() && i < count
      modifies this`contents, data
      ensures Valid() && contents == old(contents)[i := x]
    {
      SlotIsRemainder(head, i, data.Length);
      data[(head + i) % data.Length] := x;
      contents := contents[i := x];
    }

    method Drop(n: nat)
      requires Valid() && n <= count
      modifies this`head, this`count, this`contents
      ensures Valid() && contents == old(contents)[n..]
    {
      SlotIsRemainder(head, n, data.Length);
      head := (head + n) % data.Length;
      count := count - n;
      contents := contents[n..];
    }

    method Clear()
      requires Valid()
      modifies this`head, this`count, this`contents
      ensures Valid() && contents == []
    {
      head, count, contents := 0, 0, [];
    }
  }
}
