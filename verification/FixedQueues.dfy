/** The fixed-size append-only queues that one order's matching fills. */
module FixedQueues {
  class FixedQueue<T(0)> {
    const data: array<T>
    var count: nat

    ghost predicate Valid()
      reads this
    {
      count <= data.Length
    }

    ghost function Contents(): (s: seq<T>)
      requires Valid()
      reads this, data
    {
      data[..count]
    }

    constructor (capacity: nat)
      ensures Valid() && fresh(data) && data.Length == capacity && Contents() == []
    {
      data := new T[capacity];
      count := 0;
    }

    /** The source writes past its array when it is full; the caller must leave room. */
    method Push(item: T)
      requires Valid() && count < data.Length
      modifies this, data
      ensures Valid() && Contents() == old(Contents()) + [item]
    {
      data[count] := item;
      count := count + 1;
    }

    method Clear()
      modifies this
      ensures Valid() && Contents() == []
    {
      count := 0;
    }

    method At(i: nat) returns (item: T)
      requires Valid() && i < count
      ensures item == Contents()[i]
    {
      item := data[i];
    }
  }
}
