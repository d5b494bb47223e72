/** The bounded buffer of ring_buffer.hpp, and what a count over it says about everything ever pushed. */
module RingBuffer {
  import opened Sequences

  class RingBuffer<T> {
    var capacity: nat
    var items: seq<T>
    /** What the buffer held when its capacity was last set, and everything pushed since. */
    ghost var history: seq<T>

    ghost predicate Valid()
      reads this
    {
      items == LastN(history, capacity)
    }

    constructor (capacity: nat)
      ensures Valid() && this.capacity == capacity && items == [] && history == []
    {
      this.capacity, items, history := capacity, [], [];
    }

    method SetCapacity(n: nat)
      requires Valid()
      modifies this
      ensures Valid() && capacity == n
      ensures items == LastN(old(items), n) && history == items
    {
      capacity := n;
      Shrink();
      history := items;
    }

    method Push(value: T)
      requires Valid()
      modifies this
      ensures Valid() && capacity == old(capacity)
      ensures history == old(history) + [value]
      ensures items == LastN(old(items) + [value], capacity)
    {
      history := history + [value];
      if capacity == 0 {
        return;
      }
      LastNSnoc(old(history), capacity, value);
      items := items + [value];
      Shrink();
    }

    /** The newest `limit` items in order of arrival; 0, or more than there are, asks for all. */
    method Items(limit: nat) returns (out: seq<T>)
      requires Valid()
      ensures out == LastN(items, if limit == 0 then |items| else limit)
    {
      out := [];
      if items == [] {
        return;
      }
      var wanted := if limit == 0 || limit > |items| then |items| else limit;
      var start := |items| - wanted;
      for i := start to |items|
        invariant out == items[start..i]
      {
        SliceSnoc(items, start, i);
        out := out + [items[i]];
      }
      assert items[start..|items|] == items[start..];
      LastNIsSuffix(items, wanted);
    }

    method Clear()
      requires Valid()
      modifies this
      ensures Valid() && capacity == old(capacity) && items == [] && history == []
    {
      items, history := [], [];
    }

    method Shrink()
      modifies this`items
      ensures items == LastN(old(items), capacity)
    {
      while capacity > 0 && |items| > capacity
        invariant capacity > 0 ==> items == LastN(old(items), if |items| < capacity then capacity else |items|)
        invariant |items| <= |old(items)|
      {
        items := items[1..];
      }
      if capacity == 0 {
        items := [];
      }
    }
  }
}
