/** The sound unit's circular buffers: a full one drops its oldest entry. */
module Ring {
  import opened Prelude
  import opened Words

  /** What a bounded drop-oldest queue holds after a push. */
  function Pushed<T>(queue: seq<T>, value: T, capacity: nat): seq<T>
    requires capacity > 0 && |queue| <= capacity
  {
    (if |queue| == capacity then queue[1..] else queue) + [value]
  }

  /** The array slot of the `i`-th entry. */
  function Slot(head: nat, i: nat, capacity: nat): (s: nat)
    requires capacity > 0
    ensures s < capacity
  {
    (head + i) % capacity
  }

  lemma SlotWraps(head: nat, i: nat, capacity: nat)
    requires head < capacity && i <= capacity
    ensures Slot(head, i, capacity) == if head + i < capacity then head + i else head + i - capacity
  {
    if head + i < capacity {
      DivModUnique(head + i, capacity, 0, head + i);
    } else {
      DivModUnique(head + i, capacity, 1, head + i - capacity);
    }
  }

  lemma SlotsWrap(head: nat, capacity: nat)
    requires head < capacity
    ensures forall i: nat :: i <= capacity ==>
              Slot(head, i, capacity) == if head + i < capacity then head + i else head + i - capacity
  {
    forall i: nat | i <= capacity
      ensures Slot(head, i, capacity) == if head + i < capacity then head + i else head + i - capacity
    {
      SlotWraps(head, i, capacity);
    }
  }

  class RingBuffer<T(0)> {
    const samples: array<T>
    var head: nat
    var size: nat

    ghost predicate Valid()
      reads this
    {
      head < samples.Length && size <= samples.Length
    }

    /** The entries, oldest first. */
    ghost function Contents(): (q: seq<T>)
      requires Valid()
      reads this, samples
      ensures |q| == size
      ensures forall i :: 0 <= i < size ==> q[i] == samples[Slot(head, i, samples.Length)]
    {
      seq(size, i requires 0 <= i < size && Valid() reads this, samples => samples[Slot(head, i, samples.Length)])
    }

    constructor (capacity: nat, blank: T)
      requires capacity > 0
      ensures Valid() && fresh(samples) && samples.Length == capacity && Contents() == []
    {
      samples := new T[capacity](_ => blank);
      head, size := 0, 0;
    }

    method Clear(blank: T)
      requires Valid()
      modifies this, samples
      ensures Valid() && Contents() == []
    {
      head, size := 0, 0;
      for i := 0 to samples.Length
        invariant head == 0 && size == 0
      {
        samples[i] := blank;
      }
    }

    method Push(value: T)
      requires Valid()
      modifies this, samples
      ensures Valid() && Contents() == Pushed(old(Contents()), value, samples.Length)
    {
      hide Slot;
      SlotsWrap(head, samples.Length);
      ghost var before := Contents();
      if size == samples.Length {
        head := Slot(head, 1, samples.Length);
        size := size - 1;
        SlotsWrap(head, samples.Length);
        assert Contents() == before[1..];
      }
      ghost var kept := Contents();
      var tail := Slot(head, size, samples.Length);
      samples[tail] := value;
      size := size + 1;
      assert Contents() == kept + [value];
    }

    method Pop() returns (value: Option<T>)
      requires Valid()
      modifies this
      ensures Valid()
      ensures value.None? <==> old(Contents()) == []
      ensures value.None? ==> Contents() == []
      ensures value.Some? ==> old(Contents()) == [value.value] + Contents()
    {
      hide Slot;
      if size == 0 {
        return None;
      }
      SlotsWrap(head, samples.Length);
      value := Some(samples[head]);
      ghost var before := Contents();
      head := Slot(head, 1, samples.Length);
      size := size - 1;
      SlotsWrap(head, samples.Length);
      assert Contents() == before[1..];
    }
  }
}
