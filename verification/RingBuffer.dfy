/** The pre-allocated ring (channel/src/ringbuffer.rs): slots addressed by `sequence & mask`. */
module RingBuffer {
  import opened Bits
  import opened Common

  /** `sequence & mask`, with mask = capacity - 1. */
  function Index(cap: nat, s: nat): (i: nat)
    requires cap > 0
  {
    And(s, cap - 1)
  }

  /** The mask is the remainder exactly because the constructor insists on a power of two. */
  lemma {:induction false} IndexIsRemainder(cap: nat, s: nat)
    requires IsPowerOfTwo(cap)
    ensures Index(cap, s) == s % cap
  {
    var k := Exponent(cap);
    MaskIsMod(s, k);
  }

  /** Fewer than `cap` apart, two sequences use different slots. */
  lemma {:induction false} SlotsDistinct(cap: nat, s: nat, t: nat)
    requires cap > 0 && s < t < s + cap
    ensures s % cap != t % cap
  {
    var q, r := s / cap, s % cap;
    if r + (t - s) < cap {
      DivModUnique(t, cap, q, r + (t - s));
    } else {
      assert cap * (q + 1) == cap * q + cap;
      DivModUnique(t, cap, q + 1, r + (t - s) - cap);
    }
  }

  /** `free_slots`, in wrapping machine arithmetic. */
  function FreeSlots(capacity: nat, producerSeq: int, consumerSeq: int): (n: nat)
  {
    var pending := producerSeq - consumerSeq;
    if pending < 0 then capacity else (capacity - pending) % U64
  }

  class RingBuffer<T> {
    const capacity: nat
    const mask: nat
    const slots: array<T>

    ghost predicate Valid()
    {
      IsPowerOfTwo(capacity) && mask == capacity - 1 && slots.Length == capacity
    }

    constructor (capacity: nat, initial: T)
      requires IsPowerOfTwo(capacity)
      ensures Valid() && fresh(slots) && this.capacity == capacity
      ensures forall i :: 0 <= i < capacity ==> slots[i] == initial
    {
      this.capacity := capacity;
      this.mask := capacity - 1;
      this.slots := new T[capacity](i => initial);
    }

    method Write(sequence: nat, event: T)
      requires Valid()
      modifies slots
      ensures slots[..] == old(slots[..])[sequence % capacity := event]
    {
      IndexIsRemainder(capacity, sequence);
      slots[And(sequence, mask)] := event;
    }

    method Read(sequence: nat) returns (event: T)
      requires Valid()
      ensures event == slots[sequence % capacity]
    {
      IndexIsRemainder(capacity, sequence);
      event := slots[And(sequence, mask)];
    }
  }
}
