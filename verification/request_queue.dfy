/**
 * The request buffer of src/buffer.c. The two process-wide semaphores become
 * the counters `filled` (available_resources) and `free` (available_spaces)
 * of the buffer; a wait on a semaphore becomes the precondition that its
 * counter is positive, and a post adds one.
 */
module RequestQueue {
  import opened Wrappers
  import opened Common
  import opened Packets

  /** buffer_t with the two slot counters. */
  class Buffer {
    var paquetArray: array<Packet>
    var currentItem: int
    var filled: int
    var free: int
    /** Packets handed out by GetNext and not yet released by Dequeue. */
    ghost var taken: int

    /**
     * The array has BufferSize slots, the index stays inside it, and every
     * slot is either free, filled, or handed out.
     */
    ghost predicate Valid()
      reads this
    {
      && paquetArray.Length == BufferSize
      && 0 <= currentItem < BufferSize
      && filled >= 0 && free >= 0
      && filled + free + taken == BufferSize
    }

    /** A buffer over a caller-allocated packet array; `init` sets the rest. */
    constructor (slots: array<Packet>)
      ensures paquetArray == slots && currentItem == 0 && filled == 0 && free == 0 && taken == 0
    {
      paquetArray := slots;
      currentItem := 0;
      filled := 0;
      free := 0;
      taken := 0;
    }
  }

  /** init: index 0, no filled slot, BufferSize free slots. */
  method Init(b: Buffer?) returns (status: int)
    requires b != null ==> b.paquetArray.Length == BufferSize
    modifies b
    ensures b == null ==> status == FailureGeneric
    ensures b != null ==> && status == SuccessGeneric && b.Valid()
                          && b.paquetArray == old(b.paquetArray)
                          && b.currentItem == 0 && b.filled == 0 && b.free == BufferSize && b.taken == 0
  {
    if b == null {
      return FailureGeneric;
    }
    b.currentItem := 0;
    b.filled, b.free := 0, BufferSize;
    b.taken := 0;
    status := SuccessGeneric;
  }

  /** queue: takes a free slot, stores the packet at the current index, adds a filled slot. */
  method Queue(b: Buffer?, paquete: Packet) returns (status: int)
    requires b != null ==> b.Valid() && b.free > 0
    modifies if b == null then {} else {b, b.paquetArray}
    ensures b == null ==> status == FailureGeneric
    ensures b != null ==> && status == SuccessGeneric && b.Valid()
                          && b.paquetArray == old(b.paquetArray)
                          && b.paquetArray[..] == old(b.paquetArray[..])[old(b.currentItem) := paquete]
                          && b.currentItem == old(b.currentItem)
                          && b.free == old(b.free) - 1 && b.filled == old(b.filled) + 1
                          && b.taken == old(b.taken)
  {
    if b == null {
      return FailureGeneric;
    }
    b.free := b.free - 1;
    b.paquetArray[b.currentItem] := paquete;
    b.filled := b.filled + 1;
    status := SuccessGeneric;
  }

  /** getNext: takes a filled slot and hands out the packet at the current index. */
  method GetNext(b: Buffer?) returns (next: Option<Packet>)
    requires b != null ==> b.Valid() && b.filled > 0
    modifies b
    ensures b == null ==> next == None
    ensures b != null ==> && b.Valid()
                          && next == Some(b.paquetArray[b.currentItem])
                          && b.paquetArray == old(b.paquetArray) && b.currentItem == old(b.currentItem)
                          && b.filled == old(b.filled) - 1 && b.free == old(b.free)
                          && b.taken == old(b.taken) + 1
  {
    if b == null {
      return None;
    }
    b.filled := b.filled - 1;
    b.taken := b.taken + 1;
    next := Some(b.paquetArray[b.currentItem]);
  }

  /** dequeue: gives a slot back and moves the index to the next slot, wrapping around. */
  method Dequeue(b: Buffer?) returns (status: int)
    requires b != null ==> b.Valid()
    modifies b
    ensures b == null ==> status == FailureGeneric
    ensures b != null ==> && status == SuccessGeneric && b.Valid()
                          && b.paquetArray == old(b.paquetArray)
                          && b.currentItem == (old(b.currentItem) + 1) % BufferSize
                          && b.free == old(b.free) + 1 && b.filled == old(b.filled)
                          && b.taken == old(b.taken) - 1
  {
    if b == null {
      return FailureGeneric;
    }
    b.free := b.free + 1;
    b.taken := b.taken - 1;
    b.currentItem := (b.currentItem + 1) % BufferSize;
    status := SuccessGeneric;
  }

  /** destroy: fails only for a missing buffer; nothing in the buffer changes. */
  method Destroy(b: Buffer?) returns (status: int)
    ensures status == SuccessGeneric <==> b != null
    ensures status == FailureGeneric <==> b == null
  {
    if b == null {
      return FailureGeneric;
    }
    status := SuccessGeneric;
  }

  /**
   * A queue followed by a getNext/dequeue pair: the packet handed out is the
   * one just queued, and the counters are back where they were, so
   * filled + free stays BufferSize from Init on whenever nothing is handed out.
   */
  method QueueThenServe(b: Buffer, paquete: Packet) returns (next: Option<Packet>)
    requires b.Valid() && b.free > 0
    modifies b, b.paquetArray
    ensures b.Valid() && next == Some(paquete)
    ensures b.filled == old(b.filled) && b.free == old(b.free) && b.taken == old(b.taken)
    ensures b.taken == 0 ==> b.filled + b.free == BufferSize
  {
    var _ := Queue(b, paquete);
    next := GetNext(b);
    var _ := Dequeue(b);
  }

  /**
   * The index and the write slot are the same. Two packets queued before a
   * dequeue land in one slot: the first GetNext returns the second packet,
   * and after the Dequeue the next GetNext reads a slot nobody wrote. The
   * first packet is never handed out.
   */
  method QueueTwiceLosesFirst(p1: Packet, p2: Packet, filler: Packet)
    returns (first: Option<Packet>, second: Option<Packet>)
    requires p1 != p2 && p1 != filler
    ensures first == Some(p2) && second == Some(filler)
    ensures first != Some(p1) && second != Some(p1)
  {
    var slots := new Packet[BufferSize](_ => filler);
    var b := new Buffer(slots);
    var _ := Init(b);
    var _ := Queue(b, p1);
    var _ := Queue(b, p2);
    first := GetNext(b);
    var _ := Dequeue(b);
    second := GetNext(b);
  }

  /* ----- The evidently intended buffer: first in, first out ----- */

  /** Slot `i` places after index `c`, wrapping around; BufferSize places after `c` is `c` again. */
  function Slot(c: int, i: int): (k: int)
    requires 0 <= c < BufferSize && 0 <= i <= BufferSize
    ensures 0 <= k < BufferSize
    ensures k == (c + i) % BufferSize
  {
    if c + i < BufferSize then c + i else c + i - BufferSize
  }

  /** Fewer than BufferSize places after one index, the slots are all different. */
  lemma SlotsDistinct(c: int, i: int, j: int)
    requires 0 <= c < BufferSize && 0 <= i < j < BufferSize
    ensures Slot(c, i) != Slot(c, j)
  {
  }

  /** Moving the index one place shifts every slot by one. */
  lemma SlotShift(c: int, i: int)
    requires 0 <= c < BufferSize && 0 <= i < BufferSize
    ensures Slot(Slot(c, 1), i) == Slot(c, i + 1)
  {
  }

  /**
   * The same buffer with its own write index: packets are read back in the
   * order they were queued, none is lost while a slot is free.
   */
  class RingBuffer {
    var paquetArray: array<Packet>
    var currentItem: int
    var nextItem: int
    var filled: int
    var free: int
    ghost var taken: int
    /** The packets queued and not yet dequeued, oldest first. */
    ghost var Contents: seq<Packet>

    ghost predicate Valid()
      reads this, paquetArray
    {
      && paquetArray.Length == BufferSize
      && 0 <= currentItem < BufferSize
      && filled >= 0 && free >= 0 && taken >= 0
      && filled + free + taken == BufferSize
      && |Contents| == filled + taken
      && |Contents| <= BufferSize && nextItem == Slot(currentItem, |Contents|)
      && forall i :: 0 <= i < |Contents| ==> Contents[i] == paquetArray[Slot(currentItem, i)]
    }

    /** An initialised empty buffer over a fresh array. */
    constructor (filler: Packet)
      ensures Valid() && fresh(paquetArray)
      ensures Contents == [] && free == BufferSize
    {
      paquetArray := new Packet[BufferSize](_ => filler);
      currentItem, nextItem := 0, 0;
      filled, free, taken := 0, BufferSize, 0;
      Contents := [];
    }

    /** Queue at the write index: the packet joins the end. */
    method Queue(paquete: Packet)
      requires Valid() && free > 0
      modifies this, paquetArray
      ensures Valid() && paquetArray == old(paquetArray)
      ensures Contents == old(Contents) + [paquete]
      ensures filled == old(filled) + 1 && free == old(free) - 1 && taken == old(taken)
    {
      var n := |Contents|;
      free := free - 1;
      paquetArray[nextItem] := paquete;
      nextItem := Slot(nextItem, 1);
      filled := filled + 1;
      Contents := Contents + [paquete];
      forall i | 0 <= i < |Contents|
        ensures Contents[i] == paquetArray[Slot(currentItem, i)]
      {
        if i < n {
          SlotsDistinct(currentItem, i, n);
        }
      }
    }

    /** GetNext: hands out the oldest packet. */
    method GetNext() returns (next: Packet)
      requires Valid() && filled > 0
      modifies this
      ensures Valid() && Contents == old(Contents) && paquetArray == old(paquetArray)
      ensures |Contents| > 0 && next == Contents[0]
      ensures filled == old(filled) - 1 && taken == old(taken) + 1 && free == old(free)
    {
      assert Slot(currentItem, 0) == currentItem;
      next := paquetArray[currentItem];
      filled := filled - 1;
      taken := taken + 1;
    }

    /** Dequeue after a GetNext: the oldest packet leaves. */
    method Dequeue()
      requires Valid() && taken > 0
      modifies this
      ensures Valid() && paquetArray == old(paquetArray)
      ensures Contents == old(Contents)[1..]
      ensures free == old(free) + 1 && taken == old(taken) - 1 && filled == old(filled)
    {
      ghost var c := currentItem;
      free := free + 1;
      taken := taken - 1;
      currentItem := Slot(currentItem, 1);
      Contents := Contents[1..];
      forall i | 0 <= i < |Contents|
        ensures Contents[i] == paquetArray[Slot(currentItem, i)]
      {
        SlotShift(c, i);
      }
      SlotShift(c, |Contents|);
    }
  }

  /** The corrected buffer hands out two queued packets in the order they came. */
  method QueueTwiceServesBoth(p1: Packet, p2: Packet, filler: Packet)
    returns (first: Packet, second: Packet)
    ensures first == p1 && second == p2
  {
    var b := new RingBuffer(filler);
    b.Queue(p1);
    b.Queue(p2);
    first := b.GetNext();
    b.Dequeue();
    second := b.GetNext();
  }
}
