/**
 * The in-heap ring: a power-of-two array of object slots addressed by
 * `sequence & mask`. `Put` claims a sequence, stores the event in that slot
 * and publishes the sequence; `Take` hands out a slot's contents and clears
 * the slot, so a consumer never keeps a reference alive in the ring.
 */
module CustomRing {
  import opened Wrappers
  import opened RingIndex
  import opened Sequencing

  /** One access to the slots: a put of an item claimed at `sequence`, or a take. */
  datatype Access<T> = Put(sequence: int, item: T) | Take(sequence: int)

  /** The call the wrapping handler makes on the user's handler. */
  datatype HandlerCall<T> = HandlerCall(event: Option<T>, sequence: int, endOfBatch: bool)

  /** The slot `sequence` is stored in, for a ring with `|slots|` entries. */
  function Slot<T>(slots: seq<Option<T>>, sequence: int): (i: nat)
    requires IsPowerOfTwo(|slots|)
    ensures i < |slots| && i == sequence % |slots|
  {
    IndexIsMod(sequence, |slots|);
    Index(sequence, |slots| - 1)
  }

  /** The slots after one access: a put fills its slot, a take empties it. */
  function Apply<T>(slots: seq<Option<T>>, a: Access<T>): (r: seq<Option<T>>)
    requires IsPowerOfTwo(|slots|)
    ensures |r| == |slots|
  {
    match a
    case Put(s, e) => slots[Slot(slots, s) := Some(e)]
    case Take(s) => slots[Slot(slots, s) := None]
  }

  /** The slots after a series of accesses, in order. */
  function ApplyAll<T>(slots: seq<Option<T>>, accesses: seq<Access<T>>): (r: seq<Option<T>>)
    requires IsPowerOfTwo(|slots|)
    ensures |r| == |slots|
    decreases |accesses|
  {
    if accesses == [] then slots else ApplyAll(Apply(slots, accesses[0]), accesses[1..])
  }

  /** Puts of `items` claimed at consecutive sequences starting at `from`. */
  function PutsFrom<T>(from: int, items: seq<T>): (r: seq<Access<T>>)
    ensures |r| == |items|
    ensures forall j :: 0 <= j < |items| ==> r[j] == Put(from + j, items[j])
    decreases |items|
  {
    if items == [] then [] else [Put(from, items[0])] + PutsFrom(from + 1, items[1..])
  }

  /** An access changes its own slot, to the item or to empty, and no other slot. */
  lemma AccessTouchesOneSlot<T>(slots: seq<Option<T>>, a: Access<T>)
    requires IsPowerOfTwo(|slots|)
    ensures Apply(slots, a)[Slot(slots, a.sequence)] == (if a.Put? then Some(a.item) else None)
    ensures forall i :: 0 <= i < |slots| && i != Slot(slots, a.sequence) ==> Apply(slots, a)[i] == slots[i]
  {
  }

  /** Accesses to sequences that are not congruent to `s` leave the slot of `s` alone. */
  lemma {:induction false} OtherAccessesKeepSlot<T>(slots: seq<Option<T>>, s: int, accesses: seq<Access<T>>)
    requires IsPowerOfTwo(|slots|)
    requires forall k :: 0 <= k < |accesses| ==> accesses[k].sequence % |slots| != s % |slots|
    ensures ApplyAll(slots, accesses)[Slot(slots, s)] == slots[Slot(slots, s)]
    decreases |accesses|
  {
    if accesses != [] {
      var next := Apply(slots, accesses[0]);
      assert next[Slot(slots, s)] == slots[Slot(slots, s)];
      OtherAccessesKeepSlot(next, s, accesses[1..]);
    }
  }

  /**
   * Round trip: after a put of `e` claimed at `s` and any accesses that do not
   * touch the slot of `s`, a take of `s` yields `e`; a second take yields
   * nothing.
   */
  lemma {:induction false} PutThenTake<T>(slots: seq<Option<T>>, s: int, e: T, between: seq<Access<T>>)
    requires IsPowerOfTwo(|slots|)
    requires forall k :: 0 <= k < |between| ==> between[k].sequence % |slots| != s % |slots|
    ensures ApplyAll(Apply(slots, Put(s, e)), between)[Slot(slots, s)] == Some(e)
    ensures Apply(ApplyAll(Apply(slots, Put(s, e)), between), Take(s))[Slot(slots, s)] == None
  {
    OtherAccessesKeepSlot(Apply(slots, Put(s, e)), s, between);
  }

  /**
   * The producer may claim up to `size - 1` further sequences after `s`
   * without overwriting the item put at `s`; the claim `size` later lands in
   * the same slot again.
   */
  lemma {:induction false} PutSurvivesNextClaims<T>(slots: seq<Option<T>>, s: int, e: T, later: seq<T>, e2: T)
    requires IsPowerOfTwo(|slots|)
    requires |later| < |slots|
    ensures var ready := ApplyAll(Apply(slots, Put(s, e)), PutsFrom(s + 1, later));
            ready[Slot(slots, s)] == Some(e)
            && Apply(ready, Put(s + |slots|, e2))[Slot(slots, s)] == Some(e2)
  {
    var puts := PutsFrom(s + 1, later);
    forall k | 0 <= k < |puts|
      ensures puts[k].sequence % |slots| != s % |slots|
    {
      IndexDistinctWithinCapacity(s, s + 1 + k, |slots|);
      SameIndexIffCongruent(s, s + 1 + k, |slots|);
    }
    OtherAccessesKeepSlot(Apply(slots, Put(s, e)), s, puts);
    IndexPeriodic(s, |slots|, 1);
  }

  class CustomRingBuffer<T> {
    const sequencer: Sequencer
    const buffer: array<Option<T>>
    const mask: int

    /** The slot array has one entry per sequencer slot and `mask` is its size minus one. */
    ghost predicate Valid()
    {
      sequencer.Valid() && buffer.Length == sequencer.bufferSize && mask == buffer.Length - 1
    }

    constructor (sequencer: Sequencer)
      requires sequencer.Valid()
      ensures Valid() && this.sequencer == sequencer && fresh(buffer)
      ensures forall i :: 0 <= i < buffer.Length ==> buffer[i] == None
    {
      this.sequencer := sequencer;
      buffer := new Option<T>[sequencer.bufferSize](_ => None);
      mask := sequencer.bufferSize - 1;
    }

    /** `index(sequence)`: the sequence modulo the ring size. */
    function IndexOf(sequence: int): (i: nat)
      requires Valid()
      ensures i < buffer.Length && i == sequence % buffer.Length
    {
      IndexIsMod(sequence, buffer.Length);
      Index(sequence, mask)
    }

    /** Claims the next sequence, stores `e` in its slot and publishes that same sequence. */
    method Put(e: T)
      requires Valid()
      modifies buffer, sequencer`claimed, sequencer`published
      ensures sequencer.claimed == old(sequencer.claimed) + 1
      ensures buffer[..] == Apply(old(buffer[..]), Access.Put(sequencer.claimed, e))
      ensures sequencer.published == old(sequencer.published) + [sequencer.claimed]
    {
      var next := sequencer.Next();
      buffer[IndexOf(next)] := Some(e);
      sequencer.Publish(next);
    }

    /** Returns what the slot of `sequence` holds and empties that slot. */
    method Take(sequence: int) returns (t: Option<T>)
      requires Valid()
      modifies buffer
      ensures t == old(buffer[IndexOf(sequence)])
      ensures buffer[..] == Apply(old(buffer[..]), Access.Take(sequence))
    {
      var i := IndexOf(sequence);
      t := buffer[i];
      buffer[i] := None;
    }

    /** The data provider hands out the ring itself, whatever the sequence. */
    function Get(sequence: int): (r: CustomRingBuffer<T>)
      ensures r == this
    {
      this
    }

    /**
     * Wires a consumer: a processor over this ring whose handler takes each
     * slot it is given, and whose progress sequence gates the producer.
     */
    method CreateHandler() returns (p: Processor<T>)
      requires Valid()
      modifies sequencer`gating
      ensures fresh(p) && fresh(p.sequence) && p.ring == this
      ensures p.sequence.value == sequencer.Cursor()
      ensures sequencer.published == [] ==> p.sequence.value == -1
      ensures sequencer.gating == old(sequencer.gating) + [p.sequence]
    {
      p := new Processor(this);
      sequencer.AddGatingSequence(p.sequence);
    }
  }

  /**
   * A batch processor as `CreateHandler` builds it: its progress sequence
   * and, in `Dispatch`, what it does for one available sequence.
   */
  class Processor<T> {
    const ring: CustomRingBuffer<T>
    const sequence: Sequence

    constructor (ring: CustomRingBuffer<T>)
      ensures this.ring == ring && fresh(sequence) && sequence.value == -1
    {
      this.ring := ring;
      sequence := new Sequence();
    }

    /**
     * One delivery: the processor passes `ring.Get(sequence)` to the wrapping
     * handler, which hands the user's handler `take(sequence)` with the same
     * sequence and end-of-batch flag. Returns that call; the slot is left empty.
     */
    method Dispatch(sequence: int, endOfBatch: bool) returns (call: HandlerCall<T>)
      requires ring.Valid()
      modifies ring.buffer
      ensures call == HandlerCall(old(ring.buffer[ring.IndexOf(sequence)]), sequence, endOfBatch)
      ensures ring.buffer[..] == Apply(old(ring.buffer[..]), Access.Take(sequence))
      ensures ring.buffer[ring.IndexOf(sequence)] == None
    {
      var accessor := ring.Get(sequence);
      var event := accessor.Take(sequence);
      call := HandlerCall(event, sequence, endOfBatch);
    }
  }
}
