/**
 * The Disruptor sequencer, which the ring buffers drive but whose code is not
 * part of this model, reduced to an abstract single-producer counter: `Next`
 * claims a fresh sequence, `Publish` records a sequence as published and
 * `AddGatingSequence` registers a consumer's progress counter at the cursor.
 */
module Sequencing {
  import opened RingIndex

  /** A consumer's progress counter; -1 before anything has been processed. */
  class Sequence {
    var value: int

    constructor ()
      ensures value == -1
    {
      value := -1;
    }
  }

  class Sequencer {
    /** Number of slots of the ring this sequencer guards. */
    const bufferSize: int
    /** Highest sequence claimed so far; -1 before the first claim. */
    var claimed: int
    /** Sequences passed to `Publish`, in call order. */
    var published: seq<int>
    /** Consumer sequences the producer must not overrun, in registration order. */
    var gating: seq<Sequence>

    /** The sequencer accepts only a power-of-two size that is a Java `int`. */
    predicate Valid()
    {
      IsPowerOfTwo(bufferSize) && bufferSize <= INT_MAX
    }

    constructor (bufferSize: int)
      requires IsPowerOfTwo(bufferSize) && bufferSize <= INT_MAX
      ensures Valid() && this.bufferSize == bufferSize
      ensures claimed == -1 && published == [] && gating == []
    {
      this.bufferSize := bufferSize;
      claimed := -1;
      published := [];
      gating := [];
    }

    /** Claims the sequence after every sequence claimed before. */
    method Next() returns (s: int)
      modifies this`claimed
      ensures s == old(claimed) + 1 && claimed == s
    {
      claimed := claimed + 1;
      s := claimed;
    }

    /** Makes `s` visible to consumers. */
    method Publish(s: int)
      modifies this`published
      ensures published == old(published) + [s]
    {
      published := published + [s];
    }

    /** The producer's cursor: the sequence published last, or -1 before any publish. */
    function Cursor(): (c: int)
      reads this`published
      ensures published == [] ==> c == -1
      ensures published != [] ==> c == published[|published| - 1]
    {
      if published == [] then -1 else published[|published| - 1]
    }

    /**
     * Registers `g` as a gating sequence and moves it to the current cursor,
     * so a consumer added late does not gate on slots published before it.
     */
    method AddGatingSequence(g: Sequence)
      modifies this`gating, g
      ensures gating == old(gating) + [g]
      ensures g.value == Cursor()
    {
      g.value := Cursor();
      gating := gating + [g];
    }
  }
}
