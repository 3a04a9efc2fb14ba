/**
 * The off-heap ring: one byte buffer of `bufferSize * entrySize` bytes cut
 * into fixed-width entries. `get(sequence)` points a view (a position/limit
 * cursor over the shared bytes) at the entry of `sequence`; `put(data)`
 * claims a sequence, copies `data` through that view and publishes the
 * sequence whether or not the copy succeeded.
 */
module OffHeap {
  import opened Wrappers
  import opened RingIndex
  import opened Sequencing

  /** Cursor state of a byte-buffer view: reads and writes go to `[position, limit)`. */
  datatype View = View(position: int, limit: int)

  /** How a put ended: bytes written, or the exception that ended it. */
  datatype PutOutcome =
    | Written
    | PositionRejected  // the view refused the entry's position (IllegalArgumentException)
    | Overflow          // the data is longer than the entry (BufferOverflowException)

  predicate ViewValid(v: View, capacity: int)
  {
    0 <= v.position <= v.limit <= capacity
  }

  /** `Buffer.position(p)`: refused unless `0 <= p <= limit`. */
  function WithPosition(v: View, p: int): Option<View>
  {
    if 0 <= p <= v.limit then Some(View(p, v.limit)) else None
  }

  /** `Buffer.limit(l)`: refused unless `0 <= l <= capacity`; a position past `l` is pulled back to `l`. */
  function WithLimit(v: View, l: int, capacity: int): Option<View>
  {
    if 0 <= l <= capacity then Some(View(if v.position > l then l else v.position, l)) else None
  }

  /** The view after `position(start).limit(end)`, the order `get` uses. */
  function Reposition(v: View, start: int, end: int, capacity: int): Option<View>
  {
    match WithPosition(v, start)
    case None => None
    case Some(moved) => WithLimit(moved, end, capacity)
  }

  /** The view after `limit(end).position(start)`: the limit first, then the position. */
  function RepositionLimitFirst(v: View, start: int, end: int, capacity: int): Option<View>
  {
    match WithLimit(v, end, capacity)
    case None => None
    case Some(limited) => WithPosition(limited, start)
  }

  lemma MulMonotone(a: int, b: int, c: int)
    requires 0 <= c && a <= b
    ensures a * c <= b * c
  {
    assert b * c - a * c == (b - a) * c;
  }

  /** Entry `i` ends before entry `j` starts when `i < j`. */
  lemma EarlierEntryEndsFirst(i: int, j: int, entrySize: int)
    requires i < j && 0 <= entrySize
    ensures i * entrySize + entrySize <= j * entrySize
  {
    MulMonotone(i + 1, j, entrySize);
    assert (i + 1) * entrySize == i * entrySize + entrySize;
  }

  /** First byte of the entry of `sequence`: `index(sequence) * entrySize`; the entry lies inside the buffer. */
  function EntryStart(sequence: int, size: int, entrySize: int): (p: int)
    requires IsPowerOfTwo(size) && 0 <= entrySize
    ensures 0 <= p && p + entrySize <= size * entrySize
    ensures p == (sequence % size) * entrySize
  {
    IndexIsMod(sequence, size);
    MulMonotone(Index(sequence, size - 1) + 1, size, entrySize);
    Index(sequence, size - 1) * entrySize
  }

  /** Entries of sequences in different slots do not overlap. */
  lemma EntriesDisjoint(s: int, t: int, size: int, entrySize: int)
    requires IsPowerOfTwo(size) && 0 <= entrySize
    requires s % size != t % size
    ensures EntryStart(s, size, entrySize) + entrySize <= EntryStart(t, size, entrySize)
         || EntryStart(t, size, entrySize) + entrySize <= EntryStart(s, size, entrySize)
  {
    var i, j := s % size, t % size;
    if i < j {
      EarlierEntryEndsFirst(i, j, entrySize);
    } else {
      EarlierEntryEndsFirst(j, i, entrySize);
    }
  }

  /** Sequences a multiple of the size apart share an entry. */
  lemma CongruentSameEntry(s: int, k: int, size: int, entrySize: int)
    requires IsPowerOfTwo(size) && 0 <= entrySize
    ensures EntryStart(s + k * size, size, entrySize) == EntryStart(s, size, entrySize)
  {
    IndexPeriodic(s, size, k);
    IndexIsMod(s, size);
    IndexIsMod(s + k * size, size);
  }

  /** The bytes after copying `data` in at `at`. */
  function Overwrite(bytes: seq<bv8>, at: int, data: seq<bv8>): (r: seq<bv8>)
    requires 0 <= at && at + |data| <= |bytes|
    ensures |r| == |bytes|
  {
    bytes[..at] + data + bytes[at + |data|..]
  }

  /** A copy puts `data` at `[at, at + |data|)` and leaves every other byte as it was. */
  lemma OverwriteFrame(bytes: seq<bv8>, at: int, data: seq<bv8>)
    requires 0 <= at && at + |data| <= |bytes|
    ensures forall k :: 0 <= k < |data| ==> Overwrite(bytes, at, data)[at + k] == data[k]
    ensures forall j :: 0 <= j < |bytes| && !(at <= j < at + |data|) ==> Overwrite(bytes, at, data)[j] == bytes[j]
  {
  }

  /** The bytes of one entry. */
  function Entry(bytes: seq<bv8>, sequence: int, size: int, entrySize: int): (e: seq<bv8>)
    requires IsPowerOfTwo(size) && 0 <= entrySize && |bytes| == size * entrySize
    ensures |e| == entrySize
  {
    var p := EntryStart(sequence, size, entrySize);
    bytes[p..p + entrySize]
  }

  /**
   * Writing at most `entrySize` bytes at the entry of `s` changes no other
   * entry, and the entry of `s` then starts with the data.
   */
  lemma {:induction false} WriteStaysInEntry(bytes: seq<bv8>, s: int, t: int, size: int, entrySize: int, data: seq<bv8>)
    requires IsPowerOfTwo(size) && 0 <= entrySize && |bytes| == size * entrySize
    requires |data| <= entrySize
    ensures var after := Overwrite(bytes, EntryStart(s, size, entrySize), data);
            Entry(after, s, size, entrySize)[..|data|] == data
            && (s % size != t % size ==> Entry(after, t, size, entrySize) == Entry(bytes, t, size, entrySize))
  {
    var p := EntryStart(s, size, entrySize);
    var after := Overwrite(bytes, p, data);
    OverwriteFrame(bytes, p, data);
    assert Entry(after, s, size, entrySize)[..|data|] == data;
    if s % size != t % size {
      EntriesDisjoint(s, t, size, entrySize);
      var q := EntryStart(t, size, entrySize);
      assert forall j :: q <= j < q + entrySize ==> after[j] == bytes[j];
      assert Entry(after, t, size, entrySize) == Entry(bytes, t, size, entrySize);
    }
  }

  /**
   * `position(start).limit(end)` succeeds exactly when the new position is
   * not past the view's current limit, and then yields the window.
   */
  lemma RepositionAsWritten(v: View, start: int, end: int, capacity: int)
    requires ViewValid(v, capacity) && 0 <= start <= end <= capacity
    ensures Reposition(v, start, end, capacity)
         == if start <= v.limit then Some(View(start, end)) else None
  {
  }

  /**
   * The order `position` then `limit` fails on a forward jump: with one-byte
   * entries in a four-entry ring, a fresh view pointed at entry 0 refuses to
   * move to entry 2, because the position 2 is past the limit 1 left by the
   * first call.
   */
  lemma ForwardJumpRejected()
    ensures Reposition(View(0, 4), 0, 1, 4) == Some(View(0, 1))
    ensures Reposition(View(0, 1), 2, 3, 4) == None
  {
  }

  /** Limit first, then position: any valid view can be pointed at any window inside the buffer. */
  lemma RepositionLimitFirstTotal(v: View, start: int, end: int, capacity: int)
    requires ViewValid(v, capacity) && 0 <= start <= end <= capacity
    ensures RepositionLimitFirst(v, start, end, capacity) == Some(View(start, end))
  {
  }

  class OffHeapRingBuffer {
    const sequencer: Sequencer
    const entrySize: int
    const buffer: array<bv8>
    const mask: int
    /** The (single) view through which entries are read and written. */
    var view: View

    ghost predicate Valid()
      reads this
    {
      && sequencer.Valid()
      && 0 <= entrySize
      && mask == sequencer.bufferSize - 1
      && buffer.Length == sequencer.bufferSize * entrySize
      && ViewValid(view, buffer.Length)
    }

    /** A zero-filled buffer of `bufferSize * entrySize` bytes, viewed whole. */
    constructor (sequencer: Sequencer, entrySize: int)
      requires sequencer.Valid() && 0 <= entrySize
      requires sequencer.bufferSize * entrySize <= INT_MAX
      ensures Valid() && this.sequencer == sequencer && this.entrySize == entrySize && fresh(buffer)
      ensures view == View(0, buffer.Length)
      ensures forall i :: 0 <= i < buffer.Length ==> buffer[i] == 0
    {
      this.sequencer := sequencer;
      this.entrySize := entrySize;
      mask := sequencer.bufferSize - 1;
      buffer := new bv8[sequencer.bufferSize * entrySize](_ => 0);
      view := View(0, sequencer.bufferSize * entrySize);
    }

    /** Where the entry of `sequence` starts. */
    function StartOf(sequence: int): int
      reads this
      requires Valid()
    {
      EntryStart(sequence, sequencer.bufferSize, entrySize)
    }

    /**
     * Points the view at the entry of `sequence`: position first, then limit.
     * Fails (`ok == false`, view unchanged) exactly when the entry starts past
     * the view's current limit.
     */
    method Get(sequence: int) returns (ok: bool)
      requires Valid()
      modifies this`view
      ensures Valid()
      ensures ok == (StartOf(sequence) <= old(view.limit))
      ensures view == if ok then View(StartOf(sequence), StartOf(sequence) + entrySize) else old(view)
    {
      var index := Index(sequence, mask);
      var position := index * entrySize;
      var limit := position + entrySize;
      assert position == StartOf(sequence);
      var moved := WithPosition(view, position);
      if moved.None? {
        ok := false;
        return;
      }
      view := moved.value;
      view := WithLimit(view, limit, buffer.Length).value;
      ok := true;
    }

    /**
     * `get` with the limit set before the position: points the view at the
     * entry of `sequence` from any view state.
     */
    method GetLimitFirst(sequence: int)
      requires Valid()
      modifies this`view
      ensures Valid()
      ensures view == View(StartOf(sequence), StartOf(sequence) + entrySize)
    {
      var position := Index(sequence, mask) * entrySize;
      assert position == StartOf(sequence);
      RepositionLimitFirstTotal(view, position, position + entrySize, buffer.Length);
      view := WithLimit(view, position + entrySize, buffer.Length).value;
      view := WithPosition(view, position).value;
    }

    /**
     * Claims a sequence, copies `data` into its entry through the view and
     * publishes the sequence on every way out.
     */
    method Put(data: seq<bv8>) returns (outcome: PutOutcome)
      requires Valid()
      modifies this`view, buffer, sequencer`claimed, sequencer`published
      ensures Valid()
      ensures sequencer.claimed == old(sequencer.claimed) + 1
      ensures sequencer.published == old(sequencer.published) + [sequencer.claimed]
      ensures outcome == if StartOf(sequencer.claimed) > old(view.limit) then PositionRejected
                         else if |data| > entrySize then Overflow
                         else Written
      ensures buffer[..] == if outcome == Written
                            then Overwrite(old(buffer[..]), StartOf(sequencer.claimed), data)
                            else old(buffer[..])
      ensures outcome == Written ==>
                view == View(StartOf(sequencer.claimed) + |data|, StartOf(sequencer.claimed) + entrySize)
      ensures outcome == Overflow ==>
                view == View(StartOf(sequencer.claimed), StartOf(sequencer.claimed) + entrySize)
      ensures outcome == PositionRejected ==> view == old(view)
    {
      var next := sequencer.Next();
      var ok := Get(next);
      if !ok {
        outcome := PositionRejected;
      } else if |data| > view.limit - view.position {
        outcome := Overflow;
      } else {
        var at := view.position;
        forall k | 0 <= k < |data| {
          buffer[at + k] := data[k];
        }
        assert buffer[..] == Overwrite(old(buffer[..]), at, data);
        view := view.(position := at + |data|);
        outcome := Written;
      }
      sequencer.Publish(next);
    }
  }
}
