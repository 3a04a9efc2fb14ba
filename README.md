# Verified model of the yow2013 ring buffers, valid-flag wrappers and GC pause analyser

This project is a Dafny model of the sequential logic in the `yow2013` demonstration code built around the LMAX Disruptor. It covers four pieces:

- **`CustomRingBuffer`**: an in-heap ring of object slots. Its size is a power of two and a slot is addressed by `sequence & mask`. `put` claims a sequence from the sequencer, stores the event in that sequence's slot and publishes the sequence. `take` returns a slot's contents and clears the slot. `createHandler` wraps a user handler so that the handler receives `take(sequence)`, and it registers the new processor's sequence as a gating sequence.
- **`OffHeapRingBuffer`**: one byte buffer of `bufferSize * entrySize` bytes, cut into fixed-width entries. `get(sequence)` points a view, meaning a position/limit cursor, at the entry of `sequence`. `put(data)` claims a sequence, copies `data` into the entry and publishes the sequence in a `finally` block.
- **`SafeyTranslatorOneArg` / `SafeyHandler`**: the `isValid` protocol. The translator clears the flag, runs the wrapped translator, then sets the flag. The handler skips messages whose flag is clear.
- **`GCAnalyser.runAnalysis`**: a line-by-line state machine. It sums pause durations per accepted timestamp and writes pause and percent records.

The Disruptor sequencer is library code and is not part of this model. It appears only as an abstract single-producer counter (`Sequencing.Sequencer`):
- `Next` claims the sequence after every earlier claim.
- `Publish` records a published sequence.
- `AddGatingSequence` registers a consumer's progress sequence and moves it to the sequencer's cursor, the sequence published last.

Files:
- `ring_index.dfy`: masking arithmetic.
- `sequencer.dfy`: the sequencer.
- `custom_ring_buffer.dfy`, `off_heap_ring_buffer.dfy`, `base_message.dfy`, `gc_analyser.dfy`: one file per source component.
- `wrappers.dfy`: `Option`.

Modelling conventions:
- Java `null` is `None`.
- Java `long` sequences are unbounded integers. A 64-bit sequence does not wrap within a run.
- Java's `sequence & mask` is a bit-by-bit AND on two's-complement integers (`RingIndex.And`), so it covers negative sequences too.
- An exception thrown out of a method is an outcome value: `PutOutcome`, or `completed == false` in `TranslateTo`.
- The GC analyser reads lines the two regular expressions have already classified, as `LogLine(stopped, stamp)`. Durations are exact non-negative reals.

Publishing and the entry window:
- `OffHeapRingBuffer.put` publishes on every exit path, through `finally`. `CustomRingBuffer.put` has no `finally`, but nothing between its claim and its publish can fail: `IndexOf` always lies inside the array. So the model publishes unconditionally there.
- `OffHeapRingBuffer.get` confines the view to one entry by setting `limit = position + entrySize`, and the model does the same.

## Model

| member | source | states |
|---|---|---|
| `RingIndex.AndAtMostMask` | src/yow2013/immutable/CustomRingBuffer.java:23 | `seq & mask` never exceeds `mask`, so the `(int)` cast of the index never truncates |
| `RingIndex.MaskIsMod` | src/yow2013/immutable/CustomRingBuffer.java:23 | for a power-of-two size, masking with `size - 1` equals the remainder modulo `size`, negative numbers included |
| `RingIndex.IndexIsMod` | src/yow2013/immutable/CustomRingBuffer.java:21-24 | `index(seq)` lies in `[0, size)` and equals `seq mod size` |
| `RingIndex.IndexPeriodic` | src/yow2013/offheap/OffHeapRingBuffer.java:50-52 | sequences a multiple of the size apart map to the same slot |
| `RingIndex.SameIndexIffCongruent` | src/yow2013/immutable/CustomRingBuffer.java:21-24 | two sequences share a slot if and only if they are congruent modulo the size |
| `RingIndex.IndexDistinctWithinCapacity` | src/yow2013/immutable/CustomRingBuffer.java:21-24 | sequences fewer than `size` apart use different slots |
| `Sequencing.Sequence.constructor` | src/yow2013/immutable/CustomRingBuffer.java:60 | a consumer's progress sequence starts at -1 |
| `Sequencing.Sequencer.constructor` | src/yow2013/immutable/CustomPerformanceTest.java:15 | a sequencer has a power-of-two size, nothing claimed (-1), nothing published and no gating sequences |
| `Sequencing.Sequencer.Next` | src/yow2013/immutable/CustomRingBuffer.java:28 | `next()` returns a sequence one greater than every sequence claimed before, and records it as claimed |
| `Sequencing.Sequencer.Publish` | src/yow2013/immutable/CustomRingBuffer.java:30 | `publish(s)` appends `s` to the published sequences |
| `Sequencing.Sequencer.AddGatingSequence` | src/yow2013/immutable/CustomRingBuffer.java:60 | the sequence is appended to the gating sequences and set to the cursor: the last published sequence, or -1 before any publish |
| `CustomRing.Slot` | src/yow2013/immutable/CustomRingBuffer.java:21-24 | a sequence's slot is inside the slot array and is the sequence modulo the array length |
| `CustomRing.AccessTouchesOneSlot` | src/yow2013/immutable/CustomRingBuffer.java:26-40 | a put sets its slot to the item and a take sets its slot to empty; every other slot is unchanged |
| `CustomRing.OtherAccessesKeepSlot` | src/yow2013/immutable/CustomRingBuffer.java:26-40 | puts and takes at sequences not congruent to `s` leave the slot of `s` as it was |
| `CustomRing.PutThenTake` | src/yow2013/immutable/CustomRingBuffer.java:26-40 | after `put(e)` at `s` and any accesses that do not touch `s`'s slot, `take(s)` yields `e` and a second `take(s)` yields null |
| `CustomRing.PutSurvivesNextClaims` | src/yow2013/immutable/CustomRingBuffer.java:26-31 | an item put at `s` survives the next `size - 1` puts; the put at `s + size` overwrites it |
| `CustomRing.CustomRingBuffer.constructor` | src/yow2013/immutable/CustomRingBuffer.java:14-19 | the slot array has exactly `bufferSize` entries, all null, and `mask == bufferSize - 1` |
| `CustomRing.CustomRingBuffer.IndexOf` | src/yow2013/immutable/CustomRingBuffer.java:21-24 | `index(seq)` is a valid array index equal to `seq mod bufferSize` |
| `CustomRing.CustomRingBuffer.Put` | src/yow2013/immutable/CustomRingBuffer.java:26-31 | claims `next = old claimed + 1`, stores `e` in `next`'s slot and changes no other slot, and publishes that same `next` |
| `CustomRing.CustomRingBuffer.Take` | src/yow2013/immutable/CustomRingBuffer.java:35-40 | returns what `seq`'s slot held, leaves that slot null and every other slot unchanged |
| `CustomRing.CustomRingBuffer.Get` | src/yow2013/immutable/CustomRingBuffer.java:43-46 | the data provider returns the ring itself for every sequence |
| `CustomRing.CustomRingBuffer.CreateHandler` | src/yow2013/immutable/CustomRingBuffer.java:48-63 | returns a new processor over this ring whose new sequence is appended to the sequencer's gating sequences, set to the cursor; it is -1 when the handler is created before the first put, as at every call site |
| `CustomRing.Processor.constructor` | src/yow2013/immutable/CustomRingBuffer.java:50-58 | the processor reads this ring and owns a fresh progress sequence at -1 |
| `CustomRing.Processor.Dispatch` | src/yow2013/immutable/CustomRingBuffer.java:54-57 | the user handler receives exactly `take(sequence)` with the same sequence and end-of-batch flag; the delivered slot is left null |
| `OffHeap.EntryStart` | src/yow2013/offheap/OffHeapRingBuffer.java:31-33 | an entry starts at `index(seq) * entrySize`, is non-negative and ends within `bufferSize * entrySize` |
| `OffHeap.EntriesDisjoint` | src/yow2013/offheap/OffHeapRingBuffer.java:31-33 | entries of sequences in different slots do not overlap |
| `OffHeap.CongruentSameEntry` | src/yow2013/offheap/OffHeapRingBuffer.java:31-33 | sequences a multiple of the size apart get the same entry |
| `OffHeap.OverwriteFrame` | src/yow2013/offheap/OffHeapRingBuffer.java:44 | copying `data` at `p` puts `data` at `[p, p + |data|)` and changes no other byte |
| `OffHeap.WriteStaysInEntry` | src/yow2013/offheap/OffHeapRingBuffer.java:41-45 | writing at most `entrySize` bytes at `s`'s entry puts the data at the head of that entry and changes no other entry |
| `OffHeap.RepositionAsWritten` | src/yow2013/offheap/OffHeapRingBuffer.java:36 | `position(p).limit(l)` succeeds if and only if `p` is not past the view's current limit, and then yields `[p, l)` |
| `OffHeap.ForwardJumpRejected` | src/yow2013/offheap/OffHeapRingBuffer.java:36 | with one-byte entries and four slots, `get(0)` followed by `get(2)` on the same view is refused |
| `OffHeap.RepositionLimitFirstTotal` | src/yow2013/offheap/OffHeapRingBuffer.java:36 | setting the limit before the position reaches any window inside the buffer from any valid view |
| `OffHeap.OffHeapRingBuffer.constructor` | src/yow2013/offheap/OffHeapRingBuffer.java:22-27 | the backing buffer holds exactly `bufferSize * entrySize` zero bytes, `mask == bufferSize - 1`, and the view covers the whole buffer |
| `OffHeap.OffHeapRingBuffer.Get` | src/yow2013/offheap/OffHeapRingBuffer.java:29-39 | the view becomes `[index * entrySize, index * entrySize + entrySize)`; this fails, leaving the view unchanged, exactly when that position is past the current limit |
| `OffHeap.OffHeapRingBuffer.GetLimitFirst` | src/yow2013/offheap/OffHeapRingBuffer.java:36 | with the limit set first, the view always becomes the entry's window |
| `OffHeap.OffHeapRingBuffer.Put` | src/yow2013/offheap/OffHeapRingBuffer.java:41-48 | claims `next` and publishes it on every outcome. The data is written at the entry start only when the view accepted the entry and `|data| <= entrySize`. Otherwise no byte changes, and data longer than an entry is refused, never spilled into the next entry |
| `BaseMessages.Message.constructor` | src/yow2013/basic/BaseMessage.java:6-8 | a new message is not valid |
| `BaseMessages.EventHandler.OnEvent` | src/yow2013/basic/BaseMessage.java:36 | the wrapped handler records each call it receives, once |
| `BaseMessages.SafeyTranslatorOneArg.constructor` | src/yow2013/basic/BaseMessage.java:14-16 | the wrapper keeps the given delegate |
| `BaseMessages.SafeyTranslatorOneArg.TranslateTo` | src/yow2013/basic/BaseMessage.java:18-22 | the delegate runs once on the message's fields with the same sequence and argument. If it returns, `isValid` ends `true` whatever it wrote; if it throws, `isValid` stays `false` unless the delegate itself set it |
| `BaseMessages.SafeyHandler.constructor` | src/yow2013/basic/BaseMessage.java:28-30 | the wrapper keeps the given delegate |
| `BaseMessages.SafeyHandler.OnEvent` | src/yow2013/basic/BaseMessage.java:32-37 | an invalid message is not passed on. A valid one is passed to the delegate exactly once, with the same message, sequence and end-of-batch flag. The message, including `isValid`, is never modified |
| `BaseMessages.TranslateThenHandle` | src/yow2013/basic/BaseMessage.java:18-37 | when the delegate translator does not write the flag, the inner handler receives the message if and only if translation completed. A failed translation is never handled |
| `GcAnalysis.RunAnalysis` | src/yow2013/GCAnalyser.java:64-114 | the loop's output equals the fold of `Step` over the lines followed by the final flush |
| `GcAnalysis.PauseBeforeTimestampIgnored` | src/yow2013/GCAnalyser.java:75-83 | a pause line before any accepted timestamp changes no state and writes nothing |
| `GcAnalysis.PauseAccumulates` | src/yow2013/GCAnalyser.java:79-81 | after an accepted timestamp, a pause of `d` adds `d` to the total and sets the maximum to `max(max, d)`, writing nothing |
| `GcAnalysis.PauseLineIsNoTimestamp` | src/yow2013/GCAnalyser.java:74-87 | a pause line is never treated as a timestamp line, even if the GC pattern would also match it |
| `GcAnalysis.EarlyTimestampIgnored` | src/yow2013/GCAnalyser.java:91 | a timestamp not strictly after the monitoring start changes nothing and writes nothing |
| `GcAnalysis.AcceptedTimestamp` | src/yow2013/GCAnalyser.java:91-105 | an accepted timestamp becomes current. If a previous timestamp had a non-zero total, it emits one pause record for that timestamp and one percent record, then resets both totals to 0. Otherwise it writes nothing |
| `GcAnalysis.StepKeepsInvariant` | src/yow2013/GCAnalyser.java:72-108 | each line preserves the run invariant: `0 <= maxTime <= totalTime`, equal record counts, paired records, and the record totals plus the pending total equal the counted pause time |
| `GcAnalysis.ScanInvariant` | src/yow2013/GCAnalyser.java:72-108 | the run invariant holds after every prefix of the log |
| `GcAnalysis.RecordCounts` | src/yow2013/GCAnalyser.java:93-113 | at the end there is one more pause record than percent records exactly when a timestamp was accepted with a non-zero pending total, and equally many otherwise. Every pause record has a positive total no smaller than its maximum |
| `GcAnalysis.NoPauseTimeLost` | src/yow2013/GCAnalyser.java:64-114 | the pause records' totals add up to the durations of all pause lines after the first accepted timestamp |
| `GcAnalysis.NoTimestampNoOutput` | src/yow2013/GCAnalyser.java:77-113 | a log without an accepted timestamp produces no records |

## Findings

| source | as written | input that shows it | evidently intended | confidence | as-written member | corrected member |
|---|---|---|---|---|---|---|
| src/yow2013/offheap/OffHeapRingBuffer.java:36 | `get` calls `position(position)` before `limit(limit)`. A byte-buffer view refuses a position beyond its current limit (`IllegalArgumentException`), and the view still carries the limit left by the previous `get`. | Four slots, `entrySize` 1, a fresh view: `get(0)` leaves the view at `[0, 1)`, then `get(2)` asks for position 2 > limit 1 and throws. | Any entry can be selected from any view state, which setting the limit first (`limit(limit).position(position)`) achieves. | not executed; medium: it follows from the byte-buffer contract, and in-order access (each position equal to the previous limit, or a wrap to 0) never triggers it | `OffHeap.ForwardJumpRejected` (about `OffHeap.Reposition`, used by `OffHeap.OffHeapRingBuffer.Get`) | `OffHeap.RepositionLimitFirstTotal` (about `OffHeap.RepositionLimitFirst`, used by `OffHeap.OffHeapRingBuffer.GetLimitFirst`) |

`OffHeapRingBuffer.Put` calls the as-written `Get`, so a put whose entry starts past the view's limit ends with `PositionRejected`. No bytes are written, and the sequence is still published by the `finally` block.

## Left out

- `Sequencing.Sequencer.Next`: does not model the capacity wait. The library's `next()` spins until `next - bufferSize` is not beyond the slowest gating sequence; the model claims immediately. The gating sequences are recorded but never consulted. The wait is library behaviour (`SingleProducerSequencer`), not code of this repository.
- `Sequencing.Sequencer.constructor`: requires a power-of-two size that fits a Java `int`. The library rejects other sizes with an exception, which is not modelled.
- Library internals are not part of this model: `SingleProducerSequencer`, `BatchEventProcessor`, `SequenceBarrier` and `YieldingWaitStrategy`. That covers memory ordering, the barrier, the wait strategy, the batch loop and `halt`. `CustomRing.Processor.Dispatch` models one delivery of the batch loop only, and `sequencer.newBarrier()` is not modelled.
- Thread-local views: the off-heap ring keeps one view, so per-thread duplicates (`ThreadLocal`, `ThreadLocalBuffer.java`) are not modelled.
- `OffHeap.OffHeapRingBuffer.constructor`: requires `entrySize >= 0` and `bufferSize * entrySize` within a Java `int`. It does not model the `IllegalArgumentException` for a negative capacity, or the 32-bit wrap-around of that product when it overflows.
- `OffHeap.OffHeapRingBuffer.Put`: a `null` array (`NullPointerException`) is not modelled. Data is a byte sequence.
- `CustomRing.CustomRingBuffer.Put`: the source accepts a `SimpleEvent` into an `Object[]` and `take` casts it back to `T`. The model uses one element type `T` for both.
- `BaseMessages.SafeyTranslatorOneArg.TranslateTo`: the wrapped translator is a function of the message's own fields, the sequence and the argument. It does not see the `isValid` flag, which is `false` during the call. Its effect is applied exactly once.
- The user-level event handlers are seen only through the calls they receive: `HandlerCall`, `EventHandler.received`.
- Both ping-pong latency tests and `CustomPerformanceTest`: threads, barriers, latches, timing and histograms.
- `SimpleEventHandler`: random Gaussian slot choice.
- `PlayerMove`: stubs and library `ByteBuffer` decoding.
- `EventHolder`: a bare field holder.
- `GCAnalyser`: `main`, `closeFile` and `printGnuPlotCommand` are file and console I/O.
- `GCAnalyser`: regular-expression matching and date parsing are replaced by pre-classified lines. The pattern `[0-9.]+` also matches non-numbers such as `1.2.3` or `.`; on such a line, once a timestamp has been accepted, `Double.parseDouble` throws `NumberFormatException` and `runAnalysis` aborts before its final flush. `LogLine` carries only parsed durations, so that abort is not modelled.
- `GCAnalyser`: `printGcPauseLine` and `printGcPercentLine` are reduced to the values they are given. The `timestamp / 1000` and `(long)(x * 1000000)` conversions and the percent division are not modelled.
- `GCAnalyser`: double-precision rounding in the running total is not modelled. Totals are exact reals.
