# Kinesis record batcher and air-gap message wrapper

This project models two pieces of the Benthos stream processor in Dafny and proves their properties.

**The Kinesis record batcher** (`lib/input/aws_kinesis_record_batcher.go`) is one shard consumer's batcher:
- It turns stream records into message parts, tags each part with the stream, shard, partition key and sequence number, and counts the records.
- It hands parts to a batching policy.
- On a flush it reserves a slot in a capped checkpointer under the current record count. A timeout means "not this time" and keeps the batch pending.
- On success it remembers the sequence number of the batch's last record under that index and hands the batch out with an acknowledgment.
- The acknowledgment resolves the slot. It moves the externally visible sequence to the checkpointer's watermark: the end of the longest fully resolved prefix of tracked indices.

The batcher is the class `KinesisBatcher.Batcher`. Its fields are those of the Go struct, plus ghost state: the seed sequence, and the sequence numbers and the parts of all records added, in order. `Valid()` is the invariant every method keeps:
- `batchedIndex` is the number of records added, and `batchedSequence` is the sequence number of the last one.
- Every counted record is accounted for. The checkpointer's last tracked index, plus the length of the pending batch, plus the number of the policy's items, equals `batchedIndex`. The pending batch followed by the policy's items is exactly the list of parts of the records after the last tracked index, in the order the records were added. `FlushMessage` emits exactly that list, so each batch handed out holds the parts of the records between two consecutive tracked indices. A pending batch is never empty, and while one waits the policy holds nothing.
- The wait-group counter equals the number of unresolved slots.
- Every ledger entry `k` holds the sequence number of record `k`, and every tracked index above the watermark is still in the ledger.
- `ackedSequence` is exactly the sequence number at the watermark, or the seed while the watermark is 0.

The ack closure is the method `Ack(index)`, called with the index the closure captured. Its pruning loop is modelled as written: it deletes the entry at the watermark once for every key at or below it, never a lower visited key. So only the watermark's entry leaves the map. Entries for lower indices that the watermark jumped over stay for good. They are never read again, and `Valid()` allows them.

**The air-gap message** (`public/service/message.go`) is the class `ServiceMessage.AirGapMessage`. It wraps a part that may still be shared with its creator, together with `partCopied`. Every mutator calls `EnsureCopied` first, which replaces the part by a fresh copy the first time only. A part still shared is therefore never changed through the wrapper: the mutators' `modifies` clauses and their postconditions say so. `CopyMessage` builds an independent wrapper:
- For an air-gap message it copies the part.
- For any other implementation it rebuilds the part from the structured body (or else the bytes) and from every pair its metadata walk visits.

Three collaborators are not part of this model's sources. Each gets an assumed minimal stand-in:
- `Checkpoint` replaces the capped checkpointer. It holds an ordered list of tracked indices with resolved flags.
  - `Track` fails when the unresolved count is at the cap, and always with `Timeout`: a cancelled context and an elapsed deadline give the same error.
  - `Resolve` marks the index and returns the watermark, or `OutOfSync` for an index it does not hold unresolved.
- `BatchPolicy` replaces the batching policy. It is a sequence accumulator with a count threshold.
- The lib/message part is the class `ServiceMessage.Part`: bytes, an optional structured document and a metadata map. Its value, `ServiceMessage.PartValue`, is also the part the batcher builds, since the batcher never changes a part once built.

## Model

| member | source | states |
|---|---|---|
| `KinesisBatcher.RecordPart` | lib/input/aws_kinesis_record_batcher.go:51-58 | the part carries the record's data, no structured document, and exactly the keys stream, shard and sequence number, plus the partition key when the record has one, each with its value |
| `KinesisBatcher.Batcher.constructor` | lib/input/aws_kinesis_record_batcher.go:34-48 | a fresh batcher: nothing pending, counters zero, empty ledger, `ackedSequence` is the given sequence, and the invariant holds |
| `KinesisBatcher.Batcher.AddRecord` | lib/input/aws_kinesis_record_batcher.go:50-71 | `batchedIndex` grows by exactly one, `batchedSequence` becomes the record's sequence number, and the record's part is appended to the parts added so far. With a batch pending, the part is appended to it and the result is true without touching the policy; otherwise the result is the policy's `Add`. Checkpointer, ledger, acked sequence and wait group are unchanged, and the invariant is kept |
| `KinesisBatcher.Batcher.HasPendingMessage` | lib/input/aws_kinesis_record_batcher.go:73-75 | true exactly when a non-empty batch is pending, and then not every counted record has been tracked yet |
| `KinesisBatcher.Batcher.FlushMessage` | lib/input/aws_kinesis_record_batcher.go:77-122 | three outcomes. (1) Nothing pending and an empty policy: empty result, no error, nothing changes. (2) Track fails: empty result and no error, since the only failure is a timeout; the batch stays pending, ledger and wait group are unchanged. (3) Otherwise: the result is exactly the batch, acked under the current record count; it holds the parts of the records after the previous last tracked index up to that count, in order. That count becomes the last tracked index; the ledger gains that index's sequence number; the wait group grows by one; nothing is pending. The invariant is kept in every case |
| `KinesisBatcher.Batcher.TakePending` | lib/input/aws_kinesis_record_batcher.go:78-82 | with nothing pending, the policy's flush becomes the pending batch; it reports whether a batch is pending; nothing else changes; the invariant is kept |
| `KinesisBatcher.Batcher.Emit` | lib/input/aws_kinesis_record_batcher.go:91-99 | after a successful Track, the checkpointer takes the tracked slot, the ledger learns `batchedIndex -> batchedSequence`, the wait group grows by one and the batch is no longer pending; the invariant is kept |
| `KinesisBatcher.Batcher.Ack` | lib/input/aws_kinesis_record_batcher.go:100-118 | the checkpointer becomes `Resolve`'s result and the error is `Resolve`'s. Only when there is no error and the returned watermark is in the ledger does `ackedSequence` become that entry, with only that entry removed. The wait group drops by one, the watermark never moves back, and the invariant is kept |
| `KinesisBatcher.PruneLedger` | lib/input/aws_kinesis_record_batcher.go:107-111 | the loop as written removes just the watermark's entry and keeps every lower entry |
| `KinesisBatcher.LedgerAfterAppend` | lib/input/aws_kinesis_record_batcher.go:60-61 | counting one more record keeps the ledger invariant |
| `KinesisBatcher.LedgerAfterTrack` | lib/input/aws_kinesis_record_batcher.go:84-94 | tracking the record count and storing its sequence number under it keeps the ledger invariant |
| `KinesisBatcher.LedgerAfterResolve` | lib/input/aws_kinesis_record_batcher.go:101-112 | after a resolve that keeps the tracked indices and moves the watermark forward onto a tracked index: publishing the new watermark's entry and deleting it restores the ledger invariant; if the watermark is not in the ledger it did not move |
| `KinesisBatcher.Batcher.GetSequence` | lib/input/aws_kinesis_record_batcher.go:128-133 | the result is the sequence number of record number `Top` (the watermark), and the seed sequence while the watermark is 0 |
| `KinesisBatcher.Batcher.Close` | lib/input/aws_kinesis_record_batcher.go:135-140 | the policy is closed and nothing else changes; after a blocking close every slot is resolved, so the published sequence is that of the last emitted record |
| `KinesisBatcher.AddAndFlush` | lib/input/aws_kinesis_record_batcher.go:50-122 | with a count threshold of one and room under the cap, adding a record and flushing tracks the next index as an unresolved slot and stores the record's sequence number under it; the acked sequence is unchanged |
| `KinesisBatcher.ThreeBatches` | lib/input/aws_kinesis_record_batcher.go:34-122 | records "A", "B", "C" through a fresh batcher with cap 3 leave slots 1, 2, 3 unresolved, the ledger mapping them to "A", "B", "C", and the acked sequence at the seed |
| `KinesisBatcher.OutOfOrderAcks` | lib/input/aws_kinesis_record_batcher.go:100-133 | acking those batches as 2, 1, 3 reads the seed, then "B", then "C" as the sequence, and leaves the ledger entry of index 1 behind |
| `BatchPolicy.NewPolicy` | lib/input/aws_kinesis_record_batcher.go:35 | an empty, open accumulator with the given count threshold |
| `BatchPolicy.Add` | lib/input/aws_kinesis_record_batcher.go:70 | the item is appended; the result is true exactly when the count threshold is set and reached |
| `BatchPolicy.Flush` | lib/input/aws_kinesis_record_batcher.go:79 | everything accumulated comes out in order and the accumulator is emptied; nothing comes out exactly when it was empty |
| `BatchPolicy.Close` | lib/input/aws_kinesis_record_batcher.go:139 | only the closed flag changes |
| `Checkpoint.NewCapped` | lib/input/aws_kinesis_record_batcher.go:44 | a valid checkpointer with the given cap, nothing tracked and watermark 0 |
| `Checkpoint.Track` | lib/input/aws_kinesis_record_batcher.go:84 | succeeds exactly when fewer than `limit` slots are unresolved, then appends an unresolved slot for the index; a failure changes nothing and is always `Timeout`, whatever the context |
| `Checkpoint.Resolve` | lib/input/aws_kinesis_record_batcher.go:101 | succeeds exactly when the index has an unresolved slot, and then returns the new watermark; otherwise `OutOfSync` with nothing changed |
| `Checkpoint.ResolvedPrefix` | lib/input/aws_kinesis_record_batcher.go:101 | the length of the longest all-resolved prefix: every slot before it is resolved, the slot at it is not |
| `Checkpoint.Find` | lib/input/aws_kinesis_record_batcher.go:101 | the position of the index's unresolved slot, or none when no such slot exists |
| `Checkpoint.TrackKeepsWatermark` | lib/input/aws_kinesis_record_batcher.go:84 | a successful Track above the last index keeps the checkpointer valid and the watermark where it was, makes the index the last one and adds one unresolved slot within the cap |
| `Checkpoint.TopAtMostLast` | lib/input/aws_kinesis_record_batcher.go:101 | the watermark never passes the last tracked index |
| `Checkpoint.TopIsTracked` | lib/input/aws_kinesis_record_batcher.go:101 | the watermark is 0 or a tracked index |
| `Checkpoint.ResolvedUpToTop` | lib/input/aws_kinesis_record_batcher.go:101 | every tracked index at or below the watermark is resolved |
| `Checkpoint.TopIsHighest` | lib/input/aws_kinesis_record_batcher.go:101 | every tracked index above the watermark has an unresolved slot at or before it |
| `Checkpoint.ResolveAdvancesTop` | lib/input/aws_kinesis_record_batcher.go:101-106 | resolving never moves the watermark backwards |
| `Checkpoint.ResolveKeepsValid` | lib/input/aws_kinesis_record_batcher.go:101 | a successful resolve keeps the checkpointer valid and every tracked index in place, and frees exactly one unit of capacity |
| `Checkpoint.ResolveMarksOnlyIndex` | lib/input/aws_kinesis_record_batcher.go:101 | after a successful resolve a slot is resolved exactly when it was resolved before or it tracks the resolved index: that slot is marked and every other slot keeps its flag |
| `Checkpoint.ResolveFreesCapacity` | lib/input/aws_kinesis_record_batcher.go:84-101 | a Track that hit the cap succeeds after a successful resolve |
| `Checkpoint.ResolveTwiceIsOutOfSync` | lib/input/aws_kinesis_record_batcher.go:101-117 | resolving the same index a second time fails with `OutOfSync` and changes nothing |
| `Checkpoint.DrainedTopIsLast` | lib/input/aws_kinesis_record_batcher.go:135-139 | with nothing unresolved the watermark is the last tracked index |
| `Checkpoint.OutOfOrderScenario` | lib/input/aws_kinesis_record_batcher.go:100-112 | batches tracked as 1, 2, 3 and acked as 2, 1, 3 leave the watermark at 0, then move it to 2, then to 3 |
| `ServiceMessage.AirGapMessage.constructor` | public/service/message.go:84-86 | `newAirGapMessage` wraps the given part itself, not a copy, with `partCopied` false |
| `ServiceMessage.AirGapMessage.Owning` | public/service/message.go:45-48 | a wrapper around a part it owns: `partCopied` true |
| `ServiceMessage.AirGapMessage.EnsureCopied` | public/service/message.go:88-93 | afterwards `partCopied` holds. The first call puts a fresh part with equal contents in place; a later call keeps the same part |
| `ServiceMessage.AirGapMessage.Bytes` | public/service/message.go:99-102 | the part's bytes, with ok exactly when they are non-empty |
| `ServiceMessage.AirGapMessage.Structured` | public/service/message.go:104-110 | a document exactly when the part holds one, and then the part's own document |
| `ServiceMessage.AirGapMessage.MetaGet` | public/service/message.go:126-129 | the stored value or "" when absent; ok exactly when the key is present with a non-empty value, so a key set to "" reads as absent |
| `ServiceMessage.AirGapMessage.SetBytes` | public/service/message.go:112-115 | the wrapper's own part gets the bytes and loses any document. A part still shared is replaced by a fresh copy first and keeps its contents |
| `ServiceMessage.AirGapMessage.SetStructured` | public/service/message.go:117-120 | the wrapper's own part gets the document and its serialization. A part still shared is replaced by a fresh copy first and keeps its contents |
| `ServiceMessage.AirGapMessage.MetaSet` | public/service/message.go:131-134 | the wrapper's own part's metadata gains `key := value`. A part still shared is replaced by a fresh copy first and keeps its contents |
| `ServiceMessage.AirGapMessage.MetaDelete` | public/service/message.go:136-139 | the wrapper's own part loses `key`. A part still shared is replaced by a fresh copy first and keeps its contents |
| `ServiceMessage.AirGapMessage.MetaWalk` | public/service/message.go:141-148 | visits distinct keys with their stored values, calls the callback true on all but the last, and either some call answered false or every key was visited; neither the part nor the flag changes |
| `ServiceMessage.CopyMessage` | public/service/message.go:43-73 | a fresh wrapper owning a fresh part (`partCopied` true). Its contents equal the original wrapper's part, or else the foreign message's structured body (else bytes) with the metadata its walk leaves when replayed in order |
| `ServiceMessage.MetaOf` | public/service/message.go:64-67 | the keys of the copied metadata are exactly the keys the walk visited |
| `ServiceMessage.MetaOfHoldsEveryPair` | public/service/message.go:64-67 | when the walk visits distinct keys, every visited pair is in the copy with its value |
| `ServiceMessage.CopyIsolation` | public/service/message.go:43-49 | copying a wrapper and mutating the copy leaves the original's part unchanged, and mutating the original afterwards changes only the original |
| `ServiceMessage.Part.Copy` | public/service/message.go:46 | a fresh part with equal contents |
| `ServiceMessage.Part.constructor` | public/service/message.go:54 | a part with the given bytes, no document and no metadata |
| `ServiceMessage.Part.Set` | public/service/message.go:61 | the body becomes the bytes and the document is dropped; metadata is kept |
| `ServiceMessage.Part.SetJSON` | public/service/message.go:58 | the body becomes the document and its serialization; metadata is kept |
| `ServiceMessage.Part.MetaSet` | public/service/message.go:65 | the metadata gains `key := value`; the body is kept |
| `ServiceMessage.Part.MetaDelete` | public/service/message.go:138 | the metadata loses `key`; the body is kept |

## Left out

- `UntilNext` (lib/input/aws_kinesis_record_batcher.go:124-126) is pure delegation to the policy's time threshold, which the policy stand-in does not have.
- The policy construction error of `newAWSKinesisRecordBatcher` (:35-38): configuration parsing is not modelled. The constructor takes the count threshold and the checkpoint cap directly.
- The mutex and the wait group are modelled sequentially. The lock disappears, and the wait group is the counter `outstanding`. Concurrent interleavings of acks with flushes are out of scope.
- KinesisBatcher.Batcher.Close: the blocking wait of `Close(true)` is the precondition `outstanding == 0`, not a wait.
- KinesisBatcher.Batcher.Ack: it requires the captured index to hold an unresolved slot, that is, each ack closure is called once. Under that precondition `Resolve` never fails. The `OutOfSync` path itself is modelled in `Checkpoint.Resolve` and `Checkpoint.ResolveTwiceIsOutOfSync`. A second call of the same closure would drive the wait group below the number of unresolved slots.
- The ack closure's response argument is never read by the source, so `Ack` has no such parameter.
- The checkpointer's blocking in `Track` until capacity frees up or the context ends: the stand-in answers at once. `Checkpoint.ResolveFreesCapacity` states when a retry succeeds.
- The policy's byte-size and time thresholds and the asynchronous nature of `CloseAsync`.
- Record payloads are never nil and the sequence number is always present. The Go code dereferences it unconditionally.
- `batchedIndex` is unbounded here; Go's `int` would wrap only after 2^63 records.
- `Context` and `SetContext` (public/service/message.go:95-97, 122-124), and the context `CopyMessage` attaches (:70): contexts are not modelled.
- ServiceMessage.AirGapMessage.Structured: parsing raw bytes as JSON is not modelled. Only a body last set as a document reads as structured, so bytes that happen to be valid JSON read as unstructured.
- JSON serialization is abstract: a `Doc` is known only by the bytes it serializes to.
- ServiceMessage.AirGapMessage.MetaWalk: the callback is a pure function. The side effect of `CopyMessage`'s callback, setting each pair on the new part, is replayed by `CopyMessage` over the visited pairs in order.
- A message of another implementation is seen only through its structured body, its bytes and its walk (`ForeignMessage`). Its walk need not visit distinct keys; `MetaOf` lets later pairs win.
- Byte slices are values here, so the sharing of byte contents between a part and its copy (the source warns that copies are shallow) is not modelled.
