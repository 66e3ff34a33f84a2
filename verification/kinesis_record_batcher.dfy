/** The per-shard record batcher of the Kinesis input
    (lib/input/aws_kinesis_record_batcher.go). It turns stream records into
    message parts, feeds them to a batching policy, reserves a checkpointer slot
    for each flushed batch, remembers the sequence number of the batch's last
    record under that slot's index, and on acknowledgment advances the
    externally visible sequence to the watermark.

    The mutex and the wait group of the source are modelled sequentially: the
    lock disappears and the wait group is the counter `outstanding`. The ack
    closure handed out with a batch is the method `Ack`, called with the index
    the closure captured. */
module KinesisBatcher {
  import opened Types
  import Checkpoint
  import BatchPolicy
  import ServiceMessage

  /** A stream record: payload, optional partition key, sequence number. */
  datatype Record = Record(data: seq<Byte>, partitionKey: Option<string>, sequenceNumber: string)

  /** A message part as the batcher builds it: the part of the message
      library, as a value, since the batcher never changes a part it built. */
  type Part = ServiceMessage.PartValue

  /** What a flush hands downstream: nothing, or a batch with the index its ack resolves. */
  datatype AsyncMessage = Empty | Async(msg: seq<Part>, ackIndex: nat)

  /** The part for one record, with the Kinesis metadata attached. */
  function RecordPart(streamID: string, shardID: string, r: Record): (p: Part)
    ensures p.data == r.data && p.doc == None
    ensures p.meta.Keys == {"kinesis_stream", "kinesis_shard", "kinesis_sequence_number"}
      + (if r.partitionKey.Some? then {"kinesis_partition_key"} else {})
    ensures p.meta["kinesis_stream"] == streamID && p.meta["kinesis_shard"] == shardID
    ensures p.meta["kinesis_sequence_number"] == r.sequenceNumber
    ensures r.partitionKey.Some? ==> p.meta["kinesis_partition_key"] == r.partitionKey.value
  {
    var met := map["kinesis_stream" := streamID, "kinesis_shard" := shardID];
    var met := if r.partitionKey.Some? then met["kinesis_partition_key" := r.partitionKey.value] else met;
    ServiceMessage.PartValue(r.data, None, met["kinesis_sequence_number" := r.sequenceNumber])
  }

  // ---------------------------------------------------------------------------
  // The sequence ledger: index -> sequence number of the batch's last record.
  // Stated for any token type, so that reasoning about it never looks inside
  // the strings it stores.

  /** The token a watermark of `k` stands for: the seed for 0, otherwise that
      of record number k. */
  function SequenceAt<S>(seed: S, tokens: seq<S>, k: nat): S
    requires k <= |tokens|
  {
    if k == 0 then seed else tokens[k - 1]
  }

  /** The ledger and the acked token agree with the tracked slots and the
      watermark `top`: every ledger entry k holds the token of record number k,
      every tracked index above the watermark is still in the ledger, the
      watermark itself is not, and the acked token is the one at the watermark. */
  ghost predicate LedgerInv<S>(slots: seq<Checkpoint.Slot>, top: nat, ledger: map<nat, S>, tokens: seq<S>, seed: S, acked: S)
  {
    && top <= |tokens|
    && (forall k :: k in ledger ==> 1 <= k <= |tokens| && ledger[k] == tokens[k - 1])
    && (forall i :: 0 <= i < |slots| && slots[i].index > top ==> slots[i].index in ledger)
    && top !in ledger
    && acked == SequenceAt(seed, tokens, top)
  }

  /** Adding a record leaves the ledger invariant intact. */
  lemma LedgerAfterAppend<S>(slots: seq<Checkpoint.Slot>, top: nat, ledger: map<nat, S>, tokens: seq<S>, seed: S, acked: S, t: S)
    requires LedgerInv(slots, top, ledger, tokens, seed, acked)
    ensures LedgerInv(slots, top, ledger, tokens + [t], seed, acked)
  {
    var tokens' := tokens + [t];
    forall k | k in ledger ensures ledger[k] == tokens'[k - 1] {
      assert tokens'[k - 1] == tokens[k - 1];
    }
  }

  /** Tracking the current record count n above the watermark, with the ledger
      entry the flush writes for it, keeps the invariant. */
  lemma LedgerAfterTrack<S>(slots: seq<Checkpoint.Slot>, top: nat, ledger: map<nat, S>, tokens: seq<S>, seed: S, acked: S)
    requires LedgerInv(slots, top, ledger, tokens, seed, acked)
    requires top < |tokens|
    ensures LedgerInv(slots + [Checkpoint.Slot(|tokens|, false)], top, ledger[|tokens| := tokens[|tokens| - 1]], tokens, seed, acked)
  {
    var n := |tokens|;
    var slots' := slots + [Checkpoint.Slot(n, false)];
    forall i | 0 <= i < |slots'| && slots'[i].index > top
      ensures slots'[i].index in ledger[n := tokens[n - 1]]
    {
      if i < |slots| {
        assert slots'[i] == slots[i];
      }
    }
  }

  /** A resolve that keeps every tracked index and moves the watermark from
      `top` to `top'` (not backwards, and only onto a tracked index above it).
      If the new watermark is in the ledger, publishing its entry and deleting
      just that entry restores the invariant; if it is not, the watermark has
      not moved and leaving everything as it was does. */
  lemma LedgerAfterResolve<S>(slots: seq<Checkpoint.Slot>, slots': seq<Checkpoint.Slot>, top: nat, top': nat,
                              ledger: map<nat, S>, tokens: seq<S>, seed: S, acked: S)
    requires LedgerInv(slots, top, ledger, tokens, seed, acked)
    requires |slots'| == |slots| && forall i :: 0 <= i < |slots| ==> slots'[i].index == slots[i].index
    requires top <= top'
    requires top' == 0 || exists i :: 0 <= i < |slots'| && slots'[i].index == top'
    ensures top' !in ledger ==> top' == top
    ensures LedgerInv(slots', top', if top' in ledger then ledger - {top'} else ledger, tokens, seed,
                      if top' in ledger then ledger[top'] else acked)
  {
    if top' != top {
      var p :| 0 <= p < |slots'| && slots'[p].index == top';
      assert slots[p].index > top;
    }
    var ledger' := if top' in ledger then ledger - {top'} else ledger;
    forall i | 0 <= i < |slots'| && slots'[i].index > top'
      ensures slots'[i].index in ledger'
    {
      assert slots[i].index > top;
    }
  }

  /** The pruning loop of the ack closure as written: it visits every key and,
      for each key at or below the top, deletes the top entry (not the key it
      visits). Only the top entry ever goes; lower entries stay. */
  method PruneLedger<S>(ledger: map<nat, S>, topIndex: nat) returns (r: map<nat, S>)
    ensures r == ledger - {topIndex}
    ensures forall k :: k in ledger && k < topIndex ==> k in r && r[k] == ledger[k]
  {
    r := ledger;
    var keys := ledger.Keys;
    ghost var hit := false;
    while keys != {}
      invariant keys <= ledger.Keys
      invariant r == if hit then ledger - {topIndex} else ledger
      invariant hit || topIndex !in ledger || topIndex in keys
      decreases keys
    {
      var k :| k in keys;
      keys := keys - {k};
      if k <= topIndex {
        // a deleted key that the iteration has not reached is not visited
        r := r - {topIndex};
        keys := keys - {topIndex};
        hit := true;
      }
    }
    assert !hit ==> topIndex !in ledger;
  }

  /** `tail` is the end of `s`. */
  predicate EndsWith(s: seq<Part>, tail: seq<Part>)
  {
    |tail| <= |s| && s[|s| - |tail|..] == tail
  }

  /** Appending the same element to a sequence and to its end keeps the end. */
  lemma EndsWithAppend(s: seq<Part>, tail: seq<Part>, x: Part)
    requires EndsWith(s, tail)
    ensures EndsWith(s + [x], tail + [x])
  {
    assert (s + [x])[|s| - |tail|..] == s[|s| - |tail|..] + [x];
  }

  class Batcher {
    const streamID: string
    const shardID: string

    var policy: BatchPolicy.Policy<Part>
    var checkpointer: Checkpoint.Capped

    var flushedMessage: Option<seq<Part>>

    var batchedSequence: string
    var batchedIndex: nat

    var ackedSequence: string
    var indexToSequence: map<nat, string>
    /** The wait group: acks still owed for emitted batches. */
    var outstanding: nat

    /** The sequence the batcher was created with. */
    ghost const seed: string
    /** The sequence numbers of the records added so far, in order: that of
        record number k (from 1) is sequences[k - 1]. */
    ghost var sequences: seq<string>
    /** The parts built for the records added so far, in order: that of
        record number k (from 1) is parts[k - 1]. */
    ghost var parts: seq<Part>

    /** The parts of the flushed batch still waiting for a slot. */
    ghost function Pending(): seq<Part>
      reads this`flushedMessage
    {
      if flushedMessage.Some? then flushedMessage.value else []
    }

    /** The pending batch and then the policy's items are the parts of the
        latest records, in the order the records were added. */
    ghost predicate Ordered()
      reads this`parts, this`flushedMessage, this`policy, this`batchedIndex
    {
      |parts| == batchedIndex && EndsWith(parts, Pending() + policy.items)
    }

    ghost predicate Valid()
      reads this
    {
      // batchedIndex counts records and batchedSequence belongs to the last one
      && |sequences| == batchedIndex
      && (batchedIndex > 0 ==> batchedSequence == sequences[batchedIndex - 1])
      // the records after the last tracked index are, in order, the pending
      // batch and then the policy's items; a pending batch is never empty and
      // blocks the policy
      && Checkpoint.LastIndex(checkpointer) + |Pending()| + |policy.items| == batchedIndex
      && Ordered()
      && (flushedMessage.Some? ==> flushedMessage.value != [] && policy.items == [])
      // the wait group counts the unresolved slots
      && Checkpoint.Valid(checkpointer)
      && outstanding == Checkpoint.Unresolved(checkpointer.slots)
      && LedgerInv(checkpointer.slots, Checkpoint.Top(checkpointer), indexToSequence, sequences, seed, ackedSequence)
    }

    /** The batcher as newAWSKinesisRecordBatcher builds it. */
    constructor (streamID: string, shardID: string, sequence: string, checkpointLimit: nat, batchCount: nat)
      ensures Valid()
      ensures this.streamID == streamID && this.shardID == shardID && seed == sequence
      ensures policy == BatchPolicy.NewPolicy(batchCount) && checkpointer == Checkpoint.NewCapped(checkpointLimit)
      ensures flushedMessage.None? && batchedSequence == "" && batchedIndex == 0
      ensures ackedSequence == sequence && indexToSequence == map[] && outstanding == 0
      ensures sequences == [] && parts == []
    {
      this.streamID := streamID;
      this.shardID := shardID;
      policy := BatchPolicy.NewPolicy(batchCount);
      checkpointer := Checkpoint.NewCapped(checkpointLimit);
      flushedMessage := None;
      batchedSequence := "";
      batchedIndex := 0;
      ackedSequence := sequence;
      indexToSequence := map[];
      outstanding := 0;
      seed := sequence;
      sequences := [];
      parts := [];
    }

    /** Adds one record. While a flushed batch waits for a slot the record joins
        that batch and the result is true; otherwise the policy decides. */
    method AddRecord(r: Record) returns (full: bool)
      requires Valid()
      modifies this
      ensures Valid()
      ensures batchedIndex == old(batchedIndex) + 1 && batchedSequence == r.sequenceNumber
      ensures sequences == old(sequences) + [r.sequenceNumber]
      ensures parts == old(parts) + [RecordPart(streamID, shardID, r)]
      ensures var p := RecordPart(streamID, shardID, r);
        if old(flushedMessage).Some? then
          flushedMessage == Some(old(flushedMessage).value + [p]) && full && policy == old(policy)
        else
          flushedMessage.None? && (policy, full) == BatchPolicy.Add(old(policy), p)
      ensures checkpointer == old(checkpointer) && indexToSequence == old(indexToSequence)
      ensures ackedSequence == old(ackedSequence) && outstanding == old(outstanding)
    {
      LedgerAfterAppend(checkpointer.slots, Checkpoint.Top(checkpointer), indexToSequence, sequences, seed, ackedSequence, r.sequenceNumber);
      var p := RecordPart(streamID, shardID, r);
      EndsWithAppend(parts, Pending() + policy.items, p);
      var flushed, policy' := flushedMessage, policy;
      if flushedMessage.Some? {
        flushed, full := Some(flushedMessage.value + [p]), true;
        assert flushed.value + policy.items == Pending() + policy.items + [p];
      } else {
        var (added, full') := BatchPolicy.Add(policy, p);
        policy', full := added, full';
        assert [] + policy'.items == Pending() + policy.items + [p];
      }
      sequences, parts := sequences + [r.sequenceNumber], parts + [p];
      batchedSequence, batchedIndex, flushedMessage, policy := r.sequenceNumber, batchedIndex + 1, flushed, policy';
    }

    /** Whether a flushed batch is still waiting for a checkpointer slot. */
    function HasPendingMessage(): (r: bool)
      reads this
      requires Valid()
      ensures r <==> Pending() != []
      ensures r ==> Checkpoint.LastIndex(checkpointer) < batchedIndex
    {
      flushedMessage.Some?
    }

    /** Flushes a batch downstream. With nothing pending the policy is flushed
        first; with nothing there either, nothing happens. Otherwise a slot is
        reserved for the current record count: a timeout is "not this time" and
        yields no error, and as the checkpointer refuses a slot only with a
        timeout, a refused flush never returns one; either way the batch stays
        pending. On success the ledger learns the index's sequence number
        and the batch is handed out. */
    method FlushMessage(ctx: Checkpoint.Context) returns (msg: AsyncMessage, err: Option<Error>)
      requires Valid()
      modifies this
      ensures Valid()
      ensures batchedIndex == old(batchedIndex) && batchedSequence == old(batchedSequence)
      ensures sequences == old(sequences) && ackedSequence == old(ackedSequence)
      ensures policy.count == old(policy.count) && policy.closed == old(policy.closed)
      ensures parts == old(parts)
      ensures
        var batch := if old(flushedMessage).Some? then old(flushedMessage).value else old(policy).items;
        var track := Checkpoint.Track(old(checkpointer), ctx, old(batchedIndex));
        if batch == [] then
          && msg == Empty && err == None
          && policy == old(policy) && flushedMessage == old(flushedMessage)
          && checkpointer == old(checkpointer) && indexToSequence == old(indexToSequence)
          && outstanding == old(outstanding)
        else if track.1.Some? then
          && msg == Empty && err == None
          && flushedMessage == Some(batch) && policy.items == []
          && checkpointer == old(checkpointer) && indexToSequence == old(indexToSequence)
          && outstanding == old(outstanding)
        else
          && msg == Async(batch, old(batchedIndex)) && err == None
          && flushedMessage.None? && policy.items == []
          && checkpointer == track.0
          && indexToSequence == old(indexToSequence)[old(batchedIndex) := old(batchedSequence)]
          && outstanding == old(outstanding) + 1
      ensures msg.Async? ==> msg.ackIndex == Checkpoint.LastIndex(checkpointer) > Checkpoint.LastIndex(old(checkpointer))
      ensures msg.Async? ==> msg.msg == parts[Checkpoint.LastIndex(old(checkpointer))..msg.ackIndex]
    {
      var some := TakePending();
      if !some {
        return Empty, None;
      }
      var (_, trackErr) := Checkpoint.Track(checkpointer, ctx, batchedIndex);
      if trackErr.Some? {
        err := if trackErr.value == Timeout then None else trackErr;
        return Empty, err;
      }
      msg := Async(flushedMessage.value, batchedIndex);
      assert parts[Checkpoint.LastIndex(checkpointer)..batchedIndex] == flushedMessage.value + policy.items;
      Emit(ctx);
      err := None;
    }

    /** The first step of a flush: with nothing pending, whatever the policy
        holds becomes the pending batch. Reports whether a batch is pending. */
    method TakePending() returns (some: bool)
      requires Valid()
      modifies this
      ensures Valid()
      ensures some <==> flushedMessage.Some?
      ensures if old(flushedMessage).Some? then policy == old(policy) && flushedMessage == old(flushedMessage)
              else (policy, flushedMessage) == BatchPolicy.Flush(old(policy))
      ensures checkpointer == old(checkpointer) && indexToSequence == old(indexToSequence)
      ensures outstanding == old(outstanding) && ackedSequence == old(ackedSequence)
      ensures batchedIndex == old(batchedIndex) && batchedSequence == old(batchedSequence)
      ensures sequences == old(sequences) && parts == old(parts)
    {
      if flushedMessage.None? {
        var (policy', flushed) := BatchPolicy.Flush(policy);
        assert (if flushed.Some? then flushed.value else []) + policy'.items == [] + policy.items;
        policy, flushedMessage := policy', flushed;
      }
      some := flushedMessage.Some?;
    }

    /** The rest of a flush whose slot was granted: the checkpointer takes the
        tracked slot, the ledger learns the sequence number of the current
        record under the record count, the wait group grows by one and the
        batch is no longer pending. */
    method Emit(ctx: Checkpoint.Context)
      requires Valid() && flushedMessage.Some?
      requires Checkpoint.Track(checkpointer, ctx, batchedIndex).1.None?
      modifies this
      ensures Valid()
      ensures checkpointer == Checkpoint.Track(old(checkpointer), ctx, old(batchedIndex)).0 && flushedMessage.None?
      ensures indexToSequence == old(indexToSequence)[batchedIndex := batchedSequence]
      ensures outstanding == old(outstanding) + 1
      ensures policy == old(policy) && batchedIndex == old(batchedIndex) && batchedSequence == old(batchedSequence)
      ensures sequences == old(sequences) && ackedSequence == old(ackedSequence)
      ensures parts == old(parts)
    {
      Checkpoint.TopAtMostLast(checkpointer);
      Checkpoint.TrackKeepsWatermark(checkpointer, ctx, batchedIndex);
      LedgerAfterTrack(checkpointer.slots, Checkpoint.Top(checkpointer), indexToSequence, sequences, seed, ackedSequence);
      checkpointer := Checkpoint.Track(checkpointer, ctx, batchedIndex).0;
      indexToSequence := indexToSequence[batchedIndex := batchedSequence];
      outstanding := outstanding + 1;
      flushedMessage := None;
    }

    /** The ack closure of the batch tracked as `index`: resolves the slot and,
        when the new watermark is still in the ledger, publishes its sequence
        number and prunes that entry. The outcome of the batch is not read. */
    method Ack(index: nat) returns (err: Option<Error>)
      requires Valid()
      requires Checkpoint.Find(checkpointer.slots, index).Some?
      modifies this
      ensures Valid()
      ensures var resolved := Checkpoint.Resolve(old(checkpointer), index);
        && checkpointer == resolved.0 && err == resolved.2
        && if err.None? && resolved.1 in old(indexToSequence) then
             && ackedSequence == old(indexToSequence)[resolved.1]
             && indexToSequence == old(indexToSequence) - {resolved.1}
           else
             ackedSequence == old(ackedSequence) && indexToSequence == old(indexToSequence)
      ensures err.None?
      ensures outstanding == old(outstanding) - 1
      ensures Checkpoint.Top(checkpointer) >= Checkpoint.Top(old(checkpointer))
      ensures policy == old(policy) && flushedMessage == old(flushedMessage)
      ensures batchedIndex == old(batchedIndex) && batchedSequence == old(batchedSequence)
      ensures sequences == old(sequences) && parts == old(parts)
    {
      Checkpoint.ResolveKeepsValid(checkpointer, index);
      Checkpoint.ResolveAdvancesTop(checkpointer, index);
      var (checkpointer', topIndex, resolveErr) := Checkpoint.Resolve(checkpointer, index);
      Checkpoint.TopIsTracked(checkpointer');
      LedgerAfterResolve(checkpointer.slots, checkpointer'.slots, Checkpoint.Top(checkpointer), topIndex,
                         indexToSequence, sequences, seed, ackedSequence);
      var acked, ledger := ackedSequence, indexToSequence;
      if resolveErr.None? && topIndex in ledger {
        acked := ledger[topIndex];
        ledger := PruneLedger(ledger, topIndex);
      }
      checkpointer, ackedSequence, indexToSequence, outstanding := checkpointer', acked, ledger, outstanding - 1;
      err := resolveErr;
    }

    /** The sequence that is safe to resume from: the sequence number of the
        last record of the batch at the watermark, or the seed. */
    function GetSequence(): (s: string)
      reads this
      requires Valid()
      ensures s == SequenceAt(seed, sequences, Checkpoint.Top(checkpointer))
      ensures Checkpoint.Top(checkpointer) == 0 ==> s == seed
    {
      ackedSequence
    }

    /** Closes the policy; a blocking close first waits for every ack, which
        the sequential model states as a precondition. */
    method Close(blocked: bool)
      requires Valid()
      requires blocked ==> outstanding == 0
      modifies this`policy
      ensures Valid()
      ensures policy == BatchPolicy.Close(old(policy))
      ensures blocked ==>
        && Checkpoint.Unresolved(checkpointer.slots) == 0
        && GetSequence() == SequenceAt(seed, sequences, Checkpoint.LastIndex(checkpointer))
    {
      if blocked {
        Checkpoint.DrainedTopIsLast(checkpointer);
      }
      policy := BatchPolicy.Close(policy);
    }
  }

  /** One record through a batcher that emits one batch per record: the record
      is added and its batch flushed at once, taking the next index. */
  method AddAndFlush(b: Batcher, sequenceNumber: string)
    requires b.Valid() && b.policy.count == 1 && b.policy.items == [] && b.flushedMessage.None?
    requires Checkpoint.Unresolved(b.checkpointer.slots) < b.checkpointer.limit
    modifies b
    ensures b.Valid() && b.policy.count == 1 && b.policy.items == [] && b.flushedMessage.None?
    ensures b.checkpointer == old(b.checkpointer).(slots := old(b.checkpointer.slots) + [Checkpoint.Slot(old(b.batchedIndex) + 1, false)])
    ensures b.indexToSequence == old(b.indexToSequence)[old(b.batchedIndex) + 1 := sequenceNumber]
    ensures b.batchedIndex == old(b.batchedIndex) + 1 && b.ackedSequence == old(b.ackedSequence)
  {
    var full := b.AddRecord(Record([], None, sequenceNumber));
    var msg, err := b.FlushMessage(Checkpoint.Context(false));
  }

  /** A batcher that emits one batch per record, after records numbered 1, 2
      and 3 carrying the sequence numbers "A", "B" and "C" went through it. */
  method ThreeBatches() returns (b: Batcher)
    ensures fresh(b) && b.Valid()
    ensures b.checkpointer == Checkpoint.Capped(3, [Checkpoint.Slot(1, false), Checkpoint.Slot(2, false), Checkpoint.Slot(3, false)])
    ensures b.indexToSequence == map[1 := "A", 2 := "B", 3 := "C"] && b.ackedSequence == "seed"
  {
    b := TwoBatches();
    assert Checkpoint.UnresolvedIn(b.checkpointer.slots, 1) == 1;
    assert Checkpoint.Unresolved(b.checkpointer.slots) == 2;
    AddAndFlush(b, "C");
  }

  /** The first two of those batches. */
  method TwoBatches() returns (b: Batcher)
    ensures fresh(b) && b.Valid() && b.policy.count == 1 && b.policy.items == [] && b.flushedMessage.None?
    ensures b.checkpointer == Checkpoint.Capped(3, [Checkpoint.Slot(1, false), Checkpoint.Slot(2, false)])
    ensures b.indexToSequence == map[1 := "A", 2 := "B"] && b.ackedSequence == "seed" && b.batchedIndex == 2
  {
    b := new Batcher("stream", "shard", "seed", 3, 1);
    AddAndFlush(b, "A");
    assert b.checkpointer.slots == [Checkpoint.Slot(1, false)];
    assert Checkpoint.Unresolved(b.checkpointer.slots) == 1;
    AddAndFlush(b, "B");
  }

  /** The three batches acknowledged in the order 2, 1, 3: the acked sequence
      stays at the seed, then jumps to "B", then reaches "C", and the ledger
      entry of record 1 is never pruned. */
  method OutOfOrderAcks() returns (acked: seq<string>, ledger: map<nat, string>)
    ensures acked == ["seed", "B", "C"]
    ensures ledger == map[1 := "A"]
  {
    var b := ThreeBatches();
    Checkpoint.OutOfOrderScenario();
    var r2 := Checkpoint.Resolve(b.checkpointer, 2);
    var r1 := Checkpoint.Resolve(r2.0, 1);
    var r3 := Checkpoint.Resolve(r1.0, 3);
    var err := b.Ack(2);
    assert b.checkpointer == r2.0 && b.indexToSequence == map[1 := "A", 2 := "B", 3 := "C"];
    var s0 := b.GetSequence();
    err := b.Ack(1);
    assert b.checkpointer == r1.0 && b.indexToSequence == map[1 := "A", 3 := "C"];
    var s1 := b.GetSequence();
    err := b.Ack(3);
    var s2 := b.GetSequence();
    acked, ledger := [s0, s1, s2], b.indexToSequence;
  }
}
