/** What the calls of a builder mean, in heights, bytes and the fields of the blocks. */
module BuilderMeaning {
  import opened Bytes
  import opened ChainTypes
  import opened RecordCodec
  import opened OrderedBuilder
  import opened OrderedRuns

  /** `r` is the record of `block` behind the tree sizes `before`. */
  ghost predicate Carries(r: CompactBlockRecord, block: ParsedCompactBlock, before: TreeSizes) {
    && r.height == block.height && r.hash == block.hash && r.previousHash == block.previousHash
    && r.time == block.time && r.transactions == block.transactions
    && r.endTreeSizes.sapling == before.sapling + block.additions.sapling
    && r.endTreeSizes.orchard == before.orchard + block.additions.orchard
    && r.endTreeSizes.ironwood == before.ironwood + block.additions.ironwood
  }

  ghost predicate TooLargeTrees(block: ParsedCompactBlock, before: TreeSizes) {
    || before.sapling + block.additions.sapling > U32_MAX || before.orchard + block.additions.orchard > U32_MAX
    || before.ironwood + block.additions.ironwood > U32_MAX
  }

  lemma RecordCarries(block: ParsedCompactBlock, before: TreeSizes)
    ensures block.IntoRecord(before).None? <==> TooLargeTrees(block, before)
    ensures block.IntoRecord(before).Some? ==> Carries(block.IntoRecord(before).value, block, before)
  {
  }

  /** The tree sizes before record `i`. */
  ghost function SizesBefore(rs: seq<CompactBlockRecord>, before: TreeSizes, i: nat): TreeSizes
    requires i <= |rs|
  {
    if i == 0 then before else rs[i - 1].endTreeSizes
  }

  /** Record `i` is that of the block at its height. */
  ghost predicate CarriedAt(m: map<nat, ParsedCompactBlock>, from: nat, before: TreeSizes,
                            rs: seq<CompactBlockRecord>, i: nat)
    requires i < |rs|
  {
    from + i in m && Carries(rs[i], m[from + i], SizesBefore(rs, before, i))
  }

  lemma {:induction false} FoldCarries(m: map<nat, ParsedCompactBlock>, from: nat, before: TreeSizes, k: nat)
    requires Fold(m, from, before, k).Some?
    ensures |Fold(m, from, before, k).value| == k
    ensures forall i | 0 <= i < k :: CarriedAt(m, from, before, Fold(m, from, before, k).value, i)
  {
    hide Carries, ParsedCompactBlock.IntoRecord;
    if k > 0 {
      FoldCarries(m, from, before, k - 1);
      var rs, all := Fold(m, from, before, k - 1).value, Fold(m, from, before, k).value;
      RecordCarries(m[from + k - 1], EndSizes(rs, before));
      forall i | 0 <= i < k ensures CarriedAt(m, from, before, all, i) {
        if i < k - 1 {
          assert CarriedAt(m, from, before, rs, i);
        }
      }
    }
  }

  /** The records are those of the pending blocks from the next height on. */
  ghost predicate FromPending(b: Builder, rs: seq<CompactBlockRecord>) {
    forall i | 0 <= i < |rs| :: rs[i].height == b.next + i && CarriedAt(Blocks(b.pending), b.next, b.sizes, rs, i)
  }

  lemma FoldIsPending(b: Builder, rs: seq<CompactBlockRecord>)
    requires Accounted(b) && Fold(Blocks(b.pending), b.next, b.sizes, |rs|) == Some(rs)
    ensures FromPending(b, rs)
  {
    hide Fold, SumBytes, EncodedSizeBound;
    FoldCarries(Blocks(b.pending), b.next, b.sizes, |rs|);
    forall i | 0 <= i < |rs| ensures rs[i].height == b.next + i {
      assert CarriedAt(Blocks(b.pending), b.next, b.sizes, rs, i);
      assert Held(b.next, b.next + i, b.pending[b.next + i]);
    }
  }

  lemma TakesPending(b: Builder, c: Builder, rs: seq<CompactBlockRecord>)
    requires Accounted(b) && Takes(b, c, rs)
    ensures FromPending(b, rs) && (rs != [] && b.previous.Some? ==> rs[0].previousHash == b.previous.value)
    ensures forall i | 0 < i < |rs| :: rs[i].previousHash == rs[i - 1].hash
  {
    hide Accounted, Fold, FromPending;
    FoldIsPending(b, rs);
  }

  /** What `push` does: the bytes of a block are 192, 64 for each transaction, 36 for each spend, 128 for
      each output and 160 for each action. */
  lemma PushMeans(b: Builder, c: Builder, block: ParsedCompactBlock, r: Outcome<()>)
    requires Pushed(b, c, block, r)
    ensures var h, txs := block.height, block.transactions;
            var bytes := 192 + 64 * |txs| + 36 * |AllSpends(txs)| + 128 * |AllOutputs(txs)|
                         + 160 * |AllOrchard(txs)| + 160 * |AllIronwood(txs)|;
            if h < b.next || h in b.pending then r == Failed(DuplicateHeight(h)) && c == b
            else if bytes > 2_000_000 then r == Failed(Codec(Length)) && c == b
            else if b.pendingBytes + bytes > 0xFFFF_FFFF_FFFF_FFFF then r == Failed(Overflow) && c == b
            else if b.pendingBytes + bytes > b.maxPending then r == Failed(PendingBytes(b.maxPending)) && c == b
            else
              && r == Done(()) && Accounted(c) && c.pending == b.pending[h := Pending(block, bytes)]
              && c.next == b.next && c.previous == b.previous && c.sizes == b.sizes
              && c.generation == b.generation && c.maxPending == b.maxPending
  {
    hide Accounted, EncodedSizeBound;
    SizeBoundIs(block.transactions);
  }

  /** `h` is in the range from `k * 1_000` on, which ends at or below `through`. */
  ghost predicate EndsBy(h: nat, k: nat, through: Option<u32>) {
    k * 1_000 <= h < k * 1_000 + 1_000 && through.Some? && k * 1_000 + 999 <= through.value
  }

  lemma SealableMeans(through: Option<u32>, h: nat, k: nat)
    requires k * 1_000 <= h < k * 1_000 + 1_000
    ensures RangeEnd(h) == k * 1_000 + 999
    ensures Sealable(through, h) <==> EndsBy(h, k, through)
  {
    assert h / 1_000 == k;
  }

  /** The builder waits exactly if the range of the next height may be sealed, a block of this range
      is missing, and there is room for one more batch and one more record, or nothing pending. */
  lemma WaitsExactly(b: Builder, sealThrough: Option<u32>, maxBatch: nat, k: nat)
    requires Accounted(b) && k * 1_000 <= b.next < k * 1_000 + 1_000
    ensures Waits(b, sealThrough, maxBatch) <==>
            && EndsBy(b.next, k, sealThrough)
            && (exists h :: b.next <= h <= k * 1_000 + 999 && h !in b.pending)
            && (|| b.pendingBytes == 0
                || (b.pendingBytes + maxBatch <= b.maxPending && b.pendingBytes + 2_000_000 <= b.maxPending))
  {
    hide SumBytes;
    SealableMeans(sealThrough, b.next, k);
    assert b.readyEnd !in b.pending;
  }

  /** A batch holds the records of the pending blocks from the next height on, all durable, and ends
      where the next block is missing or not durable, or would go over the limit at the start of a
      range or in a range that may not be sealed. */
  lemma BatchMeans(b: Builder, c: Builder, durable: Option<u32>, sealThrough: Option<u32>, maxBatch: nat,
                   batch: WriteBatch, k: nat)
    requires Accounted(b) && Built(b, c, durable, sealThrough, maxBatch, Done(Some(batch)))
    requires k * 1_000 <= b.next + |batch.records| < k * 1_000 + 1_000
    ensures FromPending(b, batch.records) && batch.sealThrough == sealThrough && batch.baseGeneration == b.generation
    ensures var h := b.next + |batch.records|;
            && batch.records != [] && durable.Some? && h - 1 <= durable.value && c.next == h
            && (|| h !in b.pending || h > durable.value
                || (&& SumBytes(b.pending, b.next, h) + b.pending[h].bytes > maxBatch && k * 1_000 + 999 <= 0xFFFF_FFFF
                    && (h == k * 1_000 || !EndsBy(h, k, sealThrough))))
  {
    hide Accounted, Fold, Linked, SumBytes, FromPending, Overshoots;
    TakesPending(b, c.(generation := b.generation), batch.records);
    SealableMeans(sealThrough, b.next + |batch.records|, k);
    assert RANGE_SIZE == 1_000;
  }

  /** Over the limit a batch stays inside one range that may be sealed: its first `j` records fit, and
      the others are the rest of the range of the last one. */
  lemma OvershootMeans(b: Builder, c: Builder, durable: Option<u32>, sealThrough: Option<u32>, maxBatch: nat,
                       batch: WriteBatch, k: nat) returns (j: nat)
    requires Built(b, c, durable, sealThrough, maxBatch, Done(Some(batch)))
    requires k * 1_000 < b.next + |batch.records| <= k * 1_000 + 1_000
    ensures j <= |batch.records| && SumBytes(b.pending, b.next, b.next + j) <= maxBatch
    ensures j < |batch.records| ==> k * 1_000 < b.next + j && EndsBy(b.next + |batch.records| - 1, k, sealThrough)
  {
    hide Accounted, Fold, Linked, SumBytes, Takes, Stops;
    var n := |batch.records|;
    j :| Overshoots(b, j, n, sealThrough, maxBatch);
    if j < n {
      var h := b.next + j;
      SealableMeans(sealThrough, b.next + n - 1, k);
      assert h % RANGE_SIZE != 0 && RangeEnd(h) == RangeEnd(b.next + n - 1);
      InsideRange(h, k);
    }
  }

  lemma InsideRange(h: nat, k: nat)
    requires h % RANGE_SIZE != 0 && RangeEnd(h) == k * 1_000 + 999
    ensures k * 1_000 < h
  {
    SealableMeans(None, h, h / 1_000);
  }

  /** What an error of `build_batch` says: the block behind the records that left has a wrong parent,
      too many commitments, or is by itself over the limit, or a number overflows. */
  lemma BatchFails(b: Builder, c: Builder, durable: Option<u32>, sealThrough: Option<u32>, maxBatch: nat,
                   e: IngestError) returns (rs: seq<CompactBlockRecord>)
    requires Accounted(b) && Built(b, c, durable, sealThrough, maxBatch, Failed(e))
    ensures FromPending(b, rs) && c.next == b.next + |rs| && c.generation == b.generation
    ensures match e
            case Overflow => c.next > 0xFFFF_FFFF - 1_000 || b.generation == 0xFFFF_FFFF_FFFF_FFFF
            case Parent(h) =>
              && h == c.next && h in b.pending && durable.Some? && h <= durable.value
              && if rs == [] then b.previous.Some? && b.pending[h].block.previousHash != b.previous.value
                 else b.pending[h].block.previousHash != rs[|rs| - 1].hash
            case TreeSize(h) =>
              && h == c.next && h in b.pending && durable.Some? && h <= durable.value
              && TooLargeTrees(b.pending[h].block, SizesBefore(rs, b.sizes, |rs|))
            case BatchBytes(limit) =>
              && rs == [] && limit == maxBatch && b.next in b.pending && durable.Some? && b.next <= durable.value
              && b.pending[b.next].bytes > maxBatch
            case _ => false
  {
    hide Accounted, Fold, Linked, SumBytes, FromPending;
    rs :| Takes(b, c, rs) && FailsAt(b, rs, e, durable, maxBatch);
    TakesPending(b, c, rs);
    if e.TreeSize? {
      RecordCarries(b.pending[c.next].block, EndSizes(rs, b.sizes));
    }
  }

  /** A drain gives all pending blocks up to a height that stand in front of the first gap. */
  lemma DrainMeans(b: Builder, through: u32, rs: seq<CompactBlockRecord>)
    requires Accounted(b) && Drained(b, through, rs)
    ensures FromPending(b, rs) && (rs != [] ==> b.next + |rs| - 1 <= through)
    ensures b.next + |rs| !in b.pending || b.next + |rs| > through
  {
    hide SumBytes;
    FoldLength(Blocks(b.pending), b.next, b.sizes, ReadyThrough(b, through));
    FoldIsPending(b, rs);
  }

  /** Every record of a run is that of a block that the run accepted, at the next height, behind the
      sizes of the record before it. */
  lemma OutputCarries(states: seq<Builder>, events: seq<Event>, i: nat) returns (block: ParsedCompactBlock)
    requires Run(states, events) && i < |Output(events)|
    ensures Event.Accepted(block) in events && block.height == states[0].next + i
    ensures Carries(Output(events)[i], block, SizesBefore(Output(events), states[0].sizes, i))
  {
    hide Accounted, Linked, OrderedRuns.Step, Output, Accepts, Fold, Carries;
    OrderedRefinement(states, events);
    FoldCarries(Accepts(events), states[0].next, states[0].sizes, |Output(events)|);
    assert CarriedAt(Accepts(events), states[0].next, states[0].sizes, Output(events), i);
    block := Accepts(events)[states[0].next + i];
    AcceptsCame(events);
    AcceptsByHeight(events);
  }

  lemma {:induction false} AcceptsCame(events: seq<Event>)
    ensures forall h <- Accepts(events) :: Event.Accepted(Accepts(events)[h]) in events
  {
    if events != [] {
      AcceptsCame(events[..|events| - 1]);
    }
  }
}
