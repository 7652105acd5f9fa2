/** The ordered builder: an object with counters, and what each of its calls does to them. */
module OrderedBuilder {
  import opened Bytes
  import opened ChainTypes
  import opened RecordCodec

  /** Heights are below this number. */
  const HEIGHTS: nat := U32_MAX + 1

  /** A parsed block and the bound of its encoded size. */
  datatype Pending = Pending(block: ParsedCompactBlock, bytes: nat)

  datatype IngestError =
    | Codec(error: CodecError)
    | DuplicateHeight(height: u32)
    | Parent(height: u32)
    | TreeSize(height: u32)
    | PendingBytes(limit: nat)
    | BatchBytes(limit: nat)
    | Overflow

  datatype WriteBatch = WriteBatch(baseGeneration: u64, sealThrough: Option<u32>, records: seq<CompactBlockRecord>)

  datatype Outcome<+T> = Done(value: T) | Failed(error: IngestError)

  /** The tip of an index: what a builder continues. */
  datatype IndexTip = IndexTip(tip: Option<(u32, Digest)>, treeSizes: TreeSizes, generation: u64) {
    function NextHeight(): Option<u32> {
      match tip
      case None => Some(0)
      case Some((height, _)) => if height < U32_MAX then Some(height + 1) else None
    }
  }

  /** The fields of a builder. */
  datatype Builder = Builder(
    next: u32,
    previous: Option<Digest>,
    sizes: TreeSizes,
    generation: u64,
    pending: map<nat, Pending>,
    pendingBytes: nat,
    readyEnd: nat,
    readyBytes: nat,
    maxPending: nat)

  function SumBytes(m: map<nat, Pending>, lo: nat, hi: nat): nat
    requires lo <= hi
    decreases hi - lo
  {
    if lo == hi then 0 else SumBytes(m, lo, hi - 1) + if hi - 1 in m then m[hi - 1].bytes else 0
  }

  /** Every counter of the builder is what the pending blocks say, and the budget is kept. */
  ghost predicate Accounted(b: Builder) {
    && (forall h <- b.pending :: Held(b.next, h, b.pending[h]))
    && b.pendingBytes == SumBytes(b.pending, b.next, HEIGHTS) <= b.maxPending <= USIZE_MAX
    && b.next <= b.readyEnd <= HEIGHTS && b.readyEnd !in b.pending
    && (forall h | b.next <= h < b.readyEnd :: h in b.pending)
    && b.readyBytes == SumBytes(b.pending, b.next, b.readyEnd)
  }

  ghost predicate Held(next: nat, h: nat, p: Pending) {
    && next <= h < HEIGHTS && p.block.height == h
    && EncodedSizeBound(p.block.transactions) == Success(p.bytes)
  }

  lemma {:induction false} SumSplits(m: map<nat, Pending>, lo: nat, mid: nat, hi: nat)
    requires lo <= mid <= hi
    ensures SumBytes(m, lo, hi) == SumBytes(m, lo, mid) + SumBytes(m, mid, hi)
    decreases hi - mid
  {
    if mid < hi {
      SumSplits(m, lo, mid, hi - 1);
    }
  }

  lemma {:induction false} SumAgrees(m: map<nat, Pending>, n: map<nat, Pending>, lo: nat, hi: nat)
    requires lo <= hi
    requires forall h | lo <= h < hi :: (h in m <==> h in n) && (h in m ==> m[h] == n[h])
    ensures SumBytes(m, lo, hi) == SumBytes(n, lo, hi)
    decreases hi - lo
  {
    if lo < hi {
      SumAgrees(m, n, lo, hi - 1);
    }
  }

  lemma SumInserts(m: map<nat, Pending>, at: nat, p: Pending, lo: nat, hi: nat)
    requires lo <= at < hi && at !in m
    ensures SumBytes(m[at := p], lo, hi) == SumBytes(m, lo, hi) + p.bytes
  {
    var n := m[at := p];
    SumSplits(m, lo, at, hi);
    SumSplits(m, at, at + 1, hi);
    SumSplits(n, lo, at, hi);
    SumSplits(n, at, at + 1, hi);
    SumAgrees(m, n, lo, at);
    SumAgrees(m, n, at + 1, hi);
  }

  // Admission.

  function Max(a: nat, b: nat): nat {
    if a >= b then a else b
  }

  function FlushThreshold(maxPending: nat, maxBatch: nat): nat {
    SaturatingSub(maxPending, Max(maxBatch, MAX_RECORD_BYTES))
  }

  /** Why `push` refuses a block, if it does. */
  function Refusal(b: Builder, block: ParsedCompactBlock): Option<IngestError> {
    if block.height < b.next || block.height in b.pending then Some(DuplicateHeight(block.height))
    else
      match EncodedSizeBound(block.transactions)
      case Failure(e) => Some(Codec(e))
      case Success(bytes) =>
        if b.pendingBytes + bytes > USIZE_MAX then Some(Overflow)
        else if b.pendingBytes + bytes > b.maxPending then Some(PendingBytes(b.maxPending))
        else None
  }

  /** At or below the threshold one more block always fits, if the budget holds a batch and a
      record at all. */
  lemma OneMoreFits(b: Builder, block: ParsedCompactBlock, maxBatch: nat)
    requires Accounted(b) && b.pendingBytes <= FlushThreshold(b.maxPending, maxBatch)
    requires Max(maxBatch, MAX_RECORD_BYTES) <= b.maxPending
    requires block.height >= b.next && block.height !in b.pending
    requires EncodedSizeBound(block.transactions).Success?
    ensures Refusal(b, block).None?
  {
  }

  // Chain order: the fold of `IntoRecord` over the blocks in height order.

  function EndSizes(rs: seq<CompactBlockRecord>, before: TreeSizes): TreeSizes {
    if rs == [] then before else rs[|rs| - 1].endTreeSizes
  }

  function EndHash(rs: seq<CompactBlockRecord>, previous: Option<Digest>): Option<Digest> {
    if rs == [] then previous else Some(rs[|rs| - 1].hash)
  }

  /** The records of heights `from` to `from + k`, with cumulative tree sizes from `before`. */
  function Fold(m: map<nat, ParsedCompactBlock>, from: nat, before: TreeSizes,
                k: nat): Option<seq<CompactBlockRecord>> {
    if k == 0 then Some([])
    else
      match Fold(m, from, before, k - 1)
      case None => None
      case Some(rs) =>
        if from + k - 1 !in m then None
        else
          match m[from + k - 1].IntoRecord(EndSizes(rs, before))
          case None => None
          case Some(r) => Some(rs + [r])
  }

  /** Each record points to the one before; the first to `previous`, if there is one. */
  ghost predicate Linked(previous: Option<Digest>, rs: seq<CompactBlockRecord>) {
    && (rs != [] && previous.Some? ==> rs[0].previousHash == previous.value)
    && forall i | 0 < i < |rs| :: rs[i].previousHash == rs[i - 1].hash
  }

  lemma {:induction false} FoldLength(m: map<nat, ParsedCompactBlock>, from: nat, before: TreeSizes, k: nat)
    requires Fold(m, from, before, k).Some?
    ensures |Fold(m, from, before, k).value| == k
  {
    if k > 0 {
      FoldLength(m, from, before, k - 1);
    }
  }

  lemma {:induction false} FoldPrefix(m: map<nat, ParsedCompactBlock>, from: nat, before: TreeSizes, j: nat, k: nat)
    requires j <= k && Fold(m, from, before, k).Some?
    ensures Fold(m, from, before, j).Some?
    ensures Fold(m, from, before, j).value <= Fold(m, from, before, k).value
    decreases k - j
  {
    if j < k {
      FoldPrefix(m, from, before, j, k - 1);
    }
  }

  /** A fold looks at its own heights only. */
  lemma {:induction false} FoldAgrees(m: map<nat, ParsedCompactBlock>, n: map<nat, ParsedCompactBlock>,
                                      from: nat, before: TreeSizes, k: nat)
    requires forall h | from <= h < from + k :: (h in m <==> h in n) && (h in m ==> m[h] == n[h])
    ensures Fold(m, from, before, k) == Fold(n, from, before, k)
  {
    if k > 0 {
      FoldAgrees(m, n, from, before, k - 1);
    }
  }

  lemma {:induction false} FoldGlues(m: map<nat, ParsedCompactBlock>, from: nat, before: TreeSizes, j: nat, k: nat)
    requires Fold(m, from, before, j).Some?
    requires Fold(m, from + j, EndSizes(Fold(m, from, before, j).value, before), k).Some?
    ensures var rs := Fold(m, from, before, j).value;
            var ss := Fold(m, from + j, EndSizes(rs, before), k).value;
            && Fold(m, from, before, j + k) == Some(rs + ss)
            && EndSizes(rs + ss, before) == EndSizes(ss, EndSizes(rs, before))
    decreases k
  {
    var rs := Fold(m, from, before, j).value;
    if k == 0 {
      assert rs + [] == rs;
    } else {
      FoldGlues(m, from, before, j, k - 1);
      var sizes := EndSizes(rs, before);
      var init := Fold(m, from + j, sizes, k - 1).value;
      var ss := Fold(m, from + j, sizes, k).value;
      assert rs + ss == rs + init + [ss[|ss| - 1]];
    }
  }

  lemma LinkedGlues(previous: Option<Digest>, rs: seq<CompactBlockRecord>, ss: seq<CompactBlockRecord>)
    requires Linked(previous, rs) && Linked(EndHash(rs, previous), ss)
    ensures Linked(previous, rs + ss) && EndHash(rs + ss, previous) == EndHash(ss, EndHash(rs, previous))
  {
    var all := rs + ss;
    forall i | 0 < i < |all| ensures all[i].previousHash == all[i - 1].hash {
      if i > |rs| {
        assert all[i] == ss[i - |rs|] && all[i - 1] == ss[i - |rs| - 1];
      }
    }
  }

  // Taking blocks from the front.

  function Blocks(m: map<nat, Pending>): map<nat, ParsedCompactBlock> {
    map h | h in m :: m[h].block
  }

  function Above(m: map<nat, Pending>, from: nat): map<nat, Pending> {
    map h | h in m && h >= from :: m[h]
  }

  /** `c` is `b` after the blocks of `rs` left from the front; they fold to `rs` and link. */
  ghost predicate Takes(b: Builder, c: Builder, rs: seq<CompactBlockRecord>) {
    && Fold(Blocks(b.pending), b.next, b.sizes, |rs|) == Some(rs) && Linked(b.previous, rs)
    && Accounted(c) && c.next == b.next + |rs| && c.pending == Above(b.pending, c.next)
    && c.previous == EndHash(rs, b.previous) && c.sizes == EndSizes(rs, b.sizes)
    && c.generation == b.generation && c.maxPending == b.maxPending
  }

  lemma TakesNothing(b: Builder)
    requires Accounted(b)
    ensures Takes(b, b, [])
  {
  }

  lemma TakesGlue(b: Builder, c: Builder, d: Builder, rs: seq<CompactBlockRecord>, ss: seq<CompactBlockRecord>)
    requires Takes(b, c, rs) && Takes(c, d, ss)
    ensures Takes(b, d, rs + ss)
  {
    hide Accounted, Linked, Fold;
    LinkedGlues(b.previous, rs, ss);
    FoldAgrees(Blocks(b.pending), Blocks(c.pending), c.next, c.sizes, |ss|);
    FoldGlues(Blocks(b.pending), b.next, b.sizes, |rs|, |ss|);
  }

  /** The builder after its first block left, as the loop body leaves it. */
  function TakeFirst(b: Builder, r: CompactBlockRecord): Builder
    requires b.next < U32_MAX && b.next in b.pending
    requires b.pending[b.next].bytes <= b.pendingBytes && b.pending[b.next].bytes <= b.readyBytes
  {
    var bytes := b.pending[b.next].bytes;
    b.(next := b.next + 1, previous := Some(r.hash), sizes := r.endTreeSizes, pending := b.pending - {b.next},
    pendingBytes := b.pendingBytes - bytes, readyBytes := b.readyBytes - bytes)
  }

  lemma FirstBytesCounted(b: Builder)
    requires Accounted(b) && b.next in b.pending
    ensures b.next < b.readyEnd
    ensures var bytes := b.pending[b.next].bytes; bytes <= b.readyBytes <= b.pendingBytes && bytes <= MAX_RECORD_BYTES
  {
    assert Held(b.next, b.next, b.pending[b.next]);
    SumSplits(b.pending, b.next, b.next + 1, b.readyEnd);
    SumSplits(b.pending, b.next, b.readyEnd, HEIGHTS);
  }

  lemma TakesFirst(b: Builder, r: CompactBlockRecord)
    requires Accounted(b) && b.next < U32_MAX && b.next in b.pending
    requires b.pending[b.next].block.IntoRecord(b.sizes) == Some(r)
    requires b.previous.Some? ==> r.previousHash == b.previous.value
    ensures b.pending[b.next].bytes <= b.pendingBytes && b.pending[b.next].bytes <= b.readyBytes
    ensures Takes(b, TakeFirst(b, r), [r])
  {
    hide SumBytes, EncodedSizeBound, ParsedCompactBlock.IntoRecord;
    FirstBytesCounted(b);
    var c := TakeFirst(b, r);
    FirstLeaves(b);
    assert c.pending == Above(b.pending, c.next) by {
      assert forall h <- b.pending :: Held(b.next, h, b.pending[h]);
    }
    assert forall h <- c.pending :: Held(b.next, h, b.pending[h]) && Held(c.next, h, c.pending[h]);
    FoldOne(Blocks(b.pending), b.next, b.sizes, r);
  }

  lemma FoldOne(m: map<nat, ParsedCompactBlock>, from: nat, before: TreeSizes, r: CompactBlockRecord)
    requires from in m && m[from].IntoRecord(before) == Some(r)
    ensures Fold(m, from, before, 1) == Some([r])
  {
    assert Fold(m, from, before, 0) == Some([]);
    assert [] + [r] == [r];
  }

  lemma FirstLeaves(b: Builder)
    requires Accounted(b) && b.next < U32_MAX && b.next in b.pending
    ensures var m, bytes := b.pending - {b.next}, b.pending[b.next].bytes;
            && SumBytes(m, b.next + 1, HEIGHTS) == b.pendingBytes - bytes
            && b.next + 1 <= b.readyEnd && SumBytes(m, b.next + 1, b.readyEnd) == b.readyBytes - bytes
  {
    var m := b.pending - {b.next};
    FirstBytesCounted(b);
    SumSplits(b.pending, b.next, b.next + 1, HEIGHTS);
    SumSplits(b.pending, b.next, b.next + 1, b.readyEnd);
    SumAgrees(m, b.pending, b.next + 1, HEIGHTS);
    SumAgrees(m, b.pending, b.next + 1, b.readyEnd);
    assert SumBytes(b.pending, b.next, b.next) == 0;
  }

  // Batches.

  function RangeEnd(h: nat): nat {
    h + (RANGE_SIZE - 1 - h % RANGE_SIZE)
  }

  predicate Durable(through: Option<u32>, h: nat) {
    through.Some? && h <= through.value
  }

  /** The range of `h` may be sealed. */
  predicate Sealable(through: Option<u32>, h: nat) {
    through.Some? && RangeEnd(h) <= through.value
  }

  /** The next range is sealable but not complete yet, and there is room to wait for it. */
  predicate Waits(b: Builder, sealThrough: Option<u32>, maxBatch: nat) {
    && Sealable(sealThrough, b.next) && b.readyEnd <= RangeEnd(b.next)
    && b.pendingBytes <= FlushThreshold(b.maxPending, maxBatch)
  }

  /** The bytes of the first `k` pending blocks. */
  function TakenBytes(b: Builder, k: nat): nat {
    SumBytes(b.pending, b.next, b.next + k)
  }

  /** Why a batch of `k` blocks is complete: the next block is missing, not durable, or would go
      over the limit at the start of a range or in a range that is not sealable. */
  ghost predicate Stops(b: Builder, k: nat, durable: Option<u32>, sealThrough: Option<u32>, maxBatch: nat) {
    var h := b.next + k;
    || h !in b.pending || !Durable(durable, h)
    || (&& TakenBytes(b, k) + b.pending[h].bytes > maxBatch && RangeEnd(h) <= U32_MAX
        && (h % RANGE_SIZE == 0 || !Sealable(sealThrough, h)))
  }

  /** Only blocks inside one sealable range, not its first, go over the limit: the blocks from
      `j` on, all in the range of the last block. */
  ghost predicate Overshoots(b: Builder, j: nat, k: nat, sealThrough: Option<u32>, maxBatch: nat) {
    && j <= k && TakenBytes(b, j) <= maxBatch
    && forall h | b.next + j <= h < b.next + k ::
         h % RANGE_SIZE != 0 && RangeEnd(h) == RangeEnd(b.next + k - 1) && Sealable(sealThrough, h)
  }

  /** What the error `e` of a batch says about the block behind the records `rs`. */
  ghost predicate FailsAt(b: Builder, rs: seq<CompactBlockRecord>, e: IngestError, durable: Option<u32>,
                          maxBatch: nat) {
    var h := b.next + |rs|;
    match e
    case BatchBytes(limit) =>
      rs == [] && limit == maxBatch && h in b.pending && Durable(durable, h) && b.pending[h].bytes > maxBatch
    case Parent(height) =>
      && height == h && h in b.pending && Durable(durable, h) && EndHash(rs, b.previous).Some?
      && b.pending[h].block.previousHash != EndHash(rs, b.previous).value
    case TreeSize(height) =>
      && height == h && h in b.pending && Durable(durable, h)
      && b.pending[h].block.IntoRecord(EndSizes(rs, b.sizes)).None?
    case Overflow => RangeEnd(h) > U32_MAX || h >= U32_MAX || b.generation == U64_MAX
    case _ => false
  }

  /** What one `build_batch` call does. */
  ghost predicate Built(b: Builder, c: Builder, durable: Option<u32>, sealThrough: Option<u32>, maxBatch: nat,
                        r: Outcome<Option<WriteBatch>>)
  {
    match r
    case Done(None) => c == b && (Waits(b, sealThrough, maxBatch) || b.next !in b.pending || !Durable(durable, b.next))
    case Done(Some(batch)) =>
      && BuiltBatch(b, c, batch) && batch.sealThrough == sealThrough && !Waits(b, sealThrough, maxBatch)
      && Durable(durable, b.next + |batch.records| - 1)
      && Stops(b, |batch.records|, durable, sealThrough, maxBatch)
      && exists j :: Overshoots(b, j, |batch.records|, sealThrough, maxBatch)
    case Failed(e) => exists rs :: Takes(b, c, rs) && FailsAt(b, rs, e, durable, maxBatch)
  }

  /** `c` is `b` after it gave the records of `batch`. */
  ghost predicate BuiltBatch(b: Builder, c: Builder, batch: WriteBatch) {
    && batch.records != [] && batch.baseGeneration == b.generation && c.generation == b.generation + 1
    && Takes(b, c.(generation := b.generation), batch.records)
  }

  datatype Decision = Break | Fail(error: IngestError) | Take(record: CompactBlockRecord)

  /** What the batch loop does with the next pending block `p`. */
  function Decide(p: Pending, previous: Option<Digest>, sizes: TreeSizes, batchBytes: nat, first: bool,
                  durable: Option<u32>, sealThrough: Option<u32>, maxBatch: nat): Decision
  {
    var h := p.block.height;
    if !Durable(durable, h) then Break
    else if batchBytes + p.bytes > USIZE_MAX then Fail(Overflow)
    else if batchBytes + p.bytes > maxBatch && first then Fail(BatchBytes(maxBatch))
    else if batchBytes + p.bytes > maxBatch && RangeEnd(h) > U32_MAX then Fail(Overflow)
    else if batchBytes + p.bytes > maxBatch && (h % RANGE_SIZE == 0 || !Sealable(sealThrough, h)) then Break
    else if previous.Some? && p.block.previousHash != previous.value then Fail(Parent(h))
    else
      match p.block.IntoRecord(sizes)
      case None => Fail(TreeSize(h))
      case Some(record) => if h == U32_MAX then Fail(Overflow) else Take(record)
  }

  class OrderedBuilder {
    var nextHeight: u32
    var previousHash: Option<Digest>
    var treeSizes: TreeSizes
    var generation: u64
    var pending: map<nat, Pending>
    var pendingBytes: nat
    var readyEnd: nat
    var readyBytes: nat
    const maxPendingBytes: nat

    ghost function View(): Builder
      reads this
    {
      Builder(nextHeight, previousHash, treeSizes, generation, pending, pendingBytes, readyEnd, readyBytes,
              maxPendingBytes)
    }

    /** A builder behind an index tip, or `Overflow` if there is no height above it. */
    static method New(state: IndexTip, maxPendingBytes: nat) returns (r: Outcome<OrderedBuilder>)
      requires maxPendingBytes <= USIZE_MAX
      ensures r.Failed? <==> state.tip.Some? && state.tip.value.0 == U32_MAX
      ensures r.Failed? ==> r == Failed(Overflow)
      ensures r.Done? ==> fresh(r.value) && Opens(state, maxPendingBytes, r.value.View())
    {
      if state.NextHeight().None? {
        return Failed(Overflow);
      }
      var builder := new OrderedBuilder(state, maxPendingBytes);
      r := Done(builder);
    }

    constructor (state: IndexTip, maxPendingBytes: nat)
      requires state.NextHeight().Some? && maxPendingBytes <= USIZE_MAX
      ensures Opens(state, maxPendingBytes, View())
    {
      nextHeight := state.NextHeight().value;
      previousHash := match state.tip case None => None case Some((_, hash)) => Some(hash);
      treeSizes, generation := state.treeSizes, state.generation;
      pending, pendingBytes, readyBytes := map[], 0, 0;
      readyEnd := state.NextHeight().value;
      this.maxPendingBytes := maxPendingBytes;
      SumOfNothing(state.NextHeight().value, HEIGHTS);
      SumOfNothing(state.NextHeight().value, state.NextHeight().value);
    }

    method Push(block: ParsedCompactBlock) returns (r: Outcome<()>)
      requires Accounted(View())
      modifies this
      ensures Pushed(old(View()), View(), block, r)
    {
      hide SumBytes, EncodedSizeBound, FlushThreshold;
      var height: nat := block.height;
      if block.height < nextHeight || height in pending {
        return Failed(DuplicateHeight(block.height));
      }
      var size := EncodedSizeBound(block.transactions);
      if size.Failure? {
        return Failed(Codec(size.error));
      }
      var bytes := size.value;
      if pendingBytes + bytes > USIZE_MAX {
        return Failed(Overflow);
      }
      if pendingBytes + bytes > maxPendingBytes {
        return Failed(PendingBytes(maxPendingBytes));
      }
      ghost var before := View();
      SumInserts(pending, height, Pending(block, bytes), nextHeight, HEIGHTS);
      assert height != readyEnd ==> height > readyEnd;
      SumAgrees(pending, pending[height := Pending(block, bytes)], nextHeight, readyEnd);
      pendingBytes := pendingBytes + bytes;
      pending := pending[height := Pending(block, bytes)];
      forall h <- pending ensures Held(nextHeight, h, pending[h]) {
        assert h != height ==> h in before.pending && Held(before.next, h, before.pending[h]);
      }
      if height == readyEnd {
        ExtendReady();
      }
      r := Done(());
    }

    /** Moves the end of the ready prefix to the first gap. */
    method ExtendReady()
      requires nextHeight <= readyEnd <= HEIGHTS && (forall h <- pending :: Held(nextHeight, h, pending[h]))
      requires forall h | nextHeight <= h < readyEnd :: h in pending
      requires readyBytes == SumBytes(pending, nextHeight, readyEnd)
      requires pendingBytes == SumBytes(pending, nextHeight, HEIGHTS) <= maxPendingBytes <= USIZE_MAX
      modifies this`readyEnd, this`readyBytes
      ensures Accounted(View())
    {
      hide EncodedSizeBound, Accounted;
      while readyEnd < HEIGHTS && readyEnd in pending
        invariant nextHeight <= readyEnd <= HEIGHTS
        invariant forall h | nextHeight <= h < readyEnd :: h in pending
        invariant readyBytes == SumBytes(pending, nextHeight, readyEnd)
        decreases HEIGHTS - readyEnd
      {
        readyBytes := readyBytes + pending[readyEnd].bytes;
        readyEnd := readyEnd + 1;
      }
      assert readyEnd in pending ==> Held(nextHeight, readyEnd, pending[readyEnd]);
      NowAccounted(View());
    }

    /** Takes the next block out, and moves on to the one behind it. */
    method RemoveFirst(record: CompactBlockRecord)
      requires nextHeight < U32_MAX && (nextHeight as nat) in pending
      requires pending[nextHeight].bytes <= pendingBytes && pending[nextHeight].bytes <= readyBytes
      modifies this
      ensures View() == TakeFirst(old(View()), record)
    {
      var bytes := pending[nextHeight].bytes;
      pendingBytes := pendingBytes - bytes;
      readyBytes := readyBytes - bytes;
      pending := pending - {nextHeight as nat};
      nextHeight := nextHeight + 1;
      previousHash := Some(record.hash);
      treeSizes := record.endTreeSizes;
    }

    /** The loop of `BuildBatch`: takes blocks until the batch is complete. */
    method FillBatch(durableThrough: Option<u32>, sealThrough: Option<u32>, maxBatchBytes: nat)
      returns (r: Outcome<seq<CompactBlockRecord>>, ghost j: nat)
      requires Accounted(View())
      modifies this
      ensures r.Failed? ==> exists rs :: Takes(old(View()), View(), rs)
                                         && FailsAt(old(View()), rs, r.error, durableThrough, maxBatchBytes)
      ensures r.Done? ==>
              && Takes(old(View()), View(), r.value)
              && Stops(old(View()), |r.value|, durableThrough, sealThrough, maxBatchBytes)
              && Overshoots(old(View()), j, |r.value|, sealThrough, maxBatchBytes)
              && if r.value == [] then old((nextHeight as nat) !in pending || !Durable(durableThrough, nextHeight))
                 else Durable(durableThrough, old(nextHeight) + |r.value| - 1)
    {
      hide SumBytes, Accounted, Fold, Linked, EncodedSizeBound, Takes, Overshoots, TakenBytes;
      hide RangeEnd, Sealable, Durable, EndHash, EndSizes, Decide, Stops, FailsAt;
      ghost var b := View();
      TakesNothing(b);
      NothingTaken(b, sealThrough, maxBatchBytes);
      var batchBytes, records, going := 0, [], true;
      j := 0;
      while going && (nextHeight as nat) in pending
        invariant Takes(b, View(), records) && nextHeight == b.next + |records|
        invariant batchBytes == TakenBytes(b, |records|)
        invariant records != [] ==> Durable(durableThrough, b.next + |records| - 1)
        invariant Overshoots(b, j, |records|, sealThrough, maxBatchBytes)
                  && (j < |records| ==> batchBytes > maxBatchBytes)
        invariant !going ==> Stops(b, |records|, durableThrough, sealThrough, maxBatchBytes)
        invariant !going && records == [] ==> !Durable(durableThrough, b.next)
        decreases going, HEIGHTS - nextHeight
      {
        ghost var c := View();
        var p := pending[nextHeight];
        TakenNext(b, c, records);
        Decided(b, c, records, durableThrough, sealThrough, maxBatchBytes);
        var first := records == [];
        match Decide(p, previousHash, treeSizes, batchBytes, first, durableThrough, sealThrough, maxBatchBytes) {
          case Break =>
            going := false;
          case Fail(e) =>
            return Failed(e), j;
          case Take(record) =>
            TakesFirst(c, record);
            OvershootGrows(b, j, |records|, p.block.height, sealThrough, maxBatchBytes);
            if j == |records| && batchBytes + p.bytes <= maxBatchBytes {
              j := j + 1;
            }
            batchBytes := batchBytes + p.bytes;
            RemoveFirst(record);
            TakesGlue(b, c, View(), records, [record]);
            records := records + [record];
        }
      }
      if going {
        GapBehind(b, View(), records, durableThrough, sealThrough, maxBatchBytes);
      }
      r := Done(records);
    }

    method BuildBatch(durableThrough: Option<u32>, sealThrough: Option<u32>, maxBatchBytes: nat)
      returns (r: Outcome<Option<WriteBatch>>)
      requires Accounted(View())
      modifies this
      ensures Built(old(View()), View(), durableThrough, sealThrough, maxBatchBytes, r)
    {
      hide SumBytes, Accounted, Fold, Linked, EncodedSizeBound, Takes, Overshoots, TakenBytes;
      hide FlushThreshold, RangeEnd, Sealable, Durable, EndHash, EndSizes, BuiltBatch, Stops, FailsAt;
      ghost var b := View();
      TakesNothing(b);
      OverflowFails(b, [], durableThrough, maxBatchBytes);
      if RangeEnd(nextHeight) > U32_MAX {
        return Failed(Overflow);
      }
      if Sealable(sealThrough, nextHeight) && readyEnd <= RangeEnd(nextHeight)
         && pendingBytes <= FlushThreshold(maxPendingBytes, maxBatchBytes)
      {
        return Done(None);
      }
      var baseGeneration := generation;
      ghost var j;
      var filled;
      filled, j := FillBatch(durableThrough, sealThrough, maxBatchBytes);
      if filled.Failed? {
        return Failed(filled.error);
      }
      var records := filled.value;
      if records == [] {
        StateIsCounted(b, View());
        return Done(None);
      }
      OverflowFails(b, records, durableThrough, maxBatchBytes);
      ghost var c := View();
      SameGeneration(b, c, records);
      if generation == U64_MAX {
        return Failed(Overflow);
      }
      generation := generation + 1;
      assert View().(generation := b.generation) == c;
      BatchIsBuilt(b, c, View(), WriteBatch(baseGeneration, sealThrough, records));
      r := Done(Some(WriteBatch(baseGeneration, sealThrough, records)));
    }

    /** Empties the ready blocks up to a height. The result does not depend on `maxBatchBytes`. */
    method DrainRecords(through: u32, maxBatchBytes: nat) returns (r: Outcome<seq<CompactBlockRecord>>)
      requires Accounted(View())
      modifies this
      ensures Accounted(View())
      ensures r.Done? ==> Drained(old(View()), through, r.value)
    {
      hide SumBytes, Accounted, Fold, Linked, Takes, Overshoots, TakenBytes, Stops, FailsAt, BuiltBatch, ReadyThrough;
      ghost var b := View();
      TakesNothing(b);
      var records, going := [], true;
      while going
        invariant Accounted(View()) && Takes(b, View().(generation := b.generation), records)
        invariant records != [] ==> Durable(Some(through), b.next + |records| - 1)
        invariant !going ==> (nextHeight as nat) !in pending || !Durable(Some(through), nextHeight)
        decreases going, HEIGHTS - nextHeight
      {
        ghost var c := View();
        var built := BuildBatch(Some(through), None, maxBatchBytes);
        StillAccounted(c, View(), Some(through), None, maxBatchBytes, built);
        match built {
          case Failed(e) => return Failed(e);
          case Done(None) => going := false;
          case Done(Some(batch)) =>
            AnotherBatch(b, c, View(), records, batch);
            records := records + batch.records;
        }
      }
      DrainIsComplete(b, View().(generation := b.generation), records, through);
      r := Done(records);
    }
  }

  /** The pending blocks through `through` in front of the first gap. */
  function ReadyThrough(b: Builder, through: u32): nat {
    var end := if b.readyEnd <= through then b.readyEnd else through + 1;
    SaturatingSub(end, b.next)
  }

  /** `rs` are the records of all these blocks, in order. */
  ghost predicate Drained(b: Builder, through: u32, rs: seq<CompactBlockRecord>) {
    Fold(Blocks(b.pending), b.next, b.sizes, ReadyThrough(b, through)) == Some(rs) && Linked(b.previous, rs)
  }

  /** `b` continues the index at `state`: from the height above the tip, behind its hash, its tree
      sizes and its generation, with no block pending. */
  ghost predicate Opens(state: IndexTip, maxPending: nat, b: Builder) {
    && (match state.tip
        case None => b.next == 0 && b.previous == None
        case Some((height, hash)) => b.next == height + 1 && b.previous == Some(hash))
    && b.sizes == state.treeSizes && b.generation == state.generation
    && b.pending == map[] && b.maxPending == maxPending && Accounted(b)
  }

  lemma {:induction false} SumOfNothing(lo: nat, hi: nat)
    requires lo <= hi
    ensures SumBytes(map[], lo, hi) == 0
    decreases hi - lo
  {
    if lo < hi {
      SumOfNothing(lo, hi - 1);
    }
  }

  /** What one `push` call does: a refusal changes nothing. */
  ghost predicate Pushed(b: Builder, c: Builder, block: ParsedCompactBlock, r: Outcome<()>) {
    match Refusal(b, block)
    case Some(e) => r == Failed(e) && c == b
    case None =>
      && r == Done(()) && Accounted(c) && EncodedSizeBound(block.transactions).Success?
      && c.pending == b.pending[block.height := Pending(block, EncodedSizeBound(block.transactions).value)]
      && c.next == b.next && c.previous == b.previous && c.sizes == b.sizes
      && c.generation == b.generation && c.maxPending == b.maxPending
  }

  lemma NowAccounted(b: Builder)
    requires (forall h <- b.pending :: Held(b.next, h, b.pending[h])) && b.next <= b.readyEnd <= HEIGHTS
             && b.readyEnd !in b.pending
    requires b.pendingBytes == SumBytes(b.pending, b.next, HEIGHTS) <= b.maxPending <= USIZE_MAX
    requires forall h | b.next <= h < b.readyEnd :: h in b.pending
    requires b.readyBytes == SumBytes(b.pending, b.next, b.readyEnd)
    ensures Accounted(b)
  {
  }

  // Steps of a drain.

  lemma StillAccounted(b: Builder, c: Builder, durable: Option<u32>, sealThrough: Option<u32>, maxBatch: nat,
                       r: Outcome<Option<WriteBatch>>)
    requires Accounted(b) && Built(b, c, durable, sealThrough, maxBatch, r)
    ensures Accounted(c)
  {
    hide SumBytes, Fold, Linked, Stops, Overshoots, FailsAt;
    if r.Done? && r.value.Some? {
      GenerationIsFree(c, b.generation);
    }
  }

  lemma GenerationIsFree(b: Builder, g: u64)
    ensures Accounted(b.(generation := g)) <==> Accounted(b)
  {
  }

  lemma AnotherBatch(b: Builder, c: Builder, d: Builder, rs: seq<CompactBlockRecord>, batch: WriteBatch)
    requires Takes(b, c.(generation := b.generation), rs) && BuiltBatch(c, d, batch)
    ensures Takes(b, d.(generation := b.generation), rs + batch.records)
    ensures d.next > c.next == b.next + |rs| && d.next == b.next + |rs| + |batch.records|
  {
    hide Accounted, Fold, Linked;
    var c', d' := c.(generation := b.generation), d.(generation := b.generation);
    GenerationIsFree(d, b.generation);
    GenerationIsFree(d, c.generation);
    assert Takes(c', d', batch.records);
    TakesGlue(b, c', d', rs, batch.records);
  }

  lemma {:induction false} FoldIsDense(m: map<nat, ParsedCompactBlock>, from: nat, before: TreeSizes, k: nat)
    requires Fold(m, from, before, k).Some?
    ensures forall h | from <= h < from + k :: h in m
  {
    if k > 0 {
      FoldIsDense(m, from, before, k - 1);
    }
  }

  lemma DrainIsComplete(b: Builder, c: Builder, rs: seq<CompactBlockRecord>, through: u32)
    requires Accounted(b) && Takes(b, c, rs)
    requires rs != [] ==> Durable(Some(through), b.next + |rs| - 1)
    requires c.next !in c.pending || !Durable(Some(through), c.next)
    ensures Drained(b, through, rs)
  {
    hide SumBytes, Linked, Fold;
    FoldIsDense(Blocks(b.pending), b.next, b.sizes, |rs|);
    assert b.readyEnd < c.next ==> b.readyEnd in Blocks(b.pending);
    assert c.next < b.readyEnd ==> c.next in b.pending;
    assert ReadyThrough(b, through) == |rs|;
  }

  // Steps of the batch loop.

  lemma NothingTaken(b: Builder, sealThrough: Option<u32>, maxBatch: nat)
    ensures TakenBytes(b, 0) == 0 && Overshoots(b, 0, 0, sealThrough, maxBatch)
  {
  }

  /** The block that the loop looks at is the next one of the builder it started with. */
  lemma TakenNext(b: Builder, c: Builder, rs: seq<CompactBlockRecord>)
    requires Takes(b, c, rs) && c.next in c.pending
    ensures b.next + |rs| in b.pending && b.pending[b.next + |rs|] == c.pending[c.next]
    ensures c.pending[c.next].block.height == c.next
    ensures TakenBytes(b, |rs| + 1) == TakenBytes(b, |rs|) + c.pending[c.next].bytes
    ensures c.pending[c.next].bytes <= c.pendingBytes && c.pending[c.next].bytes <= c.readyBytes
    ensures Accounted(c) && c.next == b.next + |rs|
    ensures c.previous == EndHash(rs, b.previous) && c.sizes == EndSizes(rs, b.sizes)
  {
    assert Held(c.next, c.next, c.pending[c.next]);
    FirstBytesCounted(c);
  }

  /** A decision about the next block of `c`, said about the builder `b` that the loop started with. */
  lemma Decided(b: Builder, c: Builder, rs: seq<CompactBlockRecord>, durable: Option<u32>, sealThrough: Option<u32>,
                maxBatch: nat)
    requires Accounted(b) && Takes(b, c, rs) && c.next in c.pending
    ensures match Decide(c.pending[c.next], c.previous, c.sizes, TakenBytes(b, |rs|), rs == [], durable, sealThrough,
                         maxBatch)
            case Break => Stops(b, |rs|, durable, sealThrough, maxBatch) && (rs == [] ==> !Durable(durable, b.next))
            case Fail(e) => FailsAt(b, rs, e, durable, maxBatch)
            case Take(record) =>
              && Durable(durable, c.next) && c.next < U32_MAX
              && c.pending[c.next].block.IntoRecord(c.sizes) == Some(record)
              && (c.previous.Some? ==> record.previousHash == c.previous.value)
              && (TakenBytes(b, |rs| + 1) > maxBatch ==> c.next % RANGE_SIZE != 0 && Sealable(sealThrough, c.next))
  {
    hide SumBytes, Accounted, Fold, Linked, RangeEnd, Takes, Above;
    TakenNext(b, c, rs);
    TakenNextBytes(b, c, rs);
    NothingTaken(b, sealThrough, maxBatch);
  }

  /** The bytes of a batch never overflow: they are part of the pending budget. */
  lemma TakenNextBytes(b: Builder, c: Builder, rs: seq<CompactBlockRecord>)
    requires Takes(b, c, rs) && c.next in c.pending && Accounted(b)
    ensures TakenBytes(b, |rs|) + c.pending[c.next].bytes <= USIZE_MAX
  {
    TakenNext(b, c, rs);
    SumSplits(b.pending, b.next, c.next + 1, HEIGHTS);
  }

  lemma OvershootGrows(b: Builder, j: nat, k: nat, at: nat, sealThrough: Option<u32>, maxBatch: nat)
    requires Overshoots(b, j, k, sealThrough, maxBatch) && (j < k ==> TakenBytes(b, k) > maxBatch)
    requires at == b.next + k
    requires TakenBytes(b, k + 1) > maxBatch ==> at % RANGE_SIZE != 0 && Sealable(sealThrough, at)
    ensures if j == k && TakenBytes(b, k + 1) <= maxBatch then Overshoots(b, k + 1, k + 1, sealThrough, maxBatch)
            else Overshoots(b, j, k + 1, sealThrough, maxBatch)
  {
    if j < k || TakenBytes(b, k + 1) > maxBatch {
      SameRange(at);
    }
  }

  lemma SameRange(h: nat)
    requires h % RANGE_SIZE != 0
    ensures h > 0 && RangeEnd(h - 1) == RangeEnd(h)
  {
  }

  lemma BatchIsBuilt(b: Builder, c: Builder, d: Builder, batch: WriteBatch)
    requires Takes(b, c, batch.records) && batch.records != [] && batch.baseGeneration == b.generation
    requires d.(generation := b.generation) == c && d.generation == b.generation + 1
    ensures BuiltBatch(b, d, batch)
  {
  }

  lemma SameGeneration(b: Builder, c: Builder, rs: seq<CompactBlockRecord>)
    requires Takes(b, c, rs)
    ensures c.generation == b.generation
  {
  }

  lemma GapBehind(b: Builder, c: Builder, rs: seq<CompactBlockRecord>, durable: Option<u32>, sealThrough: Option<u32>,
                  maxBatch: nat)
    requires Takes(b, c, rs) && c.next !in c.pending
    ensures b.next + |rs| !in b.pending && Stops(b, |rs|, durable, sealThrough, maxBatch)
  {
  }

  lemma OverflowFails(b: Builder, rs: seq<CompactBlockRecord>, durable: Option<u32>, maxBatch: nat)
    ensures RangeEnd(b.next + |rs|) > U32_MAX || b.generation == U64_MAX ==> FailsAt(b, rs, Overflow, durable, maxBatch)
  {
  }

  /** The counters of an accounted builder follow from its blocks. */
  lemma StateIsCounted(b: Builder, c: Builder)
    requires Accounted(b) && Takes(b, c, [])
    ensures c == b
  {
    assert forall h <- b.pending :: Held(b.next, h, b.pending[h]);
    assert c.pending == b.pending;
    assert c.readyEnd !in b.pending && b.readyEnd !in c.pending;
  }
}
