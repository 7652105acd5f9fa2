/** Encoding a write batch on several threads: the result is that of one thread. */
module BatchEncoding {
  import opened Bytes
  import opened ChainTypes
  import opened RecordCodec
  import Ingest = OrderedBuilder

  datatype EncodedBlock = EncodedBlock(height: u32, hash: Digest, previousHash: Digest, bytes: seq<byte>)

  datatype EncodedBatch = EncodedBatch(baseGeneration: u64, sealThrough: Option<u32>, blocks: seq<EncodedBlock>,
                                       endTreeSizes: TreeSizes)

  function EncodeBlock(r: CompactBlockRecord): CodecResult<EncodedBlock> {
    var bytes :- Encode(r);
    Success(EncodedBlock(r.height, r.hash, r.previousHash, bytes))
  }

  /** One record after the other, up to the first that does not encode. */
  function EncodeInOrder(records: seq<CompactBlockRecord>): CodecResult<seq<EncodedBlock>> {
    if records == [] then Success([])
    else
      var block :- EncodeBlock(records[0]);
      var rest :- EncodeInOrder(records[1..]);
      Success([block] + rest)
  }

  /** The slices of `size` items that `xs` is cut into; the last may be shorter. */
  function Chunks<T>(xs: seq<T>, size: nat): seq<seq<T>>
    requires size > 0
  {
    if xs == [] then [] else if |xs| <= size then [xs] else [xs[..size]] + Chunks(xs[size..], size)
  }

  /** The blocks of all chunks, or the error of the first chunk that has one. */
  function JoinChunks(chunks: seq<seq<CompactBlockRecord>>): CodecResult<seq<EncodedBlock>> {
    if chunks == [] then Success([])
    else
      var blocks :- EncodeInOrder(chunks[0]);
      var rest :- JoinChunks(chunks[1..]);
      Success(blocks + rest)
  }

  function DivCeil(n: nat, d: nat): nat
    requires d > 0
  {
    (n + d - 1) / d
  }

  /** The blocks of a batch with `records`, on at most `threads` threads. */
  function EncodeOn(records: seq<CompactBlockRecord>, threads: nat): CodecResult<seq<EncodedBlock>>
    requires records != []
  {
    if threads <= 1 then EncodeInOrder(records)
    else
      ChunkSize(|records|, threads);
      JoinChunks(Chunks(records, DivCeil(|records|, threads)))
  }

  /** `WriteBatch::encode`. */
  function EncodeBatch(batch: Ingest.WriteBatch, threads: nat): CodecResult<EncodedBatch>
    requires batch.records != []
  {
    var blocks :- EncodeOn(batch.records, threads);
    Success(EncodedBatch(batch.baseGeneration, batch.sealThrough, blocks,
                         batch.records[|batch.records| - 1].endTreeSizes))
  }

  lemma ChunkSize(n: nat, threads: nat)
    requires n > 0 && threads > 0
    ensures DivCeil(n, threads) > 0 && threads * (DivCeil(n, threads) - 1) < n <= threads * DivCeil(n, threads)
  {
    var m := n + threads - 1;
    var q := m / threads;
    assert m == threads * q + m % threads;
    assert q == 0 ==> threads * q == 0;
  }

  lemma {:induction false} InOrderSplits(xs: seq<CompactBlockRecord>, ys: seq<CompactBlockRecord>)
    ensures EncodeInOrder(xs + ys)
            == match EncodeInOrder(xs)
               case Failure(e) => Failure(e)
               case Success(bs) =>
                 match EncodeInOrder(ys)
                 case Failure(e) => Failure(e)
                 case Success(cs) => Success(bs + cs)
  {
    hide EncodeBlock;
    if xs == [] {
      assert xs + ys == ys;
      assert EncodeInOrder(ys).Success? ==> [] + EncodeInOrder(ys).value == EncodeInOrder(ys).value;
    } else {
      InOrderSplits(xs[1..], ys);
      assert (xs + ys)[1..] == xs[1..] + ys;
      if EncodeBlock(xs[0]).Success? && EncodeInOrder(xs[1..]).Success? && EncodeInOrder(ys).Success? {
        var b, bs, cs := EncodeBlock(xs[0]).value, EncodeInOrder(xs[1..]).value, EncodeInOrder(ys).value;
        assert [b] + (bs + cs) == [b] + bs + cs;
      }
    }
  }

  lemma {:induction false} ChunksJoin(xs: seq<CompactBlockRecord>, size: nat)
    requires size > 0
    ensures JoinChunks(Chunks(xs, size)) == EncodeInOrder(xs)
  {
    hide EncodeInOrder;
    if xs == [] {
      NothingInOrder();
    } else if |xs| <= size {
      assert [xs][1..] == [];
      if EncodeInOrder(xs).Success? {
        assert EncodeInOrder(xs).value + [] == EncodeInOrder(xs).value;
      }
    } else {
      ChunksJoin(xs[size..], size);
      assert ([xs[..size]] + Chunks(xs[size..], size))[1..] == Chunks(xs[size..], size);
      InOrderSplits(xs[..size], xs[size..]);
      assert xs == xs[..size] + xs[size..];
    }
  }

  lemma NothingInOrder()
    ensures EncodeInOrder([]) == Success([])
  {
  }

  /** Any number of threads gives the blocks, or the error, of one thread. */
  lemma ThreadsAgree(records: seq<CompactBlockRecord>, threads: nat)
    requires records != []
    ensures EncodeOn(records, threads) == EncodeInOrder(records)
  {
    if threads > 1 {
      ChunkSize(|records|, threads);
      ChunksJoin(records, DivCeil(|records|, threads));
    }
  }

  /** The first record that does not encode gives the error of the batch. */
  lemma {:induction false} InOrderFails(records: seq<CompactBlockRecord>, k: nat)
    requires k < |records| && Encode(records[k]).Failure? && forall i | 0 <= i < k :: Encode(records[i]).Success?
    ensures EncodeInOrder(records) == Failure(Encode(records[k]).error)
  {
    hide Encode;
    if k > 0 {
      assert Encode(records[0]).Success?;
      InOrderFails(records[1..], k - 1);
    }
  }

  lemma {:induction false} InOrderCarries(records: seq<CompactBlockRecord>)
    requires forall r <- records :: Encode(r).Success?
    ensures EncodeInOrder(records).Success? && |EncodeInOrder(records).value| == |records|
    ensures forall i | 0 <= i < |records| ::
              var block, r := EncodeInOrder(records).value[i], records[i];
              && block.height == r.height && block.hash == r.hash && block.previousHash == r.previousHash
              && Encode(r) == Success(block.bytes)
  {
    hide Encode;
    if records != [] {
      assert records[0] in records;
      InOrderCarries(records[1..]);
    }
  }

  /** The block has the identity of the record, and its bytes. */
  ghost predicate CarriesRecord(block: EncodedBlock, r: CompactBlockRecord) {
    && block.height == r.height && block.hash == r.hash && block.previousHash == r.previousHash
    && Encode(r) == Success(block.bytes)
  }

  /** On any number of threads an encoded batch has, block by block, the identity and the bytes of the
      records, and the tree sizes of the last one; the first record that does not encode gives the error. */
  lemma BatchCarriesRecords(batch: Ingest.WriteBatch, threads: nat, k: nat)
    requires batch.records != []
    ensures (forall r <- batch.records :: Encode(r).Success?) ==>
              && EncodeBatch(batch, threads).Success?
              && var encoded, n := EncodeBatch(batch, threads).value, |batch.records|;
                 && |encoded.blocks| == n && encoded.endTreeSizes == batch.records[n - 1].endTreeSizes
                 && encoded.baseGeneration == batch.baseGeneration && encoded.sealThrough == batch.sealThrough
                 && forall i | 0 <= i < n :: CarriesRecord(encoded.blocks[i], batch.records[i])
    ensures && k < |batch.records| && Encode(batch.records[k]).Failure?
            && (forall i | 0 <= i < k :: Encode(batch.records[i]).Success?) ==>
              EncodeBatch(batch, threads) == Failure(Encode(batch.records[k]).error)
  {
    hide Encode, EncodeInOrder, EncodeOn;
    var records := batch.records;
    ThreadsAgree(records, threads);
    if forall r <- records :: Encode(r).Success? {
      InOrderCarries(records);
    }
    if k < |records| && Encode(records[k]).Failure? && forall i | 0 <= i < k :: Encode(records[i]).Success? {
      InOrderFails(records, k);
    }
  }

  /** Records that encode one by one encode as a batch. */
  lemma {:induction false} AllEncode(records: seq<CompactBlockRecord>)
    requires forall r <- records :: Encode(r).Success?
    ensures EncodeInOrder(records).Success?
  {
    hide Encode;
    if records != [] {
      assert records[0] in records;
      AllEncode(records[1..]);
    }
  }

  lemma {:induction false} ChunkCount<T>(xs: seq<T>, size: nat)
    requires size > 0 && xs != []
    ensures |Chunks(xs, size)| > 0 && (|Chunks(xs, size)| - 1) * size < |xs|
  {
    if |xs| > size {
      ChunkCount(xs[size..], size);
    }
  }

  lemma MoreFactors(c: nat, t: nat, size: nat)
    requires c >= t
    ensures c * size >= t * size
  {
    assert c * size == t * size + (c - t) * size;
  }

  /** And no more threads than asked for. */
  lemma AtMostThreads(records: seq<CompactBlockRecord>, threads: nat)
    requires records != [] && threads > 0
    ensures DivCeil(|records|, threads) > 0
    ensures |Chunks(records, DivCeil(|records|, threads))| <= threads
  {
    ChunkSize(|records|, threads);
    var size := DivCeil(|records|, threads);
    ChunkCount(records, size);
    if |Chunks(records, size)| - 1 >= threads {
      MoreFactors(|Chunks(records, size)| - 1, threads, size);
    }
  }
}
