/** The encoding of one block record: an envelope with its identity, and a protobuf payload. */
module RecordCodec {
  import opened Bytes
  import opened ChainTypes
  import Protobuf

  const BLOCK_FORMAT_VERSION: byte := 1
  /** Version, height, two hashes and the payload length. */
  const ENVELOPE_BYTES: nat := 73

  datatype CodecError =
    | Truncated | Version(version: byte) | Length | TrailingBytes | InvalidRecord | InvalidRange | RangeIndex

  type CodecResult<+T> = Result<T, CodecError>

  // Sizes.

  function TransactionBound(tx: CompactTransaction): nat {
    64 + 36 * |tx.saplingSpends| + 128 * |tx.saplingOutputs| + 160 * |tx.orchardActions| + 160 * |tx.ironwoodActions|
  }

  function TransactionsBound(txs: seq<CompactTransaction>): nat {
    if txs == [] then 0 else TransactionsBound(txs[..|txs| - 1]) + TransactionBound(txs[|txs| - 1])
  }

  /** What `push` counts for a block with `txs`; it fails above the record limit. */
  function EncodedSizeBound(txs: seq<CompactTransaction>): CodecResult<nat> {
    var size := 192 + TransactionsBound(txs);
    if size <= MAX_RECORD_BYTES then Success(size) else Failure(Length)
  }

  /** The bound of a block, from the numbers of its transactions, spends, outputs and actions. */
  lemma SizeBoundIs(txs: seq<CompactTransaction>)
    ensures var size := 192 + 64 * |txs| + 36 * |AllSpends(txs)| + 128 * |AllOutputs(txs)|
                        + 160 * |AllOrchard(txs)| + 160 * |AllIronwood(txs)|;
            EncodedSizeBound(txs) == if size <= 2_000_000 then Success(size) else Failure(Length)
  {
    TransactionsBoundIs(txs);
  }

  lemma {:induction false} TransactionsBoundIs(txs: seq<CompactTransaction>)
    ensures TransactionsBound(txs)
            == 64 * |txs| + 36 * |AllSpends(txs)| + 128 * |AllOutputs(txs)| + 160 * |AllOrchard(txs)|
               + 160 * |AllIronwood(txs)|
  {
    if txs != [] {
      TransactionsBoundIs(txs[..|txs| - 1]);
    }
  }

  function Encode(r: CompactBlockRecord): CodecResult<seq<byte>> {
    if !r.Check() then Failure(InvalidRecord)
    else if |Protobuf.Block(r)| + ENVELOPE_BYTES > MAX_RECORD_BYTES then Failure(Length)
    else Success(Enveloped(r.height, r.hash, r.previousHash, Protobuf.Block(r)))
  }

  function Enveloped(height: u32, hash: Digest, previousHash: Digest, payload: seq<byte>): seq<byte> {
    [BLOCK_FORMAT_VERSION] + BigEndian(height, 4) + hash + previousHash + BigEndian(|payload|, 4) + payload
  }

  lemma {:induction false} TransactionsLength(txs: seq<CompactTransaction>)
    requires TransactionsBound(txs) <= MAX_RECORD_BYTES
    ensures |Protobuf.Repeated(7, Protobuf.Transaction, txs)| <= TransactionsBound(txs)
  {
    hide Protobuf.Field, Protobuf.Transaction;
    if txs != [] {
      var tx := txs[|txs| - 1];
      TransactionsLength(txs[..|txs| - 1]);
      Protobuf.TransactionLength(tx);
      Protobuf.FieldLength(7, Protobuf.Transaction(tx));
    }
  }

  /** The bound dominates the real length, whatever the height, the time and the tree sizes. */
  lemma SizeBoundDominates(r: CompactBlockRecord)
    requires EncodedSizeBound(r.transactions).Success?
    ensures ENVELOPE_BYTES + |Protobuf.Block(r)| <= EncodedSizeBound(r.transactions).value
  {
    hide Protobuf.Field, Protobuf.UintField, Protobuf.Repeated, TransactionsBound;
    TransactionsLength(r.transactions);
    Protobuf.UintLength(2, r.height);
    Protobuf.FieldLength(3, r.hash);
    Protobuf.FieldLength(4, r.previousHash);
    Protobuf.UintLength(5, r.time);
    var sizes := r.endTreeSizes;
    Protobuf.UintLength(1, sizes.sapling);
    Protobuf.UintLength(2, sizes.orchard);
    Protobuf.UintLength(3, sizes.ironwood);
    Protobuf.FieldLength(8, Protobuf.Metadata(sizes));
  }

  /** A block of the parser that passes the size bound always encodes, within the bound. */
  lemma AdmittedBlocksEncode(block: ParsedCompactBlock, before: TreeSizes)
    requires block.FromParser() && EncodedSizeBound(block.transactions).Success?
    requires block.IntoRecord(before).Some?
    ensures Encode(block.IntoRecord(before).value).Success?
    ensures |Encode(block.IntoRecord(before).value).value| <= EncodedSizeBound(block.transactions).value
  {
    SizeBoundDominates(block.IntoRecord(before).value);
  }

  // The envelope of a record.

  datatype Envelope = Envelope(height: u32, hash: Digest, previousHash: Digest, payload: seq<byte>)

  function ReadEnvelope(b: seq<byte>): CodecResult<Envelope> {
    if |b| > MAX_RECORD_BYTES then Failure(Length)
    else if b == [] then Failure(Truncated)
    else if b[0] != BLOCK_FORMAT_VERSION then Failure(InvalidRecord)
    else if |b| < ENVELOPE_BYTES then Failure(Truncated)
    else
      var len := FromBigEndian(b[69..73]);
      if ENVELOPE_BYTES + len > |b| then Failure(Truncated)
      else if ENVELOPE_BYTES + len < |b| then Failure(InvalidRecord)
      else
        BigEndianWrites(b[1..5]);
        Pow256Widths();
        Success(Envelope(FromBigEndian(b[1..5]), b[5..37], b[37..69], b[73..]))
  }

  lemma EnvelopeReads(height: u32, hash: Digest, previousHash: Digest, payload: seq<byte>)
    requires ENVELOPE_BYTES + |payload| <= MAX_RECORD_BYTES
    ensures ReadEnvelope(Enveloped(height, hash, previousHash, payload))
            == Success(Envelope(height, hash, previousHash, payload))
    ensures |Enveloped(height, hash, previousHash, payload)| == ENVELOPE_BYTES + |payload|
  {
    hide FromBigEndian, BigEndian;
    var b := Enveloped(height, hash, previousHash, payload);
    assert b[1..5] == BigEndian(height, 4);
    assert b[5..37] == hash && b[37..69] == previousHash;
    assert b[69..73] == BigEndian(|payload|, 4) && b[73..] == payload;
    Pow256Widths();
    BigEndianReads(height, 4);
    BigEndianReads(|payload|, 4);
  }

  /** The envelope reader takes the envelopes of bounded size, and nothing else. */
  lemma EnvelopeExact(b: seq<byte>, e: Envelope)
    ensures ReadEnvelope(b) == Success(e) <==>
            && |b| <= 2_000_000
            && b == [1] + BigEndian(e.height, 4) + e.hash + e.previousHash + BigEndian(|e.payload|, 4) + e.payload
  {
    if ReadEnvelope(b) == Success(e) {
      hide FromBigEndian, BigEndian;
      BigEndianWrites(b[1..5]);
      BigEndianWrites(b[69..73]);
      assert b == [b[0]] + b[1..5] + b[5..37] + b[37..69] + b[69..73] + b[73..];
    }
    if b == Enveloped(e.height, e.hash, e.previousHash, e.payload) && |b| <= 2_000_000 {
      EnvelopeReads(e.height, e.hash, e.previousHash, e.payload);
    }
  }

  /** A record encodes exactly if every transaction has shielded data and the bytes are at most
      2,000,000; they are the version, the identity, and the payload behind its length. */
  lemma EncodeExact(r: CompactBlockRecord)
    ensures var s := Protobuf.Block(r);
            var b := [1] + BigEndian(r.height, 4) + r.hash + r.previousHash + BigEndian(|s|, 4) + s;
            Encode(r)
            == if exists tx <- r.transactions ::
                    |tx.saplingSpends| + |tx.saplingOutputs| + |tx.orchardActions| + |tx.ironwoodActions| == 0
               then Failure(InvalidRecord)
               else if |b| > 2_000_000 then Failure(Length) else Success(b)
  {
    hide Protobuf.Block, BigEndian;
    assert forall tx <- r.transactions :: !tx.HasPayload() <==>
                                          |tx.saplingSpends| + |tx.saplingOutputs| + |tx.orchardActions|
                                          + |tx.ironwoodActions| == 0;
  }

  /** Encoded records carry their identity where the envelope reader finds it. */
  lemma EncodeThenEnvelope(r: CompactBlockRecord)
    requires Encode(r).Success?
    ensures ReadEnvelope(Encode(r).value) == Success(Envelope(r.height, r.hash, r.previousHash, Protobuf.Block(r)))
    ensures |Encode(r).value| <= MAX_RECORD_BYTES
  {
    hide Protobuf.Block, Enveloped, ReadEnvelope;
    EnvelopeReads(r.height, r.hash, r.previousHash, Protobuf.Block(r));
  }

  // Decoding. `payload` stands for the generated protobuf decoder and the conversion of its
  // message into a record.

  type PayloadDecoder = seq<byte> -> Option<CompactBlockRecord>

  function Decode(payload: PayloadDecoder, b: seq<byte>): CodecResult<CompactBlockRecord> {
    var e :- ReadEnvelope(b);
    match payload(e.payload)
    case None => Failure(InvalidRecord)
    case Some(r) =>
      if r.height != e.height || r.hash != e.hash || r.previousHash != e.previousHash then Failure(InvalidRecord)
      else Success(r)
  }

  /** The decoder undoes the generated encoder. */
  ghost predicate Inverts(payload: PayloadDecoder) {
    forall r :: payload(Protobuf.Block(r)) == Some(r)
  }

  /** Every commitment of a decoded record takes at least its own 32 bytes of the payload. */
  ghost predicate Thrifty(payload: PayloadDecoder) {
    forall s :: payload(s).Some? ==>
      var c := CountCommitments(payload(s).value.transactions);
      32 * (c.sapling + c.orchard + c.ironwood) <= |s|
  }

  lemma EncodeThenDecode(payload: PayloadDecoder, r: CompactBlockRecord)
    requires Inverts(payload) && Encode(r).Success?
    ensures Decode(payload, Encode(r).value) == Success(r)
  {
    hide Encode, ReadEnvelope, Protobuf.Block;
    EncodeThenEnvelope(r);
  }

  /** A record is decoded from exactly the envelopes of bounded size with its own identity around a
      payload that decodes to it. */
  lemma DecodeExact(payload: PayloadDecoder, b: seq<byte>, r: CompactBlockRecord)
    ensures Decode(payload, b) == Success(r) <==>
            exists s: seq<byte> :: b == Enveloped(r.height, r.hash, r.previousHash, s) && |b| <= 2_000_000
                                   && payload(s) == Some(r)
  {
    hide ReadEnvelope, BigEndian;
    if Decode(payload, b) == Success(r) {
      EnvelopeExact(b, ReadEnvelope(b).value);
    }
    forall s: seq<byte> | b == Enveloped(r.height, r.hash, r.previousHash, s) && |b| <= 2_000_000
      ensures payload(s) == Some(r) ==> Decode(payload, b) == Success(r)
    {
      EnvelopeExact(b, Envelope(r.height, r.hash, r.previousHash, s));
    }
  }

  /** A stored record cannot fill a subtree of 65,536 commitments, so its count never saturates. */
  lemma DecodedRecordsAreSmall(payload: PayloadDecoder, b: seq<byte>)
    requires Thrifty(payload) && Decode(payload, b).Success?
    ensures var c := CountCommitments(Decode(payload, b).value.transactions);
            c.sapling + c.orchard + c.ironwood < 65_536
            && Decode(payload, b).value.Additions() == TreeSizes(c.sapling, c.orchard, c.ironwood)
  {
    hide CountCommitments, FromBigEndian;
    var e := ReadEnvelope(b).value;
    assert payload(e.payload).Some?;
  }
}
