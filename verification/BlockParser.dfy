/** Whole blocks: from their serialized bytes, or from the stored bytes of each transaction. */
module BlockParser {
  import opened Bytes
  import opened ChainTypes
  import opened Cursor
  import opened TransactionParser
  import WireFormat
  import TransactionGrammar
  import TransactionReader

  const HEADER_PREFIX_BYTES: nat := 140
  const MAX_EQUIHASH_SOLUTION_BYTES: nat := 1_344

  datatype RawIndexBlock = RawIndexBlock(height: u32, hash: Digest, bytes: Buffer, txids: seq<Digest>)

  datatype BlockError =
    | TruncatedHeader(height: u32)
    | Framing(height: u32, source: ParseError)
    | TransactionCount(height: u32, transactions: nat, txids: nat)
    | Transaction(height: u32, index: nat, source: ParseError)
    | CommitmentCount(height: u32)

  type BlockResult<+T> = Result<T, BlockError>

  predicate FitsUsize(counts: Counts) {
    counts.sapling <= USIZE_MAX && counts.orchard <= USIZE_MAX && counts.ironwood <= USIZE_MAX
  }

  // The two entry points as functions. `all` holds the transactions so far, kept or not.

  /** The transactions from `i` on, one behind the other from `o`, and the offset behind them. */
  function TransactionsFrom(b: Buffer, o: nat, height: u32, txids: seq<Digest>, i: nat, all: seq<CompactTransaction>)
    : BlockResult<(seq<CompactTransaction>, nat)>
    requires i <= |txids| <= U64_MAX
    decreases |txids| - i
  {
    if i == |txids| then Success((all, o))
    else
      match ParseTransactionFrom(b, o, txids[i], i)
      case Err(e) => Failure(Transaction(height, i, e))
      case Ok(tx, next) =>
        if next - o > MAX_TRANSACTION_BYTES then Failure(Transaction(height, i, TooLarge))
        else if !FitsUsize(CountCommitments(all + [tx])) then Failure(CommitmentCount(height))
        else TransactionsFrom(b, next, height, txids, i + 1, all + [tx])
  }

  /** The transactions from `i` on, each from its own bytes. */
  function StoredFrom(parts: seq<Buffer>, height: u32, txids: seq<Digest>, i: nat, all: seq<CompactTransaction>)
    : BlockResult<seq<CompactTransaction>>
    requires i <= |txids| <= U64_MAX && |parts| == |txids|
    decreases |txids| - i
  {
    if i == |txids| then Success(all)
    else
      match ParseTransaction(parts[i], txids[i], i)
      case Err(e) => Failure(Transaction(height, i, e))
      case Ok(tx, _) =>
        if !FitsUsize(CountCommitments(all + [tx])) then Failure(CommitmentCount(height))
        else StoredFrom(parts, height, txids, i + 1, all + [tx])
  }

  function IntoBlock(height: u32, all: seq<CompactTransaction>, hash: Digest, previousHash: Digest, time: u32)
    : BlockResult<ParsedCompactBlock>
  {
    var counts := CountCommitments(all);
    if counts.FitsU32() then
      var additions := TreeSizes(counts.sapling, counts.orchard, counts.ironwood);
      Success(ParsedCompactBlock(height, hash, previousHash, time, WithPayload(all), additions))
    else Failure(CommitmentCount(height))
  }

  function ParseStoredBlock(height: u32, hash: Digest, previousHash: Digest, time: u32,
                            parts: seq<Buffer>, txids: seq<Digest>): BlockResult<ParsedCompactBlock>
    requires |parts| == |txids| <= U64_MAX
  {
    var all :- StoredFrom(parts, height, txids, 0, []);
    IntoBlock(height, all, hash, previousHash, time)
  }

  /** The header up to the transaction count: where the transactions start. */
  function BlockHeader(raw: RawIndexBlock): BlockResult<nat> {
    var b, height := raw.bytes, raw.height;
    match Skip(b, 0, HEADER_PREFIX_BYTES)
    case Err(_) => Failure(TruncatedHeader(height))
    case Ok(_, o1) =>
      match CompactSize(b, o1, MAX_EQUIHASH_SOLUTION_BYTES)
      case Err(e) => Failure(Framing(height, e))
      case Ok(len, o2) =>
        match Skip(b, o2, len)
        case Err(_) => Failure(TruncatedHeader(height))
        case Ok(_, o3) =>
          match Count(b, o3)
          case Err(e) => Failure(Framing(height, e))
          case Ok(count, o4) =>
            if count != |raw.txids| then Failure(TransactionCount(height, count, |raw.txids|))
            else Success(o4)
  }

  /** The time field of a header. */
  function TimeOf(header: seq<byte>): u32
    requires |header| >= HEADER_PREFIX_BYTES
  {
    LittleEndianWrites(header[100..104]);
    Pow256Widths();
    FromLittleEndian(header[100..104])
  }

  function ParseBlock(raw: RawIndexBlock): BlockResult<ParsedCompactBlock>
    requires |raw.txids| <= U64_MAX
  {
    var start :- BlockHeader(raw);
    var (all, next) :- TransactionsFrom(raw.bytes, start, raw.height, raw.txids, 0, []);
    if next != |raw.bytes| then Failure(Framing(raw.height, TrailingBytes(next)))
    else IntoBlock(raw.height, all, raw.hash, raw.bytes[4..36], TimeOf(raw.bytes))
  }

  // The two entry points agree.

  function WriteBlock(header: seq<byte>, solution: seq<byte>, parts: seq<Buffer>): seq<byte> {
    header + (WriteSize(|solution|) + (solution + (WriteSize(|parts|) + Concat(parts))))
  }

  function Cut(b: Buffer, o: nat, next: nat): Buffer
    requires o <= next <= |b|
  {
    b[o..next]
  }

  lemma CutOne(b: Buffer, o: nat, txid: Digest, index: u64, tx: CompactTransaction, next: nat)
    requires ParseTransactionFrom(b, o, txid, index) == Ok(tx, next) && next - o <= MAX_TRANSACTION_BYTES
    ensures o <= next <= |b| && ParseTransaction(Cut(b, o, next), txid, index) == Ok(tx, next - o)
  {
    hide ParseTransactionFrom, WireFormat.WriteTransaction;
    var x := TransactionGrammar.TransactionCovers(b, o, txid, index);
    var part := Cut(b, o, next);
    assert part[0..|part|] == part;
    TransactionGrammar.ParseIsLocal(b, o, next, part, 0, tx);
  }

  lemma JoinOne(b: Buffer, o: nat, part: Buffer, txid: Digest, index: u64)
    requires At(b, o, part) && ParseTransaction(part, txid, index).Ok?
    ensures |part| <= MAX_TRANSACTION_BYTES
    ensures ParseTransactionFrom(b, o, txid, index) == Ok(ParseTransaction(part, txid, index).value, o + |part|)
  {
    hide ParseTransactionFrom, WireFormat.WriteTransaction;
    var x := TransactionGrammar.TransactionCovers(part, 0, txid, index);
    assert part[0..|part|] == part;
    TransactionGrammar.ParseIsLocal(part, 0, |part|, b, o, ParseTransaction(part, txid, index).value);
  }

  /** The transactions of an accepted block, cut where each one ends, are accepted one by one. */
  lemma {:induction false} CutTransactions(b: Buffer, o: nat, height: u32, txids: seq<Digest>, i: nat,
                                           all: seq<CompactTransaction>, before: seq<Buffer>)
    returns (parts: seq<Buffer>)
    requires i <= |txids| <= U64_MAX && |before| == i && o <= |b|
    requires TransactionsFrom(b, o, height, txids, i, all).Success?
    ensures |parts| == |txids| && before <= parts
    ensures At(b, o, Concat(parts[i..]))
    ensures StoredFrom(parts, height, txids, i, all) == Success(TransactionsFrom(b, o, height, txids, i, all).value.0)
    ensures TransactionsFrom(b, o, height, txids, i, all).value.1 == o + |Concat(parts[i..])|
    decreases |txids| - i
  {
    hide ParseTransactionFrom, ParseTransaction, FitsUsize, CountCommitments;
    if i == |txids| {
      parts := before;
      assert parts[i..] == [];
    } else {
      var r := ParseTransactionFrom(b, o, txids[i], i);
      CutOne(b, o, txids[i], i, r.value, r.next);
      var part := Cut(b, o, r.next);
      parts := CutTransactions(b, r.next, height, txids, i + 1, all + [r.value], before + [part]);
      assert parts[i] == part;
      assert parts[i..][1..] == parts[i + 1..];
      AtConcat(b, o, part, Concat(parts[i + 1..]));
    }
  }

  /** Transactions that are accepted one by one are accepted one behind the other. */
  lemma {:induction false} JoinTransactions(b: Buffer, o: nat, height: u32, txids: seq<Digest>, i: nat,
                                            all: seq<CompactTransaction>, parts: seq<Buffer>)
    requires i <= |txids| <= U64_MAX && |parts| == |txids|
    requires At(b, o, Concat(parts[i..]))
    requires StoredFrom(parts, height, txids, i, all).Success?
    ensures TransactionsFrom(b, o, height, txids, i, all)
            == Success((StoredFrom(parts, height, txids, i, all).value, o + |Concat(parts[i..])|))
    decreases |txids| - i
  {
    hide ParseTransactionFrom, ParseTransaction, FitsUsize, CountCommitments;
    if i < |txids| {
      var part := parts[i];
      assert parts[i..][1..] == parts[i + 1..];
      AtConcat(b, o, part, Concat(parts[i + 1..]));
      var tx := ParseTransaction(part, txids[i], i).value;
      JoinOne(b, o, part, txids[i], i);
      JoinTransactions(b, o + |part|, height, txids, i + 1, all + [tx], parts);
    }
  }

  /** Where the parts of a written block stand. */
  lemma BlockAt(b: Buffer, header: seq<byte>, solution: seq<byte>, parts: seq<Buffer>)
    requires |header| == HEADER_PREFIX_BYTES && b == WriteBlock(header, solution, parts)
    ensures var at := HEADER_PREFIX_BYTES + |WriteSize(|solution|)|;
            var count := at + |solution|;
            && At(b, HEADER_PREFIX_BYTES, WriteSize(|solution|)) && At(b, at, solution)
            && At(b, count, WriteSize(|parts|)) && At(b, count + |WriteSize(|parts|)|, Concat(parts))
            && count + |WriteSize(|parts|)| + |Concat(parts)| == |b| && b[..HEADER_PREFIX_BYTES] == header
  {
    hide WriteSize, Concat;
    var at := HEADER_PREFIX_BYTES + |WriteSize(|solution|)|;
    assert b[0..|b|] == b;
    var tail := WriteSize(|parts|) + Concat(parts);
    AtConcat(b, 0, header, WriteSize(|solution|) + (solution + tail));
    AtConcat(b, HEADER_PREFIX_BYTES, WriteSize(|solution|), solution + tail);
    AtConcat(b, at, solution, tail);
    AtConcat(b, at + |solution|, WriteSize(|parts|), Concat(parts));
  }

  lemma HeaderReads(raw: RawIndexBlock, header: seq<byte>, solution: seq<byte>, parts: seq<Buffer>)
    requires |header| == HEADER_PREFIX_BYTES && |solution| <= MAX_EQUIHASH_SOLUTION_BYTES
    requires |parts| == |raw.txids| <= MAX_VECTOR_ITEMS && raw.bytes == WriteBlock(header, solution, parts)
    ensures BlockHeader(raw).Success? && At(raw.bytes, BlockHeader(raw).value, Concat(parts))
    ensures BlockHeader(raw).value + |Concat(parts)| == |raw.bytes|
    ensures HEADER_PREFIX_BYTES <= |raw.bytes| && raw.bytes[..HEADER_PREFIX_BYTES] == header
  {
    hide CompactSize, WriteSize, Concat, WriteBlock, At;
    var b, o2 := raw.bytes, HEADER_PREFIX_BYTES + |WriteSize(|solution|)|;
    BlockAt(b, header, solution, parts);
    SizeReads(b, HEADER_PREFIX_BYTES, |solution|, MAX_EQUIHASH_SOLUTION_BYTES);
    SizeReads(b, o2 + |solution|, |parts|, MAX_VECTOR_ITEMS);
  }

  lemma HeaderCovers(raw: RawIndexBlock, parts: seq<Buffer>) returns (solution: seq<byte>)
    requires BlockHeader(raw).Success? && |parts| == |raw.txids|
    requires At(raw.bytes, BlockHeader(raw).value, Concat(parts))
    requires BlockHeader(raw).value + |Concat(parts)| == |raw.bytes|
    ensures |raw.txids| <= MAX_VECTOR_ITEMS && |solution| <= MAX_EQUIHASH_SOLUTION_BYTES
    ensures |raw.bytes| >= HEADER_PREFIX_BYTES
    ensures raw.bytes == WriteBlock(raw.bytes[..HEADER_PREFIX_BYTES], solution, parts)
  {
    hide WriteSize, Concat, CompactSize, WriteBlock;
    var b := raw.bytes;
    SizeCovers(b, HEADER_PREFIX_BYTES, MAX_EQUIHASH_SOLUTION_BYTES);
    var len := CompactSize(b, HEADER_PREFIX_BYTES, MAX_EQUIHASH_SOLUTION_BYTES);
    solution := b[len.next..len.next + len.value];
    SizeCovers(b, len.next + len.value, MAX_VECTOR_ITEMS);
    BlockWritten(b, solution, parts, len.next);
  }

  /** The parts of a block, each where the one before ends, make the block. */
  lemma BlockWritten(b: Buffer, solution: seq<byte>, parts: seq<Buffer>, at: nat)
    requires |b| >= HEADER_PREFIX_BYTES && At(b, HEADER_PREFIX_BYTES, WriteSize(|solution|))
    requires at == HEADER_PREFIX_BYTES + |WriteSize(|solution|)| && At(b, at, solution)
    requires At(b, at + |solution|, WriteSize(|parts|))
    requires At(b, at + |solution| + |WriteSize(|parts|)|, Concat(parts))
    requires at + |solution| + |WriteSize(|parts|)| + |Concat(parts)| == |b|
    ensures b == WriteBlock(b[..HEADER_PREFIX_BYTES], solution, parts)
  {
    hide WriteSize, Concat;
    var tail := WriteSize(|parts|) + Concat(parts);
    AtConcat(b, at + |solution|, WriteSize(|parts|), Concat(parts));
    AtConcat(b, at, solution, tail);
    AtConcat(b, HEADER_PREFIX_BYTES, WriteSize(|solution|), solution + tail);
    AtConcat(b, 0, b[..HEADER_PREFIX_BYTES], WriteSize(|solution|) + (solution + tail));
    assert b[0..|b|] == b;
  }

  /** The stored parts of a block: its bytes are the header, the solution and the parts. */
  ghost predicate StoredAs(raw: RawIndexBlock, header: seq<byte>, solution: seq<byte>, parts: seq<Buffer>) {
    && |header| == HEADER_PREFIX_BYTES && |solution| <= MAX_EQUIHASH_SOLUTION_BYTES
    && |parts| == |raw.txids| <= MAX_VECTOR_ITEMS && raw.bytes == WriteBlock(header, solution, parts)
  }

  /** A block that `parse_block` accepts is accepted from its stored parts, with the same result. */
  lemma BlockThenStored(raw: RawIndexBlock) returns (solution: seq<byte>, parts: seq<Buffer>)
    requires |raw.txids| <= U64_MAX && ParseBlock(raw).Success?
    ensures |raw.bytes| >= HEADER_PREFIX_BYTES
    ensures StoredAs(raw, raw.bytes[..HEADER_PREFIX_BYTES], solution, parts)
    ensures var blk := ParseBlock(raw).value;
            ParseStoredBlock(raw.height, raw.hash, blk.previousHash, blk.time, parts, raw.txids) == Success(blk)
  {
    hide TransactionsFrom, StoredFrom, WriteBlock;
    var start := BlockHeader(raw).value;
    parts := CutTransactions(raw.bytes, start, raw.height, raw.txids, 0, [], []);
    assert parts[0..] == parts;
    solution := HeaderCovers(raw, parts);
  }

  /** Parts that are accepted one by one make a block that `parse_block` accepts, with the same
      result, behind any header of the right length and a canonical solution and count. */
  lemma StoredThenBlock(raw: RawIndexBlock, header: seq<byte>, solution: seq<byte>, parts: seq<Buffer>)
    requires StoredAs(raw, header, solution, parts)
    requires ParseStoredBlock(raw.height, raw.hash, header[4..36], TimeOf(header), parts, raw.txids).Success?
    ensures ParseBlock(raw)
            == ParseStoredBlock(raw.height, raw.hash, header[4..36], TimeOf(header), parts, raw.txids)
  {
    hide TransactionsFrom, StoredFrom, WriteBlock, BlockHeader;
    HeaderReads(raw, header, solution, parts);
    assert parts[0..] == parts;
    JoinTransactions(raw.bytes, BlockHeader(raw).value, raw.height, raw.txids, 0, [], parts);
    var prefix := raw.bytes[..HEADER_PREFIX_BYTES];
    assert prefix[4..36] == raw.bytes[4..36] && prefix[100..104] == raw.bytes[100..104];
  }

  /** What either entry point gives has every shielded datum of the block in order, drops exactly
      the transactions without any, and counts every commitment, if the counts fit in 32 bits. */
  lemma IntoBlockIsExact(height: u32, all: seq<CompactTransaction>, hash: Digest, previousHash: Digest, time: u32)
    ensures IntoBlock(height, all, hash, previousHash, time).Success? <==>
            |AllOutputs(all)| <= U32_MAX && |AllOrchard(all)| <= U32_MAX && |AllIronwood(all)| <= U32_MAX
    ensures IntoBlock(height, all, hash, previousHash, time).Failure? ==>
              IntoBlock(height, all, hash, previousHash, time) == Failure(CommitmentCount(height))
    ensures IntoBlock(height, all, hash, previousHash, time).Success? ==>
              var block := IntoBlock(height, all, hash, previousHash, time).value;
              && block.FromParser() && KeepsData(all, block.transactions)
              && (Rising(all) ==> Rising(block.transactions))
              && (forall tx <- block.transactions :: tx in all)
              && block.height == height && block.hash == hash
              && block.previousHash == previousHash && block.time == time
              && block.additions.sapling == |AllOutputs(all)| && block.additions.orchard == |AllOrchard(all)|
              && block.additions.ironwood == |AllIronwood(all)|
  {
    hide KeepsData, Rising;
    WithPayloadKeepsCommitments(all);
    WithPayloadKeepsData(all);
    DataIsCounted(all);
    if Rising(all) {
      WithPayloadRises(all);
    }
  }

  lemma ParsedBlocksAreExact(raw: RawIndexBlock)
    requires |raw.txids| <= U64_MAX && ParseBlock(raw).Success?
    ensures ParseBlock(raw).value.FromParser() && ParseBlock(raw).value.height == raw.height
  {
    hide TransactionsFrom, CompactSize, ParsedCompactBlock.FromParser;
    var all := TransactionsFrom(raw.bytes, BlockHeader(raw).value, raw.height, raw.txids, 0, []).value.0;
    IntoBlockIsExact(raw.height, all, raw.hash, raw.bytes[4..36], TimeOf(raw.bytes));
  }

  // The entry points as they run.

  lemma OneMoreCounted(all: seq<CompactTransaction>, tx: CompactTransaction)
    ensures CountCommitments(all + [tx]) == CountCommitments(all).Plus(tx)
    ensures WithPayload(all + [tx]) == if tx.HasPayload() then WithPayload(all) + [tx] else WithPayload(all)
  {
    assert (all + [tx])[..|all|] == all;
    assert WithPayload(all) + [] == WithPayload(all);
  }

  class BlockTransactions {
    const height: u32
    var transactions: seq<CompactTransaction>
    var saplingAdditions: nat
    var orchardAdditions: nat
    var ironwoodAdditions: nat
    /** Every transaction pushed. */
    ghost var all: seq<CompactTransaction>

    ghost predicate Valid()
      reads this
    {
      && transactions == WithPayload(all)
      && CountCommitments(all) == Counts(saplingAdditions, orchardAdditions, ironwoodAdditions)
    }

    constructor (height: u32)
      ensures Valid() && all == [] && this.height == height
    {
      this.height := height;
      transactions, saplingAdditions, orchardAdditions, ironwoodAdditions := [], 0, 0, 0;
      all := [];
    }

    /** Adds the commitments of `tx`, and keeps it only if it has shielded data. */
    method Push(tx: CompactTransaction) returns (r: BlockResult<()>)
      requires Valid()
      modifies this
      ensures r == if FitsUsize(CountCommitments(old(all) + [tx])) then Success(())
              else Failure(CommitmentCount(height))
      ensures r.Success? <==>
              && old(saplingAdditions) + |tx.saplingOutputs| <= 0xFFFF_FFFF_FFFF_FFFF
              && old(orchardAdditions) + |tx.orchardActions| <= 0xFFFF_FFFF_FFFF_FFFF
              && old(ironwoodAdditions) + |tx.ironwoodActions| <= 0xFFFF_FFFF_FFFF_FFFF
      ensures r.Success? ==>
                && Valid() && all == old(all) + [tx]
                && saplingAdditions == old(saplingAdditions) + |tx.saplingOutputs|
                && orchardAdditions == old(orchardAdditions) + |tx.orchardActions|
                && ironwoodAdditions == old(ironwoodAdditions) + |tx.ironwoodActions|
                && transactions
                   == (if |tx.saplingSpends| + |tx.saplingOutputs| + |tx.orchardActions| + |tx.ironwoodActions| == 0
                       then old(transactions) else old(transactions) + [tx])
    {
      hide CountCommitments, WithPayload;
      OneMoreCounted(all, tx);
      if saplingAdditions + |tx.saplingOutputs| > USIZE_MAX {
        return Failure(CommitmentCount(height));
      }
      saplingAdditions := saplingAdditions + |tx.saplingOutputs|;
      if orchardAdditions + |tx.orchardActions| > USIZE_MAX {
        return Failure(CommitmentCount(height));
      }
      orchardAdditions := orchardAdditions + |tx.orchardActions|;
      if ironwoodAdditions + |tx.ironwoodActions| > USIZE_MAX {
        return Failure(CommitmentCount(height));
      }
      ironwoodAdditions := ironwoodAdditions + |tx.ironwoodActions|;
      if tx.HasPayload() {
        transactions := transactions + [tx];
      }
      all := all + [tx];
      r := Success(());
    }

    method Finish(hash: Digest, previousHash: Digest, time: u32) returns (r: BlockResult<ParsedCompactBlock>)
      requires Valid()
      ensures r == IntoBlock(height, all, hash, previousHash, time)
    {
      if saplingAdditions > U32_MAX || orchardAdditions > U32_MAX || ironwoodAdditions > U32_MAX {
        return Failure(CommitmentCount(height));
      }
      var additions := TreeSizes(saplingAdditions, orchardAdditions, ironwoodAdditions);
      r := Success(ParsedCompactBlock(height, hash, previousHash, time, transactions, additions));
    }
  }

  method ParseRawBlock(raw: RawIndexBlock) returns (r: BlockResult<ParsedCompactBlock>)
    requires |raw.txids| <= U64_MAX
    ensures r == ParseBlock(raw)
  {
    hide CompactSize, ParseTransactionFrom, CountCommitments, WithPayload, FromLittleEndian;
    var height := raw.height;
    var reader := new TransactionReader.Reader(raw.bytes);
    var prefix := reader.Skip(HEADER_PREFIX_BYTES);
    if prefix.Failure? {
      return Failure(TruncatedHeader(height));
    }
    var solution := reader.CompactSize(MAX_EQUIHASH_SOLUTION_BYTES);
    if solution.Failure? {
      return Failure(Framing(height, solution.error));
    }
    var skipped := reader.Skip(solution.value);
    if skipped.Failure? {
      return Failure(TruncatedHeader(height));
    }
    var count := reader.Count();
    if count.Failure? {
      return Failure(Framing(height, count.error));
    }
    if count.value != |raw.txids| {
      return Failure(TransactionCount(height, count.value, |raw.txids|));
    }
    var previousHash, time := raw.bytes[4..36], TimeOf(raw.bytes);
    ghost var start := reader.offset;
    var transactions := new BlockTransactions(height);
    for i := 0 to |raw.txids|
      invariant reader.Valid() && transactions.Valid() && transactions.height == height
      invariant reader.bytes == raw.bytes
      invariant TransactionsFrom(raw.bytes, start, height, raw.txids, 0, [])
                == TransactionsFrom(raw.bytes, reader.offset, height, raw.txids, i, transactions.all)
    {
      var from := reader.offset;
      var compact := reader.Transaction(raw.txids[i], i);
      if compact.Failure? {
        return Failure(Transaction(height, i, compact.error));
      }
      if reader.offset - from > MAX_TRANSACTION_BYTES {
        return Failure(Transaction(height, i, TooLarge));
      }
      var _ :- transactions.Push(compact.value);
    }
    var finished := reader.Finish();
    if finished.Failure? {
      return Failure(Framing(height, finished.error));
    }
    r := transactions.Finish(raw.hash, previousHash, time);
  }

  method ParseStored(height: u32, hash: Digest, previousHash: Digest, time: u32,
                     parts: seq<Buffer>, txids: seq<Digest>) returns (r: BlockResult<ParsedCompactBlock>)
    requires |parts| == |txids| <= U64_MAX
    ensures r == ParseStoredBlock(height, hash, previousHash, time, parts, txids)
  {
    hide ParseTransactionFrom, CountCommitments, WithPayload;
    var compact := new BlockTransactions(height);
    for i := 0 to |parts|
      invariant compact.Valid() && compact.height == height
      invariant StoredFrom(parts, height, txids, 0, []) == StoredFrom(parts, height, txids, i, compact.all)
    {
      var transaction := TransactionReader.ParseWhole(parts[i], txids[i], i);
      if transaction.Failure? {
        return Failure(Transaction(height, i, transaction.error));
      }
      var _ :- compact.Push(transaction.value);
    }
    r := compact.Finish(hash, previousHash, time);
  }
}
