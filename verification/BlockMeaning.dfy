/** What a parsed block means: the header fields and the transactions that its bytes write. */
module BlockMeaning {
  import opened Bytes
  import opened ChainTypes
  import opened Cursor
  import opened TransactionParser
  import opened BlockParser
  import WireFormat
  import TransactionGrammar

  /** The header of a block up to its solution. */
  datatype Header = Header(version: seq<byte>, previousHash: Digest, merkleRoot: Digest, commitments: Digest,
                           time: u32, bits: seq<byte>, nonce: Digest)

  predicate HeaderOk(h: Header) {
    |h.version| == 4 && |h.bits| == 4
  }

  function WriteHeader(h: Header): seq<byte> {
    h.version + h.previousHash + h.merkleRoot + h.commitments + LittleEndian(h.time, 4) + h.bits + h.nonce
  }

  lemma HeaderFields(h: Header)
    requires HeaderOk(h)
    ensures |WriteHeader(h)| == HEADER_PREFIX_BYTES
    ensures WriteHeader(h)[4..36] == h.previousHash && TimeOf(WriteHeader(h)) == h.time
  {
    var s := WriteHeader(h);
    Pow256Widths();
    LittleEndianReads(h.time, 4);
    assert s[100..104] == LittleEndian(h.time, 4);
  }

  /** Every header of the right length is a written one. */
  lemma HeaderOfBytes(s: seq<byte>) returns (h: Header)
    requires |s| == HEADER_PREFIX_BYTES
    ensures HeaderOk(h) && WriteHeader(h) == s
  {
    Pow256Widths();
    LittleEndianWrites(s[100..104]);
    h := Header(s[..4], s[4..36], s[36..68], s[68..100], FromLittleEndian(s[100..104]), s[104..108], s[108..140]);
    assert s == s[..4] + s[4..36] + s[36..68] + s[68..100] + s[100..104] + s[104..108] + s[108..140];
  }

  /** Each transaction in compact form, with its own id and position. */
  function CompactAll(xs: seq<WireFormat.Transaction>, txids: seq<Digest>): (all: seq<CompactTransaction>)
    requires |xs| == |txids| <= U64_MAX
    ensures |all| == |xs| && forall i | 0 <= i < |xs| :: all[i] == WireFormat.Compact(xs[i], txids[i], i)
  {
    seq(|xs|, i requires 0 <= i < |xs| => WireFormat.Compact(xs[i], txids[i], i))
  }

  lemma CompactAllRises(xs: seq<WireFormat.Transaction>, txids: seq<Digest>)
    requires |xs| == |txids| <= U64_MAX
    ensures Rising(CompactAll(xs, txids))
    ensures forall i | 0 <= i < |xs| :: CompactAll(xs, txids)[i].index == i && CompactAll(xs, txids)[i].txid == txids[i]
  {
  }

  /** Each part writes its transaction, within the size bound. */
  ghost predicate Writes(parts: seq<Buffer>, xs: seq<WireFormat.Transaction>) {
    && |parts| == |xs|
    && forall i | 0 <= i < |xs| ::
         && WireFormat.TransactionOk(xs[i]) && parts[i] == WireFormat.WriteTransaction(xs[i])
         && |parts[i]| <= 2_000_000
  }

  /** The bytes of the block are this header, solution and these transactions, and the number of
      transactions is that of the ids. */
  ghost predicate Holds(raw: RawIndexBlock, h: Header, solution: seq<byte>, xs: seq<WireFormat.Transaction>,
                        parts: seq<Buffer>) {
    && HeaderOk(h) && Writes(parts, xs) && |xs| == |raw.txids| <= 65_535
    && |solution| <= 1_344
    && raw.bytes == WriteHeader(h) + (WriteSize(|solution|) + (solution + (WriteSize(|parts|) + Concat(parts))))
  }

  ghost predicate CountsFit(all: seq<CompactTransaction>) {
    |AllOutputs(all)| <= U32_MAX && |AllOrchard(all)| <= U32_MAX && |AllIronwood(all)| <= U32_MAX
  }

  /** The block has the fields of the header, all shielded data of `all` in order, each kept
      transaction at its own position, and the commitments of all transactions. */
  ghost predicate Sums(block: ParsedCompactBlock, raw: RawIndexBlock, h: Header, all: seq<CompactTransaction>) {
    && block.height == raw.height && block.hash == raw.hash
    && block.previousHash == h.previousHash && block.time == h.time
    && KeepsData(all, block.transactions) && Rising(block.transactions)
    && (forall tx <- block.transactions :: tx.index < |all| && tx == all[tx.index])
    && block.additions.sapling == |AllOutputs(all)| && block.additions.orchard == |AllOrchard(all)|
    && block.additions.ironwood == |AllIronwood(all)|
  }

  lemma IntoBlockSums(raw: RawIndexBlock, h: Header, xs: seq<WireFormat.Transaction>)
    requires |xs| == |raw.txids| <= U64_MAX
    ensures var all, r := CompactAll(xs, raw.txids),
                          IntoBlock(raw.height, CompactAll(xs, raw.txids), raw.hash, h.previousHash, h.time);
            && (r.Success? <==> CountsFit(all))
            && (r.Success? ==> Sums(r.value, raw, h, all))
  {
    hide KeepsData, Rising, WireFormat.Compact, IntoBlock;
    var all := CompactAll(xs, raw.txids);
    CompactAllRises(xs, raw.txids);
    IntoBlockIsExact(raw.height, all, raw.hash, h.previousHash, h.time);
  }

  lemma PartReads(part: Buffer, x: WireFormat.Transaction, txid: Digest, i: u64)
    requires WireFormat.TransactionOk(x) && part == WireFormat.WriteTransaction(x) && |part| <= MAX_TRANSACTION_BYTES
    ensures ParseTransaction(part, txid, i) == Ok(WireFormat.Compact(x, txid, i), |part|)
  {
    hide ParseTransactionFrom, WireFormat.WriteTransaction, WireFormat.TransactionOk;
    assert part[0..|part|] == part;
    TransactionGrammar.TransactionReads(part, 0, x, txid, i);
  }

  lemma {:induction false} CountsGrow(all: seq<CompactTransaction>, k: nat)
    requires k <= |all|
    ensures |AllOutputs(all[..k])| <= |AllOutputs(all)| && |AllOrchard(all[..k])| <= |AllOrchard(all)|
    ensures |AllIronwood(all[..k])| <= |AllIronwood(all)|
  {
    if k == |all| {
      assert all[..k] == all;
    } else {
      var init := all[..|all| - 1];
      CountsGrow(init, k);
      assert init[..k] == all[..k];
    }
  }

  /** Written transactions are accepted one by one, in compact form. */
  lemma {:induction false} StoredReads(parts: seq<Buffer>, xs: seq<WireFormat.Transaction>, height: u32,
                                       txids: seq<Digest>, i: nat)
    requires Writes(parts, xs) && |xs| == |txids| <= U64_MAX && i <= |xs| && CountsFit(CompactAll(xs, txids))
    ensures StoredFrom(parts, height, txids, i, CompactAll(xs, txids)[..i]) == Success(CompactAll(xs, txids))
    decreases |xs| - i
  {
    hide ParseTransaction, CountCommitments, WireFormat.WriteTransaction, WireFormat.TransactionOk, WireFormat.Compact;
    var all := CompactAll(xs, txids);
    if i < |xs| {
      PartReads(parts[i], xs[i], txids[i], i);
      assert all[..i] + [all[i]] == all[..i + 1];
      CountsGrow(all, i + 1);
      DataIsCounted(all[..i + 1]);
      StoredReads(parts, xs, height, txids, i + 1);
    } else {
      assert all[..i] == all;
    }
  }

  /** Transactions that are accepted one by one are written ones. */
  lemma {:induction false} StoredCovers(parts: seq<Buffer>, height: u32, txids: seq<Digest>, i: nat,
                                        all: seq<CompactTransaction>, before: seq<WireFormat.Transaction>)
    returns (xs: seq<WireFormat.Transaction>)
    requires |parts| == |txids| <= U64_MAX && i <= |txids| && |before| == i && Writes(parts[..i], before)
    requires all == CompactAll(before, txids[..i]) && StoredFrom(parts, height, txids, i, all).Success?
    ensures Writes(parts, xs) && StoredFrom(parts, height, txids, i, all) == Success(CompactAll(xs, txids))
    decreases |txids| - i
  {
    hide ParseTransaction, CountCommitments, WireFormat.WriteTransaction, WireFormat.TransactionOk, WireFormat.Compact;
    if i == |txids| {
      xs := before;
      assert parts[..i] == parts && txids[..i] == txids;
    } else {
      var x := PartCovers(parts[i], txids[i], i);
      var next := before + [x];
      assert Writes(parts[..i + 1], next);
      assert all + [WireFormat.Compact(x, txids[i], i)] == CompactAll(next, txids[..i + 1]);
      xs := StoredCovers(parts, height, txids, i + 1, all + [WireFormat.Compact(x, txids[i], i)], next);
    }
  }

  lemma PartCovers(part: Buffer, txid: Digest, i: u64) returns (x: WireFormat.Transaction)
    requires ParseTransaction(part, txid, i).Ok?
    ensures WireFormat.TransactionOk(x) && part == WireFormat.WriteTransaction(x) && |part| <= MAX_TRANSACTION_BYTES
    ensures ParseTransaction(part, txid, i).value == WireFormat.Compact(x, txid, i)
  {
    hide ParseTransactionFrom, WireFormat.WriteTransaction, WireFormat.TransactionOk;
    x := TransactionGrammar.TransactionCovers(part, 0, txid, i);
    assert part[0..|part|] == part;
  }

  /** A well-formed block whose commitments fit is accepted, and means what its bytes write. */
  lemma BlockReads(raw: RawIndexBlock, h: Header, solution: seq<byte>, xs: seq<WireFormat.Transaction>,
                   parts: seq<Buffer>)
    requires Holds(raw, h, solution, xs, parts) && CountsFit(CompactAll(xs, raw.txids))
    ensures ParseBlock(raw).Success? && Sums(ParseBlock(raw).value, raw, h, CompactAll(xs, raw.txids))
  {
    hide ParseBlock, StoredFrom, Sums, CountsFit, IntoBlock, TimeOf, WriteHeader;
    HeaderFields(h);
    StoredReads(parts, xs, raw.height, raw.txids, 0);
    assert CompactAll(xs, raw.txids)[..0] == [];
    IntoBlockSums(raw, h, xs);
    StoredThenBlock(raw, WriteHeader(h), solution, parts);
  }

  /** Every accepted block is a well-formed one, and means what its bytes write. */
  lemma BlockCovers(raw: RawIndexBlock)
    returns (h: Header, solution: seq<byte>, xs: seq<WireFormat.Transaction>, parts: seq<Buffer>)
    requires |raw.txids| <= U64_MAX && ParseBlock(raw).Success?
    ensures Holds(raw, h, solution, xs, parts) && CountsFit(CompactAll(xs, raw.txids))
    ensures Sums(ParseBlock(raw).value, raw, h, CompactAll(xs, raw.txids))
  {
    hide ParseBlock, StoredFrom, Sums, IntoBlock, TimeOf, WriteHeader;
    var block := ParseBlock(raw).value;
    solution, parts := BlockThenStored(raw);
    h := HeaderOfBytes(raw.bytes[..HEADER_PREFIX_BYTES]);
    HeaderFields(h);
    xs := StoredCovers(parts, raw.height, raw.txids, 0, [], []);
    IntoBlockIsExact(raw.height, CompactAll(xs, raw.txids), raw.hash, block.previousHash, block.time);
    IntoBlockSums(raw, h, xs);
    StoredThenBlock(raw, WriteHeader(h), solution, parts);
  }
}
