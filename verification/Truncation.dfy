/** Cut bytes: every strict prefix of what the parser accepts is refused as truncated. */
module Truncation {
  import opened Bytes
  import opened ChainTypes
  import opened Cursor
  import opened WireFormat
  import opened TransactionParser
  import opened BlockParser
  import opened RecordCodec
  import Protobuf
  import TransactionGrammar

  /** `p` read from `o` on in the whole buffer, and `q` in its first `k` bytes: a value that ends in
      front of the cut is read, and any other is truncated. */
  ghost predicate Cut<T>(p: Parsed<T>, q: Parsed<T>, o: nat, k: nat) {
    p.Ok? ==> o <= p.next && (o <= k ==> if p.next <= k then q == p else q.Err? && q.error.Truncated?)
  }

  ghost function Next<T>(p: Parsed<T>): nat {
    if p.Ok? then p.next else 0
  }

  lemma TakeCut(b: Buffer, c: Buffer, o: nat, len: nat)
    requires c <= b
    ensures Cut(Take(b, o, len), Take(c, o, len), o, |c|) && Cut(Skip(b, o, len), Skip(c, o, len), o, |c|)
    ensures Skip(b, o, len).Ok? ==> Skip(b, o, len).next == o + len
  {
    if o + len <= |c| {
      assert b[o..o + len] == c[o..o + len];
    }
  }

  lemma DigestCut(b: Buffer, c: Buffer, o: nat)
    requires c <= b
    ensures Cut(TakeDigest(b, o), TakeDigest(c, o), o, |c|)
    ensures Cut(TakeCiphertext(b, o), TakeCiphertext(c, o), o, |c|)
    ensures TakeDigest(b, o).Ok? ==> TakeDigest(b, o).next == o + 32
    ensures TakeCiphertext(b, o).Ok? ==> TakeCiphertext(b, o).next == o + 52
  {
    TakeCut(b, c, o, 32);
    TakeCut(b, c, o, 52);
  }

  lemma U32Cut(b: Buffer, c: Buffer, o: nat)
    requires c <= b
    ensures Cut(TakeU32(b, o), TakeU32(c, o), o, |c|)
  {
    hide FromLittleEndian;
    TakeCut(b, c, o, 4);
  }

  lemma SizeCut(b: Buffer, c: Buffer, o: nat, max: nat)
    requires c <= b
    ensures Cut(CompactSize(b, o, max), CompactSize(c, o, max), o, |c|)
  {
    hide FromLittleEndian, SizeWidth, SizeLeast;
    TakeCut(b, c, o, 1);
    if Take(b, o, 1).Ok? {
      TakeCut(b, c, o + 1, SizeWidth(Take(b, o, 1).value[0]));
    }
  }

  lemma SkipItemsCut(b: Buffer, c: Buffer, o: nat, count: nat, size: nat)
    requires c <= b
    ensures Cut(SkipItems(b, o, count, size), SkipItems(c, o, count, size), o, |c|)
  {
    TakeCut(b, c, o, count * size);
  }

  lemma SizedCut(b: Buffer, c: Buffer, o: nat)
    requires c <= b
    ensures Cut(SkipSized(b, o), SkipSized(c, o), o, |c|)
  {
    hide CompactSize, Skip;
    SizeCut(b, c, o, MAX_TRANSACTION_BYTES);
    var len := CompactSize(b, o, MAX_TRANSACTION_BYTES);
    if len.Ok? {
      TakeCut(b, c, len.next, len.value);
    }
  }

  /** The items of a vector are cut like one of them. */
  lemma {:induction false} ItemsCut<T>(item: (Buffer, nat) -> Parsed<T>, b: Buffer, c: Buffer, o: nat, n: nat)
    requires c <= b && forall at: nat :: Cut(item(b, at), item(c, at), at, |c|)
    ensures Cut(Items(item, b, o, n), Items(item, c, o, n), o, |c|)
    decreases n
  {
    if n > 0 && item(b, o).Ok? {
      ItemsCut(item, b, c, item(b, o).next, n - 1);
      assert Cut(item(b, o), item(c, o), o, |c|);
    }
  }

  lemma CountedCut<T>(item: (Buffer, nat) -> Parsed<T>, b: Buffer, c: Buffer, o: nat)
    requires c <= b && forall at: nat :: Cut(item(b, at), item(c, at), at, |c|)
    ensures Cut(Counted(item, b, o), Counted(item, c, o), o, |c|)
  {
    hide CompactSize, Items;
    SizeCut(b, c, o, MAX_VECTOR_ITEMS);
    var count := Count(b, o);
    if count.Ok? {
      ItemsCut(item, b, c, count.next, count.value);
    }
  }

  lemma {:induction false} ItemsEnd<T>(item: (Buffer, nat) -> Parsed<T>, size: nat, b: Buffer, o: nat, n: nat)
    requires forall at: nat :: item(b, at).Ok? ==> item(b, at).next == at + size
    ensures Items(item, b, o, n).Ok? ==> Items(item, b, o, n).next == o + n * size
    decreases n
  {
    if n > 0 && item(b, o).Ok? {
      ItemsEnd(item, size, b, o + size, n - 1);
      assert n * size == size + (n - 1) * size;
    }
  }

  lemma VectorCut<T>(item: (Buffer, nat) -> Parsed<T>, size: nat, b: Buffer, c: Buffer, o: nat)
    requires c <= b && forall at: nat :: Cut(item(b, at), item(c, at), at, |c|)
    requires forall at: nat :: item(b, at).Ok? ==> item(b, at).next == at + size
    ensures Cut(Vector(item, size, b, o), Vector(item, size, c, o), o, |c|)
  {
    hide CompactSize, Items;
    SizeCut(b, c, o, MAX_VECTOR_ITEMS);
    var count := Count(b, o);
    if count.Ok? {
      ItemsCut(item, b, c, count.next, count.value);
      ItemsEnd(item, size, b, count.next, count.value);
    }
  }

  // The parts of a transaction.

  lemma TxInCut(b: Buffer, c: Buffer, o: nat)
    requires c <= b
    ensures Cut(ParseTxIn(b, o), ParseTxIn(c, o), o, |c|)
  {
    hide Skip, SkipSized;
    TakeCut(b, c, o, 36);
    var o1 := Next(Skip(b, o, 36));
    SizedCut(b, c, o1);
    TakeCut(b, c, Next(SkipSized(b, o1)), 4);
  }

  lemma TxOutCut(b: Buffer, c: Buffer, o: nat)
    requires c <= b
    ensures Cut(ParseTxOut(b, o), ParseTxOut(c, o), o, |c|)
  {
    hide Skip, SkipSized;
    TakeCut(b, c, o, 8);
    SizedCut(b, c, Next(Skip(b, o, 8)));
  }

  lemma TransparentCut(b: Buffer, c: Buffer, o: nat)
    requires c <= b
    ensures Cut(TransparentBundle(b, o), TransparentBundle(c, o), o, |c|)
  {
    hide ParseTxIn, ParseTxOut, Counted;
    forall at: nat ensures Cut(ParseTxIn(b, at), ParseTxIn(c, at), at, |c|) {
      TxInCut(b, c, at);
    }
    forall at: nat ensures Cut(ParseTxOut(b, at), ParseTxOut(c, at), at, |c|) {
      TxOutCut(b, c, at);
    }
    CountedCut(ParseTxIn, b, c, o);
    CountedCut(ParseTxOut, b, c, Next(Counted(ParseTxIn, b, o)));
  }

  lemma JoinSplitsCut(b: Buffer, c: Buffer, o: nat, size: nat)
    requires c <= b
    ensures Cut(ParseJoinSplits(b, o, size), ParseJoinSplits(c, o, size), o, |c|)
  {
    hide Skip, SkipItems, CompactSize;
    SizeCut(b, c, o, MAX_VECTOR_ITEMS);
    var count := Count(b, o);
    if count.Ok? {
      SkipItemsCut(b, c, count.next, count.value, size);
      TakeCut(b, c, Next(SkipItems(b, count.next, count.value, size)), 96);
    }
  }

  lemma SpendV4Cut(b: Buffer, c: Buffer, o: nat)
    requires c <= b
    ensures Cut(ParseSpendV4(b, o), ParseSpendV4(c, o), o, |c|)
    ensures ParseSpendV4(b, o).Ok? ==> ParseSpendV4(b, o).next == o + 384
  {
    hide Skip, TakeDigest;
    TakeCut(b, c, o, 64);
    DigestCut(b, c, o + 64);
    TakeCut(b, c, o + 96, 288);
  }

  lemma SpendV5Cut(b: Buffer, c: Buffer, o: nat)
    requires c <= b
    ensures Cut(ParseSpendV5(b, o), ParseSpendV5(c, o), o, |c|)
    ensures ParseSpendV5(b, o).Ok? ==> ParseSpendV5(b, o).next == o + 96
  {
    hide Skip, TakeDigest;
    TakeCut(b, c, o, 32);
    DigestCut(b, c, o + 32);
    TakeCut(b, c, o + 64, 32);
  }

  lemma OutputCut(b: Buffer, c: Buffer, o: nat)
    requires c <= b
    ensures Cut(ParseOutputV5(b, o), ParseOutputV5(c, o), o, |c|)
    ensures Cut(ParseOutputV4(b, o), ParseOutputV4(c, o), o, |c|)
    ensures ParseOutputV5(b, o).Ok? ==> ParseOutputV5(b, o).next == o + 756
    ensures ParseOutputV4(b, o).Ok? ==> ParseOutputV4(b, o).next == o + 948
  {
    hide Skip, TakeDigest, TakeCiphertext;
    TakeCut(b, c, o, 32);
    DigestCut(b, c, o + 32);
    DigestCut(b, c, o + 64);
    DigestCut(b, c, o + 96);
    TakeCut(b, c, o + 148, 608);
    TakeCut(b, c, o + 756, 192);
  }

  lemma ActionCut(b: Buffer, c: Buffer, o: nat)
    requires c <= b
    ensures Cut(ParseAction(b, o), ParseAction(c, o), o, |c|)
    ensures ParseAction(b, o).Ok? ==> ParseAction(b, o).next == o + 820
  {
    hide Skip, TakeDigest, TakeCiphertext;
    TakeCut(b, c, o, 32);
    DigestCut(b, c, o + 32);
    TakeCut(b, c, o + 64, 32);
    DigestCut(b, c, o + 96);
    DigestCut(b, c, o + 128);
    DigestCut(b, c, o + 160);
    TakeCut(b, c, o + 212, 608);
  }

  lemma SaplingVectorsCut(b: Buffer, c: Buffer, o: nat)
    requires c <= b
    ensures Cut(Vector(ParseSpendV4, 384, b, o), Vector(ParseSpendV4, 384, c, o), o, |c|)
    ensures Cut(Vector(ParseOutputV4, 948, b, o), Vector(ParseOutputV4, 948, c, o), o, |c|)
    ensures Cut(Vector(ParseSpendV5, 96, b, o), Vector(ParseSpendV5, 96, c, o), o, |c|)
    ensures Cut(Vector(ParseOutputV5, 756, b, o), Vector(ParseOutputV5, 756, c, o), o, |c|)
  {
    hide ParseSpendV4, ParseSpendV5, ParseOutputV4, ParseOutputV5, Vector, Cut;
    forall at: nat
      ensures Cut(ParseSpendV4(b, at), ParseSpendV4(c, at), at, |c|)
      ensures ParseSpendV4(b, at).Ok? ==> ParseSpendV4(b, at).next == at + 384
    {
      SpendV4Cut(b, c, at);
    }
    VectorCut(ParseSpendV4, 384, b, c, o);
    forall at: nat
      ensures Cut(ParseSpendV5(b, at), ParseSpendV5(c, at), at, |c|)
      ensures ParseSpendV5(b, at).Ok? ==> ParseSpendV5(b, at).next == at + 96
    {
      SpendV5Cut(b, c, at);
    }
    VectorCut(ParseSpendV5, 96, b, c, o);
    forall at: nat
      ensures Cut(ParseOutputV4(b, at), ParseOutputV4(c, at), at, |c|)
      ensures ParseOutputV4(b, at).Ok? ==> ParseOutputV4(b, at).next == at + 948
    {
      OutputCut(b, c, at);
    }
    VectorCut(ParseOutputV4, 948, b, c, o);
    forall at: nat
      ensures Cut(ParseOutputV5(b, at), ParseOutputV5(c, at), at, |c|)
      ensures ParseOutputV5(b, at).Ok? ==> ParseOutputV5(b, at).next == at + 756
    {
      OutputCut(b, c, at);
    }
    VectorCut(ParseOutputV5, 756, b, c, o);
  }

  lemma SaplingV4Cut(b: Buffer, c: Buffer, o: nat)
    requires c <= b
    ensures Cut(ParseSaplingV4(b, o), ParseSaplingV4(c, o), o, |c|)
  {
    hide Vector, ParseJoinSplits, Skip;
    SaplingVectorsCut(b, c, o);
    var o1 := Next(Vector(ParseSpendV4, 384, b, o));
    SaplingVectorsCut(b, c, o1);
    var o2 := Next(Vector(ParseOutputV4, 948, b, o1));
    JoinSplitsCut(b, c, o2, GROTH16_JOINSPLIT_BYTES);
    TakeCut(b, c, Next(ParseJoinSplits(b, o2, GROTH16_JOINSPLIT_BYTES)), 64);
  }

  lemma ProofsCut(b: Buffer, c: Buffer, o: nat, spends: nat, outputs: nat)
    requires c <= b
    ensures Cut(SkipProofs(b, o, spends, outputs), SkipProofs(c, o, spends, outputs), o, |c|)
  {
    hide Skip, SkipItems;
    TakeCut(b, c, o, 8);
    var o1 := Next(Skip(b, o, 8));
    TakeCut(b, c, o1, 32);
    var o2 := if spends > 0 then Next(Skip(b, o1, 32)) else o1;
    SkipItemsCut(b, c, o2, spends, 256);
    var o3 := Next(SkipItems(b, o2, spends, 256));
    SkipItemsCut(b, c, o3, outputs, 192);
    TakeCut(b, c, Next(SkipItems(b, o3, outputs, 192)), 64);
  }

  lemma SaplingV5Cut(b: Buffer, c: Buffer, o: nat)
    requires c <= b
    ensures Cut(ParseSaplingV5(b, o), ParseSaplingV5(c, o), o, |c|)
  {
    hide Vector, SkipProofs;
    SaplingVectorsCut(b, c, o);
    var spends := Vector(ParseSpendV5, 96, b, o);
    if spends.Ok? {
      SaplingVectorsCut(b, c, spends.next);
      var outputs := Vector(ParseOutputV5, 756, b, spends.next);
      if outputs.Ok? {
        ProofsCut(b, c, outputs.next, |spends.value|, |outputs.value|);
      }
    }
  }

  lemma AuthorizationCut(b: Buffer, c: Buffer, o: nat, count: nat)
    requires c <= b
    ensures Cut(SkipAuthorization(b, o, count), SkipAuthorization(c, o, count), o, |c|)
  {
    hide Skip, SkipSized, SkipItems;
    TakeCut(b, c, o, 41);
    var o1 := Next(Skip(b, o, 41));
    SizedCut(b, c, o1);
    var o2 := Next(SkipSized(b, o1));
    SkipItemsCut(b, c, o2, count, 64);
    TakeCut(b, c, Next(SkipItems(b, o2, count, 64)), 64);
  }

  lemma ActionsCut(b: Buffer, c: Buffer, o: nat)
    requires c <= b
    ensures Cut(ParseActions(b, o), ParseActions(c, o), o, |c|)
  {
    hide Vector, ParseAction, SkipAuthorization;
    forall at: nat
      ensures Cut(ParseAction(b, at), ParseAction(c, at), at, |c|)
      ensures ParseAction(b, at).Ok? ==> ParseAction(b, at).next == at + 820
    {
      ActionCut(b, c, at);
    }
    VectorCut(ParseAction, 820, b, c, o);
    var actions := Vector(ParseAction, 820, b, o);
    if actions.Ok? {
      AuthorizationCut(b, c, actions.next, |actions.value|);
    }
  }

  lemma GroupCut(b: Buffer, c: Buffer, o: nat, expected: u32)
    requires c <= b
    ensures Cut(ExpectGroup(b, o, expected), ExpectGroup(c, o, expected), o, |c|)
  {
    hide TakeU32;
    U32Cut(b, c, o);
  }

  // Whole transactions.

  lemma OldVersionsCut(b: Buffer, c: Buffer, o: nat)
    requires c <= b
    ensures Cut(ParseV1(b, o), ParseV1(c, o), o, |c|) && Cut(ParseV2(b, o), ParseV2(c, o), o, |c|)
    ensures Cut(ParseV3(b, o), ParseV3(c, o), o, |c|)
  {
    hide TransparentBundle, Skip, ParseJoinSplits, ExpectGroup;
    TransparentCut(b, c, o);
    var o1 := Next(TransparentBundle(b, o));
    TakeCut(b, c, o1, 4);
    JoinSplitsCut(b, c, Next(Skip(b, o1, 4)), BCTV14_JOINSPLIT_BYTES);
    GroupCut(b, c, o, OVERWINTER_GROUP_ID);
    var o2 := Next(ExpectGroup(b, o, OVERWINTER_GROUP_ID));
    TransparentCut(b, c, o2);
    var o3 := Next(TransparentBundle(b, o2));
    TakeCut(b, c, o3, 8);
    JoinSplitsCut(b, c, Next(Skip(b, o3, 8)), BCTV14_JOINSPLIT_BYTES);
  }

  lemma V4Cut(b: Buffer, c: Buffer, o: nat)
    requires c <= b
    ensures Cut(ParseV4(b, o), ParseV4(c, o), o, |c|)
  {
    hide TransparentBundle, Skip, ParseSaplingV4, ExpectGroup;
    GroupCut(b, c, o, SAPLING_GROUP_ID);
    var o1 := Next(ExpectGroup(b, o, SAPLING_GROUP_ID));
    TransparentCut(b, c, o1);
    var o2 := Next(TransparentBundle(b, o1));
    TakeCut(b, c, o2, 16);
    SaplingV4Cut(b, c, Next(Skip(b, o2, 16)));
  }

  lemma V5HeadCut(b: Buffer, c: Buffer, o: nat, group: u32)
    requires c <= b
    ensures Cut(ParseV5Head(b, o, group), ParseV5Head(c, o, group), o, |c|)
  {
    hide TransparentBundle, Skip, ParseSaplingV5, ExpectGroup;
    GroupCut(b, c, o, group);
    var o1 := Next(ExpectGroup(b, o, group));
    TakeCut(b, c, o1, 12);
    var o2 := Next(Skip(b, o1, 12));
    TransparentCut(b, c, o2);
    SaplingV5Cut(b, c, Next(TransparentBundle(b, o2)));
  }

  lemma TransactionCut(b: Buffer, c: Buffer, o: nat, txid: Digest, index: u64)
    requires c <= b
    ensures Cut(ParseTransactionFrom(b, o, txid, index), ParseTransactionFrom(c, o, txid, index), o, |c|)
  {
    hide TakeU32, ParseV1, ParseV2, ParseV3, ParseV4, ParseV5Head, ParseActions;
    U32Cut(b, c, o);
    var o1 := Next(TakeU32(b, o));
    OldVersionsCut(b, c, o1);
    V4Cut(b, c, o1);
    V5HeadCut(b, c, o1, V5_GROUP_ID);
    ActionsCut(b, c, Next(ParseV5Head(b, o1, V5_GROUP_ID)));
    V5HeadCut(b, c, o1, V6_GROUP_ID);
    var o2 := Next(ParseV5Head(b, o1, V6_GROUP_ID));
    ActionsCut(b, c, o2);
    ActionsCut(b, c, Next(ParseActions(b, o2)));
  }

  /** Every strict prefix of a well-formed transaction is refused as truncated, and a transaction with
      bytes behind it is refused for these, at its own end. */
  lemma CutTransactionIsNamed(x: Transaction, s: Buffer, txid: Digest, index: u64, k: nat, more: seq<byte>)
    requires TransactionOk(x) && s == WriteTransaction(x) && |s + more| <= 2_000_000
    ensures k < |s| ==> ParseTransaction(s[..k], txid, index).Err?
                        && ParseTransaction(s[..k], txid, index).error.Truncated?
    ensures more != [] ==> ParseTransaction(s + more, txid, index) == Err(ParseError.TrailingBytes(|s|))
  {
    hide ParseTransactionFrom, WriteTransaction, TransactionOk;
    assert s[0..|s|] == s;
    TransactionGrammar.TransactionReads(s, 0, x, txid, index);
    if k < |s| {
      TransactionCut(s, s[..k], 0, txid, index);
    }
    assert (s + more)[0..|s|] == s;
    TransactionGrammar.TransactionReads(s + more, 0, x, txid, index);
  }

  // Whole blocks.

  /** The error of a cut block: in its header, in a length or count, or in a transaction. */
  ghost predicate CutError(e: BlockError, height: u32) {
    match e
    case TruncatedHeader(h) => h == height
    case Framing(h, source) => h == height && source.Truncated?
    case Transaction(h, _, source) => h == height && source.Truncated?
    case _ => false
  }

  lemma {:induction false} TransactionsCut(b: Buffer, c: Buffer, o: nat, height: u32, txids: seq<Digest>, i: nat,
                                           all: seq<CompactTransaction>)
    requires c <= b && i <= |txids| <= U64_MAX && o <= |c|
    requires TransactionsFrom(b, o, height, txids, i, all).Success?
             && TransactionsFrom(b, o, height, txids, i, all).value.1 > |c|
    ensures TransactionsFrom(c, o, height, txids, i, all).Failure?
            && CutError(TransactionsFrom(c, o, height, txids, i, all).error, height)
    decreases |txids| - i
  {
    hide ParseTransactionFrom, CountCommitments, FitsUsize;
    if i < |txids| {
      var p := ParseTransactionFrom(b, o, txids[i], i);
      TransactionCut(b, c, o, txids[i], i);
      if p.next <= |c| {
        TransactionsCut(b, c, p.next, height, txids, i + 1, all + [p.value]);
      }
    }
  }

  /** Every strict prefix of an accepted block is refused as truncated. */
  lemma CutBlockIsNamed(raw: RawIndexBlock, k: nat)
    requires |raw.txids| <= U64_MAX && ParseBlock(raw).Success? && k < |raw.bytes|
    ensures var r := ParseBlock(raw.(bytes := raw.bytes[..k])); r.Failure? && CutError(r.error, raw.height)
  {
    hide Skip, CompactSize, TransactionsFrom, IntoBlock, TimeOf;
    var b, c, o1 := raw.bytes, raw.bytes[..k], HEADER_PREFIX_BYTES;
    TakeCut(b, c, 0, o1);
    SizeCut(b, c, o1, MAX_EQUIHASH_SOLUTION_BYTES);
    var len := CompactSize(b, o1, MAX_EQUIHASH_SOLUTION_BYTES);
    TakeCut(b, c, len.next, len.value);
    SizeCut(b, c, len.next + len.value, MAX_VECTOR_ITEMS);
    var start := BlockHeader(raw).value;
    if start <= k {
      TransactionsCut(b, c, start, raw.height, raw.txids, 0, []);
    }
  }

  // Stored records.

  /** Every strict prefix of an encoded record is refused as truncated. Bytes behind it, or another
      identity around its payload, are refused as an invalid record, and more than 2,000,000 bytes for
      their length. */
  lemma SpoiledRecordIsNamed(payload: PayloadDecoder, r: CompactBlockRecord, k: nat, more: seq<byte>,
                             other: CompactBlockRecord)
    requires Inverts(payload) && Encode(r).Success?
    ensures k < |Encode(r).value| ==> Decode(payload, Encode(r).value[..k]) == Failure(CodecError.Truncated)
    ensures more != [] ==>
              Decode(payload, Encode(r).value + more)
              == Failure(if |Encode(r).value + more| > 2_000_000 then Length else InvalidRecord)
    ensures other.height != r.height || other.hash != r.hash || other.previousHash != r.previousHash ==>
              Decode(payload, Enveloped(other.height, other.hash, other.previousHash, Protobuf.Block(r)))
              == Failure(InvalidRecord)
  {
    hide Protobuf.Block, BigEndian, FromBigEndian;
    var b, s := Encode(r).value, Protobuf.Block(r);
    EnvelopeReads(r.height, r.hash, r.previousHash, s);
    EnvelopeReads(other.height, other.hash, other.previousHash, s);
    assert b[69..73] == BigEndian(|s|, 4);
    Pow256Widths();
    BigEndianReads(|s|, 4);
    if 73 <= k < |b| {
      assert b[..k][69..73] == b[69..73];
    }
    assert (b + more)[69..73] == b[69..73];
  }
}
