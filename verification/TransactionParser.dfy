/** The selective transaction parser as functions of a buffer and an offset. */
module TransactionParser {
  import opened Bytes
  import opened ChainTypes
  import opened Cursor
  import opened WireFormat

  const OVERWINTER_GROUP_ID: u32 := 0x03c4_8270
  const SAPLING_GROUP_ID: u32 := 0x892f_2085
  const V5_GROUP_ID: u32 := 0x26a7_270a
  const V6_GROUP_ID: u32 := 0xd884_b698
  const BCTV14_JOINSPLIT_BYTES: nat := 1_802
  const GROTH16_JOINSPLIT_BYTES: nat := 1_698

  function ParseTxIn(b: Buffer, o: nat): Parsed<()> {
    var (_, o1) :- Skip(b, o, 36);
    var (_, o2) :- SkipSized(b, o1);
    Skip(b, o2, 4)
  }

  function ParseTxOut(b: Buffer, o: nat): Parsed<()> {
    var (_, o1) :- Skip(b, o, 8);
    SkipSized(b, o1)
  }

  function TransparentBundle(b: Buffer, o: nat): Parsed<()> {
    var (_, o1) :- Counted(ParseTxIn, b, o);
    var (_, o2) :- Counted(ParseTxOut, b, o1);
    Ok((), o2)
  }

  function ParseJoinSplits(b: Buffer, o: nat, size: nat): Parsed<()> {
    var (count, o1) :- Count(b, o);
    var (_, o2) :- SkipItems(b, o1, count, size);
    if count > 0 then Skip(b, o2, 96) else Ok((), o2)
  }

  function ParseSpendV4(b: Buffer, o: nat): Parsed<Digest> {
    var (_, o1) :- Skip(b, o, 64);
    var (nullifier, o2) :- TakeDigest(b, o1);
    var (_, o3) :- Skip(b, o2, 288);
    Ok(nullifier, o3)
  }

  function ParseSpendV5(b: Buffer, o: nat): Parsed<Digest> {
    var (_, o1) :- Skip(b, o, 32);
    var (nullifier, o2) :- TakeDigest(b, o1);
    var (_, o3) :- Skip(b, o2, 32);
    Ok(nullifier, o3)
  }

  /** The part of an output that both layouts share. */
  function ParseOutputV5(b: Buffer, o: nat): Parsed<CompactSaplingOutput> {
    var (_, o1) :- Skip(b, o, 32);
    var (cmu, o2) :- TakeDigest(b, o1);
    var (key, o3) :- TakeDigest(b, o2);
    var (ciphertext, o4) :- TakeCiphertext(b, o3);
    var (_, o5) :- Skip(b, o4, 608);
    Ok(CompactSaplingOutput(cmu, key, ciphertext), o5)
  }

  /** An output with its proof behind it. */
  function ParseOutputV4(b: Buffer, o: nat): Parsed<CompactSaplingOutput> {
    var (output, o1) :- ParseOutputV5(b, o);
    var (_, o2) :- Skip(b, o1, 192);
    Ok(output, o2)
  }

  function ParseAction(b: Buffer, o: nat): Parsed<CompactShieldedAction> {
    var (_, o1) :- Skip(b, o, 32);
    var (nullifier, o2) :- TakeDigest(b, o1);
    var (_, o3) :- Skip(b, o2, 32);
    var (commitment, o4) :- TakeDigest(b, o3);
    var (key, o5) :- TakeDigest(b, o4);
    var (ciphertext, o6) :- TakeCiphertext(b, o5);
    var (_, o7) :- Skip(b, o6, 608);
    Ok(CompactShieldedAction(nullifier, commitment, key, ciphertext), o7)
  }

  datatype Sapling = Sapling(spends: seq<Digest>, outputs: seq<CompactSaplingOutput>)

  function ParseSaplingV4(b: Buffer, o: nat): Parsed<Sapling> {
    var (spends, o1) :- Vector(ParseSpendV4, 384, b, o);
    var (outputs, o2) :- Vector(ParseOutputV4, 948, b, o1);
    var (_, o3) :- ParseJoinSplits(b, o2, GROTH16_JOINSPLIT_BYTES);
    var (_, o4) :- if spends != [] || outputs != [] then Skip(b, o3, 64) else Ok((), o3);
    Ok(Sapling(spends, outputs), o4)
  }

  /** The fields behind the descriptions of a version 5 Sapling bundle. */
  function SkipProofs(b: Buffer, o: nat, spends: nat, outputs: nat): Parsed<()> {
    if spends > 0 || outputs > 0 then
      var (_, o1) :- Skip(b, o, 8);
      var (_, o2) :- if spends > 0 then Skip(b, o1, 32) else Ok((), o1);
      var (_, o3) :- SkipItems(b, o2, spends, 256);
      var (_, o4) :- SkipItems(b, o3, outputs, 192);
      Skip(b, o4, 64)
    else Ok((), o)
  }

  function ParseSaplingV5(b: Buffer, o: nat): Parsed<Sapling> {
    var (spends, o1) :- Vector(ParseSpendV5, 96, b, o);
    var (outputs, o2) :- Vector(ParseOutputV5, 756, b, o1);
    var (_, o3) :- SkipProofs(b, o2, |spends|, |outputs|);
    Ok(Sapling(spends, outputs), o3)
  }

  /** The fields behind the descriptions of an action bundle. */
  function SkipAuthorization(b: Buffer, o: nat, count: nat): Parsed<()> {
    if count > 0 then
      var (_, o1) :- Skip(b, o, 41);
      var (_, o2) :- SkipSized(b, o1);
      var (_, o3) :- SkipItems(b, o2, count, 64);
      Skip(b, o3, 64)
    else Ok((), o)
  }

  function ParseActions(b: Buffer, o: nat): Parsed<seq<CompactShieldedAction>> {
    var (actions, o1) :- Vector(ParseAction, 820, b, o);
    var (_, o2) :- SkipAuthorization(b, o1, |actions|);
    Ok(actions, o2)
  }

  function ExpectGroup(b: Buffer, o: nat, expected: u32): Parsed<()> {
    var (actual, o1) :- TakeU32(b, o);
    if actual != expected then Err(VersionGroup(actual, expected)) else Ok((), o1)
  }

  function ParseV1(b: Buffer, o: nat): Parsed<()> {
    var (_, o1) :- TransparentBundle(b, o);
    Skip(b, o1, 4)
  }

  function ParseV2(b: Buffer, o: nat): Parsed<()> {
    var (_, o1) :- ParseV1(b, o);
    ParseJoinSplits(b, o1, BCTV14_JOINSPLIT_BYTES)
  }

  function ParseV3(b: Buffer, o: nat): Parsed<()> {
    var (_, o1) :- ExpectGroup(b, o, OVERWINTER_GROUP_ID);
    var (_, o2) :- TransparentBundle(b, o1);
    var (_, o3) :- Skip(b, o2, 8);
    ParseJoinSplits(b, o3, BCTV14_JOINSPLIT_BYTES)
  }

  function ParseV4(b: Buffer, o: nat): Parsed<Sapling> {
    var (_, o1) :- ExpectGroup(b, o, SAPLING_GROUP_ID);
    var (_, o2) :- TransparentBundle(b, o1);
    var (_, o3) :- Skip(b, o2, 16);
    ParseSaplingV4(b, o3)
  }

  /** The part that versions 5 and 6 share, up to the Sapling bundle. */
  function ParseV5Head(b: Buffer, o: nat, group: u32): Parsed<Sapling> {
    var (_, o1) :- ExpectGroup(b, o, group);
    var (_, o2) :- Skip(b, o1, 12);
    var (_, o3) :- TransparentBundle(b, o2);
    ParseSaplingV5(b, o3)
  }

  /** One transaction at `o`, with its `txid` and its `index` in the block. */
  function ParseTransactionFrom(b: Buffer, o: nat, txid: Digest, index: u64): Parsed<CompactTransaction> {
    var (header, o1) :- TakeU32(b, o);
    var version, overwintered := header % 0x8000_0000, header >= 0x8000_0000;
    if version == 1 && !overwintered then
      var (_, o2) :- ParseV1(b, o1);
      Ok(CompactTransaction(index, txid, [], [], [], []), o2)
    else if version == 2 && !overwintered then
      var (_, o2) :- ParseV2(b, o1);
      Ok(CompactTransaction(index, txid, [], [], [], []), o2)
    else if version == 3 && overwintered then
      var (_, o2) :- ParseV3(b, o1);
      Ok(CompactTransaction(index, txid, [], [], [], []), o2)
    else if version == 4 && overwintered then
      var (sapling, o2) :- ParseV4(b, o1);
      Ok(CompactTransaction(index, txid, sapling.spends, sapling.outputs, [], []), o2)
    else if version == 5 && overwintered then
      var (sapling, o2) :- ParseV5Head(b, o1, V5_GROUP_ID);
      var (orchard, o3) :- ParseActions(b, o2);
      Ok(CompactTransaction(index, txid, sapling.spends, sapling.outputs, orchard, []), o3)
    else if version == 6 && overwintered then
      var (sapling, o2) :- ParseV5Head(b, o1, V6_GROUP_ID);
      var (orchard, o3) :- ParseActions(b, o2);
      var (ironwood, o4) :- ParseActions(b, o3);
      Ok(CompactTransaction(index, txid, sapling.spends, sapling.outputs, orchard, ironwood), o4)
    else Err(UnsupportedHeader(header))
  }

  /** A transaction that fills `b`. */
  function ParseTransaction(b: Buffer, txid: Digest, index: u64): Parsed<CompactTransaction> {
    if |b| > MAX_TRANSACTION_BYTES then Err(TooLarge)
    else
      var (compact, next) :- ParseTransactionFrom(b, 0, txid, index);
      if next == |b| then Ok(compact, next) else Err(TrailingBytes(next))
  }
}
