/**
 * Serialized transactions of versions 1 to 6, as written by a node. Fields that the compact
 * format drops are kept as raw bytes of their width, so writing loses nothing.
 * Versions 1 to 4: section 7.1 of the Zcash Protocol Specification. Version 5: ZIP 225.
 * Version 6 adds a second action bundle behind the Orchard one.
 */
module WireFormat {
  import opened Bytes
  import opened ChainTypes
  import opened Cursor

  datatype TxIn = TxIn(outpoint: seq<byte>, script: seq<byte>, sequence: seq<byte>)
  datatype TxOut = TxOut(value: seq<byte>, script: seq<byte>)
  datatype Transparent = Transparent(inputs: seq<TxIn>, outputs: seq<TxOut>)
  /** `count` descriptions, and the key and signature behind them if there is one. */
  datatype JoinSplits = JoinSplits(count: nat, data: seq<byte>)
  datatype Spend = Spend(head: seq<byte>, nullifier: Digest, tail: seq<byte>)
  datatype Output = Output(cv: seq<byte>, compact: CompactSaplingOutput, tail: seq<byte>)
  datatype Action = Action(cv: seq<byte>, randomizedKey: seq<byte>, compact: CompactShieldedAction, tail: seq<byte>)
  datatype SaplingV4 = SaplingV4(spends: seq<Spend>, outputs: seq<Output>, joinSplits: JoinSplits,
                                 bindingSig: seq<byte>)
  /** `proofs` holds the value balance, the anchor, the proofs and the signatures. */
  datatype SaplingV5 = SaplingV5(spends: seq<Spend>, outputs: seq<Output>, proofs: seq<byte>)
  /** `middle` holds the flags, the value balance and the anchor; `signatures` all signatures. */
  datatype Actions = Actions(actions: seq<Action>, middle: seq<byte>, proof: seq<byte>, signatures: seq<byte>)

  datatype Transaction =
    | V1(transparent: Transparent, lockTime: seq<byte>)
    | V2(transparent: Transparent, lockTime: seq<byte>, joinSplits: JoinSplits)
    | V3(transparent: Transparent, expiry: seq<byte>, joinSplits: JoinSplits)
    | V4(transparent: Transparent, balance: seq<byte>, saplingV4: SaplingV4)
    | V5(header: seq<byte>, transparent: Transparent, sapling: SaplingV5, orchard: Actions)
    | V6(header: seq<byte>, transparent: Transparent, sapling: SaplingV5, orchard: Actions, ironwood: Actions)

  // Well-formed values: the widths of the raw fields, at most 65,535 items in a vector, and scripts
  // and proofs of at most 2,000,000 bytes.

  predicate TxInOk(x: TxIn) {
    |x.outpoint| == 36 && |x.script| <= 2_000_000 && |x.sequence| == 4
  }

  predicate TxOutOk(x: TxOut) {
    |x.value| == 8 && |x.script| <= 2_000_000
  }

  predicate TransparentOk(x: Transparent) {
    && |x.inputs| <= 65_535 && (forall i <- x.inputs :: TxInOk(i))
    && |x.outputs| <= 65_535 && (forall o <- x.outputs :: TxOutOk(o))
  }

  predicate JoinSplitsOk(x: JoinSplits, size: nat) {
    x.count <= 65_535 && |x.data| == x.count * size + if x.count > 0 then 96 else 0
  }

  predicate SpendV4Ok(x: Spend) {
    |x.head| == 64 && |x.tail| == 288
  }

  predicate SpendV5Ok(x: Spend) {
    |x.head| == 32 && |x.tail| == 32
  }

  predicate OutputV4Ok(x: Output) {
    |x.cv| == 32 && |x.tail| == 800
  }

  predicate OutputV5Ok(x: Output) {
    |x.cv| == 32 && |x.tail| == 608
  }

  predicate ActionOk(x: Action) {
    |x.cv| == 32 && |x.randomizedKey| == 32 && |x.tail| == 608
  }

  predicate SaplingV4Ok(x: SaplingV4) {
    && |x.spends| <= 65_535 && (forall s <- x.spends :: SpendV4Ok(s))
    && |x.outputs| <= 65_535 && (forall o <- x.outputs :: OutputV4Ok(o))
    && JoinSplitsOk(x.joinSplits, 1_698)
    && |x.bindingSig| == if x.spends != [] || x.outputs != [] then 64 else 0
  }

  predicate SaplingV5Ok(x: SaplingV5) {
    && |x.spends| <= 65_535 && (forall s <- x.spends :: SpendV5Ok(s))
    && |x.outputs| <= 65_535 && (forall o <- x.outputs :: OutputV5Ok(o))
    && |x.proofs| == ProofBytes(|x.spends|, |x.outputs|)
  }

  /** Value balance, one anchor if there is a spend, proofs and signatures, and the binding one. */
  function ProofBytes(spends: nat, outputs: nat): nat {
    if spends == 0 && outputs == 0 then 0
    else 8 + (if spends > 0 then 32 else 0) + 256 * spends + 192 * outputs + 64
  }

  predicate ActionsOk(x: Actions) {
    && |x.actions| <= 65_535 && (forall a <- x.actions :: ActionOk(a))
    && if x.actions == [] then x.middle == [] && x.proof == [] && x.signatures == []
       else |x.middle| == 41 && |x.proof| <= 2_000_000 && |x.signatures| == 64 * |x.actions| + 64
  }

  predicate TransactionOk(x: Transaction) {
    && TransparentOk(x.transparent)
    && match x
       case V1(_, lock) => |lock| == 4
       case V2(_, lock, js) => |lock| == 4 && JoinSplitsOk(js, 1_802)
       case V3(_, expiry, js) => |expiry| == 8 && JoinSplitsOk(js, 1_802)
       case V4(_, balance, sapling) => |balance| == 16 && SaplingV4Ok(sapling)
       case V5(header, _, sapling, orchard) => |header| == 12 && SaplingV5Ok(sapling) && ActionsOk(orchard)
       case V6(header, _, sapling, orchard, ironwood) =>
         |header| == 12 && SaplingV5Ok(sapling) && ActionsOk(orchard) && ActionsOk(ironwood)
  }

  // The writers.

  function WriteSized(s: seq<byte>): seq<byte> {
    WriteSize(|s|) + s
  }

  function WriteTxIn(x: TxIn): seq<byte> {
    x.outpoint + (WriteSized(x.script) + x.sequence)
  }

  function WriteTxOut(x: TxOut): seq<byte> {
    x.value + WriteSized(x.script)
  }

  function WriteTransparent(x: Transparent): seq<byte> {
    WriteVector(WriteTxIn, x.inputs) + WriteVector(WriteTxOut, x.outputs)
  }

  function WriteJoinSplits(x: JoinSplits): seq<byte> {
    WriteSize(x.count) + x.data
  }

  function WriteSpend(x: Spend): seq<byte> {
    x.head + (x.nullifier + x.tail)
  }

  function WriteOutput(x: Output): seq<byte> {
    x.cv + (x.compact.cmu + (x.compact.ephemeralKey + (x.compact.ciphertext + x.tail)))
  }

  function WriteAction(x: Action): seq<byte> {
    x.cv + (x.compact.nullifier + (x.randomizedKey + (x.compact.commitment
    + (x.compact.ephemeralKey + (x.compact.ciphertext + x.tail)))))
  }

  function WriteSaplingV4(x: SaplingV4): seq<byte> {
    WriteVector(WriteSpend, x.spends) + (WriteVector(WriteOutput, x.outputs)
    + (WriteJoinSplits(x.joinSplits) + x.bindingSig))
  }

  function WriteSaplingV5(x: SaplingV5): seq<byte> {
    WriteVector(WriteSpend, x.spends) + (WriteVector(WriteOutput, x.outputs) + x.proofs)
  }

  function WriteActions(x: Actions): seq<byte> {
    WriteVector(WriteAction, x.actions)
    + if x.actions == [] then [] else x.middle + (WriteSized(x.proof) + x.signatures)
  }

  /** The version number, with the overwintered bit from version 3 on. */
  function HeaderOf(x: Transaction): u32 {
    match x
    case V1(_, _) => 1
    case V2(_, _, _) => 2
    case V3(_, _, _) => 0x8000_0003
    case V4(_, _, _) => 0x8000_0004
    case V5(_, _, _, _) => 0x8000_0005
    case V6(_, _, _, _, _) => 0x8000_0006
  }

  /** Everything behind the header; from version 3 on it starts with the version group. */
  function WriteBody(x: Transaction): seq<byte> {
    match x
    case V1(t, lock) => WriteTransparent(t) + lock
    case V2(t, lock, js) => WriteTransparent(t) + (lock + WriteJoinSplits(js))
    case V3(t, expiry, js) =>
      LittleEndian(0x03c4_8270, 4) + (WriteTransparent(t) + (expiry + WriteJoinSplits(js)))
    case V4(t, balance, sapling) =>
      LittleEndian(0x892f_2085, 4) + (WriteTransparent(t) + (balance + WriteSaplingV4(sapling)))
    case V5(header, t, sapling, orchard) =>
      WriteV5Head(0x26a7_270a, header, t, sapling) + WriteActions(orchard)
    case V6(header, t, sapling, orchard, ironwood) =>
      WriteV5Head(0xd884_b698, header, t, sapling) + (WriteActions(orchard) + WriteActions(ironwood))
  }

  /** The part that versions 5 and 6 share. */
  function WriteV5Head(group: u32, header: seq<byte>, t: Transparent, sapling: SaplingV5): seq<byte> {
    LittleEndian(group, 4) + (header + (WriteTransparent(t) + WriteSaplingV5(sapling)))
  }

  function WriteTransaction(x: Transaction): seq<byte> {
    LittleEndian(HeaderOf(x), 4) + WriteBody(x)
  }

  // What a wallet needs of each part.

  function Nullifier(x: Spend): Digest {
    x.nullifier
  }

  function CompactOutput(x: Output): CompactSaplingOutput {
    x.compact
  }

  function CompactAction(x: Action): CompactShieldedAction {
    x.compact
  }

  /** The compact form of a transaction, at `index` of its block. */
  function Compact(x: Transaction, txid: Digest, index: u64): CompactTransaction {
    match x
    case V4(_, _, s) =>
      CompactTransaction(index, txid, ViewAll(Nullifier, s.spends), ViewAll(CompactOutput, s.outputs), [], [])
    case V5(_, _, s, orchard) =>
      CompactTransaction(index, txid, ViewAll(Nullifier, s.spends), ViewAll(CompactOutput, s.outputs),
                         ViewAll(CompactAction, orchard.actions), [])
    case V6(_, _, s, orchard, ironwood) =>
      CompactTransaction(index, txid, ViewAll(Nullifier, s.spends), ViewAll(CompactOutput, s.outputs),
                         ViewAll(CompactAction, orchard.actions), ViewAll(CompactAction, ironwood.actions))
    case _ => CompactTransaction(index, txid, [], [], [], [])
  }
}
