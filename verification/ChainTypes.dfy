/** Compact blocks as the parser emits them and as the index stores them. */
module ChainTypes {
  import opened Bytes

  const RANGE_SIZE: nat := 1_000
  const MAX_RECORD_BYTES: nat := 2_000_000

  type Ciphertext = s: seq<byte> | |s| == 52 witness seq(52, _ => 0)

  datatype CompactSaplingOutput = CompactSaplingOutput(cmu: Digest, ephemeralKey: Digest, ciphertext: Ciphertext)

  datatype CompactShieldedAction =
    CompactShieldedAction(nullifier: Digest, commitment: Digest, ephemeralKey: Digest, ciphertext: Ciphertext)

  datatype CompactTransaction = CompactTransaction(
    index: u64,
    txid: Digest,
    saplingSpends: seq<Digest>,
    saplingOutputs: seq<CompactSaplingOutput>,
    orchardActions: seq<CompactShieldedAction>,
    ironwoodActions: seq<CompactShieldedAction>)
  {
    predicate HasPayload() {
      saplingSpends != [] || saplingOutputs != [] || orchardActions != [] || ironwoodActions != []
    }
  }

  /** Cumulative tree sizes, or the commitments that a block adds, per pool. */
  datatype TreeSizes = TreeSizes(sapling: u32, orchard: u32, ironwood: u32) {
    predicate Follows(below: TreeSizes) {
      sapling >= below.sapling && orchard >= below.orchard && ironwood >= below.ironwood
    }

    function Total(): nat {
      sapling + orchard + ironwood
    }

    function CheckedAdd(other: TreeSizes): Option<TreeSizes> {
      if sapling + other.sapling <= U32_MAX && orchard + other.orchard <= U32_MAX
         && ironwood + other.ironwood <= U32_MAX
      then Some(TreeSizes(sapling + other.sapling, orchard + other.orchard, ironwood + other.ironwood))
      else None
    }
  }

  const EmptyTreeSizes := TreeSizes(0, 0, 0)

  function CutU32(n: nat): u32 {
    if n <= U32_MAX then n else U32_MAX
  }

  /** Commitments per pool, before they are known to fit in 32 bits. */
  datatype Counts = Counts(sapling: nat, orchard: nat, ironwood: nat) {
    function Plus(tx: CompactTransaction): Counts {
      Counts(sapling + |tx.saplingOutputs|, orchard + |tx.orchardActions|, ironwood + |tx.ironwoodActions|)
    }

    predicate FitsU32() {
      sapling <= U32_MAX && orchard <= U32_MAX && ironwood <= U32_MAX
    }

    /** Each count as a `u32`, with a count above `u32::MAX` cut to `u32::MAX`. */
    function Saturated(): TreeSizes {
      TreeSizes(CutU32(sapling), CutU32(orchard), CutU32(ironwood))
    }
  }

  /** The commitments of `txs`, per pool. */
  function CountCommitments(txs: seq<CompactTransaction>): Counts {
    if txs == [] then Counts(0, 0, 0) else CountCommitments(txs[..|txs| - 1]).Plus(txs[|txs| - 1])
  }

  datatype ParsedCompactBlock = ParsedCompactBlock(
    height: u32,
    hash: Digest,
    previousHash: Digest,
    time: u32,
    transactions: seq<CompactTransaction>,
    additions: TreeSizes)
  {
    /** The record that the index stores after the tree sizes `before`. `None` on overflow. */
    function IntoRecord(before: TreeSizes): Option<CompactBlockRecord> {
      match before.CheckedAdd(additions)
      case None => None
      case Some(sizes) => Some(CompactBlockRecord(height, hash, previousHash, time, transactions, sizes))
    }

    /** What the parser promises: only transactions with shielded data, and exact additions. */
    ghost predicate FromParser() {
      && (forall tx <- transactions :: tx.HasPayload())
      && CountCommitments(transactions) == Counts(additions.sapling, additions.orchard, additions.ironwood)
    }
  }

  datatype CompactBlockRecord = CompactBlockRecord(
    height: u32,
    hash: Digest,
    previousHash: Digest,
    time: u32,
    transactions: seq<CompactTransaction>,
    endTreeSizes: TreeSizes)
  {
    function Additions(): TreeSizes {
      CountCommitments(transactions).Saturated()
    }

    /** The rule of a stored record that the payload decode does not check. */
    predicate Check() {
      forall tx <- transactions :: tx.HasPayload()
    }
  }

  /** The transactions of `txs` that hold shielded data, in order. */
  function WithPayload(txs: seq<CompactTransaction>): seq<CompactTransaction> {
    if txs == [] then []
    else
      var last := txs[|txs| - 1];
      WithPayload(txs[..|txs| - 1]) + (if last.HasPayload() then [last] else [])
  }

  /** Dropping the transactions without shielded data loses no commitment. */
  lemma {:induction false} WithPayloadKeepsCommitments(txs: seq<CompactTransaction>)
    ensures CountCommitments(WithPayload(txs)) == CountCommitments(txs)
    ensures forall tx <- WithPayload(txs) :: tx.HasPayload() && tx in txs
  {
    if txs != [] {
      var init, last := txs[..|txs| - 1], txs[|txs| - 1];
      WithPayloadKeepsCommitments(init);
      if last.HasPayload() {
        assert (WithPayload(init) + [last])[..|WithPayload(init)|] == WithPayload(init);
      } else {
        assert WithPayload(init) + [] == WithPayload(init);
      }
    }
  }

  // The shielded data of many transactions, in order.

  function AllSpends(txs: seq<CompactTransaction>): seq<Digest> {
    if txs == [] then [] else AllSpends(txs[..|txs| - 1]) + txs[|txs| - 1].saplingSpends
  }

  function AllOutputs(txs: seq<CompactTransaction>): seq<CompactSaplingOutput> {
    if txs == [] then [] else AllOutputs(txs[..|txs| - 1]) + txs[|txs| - 1].saplingOutputs
  }

  function AllOrchard(txs: seq<CompactTransaction>): seq<CompactShieldedAction> {
    if txs == [] then [] else AllOrchard(txs[..|txs| - 1]) + txs[|txs| - 1].orchardActions
  }

  function AllIronwood(txs: seq<CompactTransaction>): seq<CompactShieldedAction> {
    if txs == [] then [] else AllIronwood(txs[..|txs| - 1]) + txs[|txs| - 1].ironwoodActions
  }

  /** `kept` has all shielded data of `txs`, in order, and no transaction without any. */
  ghost predicate KeepsData(txs: seq<CompactTransaction>, kept: seq<CompactTransaction>) {
    && AllSpends(kept) == AllSpends(txs) && AllOutputs(kept) == AllOutputs(txs)
    && AllOrchard(kept) == AllOrchard(txs) && AllIronwood(kept) == AllIronwood(txs)
    && forall tx <- txs ::
         tx in kept <==> |tx.saplingSpends| + |tx.saplingOutputs| + |tx.orchardActions| + |tx.ironwoodActions| > 0
  }

  lemma {:induction false} WithPayloadKeepsData(txs: seq<CompactTransaction>)
    ensures KeepsData(txs, WithPayload(txs))
  {
    WithPayloadKeepsCommitments(txs);
    if txs != [] {
      var init, last := txs[..|txs| - 1], txs[|txs| - 1];
      WithPayloadKeepsData(init);
      WithPayloadKeepsCommitments(init);
      if last.HasPayload() {
        assert (WithPayload(init) + [last])[..|WithPayload(init)|] == WithPayload(init);
      } else {
        assert WithPayload(init) + [] == WithPayload(init);
        assert AllSpends(init) + [] == AllSpends(init) && AllOutputs(init) + [] == AllOutputs(init);
        assert AllOrchard(init) + [] == AllOrchard(init) && AllIronwood(init) + [] == AllIronwood(init);
      }
    }
  }

  lemma {:induction false} DataIsCounted(txs: seq<CompactTransaction>)
    ensures CountCommitments(txs) == Counts(|AllOutputs(txs)|, |AllOrchard(txs)|, |AllIronwood(txs)|)
  {
    if txs != [] {
      DataIsCounted(txs[..|txs| - 1]);
    }
  }

  /** The transactions have rising positions in their block. */
  ghost predicate Rising(txs: seq<CompactTransaction>) {
    forall i, j | 0 <= i < j < |txs| :: txs[i].index < txs[j].index
  }

  lemma {:induction false} WithPayloadRises(txs: seq<CompactTransaction>)
    requires Rising(txs)
    ensures Rising(WithPayload(txs))
  {
    if txs != [] {
      var init, last := txs[..|txs| - 1], txs[|txs| - 1];
      WithPayloadRises(init);
      WithPayloadKeepsCommitments(init);
      RisesBy(WithPayload(init), last);
    }
  }

  lemma RisesBy(txs: seq<CompactTransaction>, last: CompactTransaction)
    requires Rising(txs) && forall tx <- txs :: tx.index < last.index
    ensures Rising(txs + [last])
  {
    var all := txs + [last];
    forall i, j | 0 <= i < j < |all| ensures all[i].index < all[j].index {
      if j == |txs| {
        assert txs[i] in txs;
      }
    }
  }
}
