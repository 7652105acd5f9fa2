/** Manifest entries: the claims of a source about its ranges, and the rules that they obey. */
module Manifest {
  import opened Bytes
  import opened ChainTypes

  datatype Pool = SaplingPool | OrchardPool | IronwoodPool

  /** The root of a completed subtree of 65,536 commitments. */
  datatype SubtreeRoot = SubtreeRoot(pool: Pool, index: nat, root: Digest)

  /** The RPC encodings of the three trees. An empty one is a pool that is not active. */
  datatype Frontiers = Frontiers(sapling: seq<byte>, orchard: seq<byte>, ironwood: seq<byte>) {
    predicate Follows(before: Frontiers) {
      && (before.sapling == [] || sapling != []) && (before.orchard == [] || orchard != [])
      && (before.ironwood == [] || ironwood != [])
    }
  }

  const NoFrontiers := Frontiers([], [], [])

  datatype ManifestEntry = ManifestEntry(
    rangeVersion: byte,
    startHeight: u32,
    endHeight: u32,
    endHash: Digest,
    endTreeSizes: TreeSizes,
    frontiers: Frontiers,
    subtreeRoots: seq<SubtreeRoot>,
    blobDigest: Digest,
    blobLen: u64,
    epochEnd: bool)

  datatype BlobMismatch = Len(expected: nat, actual: nat) | WrongDigest

  /** The length first, then the digest. */
  function CheckBlob(digest: seq<byte> -> Digest, entry: ManifestEntry, blob: seq<byte>): Option<BlobMismatch> {
    if |blob| != entry.blobLen then Some(Len(entry.blobLen, |blob|))
    else if digest(blob) != entry.blobDigest then Some(WrongDigest)
    else None
  }

  /** Every entry obeys `EntryOk` behind the one before it. */
  predicate EntriesOk(entries: seq<ManifestEntry>) {
    forall i {:trigger Before(entries, i)} | 0 <= i < |entries| :: EntryOk(Before(entries, i), entries[i])
  }

  /** The entry in front of entry `i`. */
  function Before(entries: seq<ManifestEntry>, i: nat): Option<ManifestEntry>
    requires i <= |entries|
  {
    if i == 0 then None else Some(entries[i - 1])
  }

  predicate EntryOk(previous: Option<ManifestEntry>, entry: ManifestEntry) {
    && entry.startHeight == (if previous.None? then 0 else previous.value.endHeight + 1)
    && entry.startHeight + (RANGE_SIZE - 1) == entry.endHeight
    && (previous.Some? ==> entry.endTreeSizes.Follows(previous.value.endTreeSizes)
                           && entry.frontiers.Follows(previous.value.frontiers))
  }

  /** Entry `i` covers the heights of range `i`. */
  lemma {:induction false} EntryHeights(entries: seq<ManifestEntry>, i: nat)
    requires EntriesOk(entries) && i < |entries|
    ensures entries[i].startHeight == RANGE_SIZE * i && entries[i].endHeight == RANGE_SIZE * i + RANGE_SIZE - 1
  {
    hide TreeSizes.Follows, Frontiers.Follows;
    assert EntryOk(Before(entries, i), entries[i]);
    if i > 0 {
      EntryHeights(entries, i - 1);
    }
  }
}
