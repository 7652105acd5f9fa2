# ztreamer in Dafny

ztreamer turns Zcash blocks into an index of compact block records, packs every 1,000 records into a
sealed range, and lets a replica import these ranges from a source that it does not trust. This
project models the path of a block through that system and proves what every step keeps.

1. **Parsing.** The selective parser for transactions of version 1 to 6 is compared with a grammar:
   datatypes for whole transactions and a writer for their bytes. The parser accepts exactly the
   bytes of the grammar, its two entry points (whole block, stored parts) agree, and a parsed block
   has all shielded data of its bytes. Every strict prefix is refused as truncated.
2. **Ordered ingestion.** Blocks come in any order. The builder gives them back in chain order,
   within its byte budgets. Every run is a fold over the accepted blocks, and over any restarts the
   index is one chain.
3. **Records and ranges.** A record is an envelope around a protobuf message. A range is an offset
   table and 1,000 framed records. Writer and random-access decoder are inverse in both directions.
4. **Range and epoch checks.** A range passes exactly if it is the one that its manifest entry
   describes. Epochs rebuild three note commitment trees. An epoch is accepted exactly if appending
   the commitments of its records, one at a time, gives what its entries say; accepted epochs glue to
   accepted chains. A rejection names the first fault.
5. **Epochs.** The rule that groups ranges exists as an iterator, as a state machine of the filler and
   as a flag of the importer. All three agree.
6. **Import machinery.** Epochs install in order under a byte budget; transfers resume; tree roots come
   from a single-flight cache; messages are cut into frames.

`dafny verify dfyconfig.toml` checks the whole project.

## How to read it

Files follow the components above.

| component | files |
|---|---|
| shared | `Bytes`, `ChainTypes` |
| parsing | `Cursor`, `WireFormat`, `TransactionParser`, `TransactionGrammar`, `TransactionReader`, `BlockParser`, `BlockMeaning`, `Truncation` |
| ingestion | `OrderedBuilder`, `OrderedRuns`, `BuilderMeaning`, `BatchEncoding` |
| codecs | `Protobuf`, `Lossless`, `RecordCodec`, `RangeCodec`, `RangeDecoder`, `RangeLayout` |
| verification | `Manifest`, `ManifestCheck`, `RangeCheck`, `HonestRanges`, `CommitmentTrees`, `EpochProof`, `Subtrees`, `ChainHistory`, `EpochMeaning`, `EpochGluing`, `EpochFaults`, `Attestation`, `AttestationFaults` |
| epochs | `EpochRule`, `Epochs`, `RangeMetaFill`, `Resume` |
| import machinery | `ImportSchedule`, `VerifiedImport`, `Fetch`, `FetchTrace`, `SingleFlight`, `Framing` |

Code that updates a cursor, a buffer or counters is a class or a method with loops (`Reader`,
`BlockTransactions`, `OrderedBuilder`, `RunWriteRange`, `RunWalk`, `RunRebuild`, `Epochs`,
`RangeMetaRows`, `RunFetch`, `MessageDecoder`, `SendBytes`, `RootsCache`). Each is proved equal to a
function or against a relation on values, and the properties are lemmas about these. Concurrent code is
a step system with an invariant over all runs.

Library code enters as a parameter with laws, and the laws are shown to be consistent:

- `PayloadDecoder` is the generated protobuf decoder. `Inverts` says that it undoes the encoder, and
  `Thrifty` that each commitment takes at least its 32 bytes. `Lossless.DecoderExists` gives such a decoder.
- `TreeOps` is a note commitment tree: append, count, root, RPC encoding and parser. `Lawful` has its
  laws. `CommitmentTrees.LawfulTreesExist` gives such a tree.
- `Env.digest` is the blob digest, an arbitrary function.
- `Node` holds the answers of the trusted node, and `Source` those of a blob source, both arbitrary.

## Findings

- `crates/import/src/attest/mod.rs:230-231` says that a failed call keeps no place in the map. Two
  calls for one height that both fail can each see the other as a holder, because a call drops its cell
  after it has looked. Then the empty cell stays (`SingleFlight.FailedCellCanStay`). A failed call gives
  its place back exactly if no other call holds the cell when it looks (`SingleFlight.ForgetFreesThePlace`).
  A sole call that is cancelled leaves its empty cell too (`SingleFlight.CancelledCellStays`). Eviction
  never takes such a cell, and the next call for that height uses it. `SingleFlight.StaleExactly` says
  over all runs when there is one.
- The chain error of the range check is dead code, as the comment in `crates/import/src/range.rs:223-224`
  says (`RangeCheck.ChainErrorIsDead`). So is the frontier error of `attest` (`Attestation.AttestedExactly`).
- The length and containment test of subtree lists accepts a list that is no permutation if a root is
  repeated (`Subtrees.SameRootsNeedsDistinctRoots`). A rebuild never completes a subtree twice, so there the
  test is exact (`Subtrees.SameRootsIsPermutation`).
- The `u16` count of `attest_subtrees` saturates at 65,535. An epoch completes at most one subtree per
  block and pool, and it has at most ten ranges (`Epochs.PartIsShort`), so the count is exact
  (`Attestation.CompletedAreConsecutive`).

## Model

| member | source | states |
|---|---|---|
| Cursor.SizeReads | crates/chain/src/parser.rs:317-349 | every number within the bound, written as a canonical CompactSize, is read back, and exactly its bytes are consumed |
| Cursor.SizeCovers | crates/chain/src/parser.rs:317-349 | whatever the reader accepts is the canonical CompactSize of its result |
| Cursor.CountedReads | crates/chain/src/parser.rs:351-353 | a counted list of items that read back reads back as a whole, in order |
| Cursor.CountedCovers | crates/chain/src/parser.rs:351-353 | an accepted counted list is the writing of some list, item by item |
| Cursor.LookAheadReads | crates/chain/src/parser.rs:362-370 | the look-ahead for fixed-size items never refuses a list that is there |
| Cursor.LimitsAreNamed | crates/chain/src/parser.rs:292-370 | lengths beyond 64 bits are named as such, and a vector whose items do not fit in the rest is refused behind its count, before any item is read |
| TransactionGrammar.TransparentReads | crates/chain/src/parser.rs:380-395 | every transparent bundle is skipped exactly |
| TransactionGrammar.TransparentCovers | crates/chain/src/parser.rs:380-395 | what is skipped is a transparent bundle |
| TransactionGrammar.JoinSplitsReads | crates/chain/src/parser.rs:397-404 | JoinSplits of either proof system are skipped exactly, with key and signature only if there are any |
| TransactionGrammar.JoinSplitsCovers | crates/chain/src/parser.rs:397-404 | what is skipped are JoinSplits |
| TransactionGrammar.SaplingV4Reads | crates/chain/src/parser.rs:406-430 | a version 4 Sapling bundle gives its nullifiers, commitments, keys and 52-byte ciphertext prefixes in order |
| TransactionGrammar.SaplingV4Covers | crates/chain/src/parser.rs:406-430 | what is read is a version 4 Sapling bundle |
| TransactionGrammar.SaplingV5Reads | crates/chain/src/parser.rs:432-461 | a version 5 Sapling bundle gives its data; anchor, proofs and signatures are skipped where the format has them |
| TransactionGrammar.SaplingV5Covers | crates/chain/src/parser.rs:432-461 | what is read is a version 5 Sapling bundle |
| TransactionGrammar.ActionsReads | crates/chain/src/parser.rs:478-506 | an Orchard or Ironwood bundle gives the data of its actions in order |
| TransactionGrammar.ActionsCovers | crates/chain/src/parser.rs:478-506 | what is read is a bundle of actions |
| TransactionGrammar.TransactionReads | crates/chain/src/parser.rs:222-280 | the bytes of any well-formed transaction of version 1 to 6, with anything behind them, are parsed to exactly its compact form and consumed exactly |
| TransactionGrammar.TransactionCovers | crates/chain/src/parser.rs:222-280 | whatever the parser accepts is the writing of a well-formed transaction, and its result is the compact form of it |
| TransactionGrammar.ParseIsLocal | crates/chain/src/parser.rs:222-280 | success depends on the consumed bytes only: it is stable under extending, cutting and moving the buffer |
| TransactionGrammar.ParseTransactionExact | crates/chain/src/parser.rs:207-220 | a whole buffer parses to a compact transaction if and only if it is within the size limit and the writing of a well-formed transaction with that compact form |
| TransactionReader.Reader.Take | crates/chain/src/parser.rs:292-303 | the cursor gives the next bytes and moves behind them, or fails and reports where |
| TransactionReader.Reader.CompactSize | crates/chain/src/parser.rs:317-349 | the branches of the reader compute the function that the grammar lemmas are about |
| TransactionReader.Reader.EnsureItems | crates/chain/src/parser.rs:362-370 | the look-ahead moves nothing and fails exactly if the items do not fit |
| TransactionReader.Reader.TransparentBundle | crates/chain/src/parser.rs:380-395 | the loops over inputs and outputs do what the function does, cursor included |
| TransactionReader.Reader.JoinSplits | crates/chain/src/parser.rs:397-404 | the reader does what the function does, cursor included |
| TransactionReader.Reader.SaplingV4 | crates/chain/src/parser.rs:406-430 | the loops over spends and outputs do what the function does, cursor included |
| TransactionReader.Reader.SaplingV5 | crates/chain/src/parser.rs:432-461 | the reader does what the function does, cursor included |
| TransactionReader.Reader.Actions | crates/chain/src/parser.rs:478-506 | the loop over actions does what the function does, cursor included |
| TransactionReader.Reader.Transaction | crates/chain/src/parser.rs:222-280 | the reader over all versions does what the function does, cursor included |
| TransactionReader.ParseWhole | crates/chain/src/parser.rs:207-220 | the entry point for one transaction does what the function does |
| BlockParser.BlockTransactions.Push | crates/chain/src/parser.rs:95-113 | each counter grows by the outputs or actions of its pool; the transaction is kept exactly if one of its four lists is not empty; the call fails exactly if a counter does not fit 64 bits |
| BlockParser.BlockTransactions.Finish | crates/chain/src/parser.rs:116-135 | the block of everything pushed, or an error if a count does not fit 32 bits |
| BlockParser.ParseRawBlock | crates/chain/src/parser.rs:137-185 | the loop over a whole block does what the function does, with the same error |
| BlockParser.ParseStored | crates/chain/src/parser.rs:191-205 | the loop over stored transactions does what the function does, with the same error |
| BlockParser.BlockThenStored | crates/chain/src/parser.rs:137-205 | a block that is accepted whole is header, solution, count and parts, and the parts are accepted one by one with the same result |
| BlockParser.StoredThenBlock | crates/chain/src/parser.rs:137-205 | parts that are accepted one by one, behind any header with a canonical count, are accepted as a block with the same result |
| BlockParser.IntoBlockIsExact | crates/chain/src/parser.rs:116-135 | the block has all spends, outputs, Orchard and Ironwood actions of all transactions in order, keeps exactly the transactions with one of them, and counts every commitment; it fails exactly if a count does not fit 32 bits |
| BlockParser.ParsedBlocksAreExact | crates/chain/src/parser.rs:137-185 | the same for every accepted block, under its own height |
| BlockMeaning.BlockCovers | crates/chain/src/parser.rs:137-185 | an accepted block is a header, a solution and well-formed transactions; the result has the parent hash and the time of that header, each kept transaction is the compact form of its own bytes under its own id and position, and no shielded datum is lost |
| BlockMeaning.BlockReads | crates/chain/src/parser.rs:137-185 | every block of that form whose counts fit is accepted, with that result |
| Truncation.CutTransactionIsNamed | crates/chain/src/parser.rs:207-280 | every strict prefix of a well-formed transaction is refused as truncated, and bytes behind one are refused at its end |
| Truncation.CutBlockIsNamed | crates/chain/src/parser.rs:137-185 | every strict prefix of an accepted block is refused as truncated |
| ChainTypes.WithPayloadKeepsCommitments | crates/chain/src/types.rs:129-138 | dropping the transactions without shielded data loses no commitment |
| ChainTypes.WithPayloadKeepsData | crates/chain/src/types.rs:129-138 | it loses no spend, output or action either, keeps their order, and drops exactly the transactions without any |
| OrderedBuilder.OrderedBuilder.New | crates/index/src/ingest.rs:90-103 | the next height is above the tip or 0, the parent is the tip hash or none, tree sizes and generation are those of the index, and nothing is pending; it fails exactly at the last height |
| OrderedBuilder.OrderedBuilder.Push | crates/index/src/ingest.rs:106-128 | a refusal says why and changes nothing; an accepted block is added, and every counter stays the sum or the gap position of the pending blocks |
| OrderedBuilder.OrderedBuilder.BuildBatch | crates/index/src/ingest.rs:146-217 | a batch is the fold of the taken blocks; it waits, stops, fails or goes over its limit for the stated reasons only; the counters stay exact also after an error |
| OrderedBuilder.OrderedBuilder.DrainRecords | crates/index/src/ingest.rs:221-231 | success gives the records of all ready blocks through the height, whatever the batch limit |
| OrderedBuilder.OneMoreFits | crates/index/src/ingest.rs:85-87 | at or below the threshold one more admissible block always fits, if the budget holds a batch and a record |
| BuilderMeaning.PushMeans | crates/index/src/ingest.rs:106-128 | which refusal comes first, with the size bound as numbers; a refusal changes nothing |
| BuilderMeaning.WaitsExactly | crates/index/src/ingest.rs:85-162 | the builder waits if and only if the next range may be sealed, one of its blocks is missing, and one more batch and one more record fit or nothing is pending |
| BuilderMeaning.BatchMeans | crates/index/src/ingest.rs:163-217 | a batch has the records of the pending blocks from the next height on, all durable, and ends only at a gap, at a block that is not durable, or at its limit in front of a range or in one that may not be sealed |
| BuilderMeaning.OvershootMeans | crates/index/src/ingest.rs:167-184 | what goes over the limit is the rest of one range that may be sealed |
| BuilderMeaning.BatchFails | crates/index/src/ingest.rs:146-217 | each error is about the block behind the records that left: a wrong parent, too many commitments, a block over the limit by itself, or an overflow |
| BuilderMeaning.DrainMeans | crates/index/src/ingest.rs:221-231 | a drain gives all pending blocks up to the height in front of the first gap |
| BuilderMeaning.OutputCarries | crates/chain/src/types.rs:166-178 | every record of a run has the hash, parent, time and transactions of the block that was accepted at its height, and the tree sizes before it plus the additions |
| OrderedRuns.OrderedRefinement | crates/index/src/ingest.rs:106-217 | over every run, in any push order and with any limits, the batches are the fold of `into_record` over the accepted blocks in height order, and base generations rise by one |
| OrderedRuns.OutputIsConsecutive | crates/index/src/ingest.rs:146-217 | the records of a run have consecutive heights from the next height of the index |
| OrderedRuns.RunsAgree | crates/index/src/ingest.rs:106-217 | two runs over the same accepted blocks never disagree: one output is a prefix of the other |
| OrderedRuns.NoStall | crates/index/src/ingest.rs:152-162 | above the threshold a durable ready next block is never left waiting |
| OrderedRuns.LimitStopsAtRanges | crates/index/src/ingest.rs:167-184 | a batch that stops at its limit leaves the next block at a range start or in a range that may not be sealed |
| BatchEncoding.ThreadsAgree | crates/index/src/index/batch.rs:28-68 | any number of threads gives the blocks, or the error, of encoding one by one |
| BatchEncoding.BatchCarriesRecords | crates/index/src/index/batch.rs:28-68 | on any number of threads the encoded batch has, block by block, the identity and the bytes of the records, and the tree sizes of the last; the first record that does not encode gives the error |
| BatchEncoding.AtMostThreads | crates/index/src/index/batch.rs:46-54 | a batch is cut into no more chunks than there are threads |
| Protobuf.TransactionLength | crates/chain/src/protobuf.rs:80-102 | the encoded size of a transaction, from its shielded data, up to 45 bytes |
| Lossless.BlockIsLossless | crates/chain/src/protobuf.rs:12-26 | two records with the same protobuf form are the same record |
| RecordCodec.SizeBoundDominates | crates/chain/src/codec/mod.rs:262-279 | the size bound is never below the real length of the record |
| RecordCodec.SizeBoundIs | crates/chain/src/codec/mod.rs:262-279 | the bound from the numbers of transactions, spends, outputs and actions; it fails exactly above 2,000,000 bytes |
| RecordCodec.AdmittedBlocksEncode | crates/chain/src/codec/mod.rs:245-279 | every block of the parser that passes the bound encodes, within the bound |
| RecordCodec.EnvelopeReads | crates/chain/src/codec/mod.rs:294-309 | the envelope of any identity and payload is read back |
| RecordCodec.EnvelopeExact | crates/chain/src/codec/mod.rs:294-309 | the reader accepts exactly version 1, height, hashes, length and payload, within 2,000,000 bytes |
| RecordCodec.EncodeExact | crates/chain/src/codec/mod.rs:230-260 | a record encodes if and only if every transaction has shielded data and the bytes fit; which bytes, and which error otherwise |
| RecordCodec.DecodeExact | crates/chain/src/codec/mod.rs:281-309 | a record is decoded from exactly the envelopes with its identity around a payload that decodes to it |
| Truncation.SpoiledRecordIsNamed | crates/chain/src/codec/mod.rs:281-309 | every strict prefix of an encoded record is truncated; bytes behind it or another identity make it invalid; too many bytes fail by their length |
| RecordCodec.EncodeThenDecode | crates/chain/src/codec/mod.rs:230-292 | decoding an encoded record gives the record |
| RecordCodec.DecodedRecordsAreSmall | crates/chain/src/codec/mod.rs:219-228 | a stored record has fewer than 65,536 commitments, so its saturating count is exact |
| RangeCodec.OffsetsFit | crates/chain/src/codec/mod.rs:419-432 | no offset of 1,000 records within the size limit exceeds 32 bits |
| RangeCodec.CheckChainMeans | crates/chain/src/codec/mod.rs:382-395 | a chain passes only if it is aligned, with consecutive heights and linked hashes |
| RangeCodec.SetU32 | crates/chain/src/codec/mod.rs:534-538 | the value is read back from its four bytes and every other byte is as before, or the value does not fit |
| RangeCodec.RunWriteRange | crates/chain/src/codec/mod.rs:378-434 | reserving and patching the table and the lengths gives the envelope, the offset table and the framed records |
| RangeLayout.PackableIsExact | crates/chain/src/codec/mod.rs:311-314 | records are packed if and only if they are 1,000, aligned, consecutive, linked, and all encode |
| RangeLayout.RangeIsLaidOut | crates/chain/src/codec/mod.rs:378-434 | where each byte of a packed range stands: version, first and last height, parent and last hash, 1,001 offsets, and each record behind its length at its offset |
| RangeLayout.SpoiledRangeIsNamed | crates/chain/src/codec/mod.rs:451-477 | every strict prefix of a packed range is truncated, or fails by its length behind the table; so do bytes behind it; another version is named |
| RangeDecoder.EncodeThenDecodeRange | crates/chain/src/codec/mod.rs:311-314 | record `i` of an encoded range decodes to the `i`-th record |
| RangeDecoder.RowsEncodeAlike | crates/chain/src/codec/mod.rs:318-323 | encoding from stored rows equals encoding from records |
| RangeDecoder.DecodeThenEncodeRange | crates/chain/src/codec/mod.rs:451-507 | a blob whose 1,000 records all decode and link is, byte for byte, the encoding of its own record slices |
| Manifest.EntryHeights | crates/snapshot/src/manifest/mod.rs:163-183 | entry `i` of a checked manifest covers the heights of range `i` |
| ManifestCheck.ManifestIsExact | crates/snapshot/src/manifest/mod.rs:150-197 | a manifest is accepted if and only if it is not empty, entry `i` covers range `i`, no tree shrinks, no pool becomes inactive, and the flag is set exactly where an epoch ends |
| ManifestCheck.FirstMisfitIsNamed | crates/snapshot/src/manifest/mod.rs:163-183 | the error names the first entry that does not fit, and its first fault |
| ManifestCheck.RowsGiveAManifest | crates/snapshot/src/manifest/mod.rs:94-112 | rows with the flags of the rule always give a manifest: that of the rows in front of the first gap, with the last entry flagged |
| RangeCheck.RunWalk | crates/index/src/index/tables.rs:212-243 | the pass over the records, with link, height and the caller's state updated on the way, does what the function does |
| RangeCheck.ChainErrorIsDead | crates/import/src/range.rs:214-228 | the walk never ends with a chain error: the visitor is stricter |
| RangeCheck.AcceptedRange | crates/import/src/range.rs:171-209 | an accepted blob is the range of its entry: length, digest, version, one linked chain of 1,000 records with exact tree sizes, and the end of the entry |
| RangeCheck.DescribedRangeIsAccepted | crates/import/src/range.rs:171-209 | every such blob is accepted, unless the visitor refuses a record |
| RangeCheck.RangeIsDetermined | crates/import/src/range.rs:171-209 | the records of an accepted blob are determined |
| RangeCheck.WrongBytesAreRefetched | crates/import/src/range.rs:214-228 | bytes of a wrong length or digest are fetched again, whatever else is wrong |
| RangeCheck.RightBytesAreRejected | crates/import/src/range.rs:214-228 | the right bytes with a wrong version are rejected for it; then an envelope that does not decode |
| RangeCheck.FirstFaultIsNamed | crates/import/src/range.rs:171-228 | else the first record that is not the next one of the chain is named, by its first fault: decoding or no shielded data, height, parent (the start link or inside), tree sizes, the visitor |
| RangeCheck.WrongEndIsNamed | crates/import/src/range.rs:193-209 | a whole chain is rejected exactly if it ends with another hash or other tree sizes than the entry |
| HonestRanges.HonestRangesPass | crates/import/src/range.rs:162-209 | in the index that runs of the builder over blocks of the parser write, over any restarts, every aligned window of 1,000 records encodes, and its blob passes the check against its own entry and the link before it; only the first parent of an empty index is taken on trust |
| HonestRanges.IndexIsOneChain | crates/index/src/ingest.rs:90-217 | over any restarts, each with a builder that `new` gives for the last height, hash and tree sizes that reached the index, the index is one linked chain with exact tree sizes, and all its records encode |
| HonestRanges.HonestBatchesEncode | crates/index/src/index/batch.rs:28-68 | every batch of a run over blocks of the parser encodes, on any number of threads |
| HonestRanges.AcceptedAreHonest | crates/index/src/ingest.rs:106-128 | what `push` accepts from the parser is within the size bound |
| CommitmentTrees.BatchIsOneByOne | crates/import/src/proof/mod.rs:283-304 | a batch append of fewer than 65,536 leaves is the append of one leaf after the other |
| CommitmentTrees.CompletionIndices | crates/import/src/proof/mod.rs:283-304 | growing a tree completes exactly the subtrees from the old size to the new, in order |
| CommitmentTrees.AppendMeans | crates/import/src/proof/mod.rs:283-304 | a block whose sizes follow is appended as a whole or refused for a commitment; a full tree is out of reach, and the sizes stay exact |
| CommitmentTrees.VisitMeans | crates/import/src/proof/mod.rs:86-91 | over a checked chain the visitor appends every block, or refuses one for a commitment |
| EpochProof.RunRebuild | crates/import/src/proof/mod.rs:69-111 | the loop over the ranges does what the function does, with the same rejection, and hands on each checked range in order |
| EpochProof.MatchedParses | crates/import/src/proof/mod.rs:258-316 | a frontier that matches a tree parses to that tree |
| EpochProof.RebuildIsExact | crates/import/src/proof/mod.rs:69-111 | an epoch is accepted if and only if its start frontiers fit and there are records that prove each range; the proof is made of these records |
| EpochMeaning.EpochSound | crates/import/src/proof/mod.rs:69-111 | an accepted epoch has records and a history of single appends per pool: the blobs hold the records, these are one chain from the previous entry, the history starts with the start frontier and appends exactly their commitments, and behind each range it has the frontiers and the subtrees of the entry; the proof has its end |
| EpochMeaning.EpochComplete | crates/import/src/proof/mod.rs:69-111 | every such epoch is accepted |
| EpochGluing.AcceptedEpoch | crates/import/src/proof/mod.rs:69-111 | soundness for every epoch of a checked manifest and every part of one, and after every record the trees have its sizes |
| EpochGluing.HonestEpochIsAccepted | crates/import/src/proof/mod.rs:69-111 | completeness for every epoch of a checked manifest and every part of one |
| EpochFaults.StartFaultIsNamed | crates/import/src/proof/mod.rs:74-83 | another number of blobs is rejected, and else start frontiers that do not parse or whose trees have other sizes than the previous entry, at the start height |
| EpochFaults.RangeFaultIsNamed | crates/import/src/proof/mod.rs:86-100 | behind ranges that hold, a refused range rejects the epoch with its own fault; a range with the right records is rejected at its end height, for its frontiers first and then for its subtrees |
| EpochFaults.CommitmentFaultIsNamed | crates/import/src/proof/mod.rs:340-369 | a block is refused exactly for a commitment that is no field element of its pool, at its height |
| EpochGluing.EpochsAreOneRebuild | crates/import/src/importer/epoch_import.rs:139-155 | any number of epochs, verified independently and each from the manifest entry before it, equal one rebuild over their concatenation: verdict, rejection and proof |
| ChainHistory.LeafOf | crates/import/src/proof/mod.rs:343-369 | the leaf of each output and action: `cmu` or `commitment`, behind those of all blocks and transactions before it |
| ChainHistory.TrackedTree | crates/import/src/proof/mod.rs:283-304 | the tree behind the first `k` records is the one that appending their commitments, one at a time, gives |
| ChainHistory.ListedMeans | crates/import/src/proof/mod.rs:95-100 | the list of an entry passes if and only if it has, once each, the subtrees whose last leaf is in the range, with the root that this leaf gives |
| Subtrees.RangeCompletes | crates/import/src/proof/mod.rs:283-304 | per pool a range completes exactly the indices from `before >> 16` up to `after >> 16`, in order |
| Subtrees.BlockCompletesAtMostOne | crates/import/src/proof/mod.rs:283-304 | a block completes at most one subtree per pool |
| Subtrees.SpanCounts | crates/replicator/src/range_meta_fill.rs:356-367 | the span of the filler counts exactly the subtrees that the range completes |
| Subtrees.SameRootsIsPermutation | crates/import/src/proof/mod.rs:95-100 | the length and containment test accepts exactly the permutations of the completed subtrees |
| Subtrees.SameRootsNeedsDistinctRoots | crates/import/src/proof/mod.rs:95-100 | with a repeated root the test would accept a list that is no permutation |
| Attestation.PoolIsAskedOnce | crates/import/src/proof/mod.rs:216-248 | one call per pool asks for exactly the completed subtrees, and passes exactly if the node gives their roots in order |
| Attestation.CompletedAreConsecutive | crates/import/src/proof/mod.rs:216-235 | for every accepted epoch of a checked manifest and every part of one, the completed subtrees of a pool are consecutive and few enough for the `u16` count |
| Attestation.AttestedExactly | crates/import/src/proof/mod.rs:123-213 | an accepted epoch of a checked manifest, or part of one, is attested if and only if the node has every end hash, for each pool the root behind the last leaf or none at size 0, and in one call the root of each completed subtree; no frontier fails to parse, and every record has the roots behind its own range, for the pools that the node has |
| AttestationFaults.HashFaultIsNamed | crates/import/src/proof/mod.rs:172-181 | the first end hash that the node lacks or denies is named |
| AttestationFaults.RootFaultIsNamed | crates/import/src/proof/mod.rs:182-189 | then missing roots, or a root that is not the one behind the last leaf |
| AttestationFaults.SubtreeFaultIsNamed | crates/import/src/proof/mod.rs:216-248 | then the pools in their order: the first with a fault names it |
| AttestationFaults.SilentPoolIsNamed | crates/import/src/proof/mod.rs:226-235 | a pool without an answer is named at the end of the epoch |
| AttestationFaults.WrongSubtreeIsNamed | crates/import/src/proof/mod.rs:236-246 | the first wrong subtree of a pool is named at the end of the range that completes it |
| EpochRule.EndIsFirst | crates/snapshot/src/epoch.rs:128-137 | an epoch ends at the first range where the rule holds, or at the end of the manifest |
| EpochRule.StartsAreStreamStarts | crates/snapshot/src/epoch.rs:128-143 | an entry starts an epoch of the iterator exactly if it starts one of the state machine |
| EpochRule.StreamIsStable | crates/replicator/src/range_meta_fill.rs:383-409 | more ranges change no flag below them |
| Epochs.Epochs.Next | crates/snapshot/src/epoch.rs:128-143 | the iterator gives the epoch at its start and moves behind it; at the end it stays there |
| Epochs.EpochsPartition | crates/snapshot/src/epoch.rs:128-143 | the epochs partition the entries into non-empty runs that close at the tenth entry or at the first with a million commitments more than before the run |
| Epochs.EpochsUnique | crates/snapshot/src/epoch.rs:128-143 | no other partition of this kind exists |
| Epochs.PartIsShort | crates/snapshot/src/epoch.rs:32-34 | an epoch, and every part of one, has at least one range and at most ten |
| Epochs.LongerManifestKeepsEpochs | crates/snapshot/src/epoch.rs:52-61 | a longer manifest keeps every epoch that the rule closed, at its position |
| Epochs.CheckedFlags | crates/snapshot/src/manifest/mod.rs:186-197 | the flags of a manifest pass exactly if each is the flag of the rule, or set on the last entry |
| Epochs.PartAfterMeans | crates/snapshot/src/epoch.rs:80-87 | an epoch has a part behind a height exactly if a range ends there, inside it or right before it; the part is the rest of the epoch, with the flag of the whole |
| Epochs.ImportedFlagsAreRuleFlags | crates/import/src/importer/epoch_import.rs:174-186 | imported rows carry exactly the flags of the rule, also for a part of an epoch |
| RangeMetaFill.AdvanceTracksRule | crates/replicator/src/range_meta_fill.rs:392-409 | the state machine closes where the rule closes, and stays in step with it |
| RangeMetaFill.RangeMetaRows.FillMissing | crates/replicator/src/range_meta_fill.rs:174-204 | a pass fills exactly the missing rows up to the first without an answer, each with the flag of the rule, and changes no other row |
| RangeMetaFill.SealingKeepsRows | crates/replicator/src/range_meta_fill.rs:186-196 | rows stay conformant when more ranges are sealed, so a restart continues the same grouping |
| RangeMetaFill.ExportedFlagsPass | crates/snapshot/src/manifest/mod.rs:94-112 | rows with the flags of the rule make a manifest with flags that pass |
| RangeMetaFill.ImportedRowsConform | crates/import/src/importer/epoch_import.rs:174-186 | imported rows are the rows that the filler would write |
| Resume.RunOffsets | crates/import/src/importer/epoch_import.rs:52-59 | the running offset over the epochs gives the sum of the lengths before each |
| Resume.OffsetsAreStarts | crates/import/src/importer/epoch_import.rs:52-79 | the offsets are the starts of the epochs, so lookup by offset equals iteration |
| Resume.OneEpochYieldsAPart | crates/import/src/importer/mod.rs:313-321 | of all epochs exactly one yields a part behind a sealed tip at a range end, and none otherwise |
| Resume.ResumeCoversTheRest | crates/import/src/importer/mod.rs:308-321 | from a sealed tip below the manifest tip the imported epochs are exactly the entries after it, one behind the other, and no `expect` fails; any other tip is refused |
| Resume.EmptyIndexImportsAll | crates/import/src/importer/mod.rs:308-321 | an empty index imports every epoch |
| ImportSchedule.ImportIsSafe | crates/import/src/importer/mod.rs:333-382 | in every reachable state, whatever the check of an epoch is: the index has a prefix of the ranges to import, all of epochs that passed; the blobs of all epochs that are started, not failed and not installed have at most 2 GiB together, or one epoch has all of them; an error comes after every lower install; `stopped` says if an epoch is missing |
| ImportSchedule.NextEpochCanStart | crates/import/src/importer/epoch_import.rs:104-108 | the next epoch can start whenever the window has room and its blobs fit in 2 GiB beside those in flight |
| ImportSchedule.HeadIsNeverBlocked | crates/import/src/importer/mod.rs:340-375 | the lowest epoch that is not installed can start, go on or be reported, unless its own work is not done |
| ImportSchedule.RunsAreBounded | crates/import/src/importer/mod.rs:340-382 | every run has a bounded number of steps |
| ImportSchedule.FinishedImportIsWhole | crates/import/src/importer/mod.rs:308-382 | a resumed import that is not stopped ends with every entry behind the tip installed in order |
| VerifiedImport.InstalledEpochsAreProven | crates/import/src/importer/epoch_import.rs:112-214 | with rebuild and attestation as the check of an epoch: in every reachable state the installed epochs were rebuilt, attested and sampled, and the whole ones hold together, as one epoch from the sealed tip does: one chain, single appends, frontiers and subtrees |
| VerifiedImport.ChosenIsCovered | crates/import/src/importer/mod.rs:308-321 | this is so for the epochs that the importer takes, for every sealed tip and for an empty index |
| Fetch.RunTransfer | crates/import/src/fetch/mod.rs:346-356 | one transfer appends chunks until the stream ends or the buffer is over the length |
| Fetch.StalledResumes.AfterTransfer | crates/import/src/fetch/mod.rs:404-416 | stall number `k` in a row waits `2^(k - 1)` seconds, the sixth stops the fetch, and progress resumes at once and starts the row again |
| Fetch.RunFetch | crates/import/src/fetch/mod.rs:297-329 | the loop over transfers does what the function does, request by request |
| Fetch.FetchIsBounded | crates/import/src/fetch/mod.rs:297-329 | for any source, a blob of `n` bytes takes at most `(5 + 1) * (n / RESUME_PROGRESS_BYTES + 1)` requests and at most `31 * (n / RESUME_PROGRESS_BYTES + 1)` seconds of waiting |
| Fetch.BufferIsBounded | crates/import/src/fetch/mod.rs:297-356 | over the whole fetch the buffer never grows past the length of the entry and one chunk |
| Fetch.FetchIsChecked | crates/import/src/fetch/mod.rs:297-329 | for any source: a blob that is given has the length and digest of its entry, every request asks from the end of the buffer, and the fetch gives up only for an error that no request can avoid or behind six stalled transfers in a row |
| Fetch.HonestFetch | crates/import/src/fetch/mod.rs:297-329 | with a source that only cuts streams, the buffer is a prefix of the true blob behind every transfer, and the fetch gives the true blob or gives up for one of these reasons |
| Fetch.DeliveringSourceSucceeds | crates/import/src/fetch/mod.rs:297-356 | if of any six requests in a row one delivers the rest or enough to count as progress, such a source always gives the true blob |
| FetchTrace.FetchIsTraced | crates/import/src/fetch/mod.rs:297-416 | for any source, request by request: from which offset, which chunks are read, which errors lead to another request, how long it waits, and with which result the last one ends |
| SingleFlight.RootsCache.TreeRootsCell | crates/import/src/attest/mod.rs:209-228 | the method is the step in which a call enters: the cell in the map, or a new one behind the eviction of the lowest filled cells |
| SingleFlight.RootsCache.ForgetFailedCell | crates/import/src/attest/mod.rs:230-241 | with the holder count of the runtime, the method is the step in which a failed call forgets its cell: the cell goes exactly if it is the empty one in the map and no other call holds it |
| SingleFlight.Evict | crates/import/src/attest/mod.rs:217-226 | the lowest filled cells go, as many as it takes, and no other |
| SingleFlight.SingleFlight | crates/import/src/attest/mod.rs:264-271 | over every interleaving: one request per height, the empty cell of an active call is the one in the map, and every returned value is an answer for its height |
| SingleFlight.EvictionIsSafe | crates/import/src/attest/mod.rs:209-228 | eviction takes filled cells only, and leaves the map within its capacity or without another filled cell |
| SingleFlight.ForgetFreesThePlace | crates/import/src/attest/mod.rs:230-241 | a failed call gives its place back if and only if no other call holds the cell |
| SingleFlight.FailedCellCanStay | crates/import/src/attest/mod.rs:230-241 | a run in which two failed calls leave an empty cell in the map |
| SingleFlight.CancelledCellStays | crates/import/src/attest/mod.rs:209-241 | runs in which a sole call that is cancelled, before or during its request, leaves an empty cell in the map |
| SingleFlight.StaleExactly | crates/import/src/attest/mod.rs:209-241 | over all runs, the map holds an empty cell that no call holds if and only if its last holder was cancelled, or failed beside another holder, and no call for the height has entered since |
| Framing.NumbersRoundTrip | crates/protocol/src/p2p.rs:60-96 | message numbers are exactly 0 to 23 and convert both ways |
| Framing.MessageDecoder.PushFrame | crates/protocol/src/p2p.rs:112-133 | the decoder does what the function does, and keeps its buffer within the message limit |
| Framing.BufferIsBounded | crates/protocol/src/p2p.rs:112-133 | for arbitrary frames neither the buffer nor a message exceeds the limit |
| Framing.PushMeans | crates/protocol/src/p2p.rs:112-133 | when a frame is bad and which error it gives: flags, unknown type, another type inside a message, length; a bad frame changes nothing |
| Framing.DecoderIsExact | crates/protocol/src/p2p.rs:112-133 | frames decode to messages without error and rest if and only if they are, in order, the frames of these messages |
| Framing.SendBytes | crates/p2p/src/service.rs:329-363 | the loop over chunks gives the frames of the message, or of the status if the message is over the limit |
| Framing.FramesAreFull | crates/p2p/src/service.rs:329-363 | the frames are those of the message, all full but the last; over 4 MiB they are those of the status |
| Framing.FramesRoundTrip | crates/p2p/src/service.rs:329-363 | the frames of any messages, fed to one decoder, give what was sent without an error; a message over the limit comes out as the status |
| Framing.MessagesRoundTrip | crates/p2p/src/service.rs:329-363 | messages within the limit come back unchanged and in order |

## Left out

- LMDB storage, `Index` reads and writes, `HistoricalPipeline` and `HeadFollower`: the model has only the interfaces that the core calls.
- BLAKE3, Ed25519, Pedersen and Sinsemilla hashing, field elements and Merkle trees: abstract functions with the laws above.
- The protobuf decoder: a parameter with laws, because it is generated code; it also reads messages that the encoder never writes.
- The batch append of the tree library: it is not part of the repository. The model takes its result for fewer than 65,536 leaves, the only case that occurs, from the one-by-one append of the tests.
- `StoredBlock` views of a record other than `CompactBlockRecord`: they read the same bytes.
- 32-bit targets: `usize` has 64 bits in the model.
- EpochProof.RunRebuild: keeps the trees and completed subtrees as values that the visitor returns, and a list of completed subtrees per range, where the source has one list and an offset into it. A checked range is its start and its blob, without the block ids that the install reads.
- VerifiedImport.InstalledEpochsAreProven: takes the work on an epoch as one step, the answers of the node as fixed during that step, and the sampling of heights as an arbitrary predicate.
- SingleFlight.RootsCache.ForgetFailedCell: takes the number of holders from the runtime; the contract ties it to the calls of the step system.
- `Importer::check_identity` and `continue_at_sealed_tip`: they compare two values of the manifest with the index or the node and delete mutable rows, and no other step depends on how.
- `PeerSource` and `HttpSource`, signatures, request limits and time-outs of the fetch: input and output.
- JSON-RPC, TLS, gRPC adapters, node start-up, remote and embedded backends, telemetry, command line and configuration: no hard property.
