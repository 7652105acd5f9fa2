/** The attestation of a proven epoch by a node. */
module Attestation {
  import opened Bytes
  import opened ChainTypes
  import opened Manifest
  import opened RecordCodec
  import opened RangeCheck
  import opened CommitmentTrees
  import opened EpochProof
  import opened ChainHistory
  import opened EpochMeaning
  import opened EpochGluing
  import opened Subtrees
  import opened Epochs
  import EpochRule

  /** The answers of a node; `None` is no answer. Subtree roots are asked for by pool, first index
      and count. */
  datatype Node = Node(
    blockHash: nat -> Option<Digest>,
    treeRoots: nat -> Option<PoolRoots>,
    subtreeRoots: (Pool, nat, nat) -> Option<seq<Digest>>)

  datatype AttestError =
    | NoAnswer(height: nat)
    | AttestedHash(height: nat)
    | AttestedRoots(height: nat)
    | AttestedSubtree(height: nat)
    | UnreadableFrontier(height: nat)

  datatype Attested = Attested(endHash: Digest, roots: PoolRoots, subtreeRoots: seq<SubtreeRoot>)

  datatype Attestation = Records(records: seq<Attested>) | NotAttested(error: AttestError)

  // The tree roots.

  predicate RootMatches(node: Option<Digest>, rebuilt: Option<Digest>, size: nat) {
    match node case None => size == 0 case Some(root) => rebuilt == Some(root)
  }

  predicate MatchesRoots(proof: EpochProof, roots: PoolRoots) {
    && RootMatches(roots.sapling, proof.roots.sapling, proof.endTreeSizes.sapling)
    && RootMatches(roots.orchard, proof.roots.orchard, proof.endTreeSizes.orchard)
    && RootMatches(roots.ironwood, proof.roots.ironwood, proof.endTreeSizes.ironwood)
  }

  // The hashes and the subtrees.

  function CheckHashes(node: Node, entries: seq<ManifestEntry>): Option<AttestError> {
    if entries == [] then None
    else
      match node.blockHash(entries[0].endHeight)
      case None => Some(NoAnswer(entries[0].endHeight))
      case Some(hash) =>
        if hash != entries[0].endHash then Some(AttestedHash(entries[0].endHeight)) else CheckHashes(node, entries[1..])
  }

  function MinIndex(roots: seq<SubtreeRoot>): nat
    requires roots != []
  {
    if |roots| == 1 then roots[0].index
    else
      var rest := MinIndex(roots[1..]);
      if roots[0].index < rest then roots[0].index else rest
  }

  function MaxIndex(roots: seq<SubtreeRoot>): nat
    requires roots != []
  {
    if |roots| == 1 then roots[0].index
    else
      var rest := MaxIndex(roots[1..]);
      if roots[0].index > rest then roots[0].index else rest
  }

  /** The number of subtrees to ask for: `last - start + 1`, saturating as a `u16`. */
  function AskCount(start: nat, last: nat): nat
    requires start <= last
  {
    if last - start + 1 <= U16_MAX then last - start + 1 else U16_MAX
  }

  predicate Answers(answers: seq<Digest>, start: nat, root: SubtreeRoot) {
    start <= root.index && root.index - start < |answers| && answers[root.index - start] == root.root
  }

  function FirstWrong(answers: seq<Digest>, start: nat, roots: seq<SubtreeRoot>): Option<SubtreeRoot> {
    if roots == [] then None
    else if Answers(answers, start, roots[0]) then FirstWrong(answers, start, roots[1..])
    else Some(roots[0])
  }

  /** Where a wrong `root` is reported: the first entry with it in its list, else `end`. */
  function ListedAt(entries: seq<ManifestEntry>, root: SubtreeRoot, end: nat): nat {
    if entries == [] then end
    else if root in entries[0].subtreeRoots then entries[0].endHeight
    else ListedAt(entries[1..], root, end)
  }

  function CheckPool(node: Node, entries: seq<ManifestEntry>, end: nat, completed: seq<SubtreeRoot>,
                     pool: Pool): Option<AttestError> {
    var mine := OfPool(pool, completed);
    if mine == [] then None
    else
      var start, last := MinIndex(mine), MaxIndex(mine);
      MinIsLeast(mine);
      match node.subtreeRoots(pool, start, AskCount(start, last))
      case None => Some(NoAnswer(end))
      case Some(answers) =>
        match FirstWrong(answers, start, mine)
        case None => None
        case Some(wrong) => Some(AttestedSubtree(ListedAt(entries, wrong, end)))
  }

  lemma {:induction false} MinIsLeast(roots: seq<SubtreeRoot>)
    requires roots != []
    ensures forall root <- roots :: MinIndex(roots) <= root.index <= MaxIndex(roots)
    ensures exists low, high | low in roots && high in roots ::
              low.index == MinIndex(roots) && high.index == MaxIndex(roots)
    ensures MinIndex(roots) <= MaxIndex(roots)
  {
    if |roots| > 1 {
      MinIsLeast(roots[1..]);
      assert roots == [roots[0]] + roots[1..];
    } else {
      assert roots == [roots[0]] && roots[0] in roots;
    }
  }

  function CheckSubtrees(node: Node, entries: seq<ManifestEntry>, end: nat,
                         completed: seq<SubtreeRoot>): Option<AttestError> {
    match CheckPool(node, entries, end, completed, SaplingPool)
    case Some(e) => Some(e)
    case None =>
      match CheckPool(node, entries, end, completed, OrchardPool)
      case Some(e) => Some(e)
      case None => CheckPool(node, entries, end, completed, IronwoodPool)
  }

  // The records.

  function And(node: Option<Digest>, rebuilt: Option<Digest>): Option<Digest> {
    if node.None? then None else rebuilt
  }

  function Masked(node: PoolRoots, rebuilt: PoolRoots): PoolRoots {
    PoolRoots(And(node.sapling, rebuilt.sapling), And(node.orchard, rebuilt.orchard),
              And(node.ironwood, rebuilt.ironwood))
  }

  function MakeRecords<T>(p: PoolOps<T>, entries: seq<ManifestEntry>, end: nat, roots: PoolRoots): Attestation {
    if entries == [] then Records([])
    else
      var entry := entries[0];
      var trees := ParseTrees(p, entry.frontiers);
      if entry.endHeight != end && trees.None? then NotAttested(UnreadableFrontier(entry.endHeight))
      else
        var own := if entry.endHeight == end then roots else Masked(roots, Roots(p, trees.value));
        match MakeRecords(p, entries[1..], end, roots)
        case NotAttested(e) => NotAttested(e)
        case Records(records) => Records([Attested(entry.endHash, own, entry.subtreeRoots)] + records)
  }

  /** `EpochProof::attest`, for an epoch that is not empty. */
  function Attest<T>(p: PoolOps<T>, node: Node, entries: seq<ManifestEntry>, proof: EpochProof): Attestation
    requires entries != []
  {
    var end := entries[|entries| - 1].endHeight;
    match CheckHashes(node, entries)
    case Some(e) => NotAttested(e)
    case None =>
      match node.treeRoots(end)
      case None => NotAttested(NoAnswer(end))
      case Some(roots) =>
        if !MatchesRoots(proof, roots) then NotAttested(AttestedRoots(end))
        else
          match CheckSubtrees(node, entries, end, proof.completed)
          case Some(e) => NotAttested(e)
          case None => MakeRecords(p, entries, end, roots)
  }

  // What an attestation says.

  lemma {:induction false} HashesMean(node: Node, entries: seq<ManifestEntry>)
    ensures CheckHashes(node, entries).None? <==> forall e <- entries :: node.blockHash(e.endHeight) == Some(e.endHash)
  {
    if entries != [] {
      HashesMean(node, entries[1..]);
      assert entries == [entries[0]] + entries[1..];
    }
  }

  lemma {:induction false} NoneWrong(answers: seq<Digest>, start: nat, roots: seq<SubtreeRoot>)
    ensures FirstWrong(answers, start, roots).None? <==> forall root <- roots :: Answers(answers, start, root)
  {
    if roots != [] {
      NoneWrong(answers, start, roots[1..]);
      assert roots == [roots[0]] + roots[1..];
    }
  }

  lemma {:induction false} RisingBounds(roots: seq<SubtreeRoot>, first: nat)
    requires roots != [] && forall i | 0 <= i < |roots| :: roots[i].index == first + i
    ensures MinIndex(roots) == first && MaxIndex(roots) == first + |roots| - 1
  {
    if |roots| > 1 {
      RisingBounds(roots[1..], first + 1);
    }
  }

  /** The roots of `pool` that the node gives for the subtrees from `first` on are those of `roots`. */
  ghost predicate NodeHas(node: Node, pool: Pool, first: nat, roots: seq<SubtreeRoot>) {
    roots == [] ||
    (var answers := node.subtreeRoots(pool, first, |roots|);
     answers.Some? && |answers.value| >= |roots| && forall i | 0 <= i < |roots| :: answers.value[i] == roots[i].root)
  }

  /** Completed subtrees of a pool are consecutive, so one call asks for exactly them, and the check
      passes exactly if the node gives their roots in order. */
  lemma PoolIsAskedOnce(node: Node, entries: seq<ManifestEntry>, end: nat, completed: seq<SubtreeRoot>, pool: Pool,
                        first: nat)
    requires var mine := OfPool(pool, completed);
             |mine| <= U16_MAX && forall i | 0 <= i < |mine| :: mine[i].index == first + i
    ensures CheckPool(node, entries, end, completed, pool).None?
            <==> NodeHas(node, pool, first, OfPool(pool, completed))
  {
    hide OfPool, MinIndex, MaxIndex, FirstWrong, ListedAt;
    var mine := OfPool(pool, completed);
    if mine != [] {
      RisingBounds(mine, first);
      var answers := node.subtreeRoots(pool, first, |mine|);
      if answers.Some? {
        NoneWrong(answers.value, first, mine);
        if NodeHas(node, pool, first, mine) {
          forall root | root in mine ensures Answers(answers.value, first, root) {
            var i :| 0 <= i < |mine| && mine[i] == root;
          }
        }
        if forall root <- mine :: Answers(answers.value, first, root) {
          forall i | 0 <= i < |mine| ensures i < |answers.value| && answers.value[i] == mine[i].root {
            assert mine[i] in mine && Answers(answers.value, first, mine[i]);
          }
          assert mine[|mine| - 1] in mine;
        }
      }
    }
  }

  /** At most one subtree per pool and block. */
  lemma {:induction false} FewCompletions<T(!new)>(p: PoolOps<T>, trees: Trees<T>, rs: seq<CompactBlockRecord>,
                                                   pool: Pool)
    requires AllLawful(p) && AllSmall(rs)
    ensures |OfPool(pool, CompletedBy(p, trees, rs))| <= |rs|
    decreases rs
  {
    hide AllLawful, Small, AllSmall, BlockCompletes, OfPool, AppendBlock;
    if rs == [] {
      NoneOfPool(pool);
    } else {
      var next := AppendBlock(p, trees, rs[0].transactions);
      Heads(p, rs);
      BlockCompletesAtMostOne(p, trees, rs[0], pool);
      FewCompletions(p, next, rs[1..], pool);
      OfPoolGlues(pool, BlockCompletes(p, trees, rs[0].transactions), CompletedBy(p, next, rs[1..]));
    }
  }

  lemma NoneOfPool(pool: Pool)
    ensures OfPool(pool, []) == []
  {
  }

  lemma {:induction false} RecordsMean<T>(p: PoolOps<T>, entries: seq<ManifestEntry>, end: nat, roots: PoolRoots)
    requires forall e <- entries :: ParseTrees(p, e.frontiers).Some?
    ensures MakeRecords(p, entries, end, roots).Records? && |MakeRecords(p, entries, end, roots).records| == |entries|
    ensures forall i | 0 <= i < |entries| ::
              MakeRecords(p, entries, end, roots).records[i]
              == Attested(entries[i].endHash,
                          if entries[i].endHeight == end then roots
                            else Masked(roots, Roots(p, ParseTrees(p, entries[i].frontiers).value)),
                          entries[i].subtreeRoots)
  {
    hide ParseTrees, Roots, Masked;
    if entries != [] {
      assert entries[0] in entries;
      RecordsMean(p, entries[1..], end, roots);
    }
  }

  /** The first subtree that the epoch completes in `pool`. */
  function FirstIndex(previous: Option<ManifestEntry>, pool: Pool): nat {
    SizeOf(StartLinkOf(previous).endTreeSizes, pool) / SUBTREE_LEAVES
  }

  /** The completed subtrees of `pool` are consecutive, from the one that the start size is in on,
      and few enough for one call. */
  ghost predicate Consecutive(previous: Option<ManifestEntry>, proof: EpochProof, pool: Pool) {
    var mine := OfPool(pool, proof.completed);
    && |mine| == SizeOf(proof.endTreeSizes, pool) / SUBTREE_LEAVES - FirstIndex(previous, pool) <= U16_MAX
    && forall i | 0 <= i < |mine| :: mine[i].index == FirstIndex(previous, pool) + i
  }

  lemma CompletedInEntries<T(!new)>(env: Env, p: PoolOps<T>, previous: Option<ManifestEntry>,
                                    entries: seq<ManifestEntry>,
                                    blobs: seq<seq<byte>>, start: Frontiers, from: nat, pool: Pool)
    requires AllLawful(p) && Thrifty(env.payload) && Heights(from, entries) && |entries| <= EpochRule.MAX_RANGES
    requires RebuildEpoch(env, p, previous, entries, blobs, start).Accepted?
    ensures Consecutive(previous, RebuildEpoch(env, p, previous, entries, blobs, start).value, pool)
  {
    hide ChainOk, AllSmall, Thrifty, AllLawful, Proven, CompletedBy, Concat, Heights, RebuildFrom, ParseTrees,
      HaveSizes, End, OfPool,
      TreesAfter;
    var st := StartAt(p, previous, start).value;
    var rss := RebuildSound(env, p, st, entries, blobs);
    SameCounts(env, p, st, entries, blobs, rss);
    ProvenChain(env, p, st, entries, blobs, rss, from);
    RangeCompletes(p, st.trees, st.link, from, Concat(rss), pool);
    FewCompletions(p, st.trees, Concat(rss), pool);
    assert [] + CompletedBy(p, st.trees, Concat(rss)) == CompletedBy(p, st.trees, Concat(rss));
  }

  /** In an accepted epoch of a checked manifest, or part of one, the completed subtrees of a pool are
      consecutive from the one that its start size is in, and few enough for one call. */
  lemma CompletedAreConsecutive<T(!new)>(env: Env, p: PoolOps<T>, entries: seq<ManifestEntry>, s: nat, from: nat,
                                         blobs: seq<seq<byte>>, pool: Pool)
    requires AllLawful(p) && Thrifty(env.payload) && EntriesOk(entries) && s <= from < |entries|
             && from < EndOf(entries, s)
    requires Verify(env, p, Part(entries, s, from), blobs).Accepted?
    ensures var e := Part(entries, s, from);
            var mine := OfPool(pool, Verify(env, p, e, blobs).value.completed);
            |mine| <= U16_MAX && forall i | 0 <= i < |mine| :: mine[i].index == FirstIndex(e.previous, pool) + i
  {
    hide AllLawful, Thrifty, EntriesOk, RebuildEpoch, Heights, EndOf, OfPool, FirstIndex;
    var e := Part(entries, s, from);
    PartIsShort(entries, s, from);
    ManifestHeights(entries, from, EndOf(entries, s));
    CompletedInEntries(env, p, e.previous, e.entries, blobs, StartFrontiers(e.previous), RANGE_SIZE * from, pool);
  }

  // What the node has to say, and what the records say.

  /** The root of the node is that behind the last leaf; it may have none if there is no commitment. */
  ghost predicate RootAgrees<T>(ops: TreeOps<T>, h: History<T>, given: Option<Digest>, after: nat) {
    match given
    case Some(root) => h.trees != [] && root == ops.root(h.trees[|h.trees| - 1])
    case None => after == 0
  }

  /** The node gives the roots of all subtrees that the leaves complete, from `before` to `after`
      commitments, in one answer. */
  ghost predicate SubtreesAgree<T>(node: Node, ops: TreeOps<T>, pool: Pool, h: History<T>, before: nat, after: nat) {
    var first, count := before / 65_536, after / 65_536 - before / 65_536;
    || count <= 0
    || (var answers := node.subtreeRoots(pool, first, count);
        && answers.Some? && |answers.value| >= count
        && forall i | 0 <= i < count :: RootAt(ops, h, (first + i + 1) * 65_536 - before, answers.value[i]))
  }

  ghost predicate PoolAgrees<T>(node: Node, ops: TreeOps<T>, pool: Pool, h: History<T>, given: Option<Digest>,
                                before: nat, after: nat) {
    RootAgrees(ops, h, given, after) && SubtreesAgree(node, ops, pool, h, before, after)
  }

  /** `root` is that of the subtree which leaf `n` completes. */
  ghost predicate RootAt<T>(ops: TreeOps<T>, h: History<T>, n: int, root: Digest) {
    0 <= n < |h.trees| && root == ops.subtree(h.trees[n])
  }

  /** About the whole epoch, with the records `rs` and the histories `hs`: every end hash, and each pool. */
  ghost predicate NodeAgrees<T>(node: Node, p: PoolOps<T>, previous: Option<ManifestEntry>,
                                entries: seq<ManifestEntry>, rs: seq<CompactBlockRecord>, hs: Histories<T>)
    requires entries != [] && rs != []
  {
    var roots := node.treeRoots(entries[|entries| - 1].endHeight);
    var before, after := Behind(previous).endTreeSizes, rs[|rs| - 1].endTreeSizes;
    && (forall e <- entries :: node.blockHash(e.endHeight) == Some(e.endHash)) && roots.Some?
    && PoolAgrees(node, p.sapling, SaplingPool, hs.sapling, roots.value.sapling, before.sapling, after.sapling)
    && PoolAgrees(node, p.orchard, OrchardPool, hs.orchard, roots.value.orchard, before.orchard, after.orchard)
    && PoolAgrees(node, p.ironwood, IronwoodPool, hs.ironwood, roots.value.ironwood, before.ironwood, after.ironwood)
  }

  /** The root of a pool in a record before the last: that of the tree behind `n` leaves, if the node
      has the pool at the end. */
  ghost predicate RecordRoot<T>(ops: TreeOps<T>, h: History<T>, n: nat, given: Option<Digest>, root: Option<Digest>) {
    if given.None? then root == None else n < |h.trees| && root == Some(ops.root(h.trees[n]))
  }

  /** The record of entry `i`: the end hash, the subtrees, and the roots of the node at the end, or
      before that the roots behind range `i`. */
  ghost predicate RecordHolds<T>(p: PoolOps<T>, hs: Histories<T>, entry: ManifestEntry,
                                 rss: seq<seq<CompactBlockRecord>>, roots: PoolRoots, i: nat, record: Attested)
    requires i < |rss|
  {
    && record.endHash == entry.endHash && record.subtreeRoots == entry.subtreeRoots
    && if i + 1 == |rss| then record.roots == roots
       else
         var at := LeafCounts(Concat(rss[..i + 1]));
         && RecordRoot(p.sapling, hs.sapling, at.sapling, roots.sapling, record.roots.sapling)
         && RecordRoot(p.orchard, hs.orchard, at.orchard, roots.orchard, record.roots.orchard)
         && RecordRoot(p.ironwood, hs.ironwood, at.ironwood, roots.ironwood, record.roots.ironwood)
  }

  /** Only the last entry ends at the end height. */
  ghost predicate EndsLast(entries: seq<ManifestEntry>) {
    forall i | 0 <= i < |entries| :: entries[i].endHeight == entries[|entries| - 1].endHeight ==> i + 1 == |entries|
  }

  /** A frontier that encodes the trees behind some leaves parses to these trees. */
  lemma EncodedParses<T(!new)>(p: PoolOps<T>, hs: Histories<T>, at: Counts, f: Frontiers)
    requires AllLawful(p) && EncodesTree(p.sapling, hs.sapling, at.sapling, f.sapling)
    requires EncodesTree(p.orchard, hs.orchard, at.orchard, f.orchard)
    requires EncodesTree(p.ironwood, hs.ironwood, at.ironwood, f.ironwood)
    ensures ParseTrees(p, f) == Some(Trees(hs.sapling.trees[at.sapling], hs.orchard.trees[at.orchard],
                                           hs.ironwood.trees[at.ironwood]))
  {
    MatchedParses(p, Trees(hs.sapling.trees[at.sapling], hs.orchard.trees[at.orchard],
                           hs.ironwood.trees[at.ironwood]), f);
  }

  lemma ProvenRecords<T(!new)>(env: Env, p: PoolOps<T>, entries: seq<ManifestEntry>, blobs: seq<seq<byte>>,
                               start: Frontiers, rss: seq<seq<CompactBlockRecord>>, hs: Histories<T>, roots: PoolRoots)
    requires AllLawful(p) && entries != [] && RangesHold(env, p, entries, blobs, start, rss, hs) && EndsLast(entries)
    ensures var made := MakeRecords(p, entries, entries[|entries| - 1].endHeight, roots);
            && made.Records? && |made.records| == |entries|
            && forall i | 0 <= i < |entries| :: RecordHolds(p, hs, entries[i], rss, roots, i, made.records[i])
  {
    hide AllLawful, ParseTrees, MakeRecords, LeafCounts, Concat, BlobHolds, EntryHolds, RecordHolds, Masked, Roots;
    forall i | 0 <= i < |entries| ensures ParseTrees(p, entries[i].frontiers).Some? {
      assert EntryHolds(p, hs, entries[i], Latest(start, entries, i), rss, i);
      EntryParses(p, hs, entries[i], Latest(start, entries, i), rss, i, roots);
    }
    RecordsMean(p, entries, entries[|entries| - 1].endHeight, roots);
    var made := MakeRecords(p, entries, entries[|entries| - 1].endHeight, roots);
    forall i | 0 <= i < |entries| ensures RecordHolds(p, hs, entries[i], rss, roots, i, made.records[i]) {
      assert EntryHolds(p, hs, entries[i], Latest(start, entries, i), rss, i);
      EntryParses(p, hs, entries[i], Latest(start, entries, i), rss, i, roots);
    }
  }

  /** The record that the frontiers of an entry give. */
  lemma EntryParses<T(!new)>(p: PoolOps<T>, hs: Histories<T>, entry: ManifestEntry, before: Frontiers,
                             rss: seq<seq<CompactBlockRecord>>, i: nat, roots: PoolRoots)
    requires AllLawful(p) && i < |rss| && EntryHolds(p, hs, entry, before, rss, i)
    ensures ParseTrees(p, entry.frontiers).Some?
    ensures var rebuilt := Masked(roots, Roots(p, ParseTrees(p, entry.frontiers).value));
            RecordHolds(p, hs, entry, rss, roots, i,
                        Attested(entry.endHash, if i + 1 == |rss| then roots else rebuilt, entry.subtreeRoots))
  {
    hide AllLawful, ParseTrees, LeafCounts, Concat, EncodesTree, ListsCompleted;
    EncodedParses(p, hs, LeafCounts(Concat(rss[..i + 1])), entry.frontiers);
    TreesInRange(p, hs, LeafCounts(Concat(rss[..i + 1])), entry.frontiers);
  }

  lemma TreesInRange<T>(p: PoolOps<T>, hs: Histories<T>, at: Counts, f: Frontiers)
    requires EncodesTree(p.sapling, hs.sapling, at.sapling, f.sapling)
    requires EncodesTree(p.orchard, hs.orchard, at.orchard, f.orchard)
    requires EncodesTree(p.ironwood, hs.ironwood, at.ironwood, f.ironwood)
    ensures at.sapling < |hs.sapling.trees| && at.orchard < |hs.orchard.trees| && at.ironwood < |hs.ironwood.trees|
  {
  }

  /** The completed subtrees of a pool have the roots that their leaves give, so the call for them is
      answered rightly exactly if the answers are these roots. */
  lemma SubtreesMean<T>(node: Node, p: PoolOps<T>, hs: Histories<T>, hi: Counts, completed: seq<SubtreeRoot>,
                        pool: Pool, before: nat, after: nat)
    requires ListsCompleted(p, hs, Counts(0, 0, 0), hi, completed) && hs.Of(pool).trees != []
    requires p.Of(pool).count(hs.Of(pool).trees[0]) == before
    requires var mine := OfPool(pool, completed);
             && |mine| == after / SUBTREE_LEAVES - before / SUBTREE_LEAVES
             && forall i | 0 <= i < |mine| :: mine[i].index == before / SUBTREE_LEAVES + i
    ensures NodeHas(node, pool, before / SUBTREE_LEAVES, OfPool(pool, completed)) <==>
            SubtreesAgree(node, p.Of(pool), pool, hs.Of(pool), before, after)
  {
    hide OfPool, ListsCompleted, RootAt;
    var mine := OfPool(pool, completed);
    CompletedRoots(p, hs, hi, completed, pool, before, after);
    var first := before / 65_536;
    var answers := node.subtreeRoots(pool, first, |mine|);
    if answers.Some? {
      forall i | 0 <= i < |mine| && i < |answers.value|
        ensures RootAt(p.Of(pool), hs.Of(pool), (first + i + 1) * 65_536 - before, answers.value[i]) <==>
                answers.value[i] == mine[i].root
      {
        OneRoot(p.Of(pool), hs.Of(pool), (first + i + 1) * 65_536 - before, answers.value[i], mine[i].root);
      }
    }
    assert |mine| == 0 <==> mine == [];
  }

  lemma OneRoot<T>(ops: TreeOps<T>, h: History<T>, n: int, root: Digest, other: Digest)
    requires RootAt(ops, h, n, other)
    ensures RootAt(ops, h, n, root) <==> root == other
  {
  }

  /** Completed subtree `i` of a pool has the root that its last leaf gives. */
  lemma CompletedRoots<T>(p: PoolOps<T>, hs: Histories<T>, hi: Counts, completed: seq<SubtreeRoot>, pool: Pool,
                          before: nat, after: nat)
    requires ListsCompleted(p, hs, Counts(0, 0, 0), hi, completed) && hs.Of(pool).trees != []
    requires p.Of(pool).count(hs.Of(pool).trees[0]) == before
    requires forall i | 0 <= i < |OfPool(pool, completed)| ::
               OfPool(pool, completed)[i].index == before / SUBTREE_LEAVES + i
    ensures forall i | 0 <= i < |OfPool(pool, completed)| ::
              RootAt(p.Of(pool), hs.Of(pool), (before / 65_536 + i + 1) * 65_536 - before,
                     OfPool(pool, completed)[i].root)
  {
    hide OfPool, ListsCompleted;
    var mine, ops, h := OfPool(pool, completed), p.Of(pool), hs.Of(pool);
    forall i | 0 <= i < |mine| ensures RootAt(ops, h, (before / 65_536 + i + 1) * 65_536 - before, mine[i].root) {
      OfPoolHas(pool, completed, mine[i]);
      ListedIsCompleted(p, hs, Counts(0, 0, 0), hi, completed, mine[i]);
    }
  }

  lemma ListedIsCompleted<T>(p: PoolOps<T>, hs: Histories<T>, lo: Counts, hi: Counts, xs: seq<SubtreeRoot>,
                             x: SubtreeRoot)
    requires ListsCompleted(p, hs, lo, hi, xs)
    ensures x in xs <==> CompletedIn(p, hs, lo, hi, x)
  {
    hide CompletedIn;
    assert x in xs <==> multiset(xs)[x] > 0;
  }

  /** The check of the three roots and of the completed subtrees of the proof is that of each pool. */
  ghost predicate ProofAgrees(node: Node, previous: Option<ManifestEntry>, proof: EpochProof, roots: PoolRoots) {
    && MatchesRoots(proof, roots)
    && NodeHas(node, SaplingPool, FirstIndex(previous, SaplingPool), OfPool(SaplingPool, proof.completed))
    && NodeHas(node, OrchardPool, FirstIndex(previous, OrchardPool), OfPool(OrchardPool, proof.completed))
    && NodeHas(node, IronwoodPool, FirstIndex(previous, IronwoodPool), OfPool(IronwoodPool, proof.completed))
  }

  lemma PoolMeans<T>(node: Node, p: PoolOps<T>, previous: Option<ManifestEntry>, entries: seq<ManifestEntry>,
                     start: Frontiers, rs: seq<CompactBlockRecord>, hs: Histories<T>, proof: EpochProof,
                     given: Option<Digest>, rebuilt: Option<Digest>, pool: Pool)
    requires ProofHolds(p, previous, entries, start, rs, hs, proof) && rs != [] && Consecutive(previous, proof, pool)
    requires hs.Of(pool).trees != []
    requires p.Of(pool).count(hs.Of(pool).trees[0]) == SizeOf(Behind(previous).endTreeSizes, pool)
    requires rebuilt == Some(p.Of(pool).root(hs.Of(pool).trees[|hs.Of(pool).trees| - 1]))
    ensures RootMatches(given, rebuilt, SizeOf(proof.endTreeSizes, pool))
            && NodeHas(node, pool, FirstIndex(previous, pool), OfPool(pool, proof.completed)) <==>
            PoolAgrees(node, p.Of(pool), pool, hs.Of(pool), given, SizeOf(Behind(previous).endTreeSizes, pool),
                       SizeOf(proof.endTreeSizes, pool))
  {
    hide OfPool, ListsCompleted, NodeHas, LeafCounts, RootAt;
    assert FirstIndex(previous, pool) == SizeOf(Behind(previous).endTreeSizes, pool) / SUBTREE_LEAVES;
    SubtreesMean(node, p, hs, LeafCounts(rs), proof.completed, pool, SizeOf(Behind(previous).endTreeSizes, pool),
                 SizeOf(proof.endTreeSizes, pool));
  }

  lemma ProofMeans<T>(node: Node, p: PoolOps<T>, previous: Option<ManifestEntry>, entries: seq<ManifestEntry>,
                      start: Frontiers, rs: seq<CompactBlockRecord>, hs: Histories<T>, proof: EpochProof,
                      roots: PoolRoots)
    requires ProofHolds(p, previous, entries, start, rs, hs, proof) && rs != []
    requires Consecutive(previous, proof, SaplingPool) && Consecutive(previous, proof, OrchardPool)
             && Consecutive(previous, proof, IronwoodPool)
    requires StartHolds(p, previous, start, hs)
    ensures var before, after := Behind(previous).endTreeSizes, rs[|rs| - 1].endTreeSizes;
            ProofAgrees(node, previous, proof, roots) <==>
            && PoolAgrees(node, p.sapling, SaplingPool, hs.sapling, roots.sapling, before.sapling, after.sapling)
            && PoolAgrees(node, p.orchard, OrchardPool, hs.orchard, roots.orchard, before.orchard, after.orchard)
            && PoolAgrees(node, p.ironwood, IronwoodPool, hs.ironwood, roots.ironwood, before.ironwood, after.ironwood)
  {
    hide OfPool, ListsCompleted, NodeHas, LeafCounts, PoolAgrees, Consecutive, RootMatches, FirstIndex;
    PoolMeans(node, p, previous, entries, start, rs, hs, proof, roots.sapling, proof.roots.sapling, SaplingPool);
    PoolMeans(node, p, previous, entries, start, rs, hs, proof, roots.orchard, proof.roots.orchard, OrchardPool);
    PoolMeans(node, p, previous, entries, start, rs, hs, proof, roots.ironwood, proof.roots.ironwood, IronwoodPool);
  }

  /** The checks of the code are about the proof. */
  lemma AttestMeans<T>(p: PoolOps<T>, node: Node, previous: Option<ManifestEntry>, entries: seq<ManifestEntry>,
                       proof: EpochProof)
    requires entries != []
    requires Consecutive(previous, proof, SaplingPool) && Consecutive(previous, proof, OrchardPool)
             && Consecutive(previous, proof, IronwoodPool)
    requires var end := entries[|entries| - 1].endHeight;
             node.treeRoots(end).Some? ==> MakeRecords(p, entries, end, node.treeRoots(end).value).Records?
    ensures var roots := node.treeRoots(entries[|entries| - 1].endHeight);
            Attest(p, node, entries, proof).Records? <==>
            && (forall e <- entries :: node.blockHash(e.endHeight) == Some(e.endHash))
            && roots.Some? && ProofAgrees(node, previous, proof, roots.value)
    ensures var end := entries[|entries| - 1].endHeight;
            Attest(p, node, entries, proof).Records? ==>
              && node.treeRoots(end).Some?
              && Attest(p, node, entries, proof) == MakeRecords(p, entries, end, node.treeRoots(end).value)
  {
    hide OfPool, CheckHashes, CheckPool, MatchesRoots, MakeRecords, NodeHas, FirstIndex;
    var end := entries[|entries| - 1].endHeight;
    HashesMean(node, entries);
    PoolIsAskedOnce(node, entries, end, proof.completed, SaplingPool, FirstIndex(previous, SaplingPool));
    PoolIsAskedOnce(node, entries, end, proof.completed, OrchardPool, FirstIndex(previous, OrchardPool));
    PoolIsAskedOnce(node, entries, end, proof.completed, IronwoodPool, FirstIndex(previous, IronwoodPool));
  }

  /** The attestation succeeds exactly if the node agrees, and its records are those of the trees
      behind each range. */
  ghost predicate AttestedAs<T>(p: PoolOps<T>, node: Node, previous: Option<ManifestEntry>, entries: seq<ManifestEntry>,
                                rss: seq<seq<CompactBlockRecord>>, hs: Histories<T>, proof: EpochProof)
  {
    && entries != [] && |rss| == |entries| && Concat(rss) != []
    && var attested, roots := Attest(p, node, entries, proof), node.treeRoots(entries[|entries| - 1].endHeight);
       && (attested.Records? <==> NodeAgrees(node, p, previous, entries, Concat(rss), hs))
       && (attested.Records? ==>
             && roots.Some? && |attested.records| == |entries|
             && forall i | 0 <= i < |entries| ::
                  RecordHolds(p, hs, entries[i], rss, roots.value, i, attested.records[i]))
  }

  lemma AttestedEntries<T(!new)>(env: Env, p: PoolOps<T>, node: Node, previous: Option<ManifestEntry>,
                                 entries: seq<ManifestEntry>, blobs: seq<seq<byte>>, start: Frontiers, from: nat,
                                 rss: seq<seq<CompactBlockRecord>>, hs: Histories<T>, proof: EpochProof)
    requires AllLawful(p) && Thrifty(env.payload) && Heights(from, entries) && 0 < |entries| <= EpochRule.MAX_RANGES
    requires RebuildEpoch(env, p, previous, entries, blobs, start) == Accepted(proof)
    requires EpochHolds(env, p, previous, entries, blobs, start, from, rss, hs) && EndsLast(entries)
    requires ProofHolds(p, previous, entries, start, Concat(rss), hs, proof)
    ensures AttestedAs(p, node, previous, entries, rss, hs, proof)
  {
    hide RebuildEpoch, AllLawful, Thrifty, Heights, OfPool, MakeRecords, NodeHas, FirstIndex, ParseTrees, EndsLast,
      RecordHolds, ProofAgrees, PoolAgrees, ProofHolds, ChainOk, AllFielded, Appends, StartHolds, Concat, CheckHashes,
      CheckSubtrees, MatchesRoots, Consecutive, Attest;
    var end, rs := entries[|entries| - 1].endHeight, Concat(rss);
    CompletedInEntries(env, p, previous, entries, blobs, start, from, SaplingPool);
    CompletedInEntries(env, p, previous, entries, blobs, start, from, OrchardPool);
    CompletedInEntries(env, p, previous, entries, blobs, start, from, IronwoodPool);
    NotEmptyEpoch(env, p, entries, blobs, start, rss, hs);
    var roots := node.treeRoots(end);
    if roots.Some? {
      ProvenRecords(env, p, entries, blobs, start, rss, hs, roots.value);
      ProofMeans(node, p, previous, entries, start, rs, hs, proof, roots.value);
    }
    AttestMeans(p, node, previous, entries, proof);
  }

  lemma NotEmptyEpoch<T>(env: Env, p: PoolOps<T>, entries: seq<ManifestEntry>, blobs: seq<seq<byte>>,
                         start: Frontiers, rss: seq<seq<CompactBlockRecord>>, hs: Histories<T>)
    requires entries != [] && RangesHold(env, p, entries, blobs, start, rss, hs)
    ensures Concat(rss) != []
  {
    hide EntryHolds;
    assert BlobHolds(env, entries[0], blobs[0], rss[0]);
    assert Concat(rss)[0] == rss[0][0];
  }

  lemma ManifestEndsLast(entries: seq<ManifestEntry>, a: nat, b: nat)
    requires EntriesOk(entries) && a < b <= |entries|
    ensures EndsLast(entries[a..b])
  {
    hide EntriesOk;
    forall i | 0 <= i < b - a ensures entries[a..b][i].endHeight == RANGE_SIZE * (a + i) + RANGE_SIZE - 1 {
      EntryHeights(entries, a + i);
    }
  }

  /** An accepted epoch of a checked manifest, or an accepted part of one, is attested exactly if the
      node agrees: with every end hash, with the three roots behind the last leaf, and, in one call per
      pool, with every completed subtree. No frontier fails to parse. Every record then has the roots
      behind the leaves of its own range. */
  lemma AttestedExactly<T(!new)>(env: Env, p: PoolOps<T>, node: Node, entries: seq<ManifestEntry>, s: nat, from: nat,
                                 blobs: seq<seq<byte>>, proof: EpochProof)
    returns (rss: seq<seq<CompactBlockRecord>>, hs: Histories<T>)
    requires AllLawful(p) && Thrifty(env.payload) && EntriesOk(entries) && s <= from < |entries|
             && from < EndOf(entries, s)
    requires Verify(env, p, Part(entries, s, from), blobs) == Accepted(proof)
    ensures ManifestEpochHolds(env, p, entries, from, EndOf(entries, s), blobs, rss, hs)
    ensures ManifestProofHolds(p, entries, from, EndOf(entries, s), Concat(rss), hs, proof)
    ensures AttestedAs(p, node, if from == 0 then None else Some(entries[from - 1]), entries[from..EndOf(entries, s)],
                       rss, hs, proof)
  {
    hide AllLawful, Thrifty, EntriesOk, RebuildEpoch, EpochHolds, ProofHolds, Heights, EndOf, EndsLast, AttestedAs,
      Part, CountsAre, Concat;
    var e, start := Part(entries, s, from), StartFrontiers(Part(entries, s, from).previous);
    rss, hs := AcceptedEpoch(env, p, entries, s, from, blobs);
    PartIs(entries, s, from);
    PartIsShort(entries, s, from);
    ManifestHeights(entries, from, EndOf(entries, s));
    ManifestEndsLast(entries, from, EndOf(entries, s));
    AttestedEntries(env, p, node, e.previous, e.entries, blobs, start, RANGE_SIZE * from, rss, hs, proof);
  }
}
