/** Which fault a failed attestation names, and at which height. */
module AttestationFaults {
  import opened Bytes
  import opened ChainTypes
  import opened Manifest
  import opened RangeCheck
  import opened CommitmentTrees
  import opened EpochProof
  import opened Subtrees
  import opened ChainHistory
  import opened EpochMeaning
  import opened Attestation

  /** The end hash of the first entry that the node does not have, or has another hash for. */
  lemma HashFaultIsNamed<T>(p: PoolOps<T>, node: Node, entries: seq<ManifestEntry>, proof: EpochProof, k: nat)
    requires k < |entries| && node.blockHash(entries[k].endHeight) != Some(entries[k].endHash)
    requires forall i | 0 <= i < k :: node.blockHash(entries[i].endHeight) == Some(entries[i].endHash)
    ensures var h := entries[k].endHeight;
            Attest(p, node, entries, proof)
            == NotAttested(if node.blockHash(h).None? then NoAnswer(h) else AttestedHash(h))
  {
    FirstHash(node, entries, k);
  }

  lemma {:induction false} FirstHash(node: Node, entries: seq<ManifestEntry>, k: nat)
    requires k < |entries| && node.blockHash(entries[k].endHeight) != Some(entries[k].endHash)
    requires forall i | 0 <= i < k :: node.blockHash(entries[i].endHeight) == Some(entries[i].endHash)
    ensures var h := entries[k].endHeight;
            CheckHashes(node, entries) == Some(if node.blockHash(h).None? then NoAnswer(h) else AttestedHash(h))
  {
    if k > 0 {
      assert node.blockHash(entries[0].endHeight) == Some(entries[0].endHash);
      FirstHash(node, entries[1..], k - 1);
    }
  }

  ghost predicate RootsAgree<T>(p: PoolOps<T>, hs: Histories<T>, roots: PoolRoots, after: TreeSizes) {
    && RootAgrees(p.sapling, hs.sapling, roots.sapling, after.sapling)
    && RootAgrees(p.orchard, hs.orchard, roots.orchard, after.orchard)
    && RootAgrees(p.ironwood, hs.ironwood, roots.ironwood, after.ironwood)
  }

  lemma RootsMean<T>(p: PoolOps<T>, previous: Option<ManifestEntry>, entries: seq<ManifestEntry>, start: Frontiers,
                     rs: seq<CompactBlockRecord>, hs: Histories<T>, proof: EpochProof, roots: PoolRoots)
    requires ProofHolds(p, previous, entries, start, rs, hs, proof) && rs != []
    ensures MatchesRoots(proof, roots) <==> RootsAgree(p, hs, roots, rs[|rs| - 1].endTreeSizes)
  {
    hide ListsCompleted, LeafCounts;
  }

  /** With all hashes right: no roots at the end, or a root that is not the one behind the last leaf. */
  lemma RootFaultIsNamed<T>(p: PoolOps<T>, node: Node, previous: Option<ManifestEntry>, entries: seq<ManifestEntry>,
                            start: Frontiers, rs: seq<CompactBlockRecord>, hs: Histories<T>, proof: EpochProof)
    requires entries != [] && rs != [] && ProofHolds(p, previous, entries, start, rs, hs, proof)
    requires forall e <- entries :: node.blockHash(e.endHeight) == Some(e.endHash)
    ensures var end := entries[|entries| - 1].endHeight;
            var roots := node.treeRoots(end);
            && (roots.None? ==> Attest(p, node, entries, proof) == NotAttested(NoAnswer(end)))
            && (roots.Some? && !RootsAgree(p, hs, roots.value, rs[|rs| - 1].endTreeSizes) ==>
                  Attest(p, node, entries, proof) == NotAttested(AttestedRoots(end)))
  {
    hide CheckHashes, MatchesRoots, ProofHolds, RootsAgree, MakeRecords, CheckSubtrees;
    HashesMean(node, entries);
    var roots := node.treeRoots(entries[|entries| - 1].endHeight);
    if roots.Some? {
      RootsMean(p, previous, entries, start, rs, hs, proof, roots.value);
    }
  }

  lemma {:induction false} FirstWrongIs(answers: seq<Digest>, first: nat, roots: seq<SubtreeRoot>, j: nat)
    requires j < |roots| && !Answers(answers, first, roots[j])
    requires forall i | 0 <= i < j :: Answers(answers, first, roots[i])
    ensures FirstWrong(answers, first, roots) == Some(roots[j])
  {
    if j > 0 {
      assert Answers(answers, first, roots[0]);
      FirstWrongIs(answers, first, roots[1..], j - 1);
    }
  }

  lemma {:induction false} ListedAtFirst(entries: seq<ManifestEntry>, root: SubtreeRoot, end: nat, i: nat)
    requires i < |entries| && root in entries[i].subtreeRoots
    requires forall j | 0 <= j < i :: root !in entries[j].subtreeRoots
    ensures ListedAt(entries, root, end) == entries[i].endHeight
  {
    if i > 0 {
      assert root !in entries[0].subtreeRoots;
      ListedAtFirst(entries[1..], root, end, i - 1);
    }
  }

  /** A completed subtree is listed by one entry only: that of its range. */
  lemma ListedOnce<T>(env: Env, p: PoolOps<T>, entries: seq<ManifestEntry>, blobs: seq<seq<byte>>, start: Frontiers,
                      rss: seq<seq<CompactBlockRecord>>, hs: Histories<T>, x: SubtreeRoot, i: nat, end: nat)
    requires RangesHold(env, p, entries, blobs, start, rss, hs) && i < |entries|
    requires CompletedIn(p, hs, LeafCounts(Concat(rss[..i])), LeafCounts(Concat(rss[..i + 1])), x)
    ensures ListedAt(entries, x, end) == entries[i].endHeight
  {
    hide BlobHolds, ListsCompleted, LeafCounts, Concat, EncodesTree, ListedAt, CompletedIn;
    forall k | 0 <= k <= i
      ensures x in entries[k].subtreeRoots <==>
              CompletedIn(p, hs, LeafCounts(Concat(rss[..k])), LeafCounts(Concat(rss[..k + 1])), x)
    {
      assert EntryHolds(p, hs, entries[k], Latest(start, entries, k), rss, k);
      ListedIsCompleted(p, hs, LeafCounts(Concat(rss[..k])), LeafCounts(Concat(rss[..k + 1])),
                        entries[k].subtreeRoots, x);
    }
    forall j | 0 <= j < i ensures x !in entries[j].subtreeRoots {
      CountsRise(rss, j + 1, i);
      NotTwice(p, hs, LeafCounts(Concat(rss[..j])), LeafCounts(Concat(rss[..j + 1])), LeafCounts(Concat(rss[..i])),
               LeafCounts(Concat(rss[..i + 1])), x);
    }
    ListedAtFirst(entries, x, end, i);
  }

  ghost predicate AtMost(a: Counts, b: Counts) {
    a.sapling <= b.sapling && a.orchard <= b.orchard && a.ironwood <= b.ironwood
  }

  lemma CountsRise(rss: seq<seq<CompactBlockRecord>>, j: nat, i: nat)
    requires j <= i <= |rss|
    ensures AtMost(LeafCounts(Concat(rss[..j])), LeafCounts(Concat(rss[..i])))
  {
    hide Concat, Outputs, Orchards, Ironwoods;
    assert rss[..i] == rss[..j] + rss[j..i];
    ConcatGlues(rss[..j], rss[j..i]);
    ChainDataGlues(Concat(rss[..j]), Concat(rss[j..i]));
  }

  lemma NotTwice<T>(p: PoolOps<T>, hs: Histories<T>, a: Counts, b: Counts, c: Counts, d: Counts, x: SubtreeRoot)
    requires AtMost(b, c) && CompletedIn(p, hs, c, d, x)
    ensures !CompletedIn(p, hs, a, b, x)
  {
  }

  /** Of the subtrees that the pool completes, `j` is the first with a wrong or missing answer. */
  ghost predicate WrongAt<T>(node: Node, ops: TreeOps<T>, pool: Pool, h: History<T>, before: nat, after: nat, j: nat) {
    var first, count := before / 65_536, after / 65_536 - before / 65_536;
    && j < count
    && var answers := node.subtreeRoots(pool, first, count);
       && answers.Some? && j <= |answers.value|
       && (j < |answers.value| ==> !RootAt(ops, h, (first + j + 1) * 65_536 - before, answers.value[j]))
       && forall i | 0 <= i < j :: RootAt(ops, h, (first + i + 1) * 65_536 - before, answers.value[i])
  }

  /** A call for the completed subtrees of a pool without an answer. */
  lemma SilentPoolIsNamed(node: Node, previous: Option<ManifestEntry>, entries: seq<ManifestEntry>, proof: EpochProof,
                          pool: Pool, end: nat)
    requires Consecutive(previous, proof, pool)
    ensures var before, after := SizeOf(Behind(previous).endTreeSizes, pool), SizeOf(proof.endTreeSizes, pool);
            var first, count := before / 65_536, after / 65_536 - before / 65_536;
            count > 0 && node.subtreeRoots(pool, first, count).None? ==>
              CheckPool(node, entries, end, proof.completed, pool) == Some(NoAnswer(end))
  {
    hide OfPool, ListedAt, FirstWrong, MinIndex, MaxIndex;
    var mine := OfPool(pool, proof.completed);
    assert FirstIndex(previous, pool) == SizeOf(Behind(previous).endTreeSizes, pool) / 65_536;
    if mine != [] {
      RisingBounds(mine, FirstIndex(previous, pool));
    }
  }

  /** The first wrong subtree of a pool is named with the end of the range that completes it. */
  lemma WrongSubtreeIsNamed<T>(env: Env, p: PoolOps<T>, node: Node, previous: Option<ManifestEntry>,
                               entries: seq<ManifestEntry>, blobs: seq<seq<byte>>, start: Frontiers,
                               rss: seq<seq<CompactBlockRecord>>, hs: Histories<T>, proof: EpochProof, pool: Pool,
                               j: nat, i: nat, end: nat)
    requires RangesHold(env, p, entries, blobs, start, rss, hs) && StartHolds(p, previous, start, hs)
    requires Concat(rss) != [] && ProofHolds(p, previous, entries, start, Concat(rss), hs, proof)
    requires Consecutive(previous, proof, pool) && i < |entries|
    requires var before, after := SizeOf(Behind(previous).endTreeSizes, pool), SizeOf(proof.endTreeSizes, pool);
             && WrongAt(node, p.Of(pool), pool, hs.Of(pool), before, after, j)
             && CountOf(LeafCounts(Concat(rss[..i])), pool) < (before / 65_536 + j + 1) * 65_536 - before
                <= CountOf(LeafCounts(Concat(rss[..i + 1])), pool)
    ensures CheckPool(node, entries, end, proof.completed, pool) == Some(AttestedSubtree(entries[i].endHeight))
  {
    hide OfPool, ListsCompleted, LeafCounts, Concat, ListedAt, BlobHolds, EntryHolds, StartHolds, WrongAt, CheckPool,
      RootAt, CompletedIn, ProofHolds, FirstIndex, SizeOf, PoolOps.Of, Histories.Of, CountOf;
    var before, after := SizeOf(Behind(previous).endTreeSizes, pool), SizeOf(proof.endTreeSizes, pool);
    var mine := OfPool(pool, proof.completed);
    StartCount(p, previous, start, hs, pool);
    FirstIs(previous, pool);
    HoldsList(p, previous, entries, start, Concat(rss), hs, proof);
    WrongInRange(node, p.Of(pool), pool, hs.Of(pool), before, after, j);
    WrongIsFirst(p, node, hs, LeafCounts(Concat(rss)), proof.completed, pool, before, after, j);
    CompletedRoots(p, hs, LeafCounts(Concat(rss)), proof.completed, pool, before, after);
    OfPoolHas(pool, proof.completed, mine[j]);
    InRange(env, p, previous, entries, blobs, start, rss, hs, i, mine[j], (before / 65_536 + j + 1) * 65_536 - before);
    ListedOnce(env, p, entries, blobs, start, rss, hs, mine[j], i, end);
    WrongIsReported(node, entries, end, proof.completed, pool, before / 65_536, mine[j]);
  }

  lemma FirstIs(previous: Option<ManifestEntry>, pool: Pool)
    ensures FirstIndex(previous, pool) == SizeOf(Behind(previous).endTreeSizes, pool) / 65_536
  {
  }

  lemma HoldsList<T>(p: PoolOps<T>, previous: Option<ManifestEntry>, entries: seq<ManifestEntry>, start: Frontiers,
                     rs: seq<CompactBlockRecord>, hs: Histories<T>, proof: EpochProof)
    requires ProofHolds(p, previous, entries, start, rs, hs, proof)
    ensures ListsCompleted(p, hs, Counts(0, 0, 0), LeafCounts(rs), proof.completed)
  {
  }

  lemma WrongInRange<T>(node: Node, ops: TreeOps<T>, pool: Pool, h: History<T>, before: nat, after: nat, j: nat)
    requires WrongAt(node, ops, pool, h, before, after, j)
    ensures j < after / 65_536 - before / 65_536
    ensures node.subtreeRoots(pool, before / 65_536, after / 65_536 - before / 65_536).Some?
  {
  }

  lemma WrongIsReported(node: Node, entries: seq<ManifestEntry>, end: nat, completed: seq<SubtreeRoot>, pool: Pool,
                        first: nat, x: SubtreeRoot)
    requires var mine := OfPool(pool, completed);
             && 0 < |mine| <= U16_MAX && (forall i | 0 <= i < |mine| :: mine[i].index == first + i)
             && node.subtreeRoots(pool, first, |mine|).Some?
             && FirstWrong(node.subtreeRoots(pool, first, |mine|).value, first, mine) == Some(x)
    ensures CheckPool(node, entries, end, completed, pool) == Some(AttestedSubtree(ListedAt(entries, x, end)))
  {
    hide OfPool, ListedAt, FirstWrong, MinIndex, MaxIndex;
    RisingBounds(OfPool(pool, completed), first);
  }

  lemma StartCount<T>(p: PoolOps<T>, previous: Option<ManifestEntry>, start: Frontiers, hs: Histories<T>, pool: Pool)
    requires StartHolds(p, previous, start, hs)
    ensures hs.Of(pool).trees != []
    ensures p.Of(pool).count(hs.Of(pool).trees[0]) == SizeOf(Behind(previous).endTreeSizes, pool)
  {
  }

  lemma InRange<T>(env: Env, p: PoolOps<T>, previous: Option<ManifestEntry>, entries: seq<ManifestEntry>,
                   blobs: seq<seq<byte>>, start: Frontiers, rss: seq<seq<CompactBlockRecord>>, hs: Histories<T>, i: nat,
                   x: SubtreeRoot, n: nat)
    requires RangesHold(env, p, entries, blobs, start, rss, hs) && i < |entries| && hs.Of(x.pool).trees != []
    requires n == (x.index + 1) * 65_536 - p.Of(x.pool).count(hs.Of(x.pool).trees[0])
    requires RootAt(p.Of(x.pool), hs.Of(x.pool), n, x.root)
    requires CountOf(LeafCounts(Concat(rss[..i])), x.pool) < n <= CountOf(LeafCounts(Concat(rss[..i + 1])), x.pool)
    ensures CompletedIn(p, hs, LeafCounts(Concat(rss[..i])), LeafCounts(Concat(rss[..i + 1])), x)
  {
    hide LeafCounts, Concat, ListsCompleted, BlobHolds, EncodesTree;
    assert EntryHolds(p, hs, entries[i], Latest(start, entries, i), rss, i);
    TreesInRange(p, hs, LeafCounts(Concat(rss[..i + 1])), entries[i].frontiers);
    Completes(p, hs, LeafCounts(Concat(rss[..i])), LeafCounts(Concat(rss[..i + 1])), x, n);
  }

  lemma Completes<T>(p: PoolOps<T>, hs: Histories<T>, lo: Counts, hi: Counts, x: SubtreeRoot, n: nat)
    requires hs.Of(x.pool).trees != [] && RootAt(p.Of(x.pool), hs.Of(x.pool), n, x.root)
    requires n == (x.index + 1) * 65_536 - p.Of(x.pool).count(hs.Of(x.pool).trees[0])
    requires CountOf(lo, x.pool) < n <= CountOf(hi, x.pool) < |hs.Of(x.pool).trees|
    ensures CompletedIn(p, hs, lo, hi, x)
  {
  }

  /** The first wrong answer is about the first wrong subtree. */
  lemma WrongIsFirst<T>(p: PoolOps<T>, node: Node, hs: Histories<T>, hi: Counts, completed: seq<SubtreeRoot>,
                        pool: Pool, before: nat, after: nat, j: nat)
    requires ListsCompleted(p, hs, Counts(0, 0, 0), hi, completed) && hs.Of(pool).trees != []
    requires p.Of(pool).count(hs.Of(pool).trees[0]) == before
    requires var mine := OfPool(pool, completed);
             && |mine| == after / SUBTREE_LEAVES - before / SUBTREE_LEAVES
             && forall i | 0 <= i < |mine| :: mine[i].index == before / SUBTREE_LEAVES + i
    requires WrongAt(node, p.Of(pool), pool, hs.Of(pool), before, after, j)
    ensures var first, mine := before / 65_536, OfPool(pool, completed);
            FirstWrong(node.subtreeRoots(pool, first, |mine|).value, first, mine) == Some(mine[j])
  {
    hide OfPool, ListsCompleted, RootAt, FirstWrong, Answers, PoolOps.Of, Histories.Of;
    var first, mine := before / 65_536, OfPool(pool, completed);
    var answers := node.subtreeRoots(pool, first, |mine|).value;
    CompletedRoots(p, hs, hi, completed, pool, before, after);
    forall i | 0 <= i < j ensures Answers(answers, first, mine[i]) {
      AnswerMeans(p.Of(pool), hs.Of(pool), before, mine, answers, i);
    }
    AnswerMeans(p.Of(pool), hs.Of(pool), before, mine, answers, j);
    FirstWrongIs(answers, first, mine, j);
  }

  /** The answer about subtree `i` is right exactly if it is the root that the last leaf gives. */
  lemma AnswerMeans<T>(ops: TreeOps<T>, h: History<T>, before: nat, mine: seq<SubtreeRoot>, answers: seq<Digest>,
                       i: nat)
    requires i < |mine| && mine[i].index == before / 65_536 + i
    requires RootAt(ops, h, (before / 65_536 + i + 1) * 65_536 - before, mine[i].root)
    ensures Answers(answers, before / 65_536, mine[i]) <==>
            i < |answers| && RootAt(ops, h, (before / 65_536 + i + 1) * 65_536 - before, answers[i])
  {
  }

  /** With all hashes and all roots right, the pools are asked in their order, and the first pool with
      a fault names it. */
  lemma SubtreeFaultIsNamed<T>(p: PoolOps<T>, node: Node, previous: Option<ManifestEntry>, entries: seq<ManifestEntry>,
                               start: Frontiers, rs: seq<CompactBlockRecord>, hs: Histories<T>, proof: EpochProof,
                               pool: Pool)
    requires entries != [] && rs != [] && ProofHolds(p, previous, entries, start, rs, hs, proof)
    requires forall e <- entries :: node.blockHash(e.endHeight) == Some(e.endHash)
    requires var roots := node.treeRoots(entries[|entries| - 1].endHeight);
             roots.Some? && RootsAgree(p, hs, roots.value, rs[|rs| - 1].endTreeSizes)
    requires Consecutive(previous, proof, SaplingPool) && Consecutive(previous, proof, OrchardPool)
    requires StartHolds(p, previous, start, hs)
    requires var before, after := Behind(previous).endTreeSizes, rs[|rs| - 1].endTreeSizes;
             && (pool != SaplingPool ==>
                   SubtreesAgree(node, p.sapling, SaplingPool, hs.sapling, before.sapling, after.sapling))
             && (pool == IronwoodPool ==>
                   SubtreesAgree(node, p.orchard, OrchardPool, hs.orchard, before.orchard, after.orchard))
    ensures var end := entries[|entries| - 1].endHeight;
            var fault := CheckPool(node, entries, end, proof.completed, pool);
            fault.Some? ==> Attest(p, node, entries, proof) == NotAttested(fault.value)
  {
    hide CheckHashes, MatchesRoots, RootsAgree, MakeRecords, CheckPool, Consecutive, SubtreesAgree, ListsCompleted,
      LeafCounts, StartHolds;
    HashesMean(node, entries);
    RootsMean(p, previous, entries, start, rs, hs, proof, node.treeRoots(entries[|entries| - 1].endHeight).value);
    var end := entries[|entries| - 1].endHeight;
    if pool != SaplingPool {
      PoolPasses(p, node, previous, entries, start, rs, hs, proof, SaplingPool, end);
    }
    if pool == IronwoodPool {
      PoolPasses(p, node, previous, entries, start, rs, hs, proof, OrchardPool, end);
    }
  }

  lemma PoolPasses<T>(p: PoolOps<T>, node: Node, previous: Option<ManifestEntry>, entries: seq<ManifestEntry>,
                      start: Frontiers, rs: seq<CompactBlockRecord>, hs: Histories<T>, proof: EpochProof, pool: Pool,
                      end: nat)
    requires rs != [] && ProofHolds(p, previous, entries, start, rs, hs, proof)
    requires StartHolds(p, previous, start, hs) && Consecutive(previous, proof, pool)
    requires SubtreesAgree(node, p.Of(pool), pool, hs.Of(pool), SizeOf(Behind(previous).endTreeSizes, pool),
                           SizeOf(proof.endTreeSizes, pool))
    ensures CheckPool(node, entries, end, proof.completed, pool).None?
  {
    hide OfPool, ListsCompleted, LeafCounts, SubtreesAgree, NodeHas, CheckPool, StartHolds;
    StartCount(p, previous, start, hs, pool);
    assert FirstIndex(previous, pool) == SizeOf(Behind(previous).endTreeSizes, pool) / SUBTREE_LEAVES;
    SubtreesMean(node, p, hs, LeafCounts(rs), proof.completed, pool, SizeOf(Behind(previous).endTreeSizes, pool),
                 SizeOf(proof.endTreeSizes, pool));
    PoolIsAskedOnce(node, entries, end, proof.completed, pool, FirstIndex(previous, pool));
  }
}
