/** Exactly which epochs the rebuild accepts, in terms of records, single appends and manifest fields. */
module EpochMeaning {
  import opened Bytes
  import opened ChainTypes
  import opened Manifest
  import opened RecordCodec
  import opened RangeDecoder
  import opened RangeCheck
  import opened CommitmentTrees
  import opened EpochProof
  import opened Subtrees
  import opened ChainHistory

  /** The entries cover adjacent ranges from height `from`, as in a checked manifest. */
  ghost predicate Heights(from: nat, entries: seq<ManifestEntry>) {
    forall i | 0 <= i < |entries| :: entries[i].startHeight == from + RANGE_SIZE * i
  }

  // What an accepted epoch is.

  /** The link in front of an epoch: that of the previous entry, or no block and no commitment. */
  ghost function Behind(previous: Option<ManifestEntry>): RangeLink {
    match previous
    case None => RangeLink(ZeroDigest, TreeSizes(0, 0, 0))
    case Some(e) => RangeLink(e.endHash, e.endTreeSizes)
  }

  /** The frontiers in front of an epoch: those of the previous entry, or no active pool. */
  ghost function FrontiersBehind(previous: Option<ManifestEntry>): Frontiers {
    match previous case None => Frontiers([], [], []) case Some(e) => e.frontiers
  }

  /** The history starts with the tree of `frontier`, of `size` commitments. */
  ghost predicate StartsFrom<T>(ops: TreeOps<T>, frontier: seq<byte>, size: nat, h: History<T>) {
    && h.trees != [] && ops.count(h.trees[0]) == size
    && if frontier == [] then h.trees[0] == ops.empty else ops.parse(frontier) == Some(h.trees[0])
  }

  /** `frontier` is the encoding of the tree behind `n` leaves, or the pool is not active. */
  ghost predicate EncodesTree<T>(ops: TreeOps<T>, h: History<T>, n: nat, frontier: seq<byte>) {
    && n < |h.trees|
    && if frontier == [] then ops.count(h.trees[n]) == 0 else frontier == ops.rpc(h.trees[n])
  }

  /** The bytes of a range are those of the entry, and decode to `rs`, which end as the entry says. */
  ghost predicate BlobHolds(env: Env, entry: ManifestEntry, blob: seq<byte>, rs: seq<CompactBlockRecord>) {
    && |blob| == entry.blobLen && env.digest(blob) == entry.blobDigest
    && NewDecoder(blob).Success? && blob[0] == entry.rangeVersion
    && |rs| == RANGE_SIZE && Reads(env, NewDecoder(blob).value, rs)
    && rs[RANGE_SIZE - 1].hash == entry.endHash && rs[RANGE_SIZE - 1].endTreeSizes == entry.endTreeSizes
  }

  /** Behind range `i` the trees have the frontiers of `entry`, no active pool became inactive, and the
      entry lists exactly the subtrees that the range completes. */
  ghost predicate EntryHolds<T>(p: PoolOps<T>, hs: Histories<T>, entry: ManifestEntry, before: Frontiers,
                                rss: seq<seq<CompactBlockRecord>>, i: nat)
    requires i < |rss|
  {
    var lo, hi := LeafCounts(Concat(rss[..i])), LeafCounts(Concat(rss[..i + 1]));
    && EncodesTree(p.sapling, hs.sapling, hi.sapling, entry.frontiers.sapling)
    && EncodesTree(p.orchard, hs.orchard, hi.orchard, entry.frontiers.orchard)
    && EncodesTree(p.ironwood, hs.ironwood, hi.ironwood, entry.frontiers.ironwood)
    && (before.sapling != [] ==> entry.frontiers.sapling != [])
    && (before.orchard != [] ==> entry.frontiers.orchard != [])
    && (before.ironwood != [] ==> entry.frontiers.ironwood != [])
    && ListsCompleted(p, hs, lo, hi, entry.subtreeRoots)
  }

  /** The frontiers in front of range `i`. */
  ghost function Latest(start: Frontiers, entries: seq<ManifestEntry>, i: nat): Frontiers
    requires i <= |entries|
  {
    if i == 0 then start else entries[i - 1].frontiers
  }

  /** Every commitment is a field element of its pool. */
  ghost predicate AllFielded<T>(p: PoolOps<T>, rs: seq<CompactBlockRecord>) {
    && (forall x <- Outputs(rs) :: p.sapling.leaf(x.cmu))
    && (forall x <- Orchards(rs) :: p.orchard.leaf(x.commitment))
    && (forall x <- Ironwoods(rs) :: p.ironwood.leaf(x.commitment))
  }

  ghost predicate StartHolds<T>(p: PoolOps<T>, previous: Option<ManifestEntry>, start: Frontiers, hs: Histories<T>) {
    && StartsFrom(p.sapling, start.sapling, Behind(previous).endTreeSizes.sapling, hs.sapling)
    && StartsFrom(p.orchard, start.orchard, Behind(previous).endTreeSizes.orchard, hs.orchard)
    && StartsFrom(p.ironwood, start.ironwood, Behind(previous).endTreeSizes.ironwood, hs.ironwood)
  }

  ghost predicate RangesHold<T>(env: Env, p: PoolOps<T>, entries: seq<ManifestEntry>, blobs: seq<seq<byte>>,
                                start: Frontiers, rss: seq<seq<CompactBlockRecord>>, hs: Histories<T>) {
    && |rss| == |entries| == |blobs|
    && (forall i | 0 <= i < |entries| :: BlobHolds(env, entries[i], blobs[i], rss[i]))
    && (forall i | 0 <= i < |entries| :: EntryHolds(p, hs, entries[i], Latest(start, entries, i), rss, i))
  }

  /** The records `rss` of the ranges are one chain behind the previous entry. The histories start with
      the start frontiers and append every commitment of the chain, one at a time, and each range
      holds what its entry says. */
  ghost predicate EpochHolds<T>(env: Env, p: PoolOps<T>, previous: Option<ManifestEntry>, entries: seq<ManifestEntry>,
                                blobs: seq<seq<byte>>, start: Frontiers, from: nat,
                                rss: seq<seq<CompactBlockRecord>>, hs: Histories<T>) {
    && ChainOk(Behind(previous), from, Concat(rss)) && AllFielded(p, Concat(rss))
    && StartHolds(p, previous, start, hs) && Appends(p, Concat(rss), hs)
    && RangesHold(env, p, entries, blobs, start, rss, hs)
  }

  /** The trees behind the first `k` records have the tree sizes of the last of them. */
  ghost predicate CountsAre<T>(p: PoolOps<T>, hs: Histories<T>, link: RangeLink, rs: seq<CompactBlockRecord>, k: nat)
    requires k <= |rs|
  {
    var at, sizes := LeafCounts(rs[..k]), if k == 0 then link.endTreeSizes else rs[k - 1].endTreeSizes;
    && at.sapling < |hs.sapling.trees| && p.sapling.count(hs.sapling.trees[at.sapling]) == sizes.sapling
    && at.orchard < |hs.orchard.trees| && p.orchard.count(hs.orchard.trees[at.orchard]) == sizes.orchard
    && at.ironwood < |hs.ironwood.trees| && p.ironwood.count(hs.ironwood.trees[at.ironwood]) == sizes.ironwood
  }

  /** The proof says how the histories end. */
  ghost predicate ProofHolds<T>(p: PoolOps<T>, previous: Option<ManifestEntry>, entries: seq<ManifestEntry>,
                                start: Frontiers, rs: seq<CompactBlockRecord>, hs: Histories<T>, proof: EpochProof) {
    && proof.endFrontiers == Latest(start, entries, |entries|)
    && proof.endTreeSizes == (if rs == [] then Behind(previous).endTreeSizes else rs[|rs| - 1].endTreeSizes)
    && hs.sapling.trees != [] && hs.orchard.trees != [] && hs.ironwood.trees != []
    && proof.roots.sapling == Some(p.sapling.root(hs.sapling.trees[|hs.sapling.trees| - 1]))
    && proof.roots.orchard == Some(p.orchard.root(hs.orchard.trees[|hs.orchard.trees| - 1]))
    && proof.roots.ironwood == Some(p.ironwood.root(hs.ironwood.trees[|hs.ironwood.trees| - 1]))
    && ListsCompleted(p, hs, Counts(0, 0, 0), LeafCounts(rs), proof.completed)
  }

  // Whole chains.

  lemma SmallGlues(rs: seq<CompactBlockRecord>, ss: seq<CompactBlockRecord>)
    requires AllSmall(rs) && AllSmall(ss)
    ensures AllSmall(rs + ss)
  {
    hide Small;
  }

  lemma NoRecords(link: RangeLink, from: nat)
    ensures ChainOk(link, from, []) && AllSmall([])
  {
  }

  /** The records of proven ranges are one chain, and the loop ends with their trees. */
  lemma {:induction false} ProvenChain<T(!new)>(env: Env, p: PoolOps<T>, st: Rebuild<T>, entries: seq<ManifestEntry>,
                                                blobs: seq<seq<byte>>, rss: seq<seq<CompactBlockRecord>>, from: nat)
    requires Proven(env, p, st, entries, blobs, rss) && Thrifty(env.payload) && Heights(from, entries)
    ensures var all, end := Concat(rss), End(p, st, entries, rss);
            && |all| == RANGE_SIZE * |entries| && ChainOk(st.link, from, all) && AllSmall(all)
            && end.link == LinkAt(st.link, all, |all|) && end.trees == TreesAfter(p, st.trees, all)
            && end.completed == st.completed + CompletedBy(p, st.trees, all)
            && end.endFrontiers == if entries == [] then st.endFrontiers else entries[|entries| - 1].frontiers
    decreases entries
  {
    hide ChainOk, AllSmall, Thrifty, RangeOk, AllLeavesOk, Matches, SameRoots, TreesAfter, CompletedBy,
      Frontiers.Follows;
    if entries == [] {
      NoRecords(st.link, from);
      NoTrees(p, st.trees);
      assert st.completed + [] == st.completed;
    } else {
      var rs, entry, tail := rss[0], entries[0], Concat(rss[1..]);
      var next := After(p, st, entry, rs);
      RangeIsSmall(env, entry, blobs[0], st.link, rs);
      forall i | 0 <= i < |entries[1..]| ensures entries[1..][i].startHeight == from + RANGE_SIZE + RANGE_SIZE * i {
        assert entries[i + 1].startHeight == from + RANGE_SIZE * (i + 1);
      }
      ProvenChain(env, p, next, entries[1..], blobs[1..], rss[1..], from + RANGE_SIZE);
      ChainGlues(st.link, from, rs, tail);
      SmallGlues(rs, tail);
      TreesGlue(p, st.trees, rs, tail);
      assert next.completed + CompletedBy(p, next.trees, tail) == st.completed + CompletedBy(p, st.trees, rs + tail);
    }
  }

  lemma NoTrees<T>(p: PoolOps<T>, trees: Trees<T>)
    ensures TreesAfter(p, trees, []) == trees && CompletedBy(p, trees, []) == []
  {
  }

  lemma {:induction false} ConcatGlues<T>(a: seq<seq<T>>, b: seq<seq<T>>)
    ensures Concat(a + b) == Concat(a) + Concat(b)
  {
    if a == [] {
      assert a + b == b;
    } else {
      assert (a + b)[1..] == a[1..] + b;
      ConcatGlues(a[1..], b);
    }
  }

  /** Range `i` is the records from `|Concat(rss[..i])|` on. */
  lemma ConcatAt<T>(rss: seq<seq<T>>, i: nat)
    requires i < |rss|
    ensures var all, k, l := Concat(rss), |Concat(rss[..i])|, |Concat(rss[..i + 1])|;
            && k <= l == k + |rss[i]| <= |all|
            && all[..k] == Concat(rss[..i]) && all[..l] == Concat(rss[..i + 1]) && all[k..l] == rss[i]
  {
    assert rss == rss[..i + 1] + rss[i + 1..] && rss[..i + 1] == rss[..i] + [rss[i]];
    ConcatGlues(rss[..i + 1], rss[i + 1..]);
    ConcatGlues(rss[..i], [rss[i]]);
    assert [rss[i]][1..] == [] && Concat([rss[i]]) == rss[i] + [];
  }

  lemma {:induction false} ConcatLength<T>(rss: seq<seq<T>>, n: nat)
    requires forall i | 0 <= i < |rss| :: |rss[i]| == n
    ensures |Concat(rss)| == n * |rss|
  {
    if rss != [] {
      ConcatLength(rss[1..], n);
      assert n * |rss| == n * |rss[1..]| + n;
    }
  }

  // The stages of the loop.

  /** The loop variables in front of range `i`, without the log of the subtrees. */
  ghost function Stage<T>(p: PoolOps<T>, st: Rebuild<T>, entries: seq<ManifestEntry>,
                          rss: seq<seq<CompactBlockRecord>>, i: nat): Rebuild<T>
    requires i <= |entries| == |rss|
  {
    Rebuild(if i == 0 then st.link else EntryLink(entries[i - 1]), TreesAfter(p, st.trees, Concat(rss[..i])),
            Latest(st.endFrontiers, entries, i), [])
  }

  ghost predicate ProvenAt<T>(env: Env, p: PoolOps<T>, st: Rebuild<T>, entries: seq<ManifestEntry>,
                              blobs: seq<seq<byte>>, rss: seq<seq<CompactBlockRecord>>, i: nat)
    requires i < |entries| == |rss| == |blobs|
  {
    RangeProven(env, p, Stage(p, st, entries, rss, i), entries[i], blobs[i], rss[i])
  }

  /** The first stage is the start. */
  lemma FirstStage<T>(env: Env, p: PoolOps<T>, st: Rebuild<T>, entries: seq<ManifestEntry>, blobs: seq<seq<byte>>,
                      rss: seq<seq<CompactBlockRecord>>)
    requires 0 < |entries| == |rss| == |blobs|
    ensures ProvenAt(env, p, st, entries, blobs, rss, 0) <==> RangeProven(env, p, st, entries[0], blobs[0], rss[0])
  {
    hide RangeOk, AllLeavesOk, Matches, SameRoots, CompletedBy, Frontiers.Follows;
    NoTrees(p, st.trees);
    assert rss[..0] == [];
  }

  /** The later stages are those of the rest. */
  lemma NextStage<T>(env: Env, p: PoolOps<T>, st: Rebuild<T>, entries: seq<ManifestEntry>, blobs: seq<seq<byte>>,
                     rss: seq<seq<CompactBlockRecord>>, i: nat)
    requires i + 1 < |entries| == |rss| == |blobs|
    ensures ProvenAt(env, p, st, entries, blobs, rss, i + 1) <==>
            ProvenAt(env, p, After(p, st, entries[0], rss[0]), entries[1..], blobs[1..], rss[1..], i)
  {
    hide RangeOk, AllLeavesOk, Matches, SameRoots, CompletedBy, Frontiers.Follows, TreesAfter;
    assert rss[..i + 1][1..] == rss[1..][..i];
    TreesGlue(p, st.trees, rss[0], Concat(rss[1..][..i]));
  }

  lemma {:induction false} ProvenByStages<T>(env: Env, p: PoolOps<T>, st: Rebuild<T>, entries: seq<ManifestEntry>,
                                             blobs: seq<seq<byte>>, rss: seq<seq<CompactBlockRecord>>)
    requires |entries| == |rss| == |blobs|
    ensures Proven(env, p, st, entries, blobs, rss) <==>
            forall i | 0 <= i < |entries| :: ProvenAt(env, p, st, entries, blobs, rss, i)
    decreases entries
  {
    hide RangeProven, After, ProvenAt;
    if entries != [] {
      var next, es, bs, qs := After(p, st, entries[0], rss[0]), entries[1..], blobs[1..], rss[1..];
      FirstStage(env, p, st, entries, blobs, rss);
      ProvenByStages(env, p, next, es, bs, qs);
      forall i | 0 <= i < |es|
        ensures ProvenAt(env, p, st, entries, blobs, rss, i + 1) <==> ProvenAt(env, p, next, es, bs, qs, i)
      {
        NextStage(env, p, st, entries, blobs, rss, i);
      }
      if forall i | 0 <= i < |es| :: ProvenAt(env, p, next, es, bs, qs, i) {
        forall i | 0 < i < |entries| ensures ProvenAt(env, p, st, entries, blobs, rss, i) {
          assert ProvenAt(env, p, next, es, bs, qs, i - 1);
        }
      }
    }
  }

  // One range.

  lemma RangeOkMeans(env: Env, entry: ManifestEntry, blob: seq<byte>, link: RangeLink, rs: seq<CompactBlockRecord>)
    ensures RangeOk(env, entry, blob, link, rs) <==>
            BlobHolds(env, entry, blob, rs) && ChainOk(link, entry.startHeight, rs)
  {
    hide NewDecoder, Decoder.Record, ChainOk;
  }

  lemma MatchesMeans<T>(p: PoolOps<T>, trees: Trees<T>, rs: seq<CompactBlockRecord>, hs: Histories<T>, k: nat,
                        f: Frontiers)
    requires Tracks(p, trees, rs, hs) && k <= |rs|
    ensures var hi := LeafCounts(rs[..k]);
            Matches(p, TreesAfter(p, trees, rs[..k]), f) <==>
            && EncodesTree(p.sapling, hs.sapling, hi.sapling, f.sapling)
            && EncodesTree(p.orchard, hs.orchard, hi.orchard, f.orchard)
            && EncodesTree(p.ironwood, hs.ironwood, hi.ironwood, f.ironwood)
  {
    hide Tracks, LeafCounts, TreesAfter;
    TrackedTree(p, trees, rs, hs, k, SaplingPool);
    TrackedTree(p, trees, rs, hs, k, OrchardPool);
    TrackedTree(p, trees, rs, hs, k, IronwoodPool);
  }

  /** The checks of range `i`, without its chain and its commitments, hold exactly if its blob and its
      entry do. */
  lemma StageMeans<T(!new)>(env: Env, p: PoolOps<T>, st: Rebuild<T>, entries: seq<ManifestEntry>,
                            blobs: seq<seq<byte>>, rss: seq<seq<CompactBlockRecord>>, hs: Histories<T>, i: nat)
    requires AllLawful(p) && i < |entries| == |rss| == |blobs| && Tracks(p, st.trees, Concat(rss), hs)
    ensures ProvenAt(env, p, st, entries, blobs, rss, i) <==>
            && BlobHolds(env, entries[i], blobs[i], rss[i])
            && ChainOk(Stage(p, st, entries, rss, i).link, entries[i].startHeight, rss[i]) && AllLeavesOk(p, rss[i])
            && EntryHolds(p, hs, entries[i], Latest(st.endFrontiers, entries, i), rss, i)
  {
    hide AllLawful, Tracks, BlobHolds, ChainOk, AllLeavesOk, RangeOk, Matches, SameRoots, LeafCounts, TreesAfter,
      CompletedBy, ListsCompleted, EncodesTree, Concat;
    var all, before := Concat(rss), Concat(rss[..i]);
    var k, l := |before|, |Concat(rss[..i + 1])|;
    ConcatAt(rss, i);
    RangeOkMeans(env, entries[i], blobs[i], Stage(p, st, entries, rss, i).link, rss[i]);
    assert all[..l] == before + rss[i];
    TreesGlue(p, st.trees, before, rss[i]);
    MatchesMeans(p, st.trees, all, hs, l, entries[i].frontiers);
    ListedMeans(p, st.trees, all, hs, k, l, entries[i].subtreeRoots);
  }

  // Commitments.

  lemma LeavesFielded<T>(p: PoolOps<T>, r: CompactBlockRecord)
    ensures LeavesOk(p, r.transactions) <==> AllFielded(p, [r])
  {
    hide Leaves, AllOutputs, AllOrchard, AllIronwood;
    OneRecord([], r, []);
    assert [] + [r] + [] == [r];
    var s, o, w := AllOutputs(r.transactions), AllOrchard(r.transactions), AllIronwood(r.transactions);
    assert Outputs([r]) == s && Orchards([r]) == o && Ironwoods([r]) == w;
    BlockLeaves(r.transactions);
    CmusFielded(p.sapling, Leaves(SaplingPool, r.transactions), s);
    CommitmentsFielded(p.orchard, Leaves(OrchardPool, r.transactions), o);
    CommitmentsFielded(p.ironwood, Leaves(IronwoodPool, r.transactions), w);
  }

  lemma CmusFielded<T>(ops: TreeOps<T>, xs: seq<Digest>, outputs: seq<CompactSaplingOutput>)
    requires AreCmus(xs, outputs)
    ensures (forall x <- xs :: ops.leaf(x)) <==> (forall x <- outputs :: ops.leaf(x.cmu))
  {
    if forall x <- xs :: ops.leaf(x) {
      forall x | x in outputs ensures ops.leaf(x.cmu) {
        var j :| 0 <= j < |outputs| && outputs[j] == x;
        assert xs[j] in xs;
      }
    }
    if forall x <- outputs :: ops.leaf(x.cmu) {
      forall x | x in xs ensures ops.leaf(x) {
        var j :| 0 <= j < |xs| && xs[j] == x;
        assert outputs[j] in outputs;
      }
    }
  }

  lemma CommitmentsFielded<T>(ops: TreeOps<T>, xs: seq<Digest>, actions: seq<CompactShieldedAction>)
    requires AreCommitments(xs, actions)
    ensures (forall x <- xs :: ops.leaf(x)) <==> (forall x <- actions :: ops.leaf(x.commitment))
  {
    if forall x <- xs :: ops.leaf(x) {
      forall x | x in actions ensures ops.leaf(x.commitment) {
        var j :| 0 <= j < |actions| && actions[j] == x;
        assert xs[j] in xs;
      }
    }
    if forall x <- actions :: ops.leaf(x.commitment) {
      forall x | x in xs ensures ops.leaf(x) {
        var j :| 0 <= j < |xs| && xs[j] == x;
        assert actions[j] in actions;
      }
    }
  }

  lemma FieldedGlues<T>(p: PoolOps<T>, a: seq<CompactBlockRecord>, b: seq<CompactBlockRecord>)
    ensures AllFielded(p, a + b) <==> AllFielded(p, a) && AllFielded(p, b)
  {
    hide Outputs, Orchards, Ironwoods;
    ChainDataGlues(a, b);
  }

  lemma {:induction false} RangeFielded<T>(p: PoolOps<T>, rs: seq<CompactBlockRecord>)
    ensures AllLeavesOk(p, rs) <==> AllFielded(p, rs)
  {
    hide LeavesOk, AllFielded, AllLeavesOk;
    if rs == [] {
      Nothing(p);
      NothingFielded(p);
    } else {
      Heads(p, rs);
      LeavesFielded(p, rs[0]);
      RangeFielded(p, rs[1..]);
      assert rs == [rs[0]] + rs[1..];
      FieldedGlues(p, [rs[0]], rs[1..]);
    }
  }

  lemma NothingFielded<T>(p: PoolOps<T>)
    ensures AllFielded(p, [])
  {
  }

  lemma {:induction false} EpochFielded<T>(p: PoolOps<T>, rss: seq<seq<CompactBlockRecord>>)
    ensures AllFielded(p, Concat(rss)) <==> forall i | 0 <= i < |rss| :: AllLeavesOk(p, rss[i])
  {
    hide AllFielded, AllLeavesOk;
    if rss == [] {
      NothingFielded(p);
    } else {
      EpochFielded(p, rss[1..]);
      FieldedGlues(p, rss[0], Concat(rss[1..]));
      RangeFielded(p, rss[0]);
      if forall i | 0 <= i < |rss[1..]| :: AllLeavesOk(p, rss[1..][i]) {
        forall i | 0 < i < |rss| ensures AllLeavesOk(p, rss[i]) {
          assert rss[i] == rss[1..][i - 1];
        }
      }
      if forall i | 0 <= i < |rss| :: AllLeavesOk(p, rss[i]) {
        forall i | 0 <= i < |rss[1..]| ensures AllLeavesOk(p, rss[1..][i]) {
          assert rss[1..][i] == rss[i + 1];
        }
      }
    }
  }

  // The start.

  /** The start state exists exactly if some histories can start with the start frontiers. */
  lemma StartMeans<T(!new)>(p: PoolOps<T>, previous: Option<ManifestEntry>, start: Frontiers, hs: Histories<T>,
                            trees: Trees<T>)
    requires hs.sapling.trees != [] && hs.orchard.trees != [] && hs.ironwood.trees != []
    requires trees == Trees(hs.sapling.trees[0], hs.orchard.trees[0], hs.ironwood.trees[0])
    ensures StartHolds(p, previous, start, hs) <==>
            StartAt(p, previous, start) == Some(Rebuild(Behind(previous), trees, start, []))
  {
  }

  // Both directions.

  lemma EpochSound<T(!new)>(env: Env, p: PoolOps<T>, previous: Option<ManifestEntry>, entries: seq<ManifestEntry>,
                            blobs: seq<seq<byte>>, start: Frontiers, from: nat)
    returns (rss: seq<seq<CompactBlockRecord>>, hs: Histories<T>)
    requires AllLawful(p) && Thrifty(env.payload) && Heights(from, entries)
    requires RebuildEpoch(env, p, previous, entries, blobs, start).Accepted?
    ensures EpochHolds(env, p, previous, entries, blobs, start, from, rss, hs)
    ensures ProofHolds(p, previous, entries, start, Concat(rss), hs,
                       RebuildEpoch(env, p, previous, entries, blobs, start).value)
    ensures forall k | 0 <= k <= |Concat(rss)| :: CountsAre(p, hs, Behind(previous), Concat(rss), k)
  {
    hide AllLawful, Thrifty, Heights, RebuildFrom, ParseTrees, HaveSizes, End, ChainOk, AllFielded, Concat, Proven,
      Tracks, ProvenAt, BlobHolds, EntryHolds, StartHolds, AllLeavesOk, TreesAfter, CompletedBy, ProofHolds, Stage,
      CountsAre, AllSmall;
    var st := StartAt(p, previous, start).value;
    rss := RebuildSound(env, p, st, entries, blobs);
    SameCounts(env, p, st, entries, blobs, rss);
    ProvenChain(env, p, st, entries, blobs, rss, from);
    hs := HistoryExists(p, st.trees, Concat(rss));
    ProvenByStages(env, p, st, entries, blobs, rss);
    forall i | 0 <= i < |entries|
      ensures BlobHolds(env, entries[i], blobs[i], rss[i]) && AllLeavesOk(p, rss[i])
      ensures EntryHolds(p, hs, entries[i], Latest(start, entries, i), rss, i)
    {
      assert ProvenAt(env, p, st, entries, blobs, rss, i);
      StageMeans(env, p, st, entries, blobs, rss, hs, i);
    }
    EpochFielded(p, rss);
    Tracked(p, st.trees, Concat(rss), hs);
    StartMeans(p, previous, start, hs, st.trees);
    EndHolds(p, previous, st, entries, Concat(rss), hs, End(p, st, entries, rss));
    forall k | 0 <= k <= |Concat(rss)| ensures CountsAre(p, hs, Behind(previous), Concat(rss), k) {
      CountsHold(p, st.trees, st.link, from, Concat(rss), hs, k);
    }
  }

  lemma CountsHold<T(!new)>(p: PoolOps<T>, trees: Trees<T>, link: RangeLink, from: nat, rs: seq<CompactBlockRecord>,
                            hs: Histories<T>, k: nat)
    requires AllLawful(p) && HaveSizes(p, trees, link.endTreeSizes) && ChainOk(link, from, rs) && AllSmall(rs)
    requires Tracks(p, trees, rs, hs) && k <= |rs|
    ensures CountsAre(p, hs, link, rs, k)
  {
    hide AllLawful, Tracks, LeafCounts, TreesAfter, ChainOk, AllSmall;
    SizesStayExact(p, trees, link, from, rs, k);
    TrackedTree(p, trees, rs, hs, k, SaplingPool);
    TrackedTree(p, trees, rs, hs, k, OrchardPool);
    TrackedTree(p, trees, rs, hs, k, IronwoodPool);
  }

  lemma Tracked<T>(p: PoolOps<T>, trees: Trees<T>, rs: seq<CompactBlockRecord>, hs: Histories<T>)
    requires Tracks(p, trees, rs, hs)
    ensures Appends(p, rs, hs) && hs.sapling.trees != [] && hs.orchard.trees != [] && hs.ironwood.trees != []
    ensures trees == Trees(hs.sapling.trees[0], hs.orchard.trees[0], hs.ironwood.trees[0])
  {
    hide Outputs, Orchards, Ironwoods;
  }

  lemma EndHolds<T(!new)>(p: PoolOps<T>, previous: Option<ManifestEntry>, st: Rebuild<T>, entries: seq<ManifestEntry>,
                          all: seq<CompactBlockRecord>, hs: Histories<T>, end: Rebuild<T>)
    requires AllLawful(p) && Tracks(p, st.trees, all, hs) && st.link == Behind(previous) && st.completed == []
    requires end.link == LinkAt(st.link, all, |all|) && end.trees == TreesAfter(p, st.trees, all)
    requires end.completed == st.completed + CompletedBy(p, st.trees, all)
    requires end.endFrontiers == Latest(st.endFrontiers, entries, |entries|)
    ensures ProofHolds(p, previous, entries, st.endFrontiers, all, hs, ProofOf(p, end))
  {
    hide AllLawful, Tracks, LeafCounts, TreesAfter, CompletedBy, ListsCompleted, CompletedIn;
    assert all[..|all|] == all && [] + CompletedBy(p, st.trees, all) == CompletedBy(p, st.trees, all);
    AllCompleted(p, st.trees, all, hs);
    LastTree(p, st.trees, all, hs, SaplingPool);
    LastTree(p, st.trees, all, hs, OrchardPool);
    LastTree(p, st.trees, all, hs, IronwoodPool);
  }

  lemma LastTree<T>(p: PoolOps<T>, trees: Trees<T>, rs: seq<CompactBlockRecord>, hs: Histories<T>, pool: Pool)
    requires Tracks(p, trees, rs, hs)
    ensures hs.Of(pool).trees != []
    ensures TreesAfter(p, trees, rs).Of(pool) == hs.Of(pool).trees[|hs.Of(pool).trees| - 1]
  {
    hide Tracks, LeafCounts, TreesAfter, Grown, AllLeaves;
    assert rs[..|rs|] == rs;
    TrackedTree(p, trees, rs, hs, |rs|, pool);
    TrackedLeaves(p, trees, rs, hs, pool);
    GrownLength(p.Of(pool), hs.Of(pool));
  }

  /** The chain of range `i` starts behind the entry before it. */
  lemma RangeChain<T>(env: Env, p: PoolOps<T>, st: Rebuild<T>, entries: seq<ManifestEntry>, blobs: seq<seq<byte>>,
                      rss: seq<seq<CompactBlockRecord>>, from: nat, i: nat)
    requires i < |entries| == |rss| == |blobs| && Heights(from, entries) && ChainOk(st.link, from, Concat(rss))
    requires forall j | 0 <= j < |entries| :: BlobHolds(env, entries[j], blobs[j], rss[j])
    ensures ChainOk(Stage(p, st, entries, rss, i).link, entries[i].startHeight, rss[i])
  {
    hide NewDecoder, Decoder.Record, ChainOk, Concat, TreesAfter, Reads;
    var all, k := Concat(rss), |Concat(rss[..i])|;
    forall j | 0 <= j < |rss| ensures |rss[j]| == RANGE_SIZE {
      assert BlobHolds(env, entries[j], blobs[j], rss[j]);
    }
    ConcatLength(rss[..i], RANGE_SIZE);
    ConcatAt(rss, i);
    Window(st.link, from, all, k, RANGE_SIZE);
    if i > 0 {
      ConcatAt(rss, i - 1);
      assert BlobHolds(env, entries[i - 1], blobs[i - 1], rss[i - 1]);
      var k' := |Concat(rss[..i - 1])|;
      assert all[k - 1] == all[k'..k][RANGE_SIZE - 1];
    }
  }

  lemma EpochComplete<T(!new)>(env: Env, p: PoolOps<T>, previous: Option<ManifestEntry>, entries: seq<ManifestEntry>,
                               blobs: seq<seq<byte>>, start: Frontiers, from: nat,
                               rss: seq<seq<CompactBlockRecord>>, hs: Histories<T>)
    requires AllLawful(p) && Thrifty(env.payload) && Heights(from, entries)
    requires EpochHolds(env, p, previous, entries, blobs, start, from, rss, hs)
    ensures RebuildEpoch(env, p, previous, entries, blobs, start).Accepted?
    ensures ProofHolds(p, previous, entries, start, Concat(rss), hs,
                       RebuildEpoch(env, p, previous, entries, blobs, start).value)
  {
    hide AllLawful, Thrifty, Heights, RebuildFrom, ParseTrees, HaveSizes, End, ChainOk, AllFielded, Concat, Proven,
      Tracks, ProvenAt, BlobHolds, EntryHolds, StartHolds, AllLeavesOk, TreesAfter, CompletedBy, ProofHolds, Appends,
      Stage;
    var trees := HeadTrees(p, Concat(rss), hs);
    StartMeans(p, previous, start, hs, trees);
    var st := Rebuild(Behind(previous), trees, start, []);
    EpochFielded(p, rss);
    forall i | 0 <= i < |entries| ensures ProvenAt(env, p, st, entries, blobs, rss, i) {
      RangeChain(env, p, st, entries, blobs, rss, from, i);
      StageMeans(env, p, st, entries, blobs, rss, hs, i);
    }
    ProvenByStages(env, p, st, entries, blobs, rss);
    StartIsExact(env, p, previous, start, st);
    RebuildComplete(env, p, st, entries, blobs, rss);
    ProvenChain(env, p, st, entries, blobs, rss, from);
    EndHolds(p, previous, st, entries, Concat(rss), hs, End(p, st, entries, rss));
  }

  lemma HeadTrees<T>(p: PoolOps<T>, rs: seq<CompactBlockRecord>, hs: Histories<T>) returns (trees: Trees<T>)
    requires Appends(p, rs, hs)
    ensures hs.sapling.trees != [] && hs.orchard.trees != [] && hs.ironwood.trees != []
    ensures trees == Trees(hs.sapling.trees[0], hs.orchard.trees[0], hs.ironwood.trees[0]) && Tracks(p, trees, rs, hs)
  {
    hide Outputs, Orchards, Ironwoods;
    trees := Trees(hs.sapling.trees[0], hs.orchard.trees[0], hs.ironwood.trees[0]);
  }

  lemma StartIsExact<T(!new)>(env: Env, p: PoolOps<T>, previous: Option<ManifestEntry>, start: Frontiers,
                              st: Rebuild<T>)
    requires AllLawful(p) && Thrifty(env.payload) && StartAt(p, previous, start) == Some(st)
    ensures Exact(env, p, st)
  {
    hide AllLawful, Thrifty, ParseTrees;
  }
}
