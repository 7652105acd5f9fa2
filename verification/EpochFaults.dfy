/** Which fault a rejected epoch names, and at which height. */
module EpochFaults {
  import opened Bytes
  import opened ChainTypes
  import opened Manifest
  import opened RecordCodec
  import opened RangeDecoder
  import opened RangeCheck
  import opened CommitmentTrees
  import opened EpochProof
  import opened Subtrees
  import opened ChainHistory
  import opened EpochMeaning
  import opened EpochGluing

  /** Another number of blobs is rejected first; then start frontiers that no history can start from. */
  lemma StartFaultIsNamed<T(!new)>(env: Env, p: PoolOps<T>, previous: Option<ManifestEntry>,
                                   entries: seq<ManifestEntry>, blobs: seq<seq<byte>>, start: Frontiers)
    ensures |blobs| != |entries| ==>
              RebuildEpoch(env, p, previous, entries, blobs, start) == Refused(BlobCount(|entries|, |blobs|))
    ensures |blobs| == |entries| && (forall hs: Histories<T> :: !StartHolds(p, previous, start, hs)) ==>
              RebuildEpoch(env, p, previous, entries, blobs, start)
              == Refused(Rejected(StartFrontier, if entries == [] then 0 else entries[0].startHeight))
  {
    hide RebuildFrom, ParseTrees, HaveSizes, StartHolds;
    if StartAt(p, previous, start).Some? {
      var st := StartAt(p, previous, start).value;
      var hs := HistoryExists(p, st.trees, []);
      Tracked(p, st.trees, [], hs);
      StartMeans(p, previous, start, hs, st.trees);
    }
  }

  /** The trees behind the last leaf. */
  ghost function LastTrees<T>(hs: Histories<T>): Trees<T>
    requires hs.sapling.trees != [] && hs.orchard.trees != [] && hs.ironwood.trees != []
  {
    Trees(hs.sapling.trees[|hs.sapling.trees| - 1], hs.orchard.trees[|hs.orchard.trees| - 1],
          hs.ironwood.trees[|hs.ironwood.trees| - 1])
  }

  /** The loop stands behind ranges that hold: at their last record, with the trees of all their leaves. */
  lemma LoopStands<T(!new)>(env: Env, p: PoolOps<T>, previous: Option<ManifestEntry>, entries: seq<ManifestEntry>,
                            blobs: seq<seq<byte>>, start: Frontiers, from: nat,
                            rss: seq<seq<CompactBlockRecord>>, hs: Histories<T>)
    returns (end: Rebuild<T>)
    requires AllLawful(p) && Thrifty(env.payload) && Heights(from, entries)
    requires EpochHolds(env, p, previous, entries, blobs, start, from, rss, hs)
    ensures hs.sapling.trees != [] && hs.orchard.trees != [] && hs.ironwood.trees != []
    ensures |blobs| == |entries| && StartAt(p, previous, start).Some?
    ensures RebuildFrom(env, p, StartAt(p, previous, start).value, entries, blobs) == Accepted(end)
    ensures end.link == LinkAt(Behind(previous), Concat(rss), |Concat(rss)|) && end.trees == LastTrees(hs)
    ensures end.endFrontiers == Latest(start, entries, |entries|) && Exact(env, p, end)
  {
    hide AllLawful, Thrifty, Heights, RebuildFrom, ParseTrees, HaveSizes, End, ChainOk, AllFielded, Concat, Proven,
      Tracks, ProvenAt, BlobHolds, EntryHolds, StartHolds, AllLeavesOk, TreesAfter, CompletedBy, Appends, Stage, Exact;
    var trees := HeadTrees(p, Concat(rss), hs);
    StartMeans(p, previous, start, hs, trees);
    var st := Rebuild(Behind(previous), trees, start, []);
    EpochFielded(p, rss);
    forall i | 0 <= i < |entries| ensures ProvenAt(env, p, st, entries, blobs, rss, i) {
      RangeChain(env, p, st, entries, blobs, rss, from, i);
      StageMeans(env, p, st, entries, blobs, rss, hs, i);
    }
    ProvenByStages(env, p, st, entries, blobs, rss);
    StartIsExact(env, p, previous, start, st);
    RebuildComplete(env, p, st, entries, blobs, rss);
    ProvenChain(env, p, st, entries, blobs, rss, from);
    LastTree(p, trees, Concat(rss), hs, SaplingPool);
    LastTree(p, trees, Concat(rss), hs, OrchardPool);
    LastTree(p, trees, Concat(rss), hs, IronwoodPool);
    end := End(p, st, entries, rss);
  }

  /** The rebuild of more ranges behind ranges that hold stops at the first that the loop refuses. */
  lemma LoopStops<T(!new)>(env: Env, p: PoolOps<T>, previous: Option<ManifestEntry>, entries: seq<ManifestEntry>,
                           blobs: seq<seq<byte>>, start: Frontiers, i: nat, end: Rebuild<T>)
    requires i < |entries| == |blobs| && StartAt(p, previous, start).Some?
    requires RebuildFrom(env, p, StartAt(p, previous, start).value, entries[..i], blobs[..i]) == Accepted(end)
    ensures var step := RangeStep(env, p, end, entries[i], blobs[i]);
            step.Refused? ==> RebuildEpoch(env, p, previous, entries, blobs, start) == Refused(step.reject)
  {
    hide StartAt, RangeStep;
    assert entries == entries[..i] + entries[i..] && blobs == blobs[..i] + blobs[i..];
    RebuildGlues(env, p, StartAt(p, previous, start).value, entries[..i], blobs[..i], entries[i..], blobs[i..]);
  }

  /** No active pool became inactive. */
  ghost predicate StayActive(before: Frontiers, after: Frontiers) {
    && (before.sapling != [] ==> after.sapling != []) && (before.orchard != [] ==> after.orchard != [])
    && (before.ironwood != [] ==> after.ironwood != [])
  }

  /** The frontiers encode the trees behind the last leaf. */
  ghost predicate Encoded<T>(p: PoolOps<T>, hs: Histories<T>, rs: seq<CompactBlockRecord>, f: Frontiers) {
    && EncodesTree(p.sapling, hs.sapling, LeafCounts(rs).sapling, f.sapling)
    && EncodesTree(p.orchard, hs.orchard, LeafCounts(rs).orchard, f.orchard)
    && EncodesTree(p.ironwood, hs.ironwood, LeafCounts(rs).ironwood, f.ironwood)
  }

  /** A range whose records are right is refused at its end: for its frontiers first, then for its
      subtrees. */
  lemma JudgeMeans<T(!new)>(env: Env, p: PoolOps<T>, st: Rebuild<T>, entry: ManifestEntry, blob: seq<byte>,
                            rs: seq<CompactBlockRecord>, hs: Histories<T>)
    requires Exact(env, p, st) && RangeOk(env, entry, blob, st.link, rs) && AllFielded(p, rs)
    requires Tracks(p, st.trees, rs, hs)
    ensures !StayActive(st.endFrontiers, entry.frontiers) || !Encoded(p, hs, rs, entry.frontiers) ==>
              RangeStep(env, p, st, entry, blob) == Refused(Rejected(Frontier, entry.endHeight))
    ensures && StayActive(st.endFrontiers, entry.frontiers) && Encoded(p, hs, rs, entry.frontiers)
            && !ListsCompleted(p, hs, Counts(0, 0, 0), LeafCounts(rs), entry.subtreeRoots) ==>
              RangeStep(env, p, st, entry, blob) == Refused(Rejected(Check.SubtreeRoots, entry.endHeight))
  {
    hide CheckRange, AllLawful, Thrifty, HaveSizes, RangeOk, AllSmall, AllLeavesOk, Matches, SameRoots, ChainOk,
      VisitAll, TreesAfter, CompletedBy, Tracks, AllFielded, EncodesTree, ListsCompleted, LeafCounts;
    var s := Progress(st.trees, []);
    RangeIsSmall(env, entry, blob, st.link, rs);
    RangeFielded(p, rs);
    VisitMeans(p, s, st.link, entry.startHeight, rs);
    assert [] + CompletedBy(p, st.trees, rs) == CompletedBy(p, st.trees, rs);
    DescribedRangeIsAccepted(env, entry, blob, st.link, Appender(p), s, rs);
    assert rs[..|rs|] == rs && rs[0..|rs|] == rs && rs[..0] == [];
    MatchesMeans(p, st.trees, rs, hs, |rs|, entry.frontiers);
    NoLeafCounts();
    NoTrees(p, st.trees);
    ListedMeans(p, st.trees, rs, hs, 0, |rs|, entry.subtreeRoots);
  }

  lemma NoLeafCounts()
    ensures LeafCounts([]) == Counts(0, 0, 0)
  {
  }

  /** Behind `i` ranges that hold, a refused range check rejects the epoch as it is. If the records of
      range `i` are right, it is rejected at its end height: for a frontier that is not that of the
      trees, or of a pool that became inactive, and else for a wrong list of subtrees. */
  lemma RangeFaultIsNamed<T(!new)>(env: Env, p: PoolOps<T>, previous: Option<ManifestEntry>,
                                   entries: seq<ManifestEntry>, blobs: seq<seq<byte>>, start: Frontiers, from: nat,
                                   i: nat, rss: seq<seq<CompactBlockRecord>>, hs: Histories<T>,
                                   rs: seq<CompactBlockRecord>, more: Histories<T>)
    requires AllLawful(p) && Thrifty(env.payload) && i < |entries| == |blobs| && Heights(from, entries[..i])
    requires EpochHolds(env, p, previous, entries[..i], blobs[..i], start, from, rss, hs)
    ensures hs.sapling.trees != [] && hs.orchard.trees != [] && hs.ironwood.trees != []
    ensures var link := LinkAt(Behind(previous), Concat(rss), |Concat(rss)|);
            var v := CheckRange(env, entries[i], blobs[i], link, Appender(p), Progress(LastTrees(hs), []));
            v.Refused? ==> RebuildEpoch(env, p, previous, entries, blobs, start) == Refused(v.reject)
    ensures var link, before := LinkAt(Behind(previous), Concat(rss), |Concat(rss)|), Latest(start, entries, i);
            RangeOk(env, entries[i], blobs[i], link, rs) && AllFielded(p, rs) && Tracks(p, LastTrees(hs), rs, more) ==>
              && (!StayActive(before, entries[i].frontiers) || !Encoded(p, more, rs, entries[i].frontiers) ==>
                    RebuildEpoch(env, p, previous, entries, blobs, start)
                    == Refused(Rejected(Frontier, entries[i].endHeight)))
              && (&& StayActive(before, entries[i].frontiers) && Encoded(p, more, rs, entries[i].frontiers)
                  && !ListsCompleted(p, more, Counts(0, 0, 0), LeafCounts(rs), entries[i].subtreeRoots) ==>
                    RebuildEpoch(env, p, previous, entries, blobs, start)
                    == Refused(Rejected(Check.SubtreeRoots, entries[i].endHeight)))
  {
    hide AllLawful, Thrifty, Heights, RebuildFrom, EpochHolds, Concat, StartAt, RebuildEpoch, RangeOk, AllFielded,
      Tracks, StayActive, Encoded, ListsCompleted, LeafCounts, CheckRange, Judge, Exact;
    var end := LoopStands(env, p, previous, entries[..i], blobs[..i], start, from, rss, hs);
    LoopStops(env, p, previous, entries, blobs, start, i, end);
    if RangeOk(env, entries[i], blobs[i], end.link, rs) && AllFielded(p, rs) && Tracks(p, end.trees, rs, more) {
      JudgeMeans(env, p, end, entries[i], blobs[i], rs, more);
    }
  }

  /** The visitor of the rebuild refuses a block exactly for a commitment that is no field element of
      its pool, at the height of the block. */
  lemma CommitmentFaultIsNamed<T(!new)>(p: PoolOps<T>, s: Progress<T>, link: RangeLink, height: nat,
                                        r: CompactBlockRecord)
    requires AllLawful(p) && Small(r) && HaveSizes(p, s.trees, link.endTreeSizes) && RecordOk(link, height, r)
    ensures AllFielded(p, [r]) <==> Appender(p)(s, r).Accepted?
    ensures !AllFielded(p, [r]) ==> Appender(p)(s, r) == Refused(Rejected(Commitment, r.height))
  {
    hide AllLawful, Small, HaveSizes, RecordOk, AllFielded, LeavesOk, Append;
    Sizes(link, height, r);
    AppendMeans(p, s, r, link.endTreeSizes);
    LeavesFielded(p, r);
  }
}
