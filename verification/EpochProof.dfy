/** Epoch proofs: the rebuild of three trees over checked ranges, and exactly what it accepts. */
module EpochProof {
  import opened Bytes
  import opened ChainTypes
  import opened Manifest
  import opened RecordCodec
  import opened RangeDecoder
  import opened RangeCheck
  import opened CommitmentTrees

  datatype PoolRoots = PoolRoots(sapling: Option<Digest>, orchard: Option<Digest>, ironwood: Option<Digest>)

  datatype EpochProof = EpochProof(endFrontiers: Frontiers, endTreeSizes: TreeSizes, roots: PoolRoots,
                                   completed: seq<SubtreeRoot>)

  // Trees and frontiers.

  /** The tree of one pool; `[]` stands for a pool that has not started. */
  function ParsePool<T>(ops: TreeOps<T>, frontier: seq<byte>): Option<T> {
    if frontier == [] then Some(ops.empty) else ops.parse(frontier)
  }

  function ParseTrees<T>(p: PoolOps<T>, f: Frontiers): Option<Trees<T>> {
    match ParsePool(p.sapling, f.sapling)
    case None => None
    case Some(sapling) =>
      match ParsePool(p.orchard, f.orchard)
      case None => None
      case Some(orchard) =>
        match ParsePool(p.ironwood, f.ironwood)
        case None => None
        case Some(ironwood) => Some(Trees(sapling, orchard, ironwood))
  }

  predicate PoolMatches<T>(ops: TreeOps<T>, t: T, frontier: seq<byte>) {
    if frontier == [] then ops.count(t) == 0 else ops.rpc(t) == frontier
  }

  predicate Matches<T>(p: PoolOps<T>, trees: Trees<T>, f: Frontiers) {
    && PoolMatches(p.sapling, trees.sapling, f.sapling) && PoolMatches(p.orchard, trees.orchard, f.orchard)
    && PoolMatches(p.ironwood, trees.ironwood, f.ironwood)
  }

  /** A frontier that matches a tree parses to that tree, and to no other. */
  lemma MatchedParses<T(!new)>(p: PoolOps<T>, trees: Trees<T>, f: Frontiers)
    requires AllLawful(p) && Matches(p, trees, f)
    ensures ParseTrees(p, f) == Some(trees)
  {
  }

  function Roots<T>(p: PoolOps<T>, trees: Trees<T>): PoolRoots {
    PoolRoots(Some(p.sapling.root(trees.sapling)), Some(p.orchard.root(trees.orchard)),
              Some(p.ironwood.root(trees.ironwood)))
  }

  // The rebuild.

  /** The variables of the loop over the ranges. */
  datatype Rebuild<T> = Rebuild(link: RangeLink, trees: Trees<T>, endFrontiers: Frontiers, completed: seq<SubtreeRoot>)

  /** A checked range that the importer installs without another check. */
  datatype CheckedRange = CheckedRange(start: u32, blob: seq<byte>)

  /** The test of the completed subtrees against the listed ones: the length, then containment. */
  predicate SameRoots(completed: seq<SubtreeRoot>, listed: seq<SubtreeRoot>) {
    |completed| == |listed| && forall root <- completed :: root in listed
  }

  function RangeStep<T>(env: Env, p: PoolOps<T>, st: Rebuild<T>, entry: ManifestEntry,
                        blob: seq<byte>): Verdict<Rebuild<T>> {
    match CheckRange(env, entry, blob, st.link, Appender(p), Progress(st.trees, []))
    case Refused(reject) => Refused(reject)
    case Accepted(end) => Judge(p, st, entry, end.0, end.1)
  }

  /** The checks of the trees against the entry, behind a checked range. */
  function Judge<T>(p: PoolOps<T>, st: Rebuild<T>, entry: ManifestEntry, link: RangeLink,
                    done: Progress<T>): Verdict<Rebuild<T>> {
    if !entry.frontiers.Follows(st.endFrontiers) || !Matches(p, done.trees, entry.frontiers)
    then Refused(Rejected(Frontier, entry.endHeight))
    else if !SameRoots(done.completed, entry.subtreeRoots) then Refused(Rejected(Check.SubtreeRoots, entry.endHeight))
    else Accepted(Rebuild(link, done.trees, entry.frontiers, st.completed + done.completed))
  }

  function RebuildFrom<T>(env: Env, p: PoolOps<T>, st: Rebuild<T>, entries: seq<ManifestEntry>, blobs: seq<seq<byte>>)
    : Verdict<Rebuild<T>>
    requires |blobs| == |entries|
    decreases entries
  {
    if entries == [] then Accepted(st)
    else
      match RangeStep(env, p, st, entries[0], blobs[0])
      case Refused(reject) => Refused(reject)
      case Accepted(next) => RebuildFrom(env, p, next, entries[1..], blobs[1..])
  }

  function StartLinkOf(previous: Option<ManifestEntry>): RangeLink {
    match previous case None => GENESIS_LINK case Some(entry) => EntryLink(entry)
  }

  /** The start frontiers that a manifest gives for an epoch behind `previous`. */
  function StartFrontiers(previous: Option<ManifestEntry>): Frontiers {
    match previous case None => NoFrontiers case Some(entry) => entry.frontiers
  }

  /** The loop variables before the first range, if the start frontiers fit the previous entry. */
  function StartAt<T>(p: PoolOps<T>, previous: Option<ManifestEntry>, start: Frontiers): Option<Rebuild<T>> {
    match ParseTrees(p, start)
    case None => None
    case Some(trees) =>
      if HaveSizes(p, trees, StartLinkOf(previous).endTreeSizes)
      then Some(Rebuild(StartLinkOf(previous), trees, start, [])) else None
  }

  function ProofOf<T>(p: PoolOps<T>, st: Rebuild<T>): EpochProof {
    EpochProof(st.endFrontiers, st.link.endTreeSizes, Roots(p, st.trees), st.completed)
  }

  /** `EpochProof::rebuild`, for the epoch `entries` behind `previous`. */
  function RebuildEpoch<T>(env: Env, p: PoolOps<T>, previous: Option<ManifestEntry>, entries: seq<ManifestEntry>,
                           blobs: seq<seq<byte>>, start: Frontiers): Verdict<EpochProof>
  {
    if |blobs| != |entries| then Refused(BlobCount(|entries|, |blobs|))
    else
      match StartAt(p, previous, start)
      case None => Refused(Rejected(StartFrontier, if entries == [] then 0 else entries[0].startHeight))
      case Some(st) =>
        match RebuildFrom(env, p, st, entries, blobs)
        case Refused(reject) => Refused(reject)
        case Accepted(end) => Accepted(ProofOf(p, end))
  }

  /** The loop of the rebuild. It hands the checked ranges on for the install. */
  method RunRebuild<T>(env: Env, p: PoolOps<T>, previous: Option<ManifestEntry>, entries: seq<ManifestEntry>,
                       blobs: seq<seq<byte>>, start: Frontiers)
    returns (r: Verdict<EpochProof>, ranges: seq<CheckedRange>)
    ensures r == RebuildEpoch(env, p, previous, entries, blobs, start)
    ensures r.Accepted? ==>
              && |ranges| == |blobs| == |entries|
              && forall i | 0 <= i < |ranges| :: ranges[i] == CheckedRange(entries[i].startHeight, blobs[i])
  {
    hide CheckRange, Append, Matches, SameRoots, StartAt;
    ranges := [];
    if |blobs| != |entries| {
      return Refused(BlobCount(|entries|, |blobs|)), ranges;
    }
    var first := StartAt(p, previous, start);
    if first.None? {
      return Refused(Rejected(StartFrontier, if entries == [] then 0 else entries[0].startHeight)), ranges;
    }
    var link, trees := first.value.link, first.value.trees;
    var endFrontiers, completed := first.value.endFrontiers, first.value.completed;
    for i := 0 to |entries|
      invariant RebuildFrom(env, p, first.value, entries, blobs)
                == RebuildFrom(env, p, Rebuild(link, trees, endFrontiers, completed), entries[i..], blobs[i..])
      invariant |ranges| == i && forall k | 0 <= k < i :: ranges[k] == CheckedRange(entries[k].startHeight, blobs[k])
    {
      var entry := entries[i];
      assert entries[i..][1..] == entries[i + 1..] && blobs[i..][1..] == blobs[i + 1..];
      var checked := CheckRange(env, entry, blobs[i], link, Appender(p), Progress(trees, []));
      if checked.Refused? {
        return Refused(checked.reject), ranges;
      }
      link, trees := checked.value.0, checked.value.1.trees;
      if !entry.frontiers.Follows(endFrontiers) || !Matches(p, trees, entry.frontiers) {
        return Refused(Rejected(Frontier, entry.endHeight)), ranges;
      }
      if !SameRoots(checked.value.1.completed, entry.subtreeRoots) {
        return Refused(Rejected(Check.SubtreeRoots, entry.endHeight)), ranges;
      }
      endFrontiers, completed := entry.frontiers, completed + checked.value.1.completed;
      ranges := ranges + [CheckedRange(entry.startHeight, blobs[i])];
    }
    r := Accepted(EpochProof(endFrontiers, link.endTreeSizes, Roots(p, trees), completed));
  }

  // What an accepted range proves.

  function After<T>(p: PoolOps<T>, st: Rebuild<T>, entry: ManifestEntry, rs: seq<CompactBlockRecord>): Rebuild<T> {
    Rebuild(EntryLink(entry), TreesAfter(p, st.trees, rs), entry.frontiers, st.completed + CompletedBy(p, st.trees, rs))
  }

  /** The records `rs` of `blob` are the range of `entry`, and the trees with their commitments have
      the frontiers and the completed subtrees of `entry`. */
  ghost predicate RangeProven<T>(env: Env, p: PoolOps<T>, st: Rebuild<T>, entry: ManifestEntry, blob: seq<byte>,
                                 rs: seq<CompactBlockRecord>)
  {
    && RangeOk(env, entry, blob, st.link, rs) && AllLeavesOk(p, rs)
    && entry.frontiers.Follows(st.endFrontiers) && Matches(p, TreesAfter(p, st.trees, rs), entry.frontiers)
    && SameRoots(CompletedBy(p, st.trees, rs), entry.subtreeRoots)
  }

  /** The premises that every step of a rebuild keeps: the laws, and exact tree sizes. */
  ghost predicate Exact<T(!new)>(env: Env, p: PoolOps<T>, st: Rebuild<T>) {
    AllLawful(p) && Thrifty(env.payload) && HaveSizes(p, st.trees, st.link.endTreeSizes)
  }

  lemma RangeIsSmall(env: Env, entry: ManifestEntry, blob: seq<byte>, link: RangeLink, rs: seq<CompactBlockRecord>)
    requires Thrifty(env.payload) && RangeOk(env, entry, blob, link, rs)
    ensures AllSmall(rs) && ChainOk(link, entry.startHeight, rs) && |rs| == RANGE_SIZE
    ensures LinkAt(link, rs, |rs|) == EntryLink(entry)
  {
    hide NewDecoder, Decoder.Record, Small, RecordOk, Thrifty;
    var d := NewDecoder(blob).value;
    forall r | r in rs ensures Small(r) {
      var i :| 0 <= i < |rs| && rs[i] == r;
      assert d.Record(env.payload, i) == Success(rs[i]);
      DecodedIsSmall(env, d, i);
    }
  }

  /** The checks of a range pass exactly if there are such records. */
  lemma StepSound<T(!new)>(env: Env, p: PoolOps<T>, st: Rebuild<T>, entry: ManifestEntry, blob: seq<byte>)
    returns (rs: seq<CompactBlockRecord>)
    requires Exact(env, p, st) && RangeStep(env, p, st, entry, blob).Accepted?
    ensures RangeProven(env, p, st, entry, blob, rs)
    ensures RangeStep(env, p, st, entry, blob) == Accepted(After(p, st, entry, rs))
            && Exact(env, p, After(p, st, entry, rs))
  {
    hide CheckRange, AllLawful, Thrifty, HaveSizes, RangeOk, AllSmall, AllLeavesOk, Matches, SameRoots, ChainOk,
      VisitAll,
      TreesAfter, CompletedBy, Frontiers.Follows;
    var s := Progress(st.trees, []);
    rs := AcceptedRange(env, entry, blob, st.link, Appender(p), s);
    RangeIsSmall(env, entry, blob, st.link, rs);
    VisitMeans(p, s, st.link, entry.startHeight, rs);
    SizesStayExact(p, st.trees, st.link, entry.startHeight, rs, |rs|);
    assert rs[..|rs|] == rs && [] + CompletedBy(p, st.trees, rs) == CompletedBy(p, st.trees, rs);
  }

  lemma StepComplete<T(!new)>(env: Env, p: PoolOps<T>, st: Rebuild<T>, entry: ManifestEntry, blob: seq<byte>,
                              rs: seq<CompactBlockRecord>)
    requires Exact(env, p, st) && RangeProven(env, p, st, entry, blob, rs)
    ensures RangeStep(env, p, st, entry, blob) == Accepted(After(p, st, entry, rs))
            && Exact(env, p, After(p, st, entry, rs))
  {
    hide CheckRange, AllLawful, Thrifty, HaveSizes, RangeOk, AllSmall, AllLeavesOk, Matches, SameRoots, ChainOk,
      VisitAll,
      TreesAfter, CompletedBy, Frontiers.Follows;
    var s := Progress(st.trees, []);
    RangeIsSmall(env, entry, blob, st.link, rs);
    VisitMeans(p, s, st.link, entry.startHeight, rs);
    SizesStayExact(p, st.trees, st.link, entry.startHeight, rs, |rs|);
    assert rs[..|rs|] == rs && [] + CompletedBy(p, st.trees, rs) == CompletedBy(p, st.trees, rs);
    DescribedRangeIsAccepted(env, entry, blob, st.link, Appender(p), s, rs);
  }

  // What an accepted epoch proves.

  /** The ranges are proven one after the other, with the records `rss[i]` in range `i`. */
  ghost predicate Proven<T>(env: Env, p: PoolOps<T>, st: Rebuild<T>, entries: seq<ManifestEntry>, blobs: seq<seq<byte>>,
                            rss: seq<seq<CompactBlockRecord>>)
    decreases entries
  {
    && |blobs| == |entries| == |rss|
    && (entries != [] ==>
          && RangeProven(env, p, st, entries[0], blobs[0], rss[0])
          && Proven(env, p, After(p, st, entries[0], rss[0]), entries[1..], blobs[1..], rss[1..]))
  }

  /** Where the loop variables end. */
  function End<T>(p: PoolOps<T>, st: Rebuild<T>, entries: seq<ManifestEntry>,
                  rss: seq<seq<CompactBlockRecord>>): Rebuild<T>
    requires |rss| == |entries|
    decreases entries
  {
    if entries == [] then st else End(p, After(p, st, entries[0], rss[0]), entries[1..], rss[1..])
  }

  lemma {:induction false} RebuildSound<T(!new)>(env: Env, p: PoolOps<T>, st: Rebuild<T>, entries: seq<ManifestEntry>,
                                                 blobs: seq<seq<byte>>) returns (rss: seq<seq<CompactBlockRecord>>)
    requires |blobs| == |entries| && Exact(env, p, st) && RebuildFrom(env, p, st, entries, blobs).Accepted?
    ensures Proven(env, p, st, entries, blobs, rss)
    ensures RebuildFrom(env, p, st, entries, blobs) == Accepted(End(p, st, entries, rss))
            && Exact(env, p, End(p, st, entries, rss))
    decreases entries
  {
    hide RangeStep, Exact, RangeProven, After;
    if entries == [] {
      rss := [];
    } else {
      var rs := StepSound(env, p, st, entries[0], blobs[0]);
      var rest := RebuildSound(env, p, After(p, st, entries[0], rs), entries[1..], blobs[1..]);
      rss := [rs] + rest;
      assert rss[1..] == rest;
    }
  }

  lemma {:induction false} RebuildComplete<T(!new)>(env: Env, p: PoolOps<T>, st: Rebuild<T>,
                                                    entries: seq<ManifestEntry>,
                                                    blobs: seq<seq<byte>>, rss: seq<seq<CompactBlockRecord>>)
    requires Exact(env, p, st) && Proven(env, p, st, entries, blobs, rss)
    ensures RebuildFrom(env, p, st, entries, blobs) == Accepted(End(p, st, entries, rss))
            && Exact(env, p, End(p, st, entries, rss))
    decreases entries
  {
    hide RangeStep, Exact, RangeProven, After;
    if entries != [] {
      StepComplete(env, p, st, entries[0], blobs[0], rss[0]);
      RebuildComplete(env, p, After(p, st, entries[0], rss[0]), entries[1..], blobs[1..], rss[1..]);
    }
  }

  /** The rebuild accepts an epoch exactly if its start frontiers fit the previous entry and there
      are records that prove its ranges; the proof is then made of these records. */
  lemma RebuildIsExact<T(!new)>(env: Env, p: PoolOps<T>, previous: Option<ManifestEntry>, entries: seq<ManifestEntry>,
                                blobs: seq<seq<byte>>, start: Frontiers, proof: EpochProof)
    requires AllLawful(p) && Thrifty(env.payload)
    ensures RebuildEpoch(env, p, previous, entries, blobs, start) == Accepted(proof)
            <==> && StartAt(p, previous, start).Some?
                 && exists rss :: Proven(env, p, StartAt(p, previous, start).value, entries, blobs, rss)
                                  && proof == ProofOf(p, End(p, StartAt(p, previous, start).value, entries, rss))
  {
    hide RebuildFrom, Proven, End, AllLawful, Thrifty, ProofOf;
    if StartAt(p, previous, start).Some? {
      var st := StartAt(p, previous, start).value;
      if RebuildEpoch(env, p, previous, entries, blobs, start) == Accepted(proof) {
        var rss := RebuildSound(env, p, st, entries, blobs);
        SameCounts(env, p, st, entries, blobs, rss);
      }
      forall rss | Proven(env, p, st, entries, blobs, rss)
        ensures |rss| == |entries| == |blobs|
        ensures proof == ProofOf(p, End(p, st, entries, rss)) ==>
                  RebuildEpoch(env, p, previous, entries, blobs, start) == Accepted(proof)
      {
        SameCounts(env, p, st, entries, blobs, rss);
        RebuildComplete(env, p, st, entries, blobs, rss);
      }
    }
  }

  lemma SameCounts<T>(env: Env, p: PoolOps<T>, st: Rebuild<T>, entries: seq<ManifestEntry>, blobs: seq<seq<byte>>,
                      rss: seq<seq<CompactBlockRecord>>)
    requires Proven(env, p, st, entries, blobs, rss)
    ensures |rss| == |entries| == |blobs|
  {
  }
}
