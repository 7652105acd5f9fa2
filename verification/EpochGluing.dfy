/** What a proven epoch says about its whole chain, and why epochs glue. */
module EpochGluing {
  import opened Bytes
  import opened ChainTypes
  import opened Manifest
  import opened RecordCodec
  import opened RangeCheck
  import opened CommitmentTrees
  import opened EpochProof
  import opened ChainHistory
  import opened EpochMeaning
  import opened Epochs

  /** Every run of entries of a checked manifest has adjacent heights. */
  lemma ManifestHeights(entries: seq<ManifestEntry>, a: nat, b: nat)
    requires EntriesOk(entries) && a <= b <= |entries|
    ensures Heights(RANGE_SIZE * a, entries[a..b])
  {
    hide EntriesOk;
    forall i | 0 <= i < b - a ensures entries[a..b][i].startHeight == RANGE_SIZE * a + RANGE_SIZE * i {
      EntryHeights(entries, a + i);
    }
  }

  // Epochs of a manifest.

  /** What the importer does with an epoch and its blobs: a rebuild from the frontiers of the entry
      before it. */
  function Verify<T>(env: Env, p: PoolOps<T>, e: Epoch, blobs: seq<seq<byte>>): Verdict<EpochProof> {
    RebuildEpoch(env, p, e.previous, e.entries, blobs, StartFrontiers(e.previous))
  }

  /** The epoch of the entries `from` up to `end` of a manifest holds, with the records `rss` and the
      histories `hs`. */
  ghost predicate ManifestEpochHolds<T>(env: Env, p: PoolOps<T>, entries: seq<ManifestEntry>, from: nat, end: nat,
                                        blobs: seq<seq<byte>>, rss: seq<seq<CompactBlockRecord>>, hs: Histories<T>)
    requires from <= end <= |entries|
  {
    var previous := if from == 0 then None else Some(entries[from - 1]);
    EpochHolds(env, p, previous, entries[from..end], blobs, FrontiersBehind(previous), 1_000 * from, rss, hs)
  }

  /** What the accepted proof of these entries says. */
  ghost predicate ManifestProofHolds<T>(p: PoolOps<T>, entries: seq<ManifestEntry>, from: nat, end: nat,
                                        rs: seq<CompactBlockRecord>, hs: Histories<T>, proof: EpochProof)
    requires from <= end <= |entries|
  {
    var previous := if from == 0 then None else Some(entries[from - 1]);
    && ProofHolds(p, previous, entries[from..end], FrontiersBehind(previous), rs, hs, proof)
    && forall k | 0 <= k <= |rs| :: CountsAre(p, hs, Behind(previous), rs, k)
  }

  lemma PartIs(entries: seq<ManifestEntry>, s: nat, from: nat)
    requires s <= from < |entries| && from < EndOf(entries, s)
    ensures Part(entries, s, from).entries == entries[from..EndOf(entries, s)]
    ensures var previous := if from == 0 then None else Some(entries[from - 1]);
            Part(entries, s, from).previous == previous && StartFrontiers(previous) == FrontiersBehind(previous)
  {
    hide EndOf;
  }

  /** Soundness for every epoch of a checked manifest, and for every part of one: the records of the
      ranges are one chain; appending exactly their commitments, one at a time, gives the sizes of every
      record and the frontiers and the subtree roots of every entry. */
  lemma AcceptedEpoch<T(!new)>(env: Env, p: PoolOps<T>, entries: seq<ManifestEntry>, s: nat, from: nat,
                               blobs: seq<seq<byte>>)
    returns (rss: seq<seq<CompactBlockRecord>>, hs: Histories<T>)
    requires AllLawful(p) && Thrifty(env.payload) && EntriesOk(entries) && s <= from < |entries|
             && from < EndOf(entries, s)
    requires Verify(env, p, Part(entries, s, from), blobs).Accepted?
    ensures ManifestEpochHolds(env, p, entries, from, EndOf(entries, s), blobs, rss, hs)
    ensures ManifestProofHolds(p, entries, from, EndOf(entries, s), Concat(rss), hs,
                               Verify(env, p, Part(entries, s, from), blobs).value)
  {
    hide AllLawful, Thrifty, EntriesOk, RebuildEpoch, EpochHolds, ProofHolds, Heights, EndOf, Part, CountsAre, Concat;
    var e := Part(entries, s, from);
    PartIs(entries, s, from);
    ManifestHeights(entries, from, EndOf(entries, s));
    rss, hs := EpochSound(env, p, e.previous, e.entries, blobs, StartFrontiers(e.previous), RANGE_SIZE * from);
  }

  /** Completeness: such an epoch is never rejected. */
  lemma HonestEpochIsAccepted<T(!new)>(env: Env, p: PoolOps<T>, entries: seq<ManifestEntry>, s: nat, from: nat,
                                       blobs: seq<seq<byte>>, rss: seq<seq<CompactBlockRecord>>, hs: Histories<T>)
    requires AllLawful(p) && Thrifty(env.payload) && EntriesOk(entries) && s <= from < |entries|
             && from < EndOf(entries, s)
    requires ManifestEpochHolds(env, p, entries, from, EndOf(entries, s), blobs, rss, hs)
    ensures Verify(env, p, Part(entries, s, from), blobs).Accepted?
  {
    hide AllLawful, Thrifty, EntriesOk, RebuildEpoch, EpochHolds, ProofHolds, Heights, EndOf, Part, Concat;
    var e := Part(entries, s, from);
    PartIs(entries, s, from);
    ManifestHeights(entries, from, EndOf(entries, s));
    EpochComplete(env, p, e.previous, e.entries, blobs, StartFrontiers(e.previous), RANGE_SIZE * from, rss, hs);
  }

  // Gluing.

  /** Two proofs one after the other. */
  function Then(a: EpochProof, b: EpochProof): EpochProof {
    b.(completed := a.completed + b.completed)
  }

  lemma {:induction false} RebuildGlues<T>(env: Env, p: PoolOps<T>, st: Rebuild<T>, es: seq<ManifestEntry>,
                                           bs: seq<seq<byte>>,
                                           fs: seq<ManifestEntry>, cs: seq<seq<byte>>)
    requires |bs| == |es| && |cs| == |fs|
    ensures RebuildFrom(env, p, st, es + fs, bs + cs)
            == match RebuildFrom(env, p, st, es, bs)
               case Refused(reject) => Refused(reject)
               case Accepted(mid) => RebuildFrom(env, p, mid, fs, cs)
    decreases es
  {
    hide RangeStep;
    if es == [] {
      assert es + fs == fs && bs + cs == cs;
    } else {
      assert (es + fs)[1..] == es[1..] + fs && (bs + cs)[1..] == bs[1..] + cs;
      var step := RangeStep(env, p, st, es[0], bs[0]);
      if step.Accepted? {
        RebuildGlues(env, p, step.value, es[1..], bs[1..], fs, cs);
      }
    }
  }

  /** The list of completed subtrees is only a log. */
  lemma {:induction false} LogShifts<T>(env: Env, p: PoolOps<T>, st: Rebuild<T>, log: seq<SubtreeRoot>,
                                        es: seq<ManifestEntry>,
                                        bs: seq<seq<byte>>)
    requires |bs| == |es|
    ensures RebuildFrom(env, p, st.(completed := log + st.completed), es, bs)
            == match RebuildFrom(env, p, st, es, bs)
               case Refused(reject) => Refused(reject)
               case Accepted(end) => Accepted(end.(completed := log + end.completed))
    decreases es
  {
    hide CheckRange, Matches, SameRoots, Append, Frontiers.Follows;
    if es != [] {
      var step := RangeStep(env, p, st, es[0], bs[0]);
      if step.Accepted? {
        var done := step.value.completed[|st.completed|..];
        assert log + (st.completed + done) == log + st.completed + done;
        LogShifts(env, p, step.value, log, es[1..], bs[1..]);
      }
    }
  }

  /** A run of at least one range ends where the next epoch starts. */
  lemma {:induction false} EndsAtLast<T(!new)>(env: Env, p: PoolOps<T>, st: Rebuild<T>, es: seq<ManifestEntry>,
                                               bs: seq<seq<byte>>)
    requires |bs| == |es| > 0 && Exact(env, p, st) && RebuildFrom(env, p, st, es, bs).Accepted?
    ensures var end, last := RebuildFrom(env, p, st, es, bs).value, es[|es| - 1];
            end.endFrontiers == last.frontiers && StartAt(p, Some(last), last.frontiers) == Some(end.(completed := []))
    decreases es
  {
    hide CheckRange, AllLawful, Thrifty, Matches, HaveSizes, SameRoots, Frontiers.Follows, RangeOk, AllLeavesOk,
      TreesAfter, CompletedBy,
      RangeStep, ParseTrees;
    var rs := StepSound(env, p, st, es[0], bs[0]);
    var next := After(p, st, es[0], rs);
    if |es| == 1 {
      MatchedParses(p, next.trees, es[0].frontiers);
      assert RebuildFrom(env, p, next, es[1..], bs[1..]) == Accepted(next);
    } else {
      EndsAtLast(env, p, next, es[1..], bs[1..]);
    }
  }

  /** Epochs verified one after the other, each from the end frontiers of the one before, are one
      rebuild over their concatenation: the same verdict, the same rejection, the same proof. */
  lemma EpochsGlue<T(!new)>(env: Env, p: PoolOps<T>, previous: Option<ManifestEntry>, es: seq<ManifestEntry>,
                            bs: seq<seq<byte>>,
                            fs: seq<ManifestEntry>, cs: seq<seq<byte>>, start: Frontiers)
    requires AllLawful(p) && Thrifty(env.payload) && |bs| == |es| > 0 && |cs| == |fs|
    ensures RebuildEpoch(env, p, previous, es + fs, bs + cs, start)
            == match RebuildEpoch(env, p, previous, es, bs, start)
               case Refused(reject) => Refused(reject)
               case Accepted(first) =>
                 match RebuildEpoch(env, p, Some(es[|es| - 1]), fs, cs, first.endFrontiers)
                 case Refused(reject) => Refused(reject)
                 case Accepted(second) => Accepted(Then(first, second))
  {
    hide RebuildFrom, AllLawful, Thrifty, Roots, ParseTrees, HaveSizes;
    if StartAt(p, previous, start).Some? {
      var st := StartAt(p, previous, start).value;
      RebuildGlues(env, p, st, es, bs, fs, cs);
      if RebuildFrom(env, p, st, es, bs).Accepted? {
        var mid := RebuildFrom(env, p, st, es, bs).value;
        EndsAtLast(env, p, st, es, bs);
        LogShifts(env, p, mid.(completed := []), mid.completed, fs, cs);
        assert mid.completed + [] == mid.completed;
        assert mid.(completed := []).(completed := mid.completed) == mid;
      }
    }
  }

  /** The verdict over epochs that are verified on their own: all proofs, or the first rejection. */
  function VerifyAll<T>(env: Env, p: PoolOps<T>, epochs: seq<Epoch>, blobs: seq<seq<seq<byte>>>): Verdict<EpochProof>
    requires |blobs| == |epochs| > 0
    decreases epochs
  {
    match Verify(env, p, epochs[0], blobs[0])
    case Refused(reject) => Refused(reject)
    case Accepted(first) =>
      if |epochs| == 1 then Accepted(first)
      else
        match VerifyAll(env, p, epochs[1..], blobs[1..])
        case Refused(reject) => Refused(reject)
        case Accepted(rest) => Accepted(Then(first, rest))
  }

  /** An accepted epoch ends with the frontiers from which the next one is verified. */
  lemma EndFrontiers<T(!new)>(env: Env, p: PoolOps<T>, previous: Option<ManifestEntry>, es: seq<ManifestEntry>,
                              bs: seq<seq<byte>>, start: Frontiers)
    requires AllLawful(p) && Thrifty(env.payload) && es != []
    requires RebuildEpoch(env, p, previous, es, bs, start).Accepted?
    ensures |bs| == |es|
    ensures RebuildEpoch(env, p, previous, es, bs, start).value.endFrontiers == es[|es| - 1].frontiers
  {
    hide RebuildFrom, AllLawful, Thrifty, Roots, ParseTrees, HaveSizes;
    EndsAtLast(env, p, StartAt(p, previous, start).value, es, bs);
  }

  lemma {:induction false} SameLengths(epochs: seq<Epoch>, blobs: seq<seq<seq<byte>>>)
    requires |blobs| == |epochs| && forall i | 0 <= i < |epochs| :: |blobs[i]| == |epochs[i].entries|
    ensures |Concat(blobs)| == |Joined(epochs)|
  {
    if epochs != [] {
      SameLengths(epochs[1..], blobs[1..]);
    }
  }

  /** Epochs that are verified independently, each from the manifest entry before it, are one rebuild
      over all their ranges: the same verdict, the same rejection, the same proof. */
  lemma {:induction false} EpochsAreOneRebuild<T(!new)>(env: Env, p: PoolOps<T>, previous: Option<ManifestEntry>,
                                                        epochs: seq<Epoch>, blobs: seq<seq<seq<byte>>>)
    requires AllLawful(p) && Thrifty(env.payload) && Chained(previous, epochs) && |blobs| == |epochs| > 0
    requires forall i | 0 <= i < |epochs| :: |blobs[i]| == |epochs[i].entries|
    ensures RebuildEpoch(env, p, previous, Joined(epochs), Concat(blobs), StartFrontiers(previous))
            == VerifyAll(env, p, epochs, blobs)
    decreases epochs
  {
    hide RebuildEpoch, AllLawful, Thrifty;
    var e, rest, more := epochs[0], epochs[1..], blobs[1..];
    if |epochs| == 1 {
      assert Joined(rest) == [] && Concat(more) == [];
      assert e.entries + [] == e.entries && blobs[0] + [] == blobs[0];
    } else {
      var last := e.entries[|e.entries| - 1];
      SameLengths(rest, more);
      EpochsGlue(env, p, previous, e.entries, blobs[0], Joined(rest), Concat(more), StartFrontiers(previous));
      if Verify(env, p, e, blobs[0]).Accepted? {
        EndFrontiers(env, p, previous, e.entries, blobs[0], StartFrontiers(previous));
        EpochsAreOneRebuild(env, p, Some(last), rest, more);
      }
    }
  }
}
