/** The import with its checks in place: what the installed epochs prove. */
module VerifiedImport {
  import opened Bytes
  import opened ChainTypes
  import opened Manifest
  import opened RecordCodec
  import opened RangeCheck
  import opened CommitmentTrees
  import opened EpochProof
  import opened ChainHistory
  import opened EpochMeaning
  import opened EpochGluing
  import opened Attestation
  import opened Epochs
  import Resume
  import Schedule = ImportSchedule

  /** What the work on an epoch relies on: the libraries, the answers of the node during that work, and
      whether the sampled heights of the epoch agree. */
  datatype Checks<!T> = Checks(env: Env, p: PoolOps<T>, node: Epoch -> Node, sampled: Epoch -> bool)

  ghost predicate Trusted<T(!new)>(c: Checks<T>) {
    AllLawful(c.p) && Thrifty(c.env.payload)
  }

  /** Some blobs rebuild the epoch from the entry before it, the node attests that proof, and the
      samples agree. */
  ghost predicate EpochVerified<T(!new)>(c: Checks<T>, e: Epoch) {
    && e.entries != [] && c.sampled(e)
    && exists blobs, proof ::
         Verify(c.env, c.p, e, blobs) == Accepted(proof) && Attest(c.p, c.node(e), e.entries, proof).Records?
  }

  /** The import of `epochs` in which the work on an epoch succeeds only if it is verified. */
  ghost function VerifiedJob<T(!new)>(c: Checks<T>, epochs: seq<Epoch>, inWork: nat): Schedule.Job {
    Schedule.Job(epochs, inWork, e => EpochVerified(c, e))
  }

  lemma {:induction false} ChainedPrefix(previous: Option<ManifestEntry>, epochs: seq<Epoch>, n: nat)
    requires Chained(previous, epochs) && n <= |epochs|
    ensures Chained(previous, epochs[..n])
    decreases n
  {
    if n > 0 {
      ChainedPrefix(Some(epochs[0].entries[|epochs[0].entries| - 1]), epochs[1..], n - 1);
      assert epochs[..n][1..] == epochs[1..][..n - 1];
    }
  }

  /** Blobs that rebuild each of the epochs. */
  lemma {:induction false} BlobsOf<T(!new)>(c: Checks<T>, epochs: seq<Epoch>) returns (blobs: seq<seq<seq<byte>>>)
    requires Trusted(c) && forall e <- epochs :: EpochVerified(c, e)
    ensures |blobs| == |epochs| && forall i | 0 <= i < |epochs| :: |blobs[i]| == |epochs[i].entries|
    ensures epochs != [] ==> VerifyAll(c.env, c.p, epochs, blobs).Accepted?
    decreases epochs
  {
    hide AllLawful, Thrifty, RebuildEpoch, Attest;
    if epochs == [] {
      blobs := [];
    } else {
      var e := epochs[0];
      assert EpochVerified(c, e);
      var first, proof :| Verify(c.env, c.p, e, first) == Accepted(proof);
      EndFrontiers(c.env, c.p, e.previous, e.entries, first, StartFrontiers(e.previous));
      var rest := BlobsOf(c, epochs[1..]);
      blobs := [first] + rest;
      assert blobs[1..] == rest;
    }
  }

  /** Verified epochs that follow each other are one accepted rebuild. */
  lemma VerifiedEpochsRebuild<T(!new)>(c: Checks<T>, previous: Option<ManifestEntry>, epochs: seq<Epoch>)
    returns (blobs: seq<seq<byte>>)
    requires Trusted(c) && Chained(previous, epochs) && epochs != [] && forall e <- epochs :: EpochVerified(c, e)
    ensures RebuildEpoch(c.env, c.p, previous, Joined(epochs), blobs, StartFrontiers(previous)).Accepted?
  {
    hide RebuildEpoch, EpochVerified, AllLawful, Thrifty, VerifyAll;
    var parts := BlobsOf(c, epochs);
    EpochsAreOneRebuild(c.env, c.p, previous, epochs, parts);
    blobs := Concat(parts);
  }

  /** The epochs are the entries of a checked manifest from entry `n` on. */
  ghost predicate Covered(entries: seq<ManifestEntry>, n: nat, epochs: seq<Epoch>) {
    EntriesOk(entries) && n <= |entries| && Joined(epochs) == entries[n..] && Chained(Before(entries, n), epochs)
  }

  /** In every reachable state of an import behind entry `n`, the installed epochs are verified, the
      index holds a prefix of the entries to import, and the entries of the whole epochs hold as one
      chain of records from the sealed tip. */
  lemma InstalledEpochsAreProven<T(!new)>(c: Checks<T>, entries: seq<ManifestEntry>, n: nat, epochs: seq<Epoch>,
                                          inWork: nat,
                                          states: seq<Schedule.State>, events: seq<Schedule.Event>, i: nat)
    returns (blobs: seq<seq<byte>>, rss: seq<seq<CompactBlockRecord>>, hs: Histories<T>)
    requires Trusted(c) && Covered(entries, n, epochs) && i < |states|
    requires Schedule.Run(VerifiedJob(c, epochs, inWork), states, events)
    ensures var s := states[i];
            && s.next <= |epochs| && s.installed <= entries[n..]
            && (forall e <- epochs[..s.next] :: EpochVerified(c, e))
            && (s.installed != Joined(epochs[..s.next]) ==> s.next < |epochs| && EpochVerified(c, epochs[s.next]))
    ensures var end := n + |Joined(epochs[..states[i].next])|;
            && end <= |entries| && entries[n..end] == Joined(epochs[..states[i].next]) <= states[i].installed
            && (states[i].next > 0 ==> ManifestEpochHolds(c.env, c.p, entries, n, end, blobs, rss, hs))
  {
    hide Schedule.Run, EntriesOk, Chained, Joined, EpochVerified, RebuildEpoch, EpochHolds, AllLawful, Thrifty,
      Schedule.Held, Heights;
    var s, previous := states[i], Before(entries, n);
    Schedule.ImportIsSafe(VerifiedJob(c, epochs, inWork), states, events, i);
    var whole := epochs[..s.next];
    var done := Joined(whole);
    assert done == entries[n..][..|done|] == entries[n..n + |done|];
    forall e | e in whole ensures EpochVerified(c, e) {
      var k :| 0 <= k < s.next && whole[k] == e;
      assert VerifiedJob(c, epochs, inWork).sound(epochs[k]);
    }
    if s.next > 0 {
      ChainedPrefix(previous, epochs, s.next);
      blobs := VerifiedEpochsRebuild(c, previous, whole);
      ManifestHeights(entries, n, n + |done|);
      rss, hs := EpochSound(c.env, c.p, previous, done, blobs, StartFrontiers(previous), RANGE_SIZE * n);
    } else {
      var none := History([], []);
      blobs, rss, hs := [], [], Histories(none, none, none);
    }
  }

  /** The epochs that an import takes from a manifest, for the sealed tip of the index. */
  ghost predicate Chosen(entries: seq<ManifestEntry>, sealed: Option<u32>, n: nat, epochs: seq<Epoch>)
    requires entries != []
  {
    var choice := Resume.Choose(entries, sealed);
    && choice.From?
    && n == (if sealed.None? then 0 else (sealed.value + 1) / RANGE_SIZE)
    && var plan := Resume.Plan(entries, Resume.Offsets(EpochsFrom(entries, 0), 0), choice.first, sealed);
       Resume.ImportedFrom(plan, choice.first) == Some(epochs)
  }

  /** These epochs cover the entries behind the tip, so the theorem above is about every import. */
  lemma ChosenIsCovered(entries: seq<ManifestEntry>, sealed: Option<u32>, n: nat, epochs: seq<Epoch>)
    requires EntriesOk(entries) && entries != [] && Chosen(entries, sealed, n, epochs)
    ensures Covered(entries, n, epochs)
  {
    hide EntriesOk, Chained, Joined, Resume.ImportedFrom, Resume.Offsets, EpochsFrom, Resume.FindFrom, Resume.EpochOf;
    match sealed
    case None =>
      Resume.EmptyIndexImportsAll(entries);
      assert entries[0..] == entries;
    case Some(height) =>
      Resume.ResumeCoversTheRest(entries, height);
  }
}
