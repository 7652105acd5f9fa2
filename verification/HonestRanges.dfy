/** The whole pipeline: what the parser, the builder and the range encoder make is never rejected. */
module HonestRanges {
  import opened Bytes
  import opened ChainTypes
  import opened RecordCodec
  import opened RangeCodec
  import opened RangeDecoder
  import opened Manifest
  import opened RangeCheck
  import opened OrderedBuilder
  import opened OrderedRuns
  import opened BatchEncoding

  /** A block of the parser under its own height, within the size bound of `push`. */
  ghost predicate Honest(h: nat, block: ParsedCompactBlock) {
    block.height == h && block.FromParser() && EncodedSizeBound(block.transactions).Success?
  }

  lemma HonestRecord(h: nat, block: ParsedCompactBlock, link: RangeLink, r: CompactBlockRecord)
    requires Honest(h, block) && block.IntoRecord(link.endTreeSizes) == Some(r) && r.previousHash == link.endHash
    ensures RecordOk(link, h, r) && Encode(r).Success?
  {
    hide EncodedSizeBound, Encode, NoneEmpty, SizesOk;
    AdmittedBlocksEncode(block, link.endTreeSizes);
    CheckedRecord(link.endTreeSizes, r);
  }

  lemma ChainGrows(link: RangeLink, from: nat, rs: seq<CompactBlockRecord>, r: CompactBlockRecord)
    requires ChainOk(link, from, rs) && RecordOk(LinkAt(link, rs, |rs|), from + |rs|, r)
    ensures ChainOk(link, from, rs + [r])
  {
    hide RecordOk;
    var all := rs + [r];
    forall i | 0 <= i < |all| ensures RecordOk(LinkAt(link, all, i), from + i, all[i]) {
      if i < |rs| {
        assert RecordOk(LinkAt(link, rs, i), from + i, rs[i]);
      }
    }
  }

  lemma LinkedGrows(link: RangeLink, rs: seq<CompactBlockRecord>, r: CompactBlockRecord)
    requires Linked(Some(link.endHash), rs + [r])
    ensures Linked(Some(link.endHash), rs) && r.previousHash == LinkAt(link, rs, |rs|).endHash
  {
    var all := rs + [r];
    forall i | 0 < i < |rs| ensures rs[i].previousHash == rs[i - 1].hash {
      assert all[i].previousHash == all[i - 1].hash;
    }
    if rs != [] {
      assert all[|rs|].previousHash == all[|rs| - 1].hash;
    }
  }

  /** Folded blocks of the parser form one chain with exact tree sizes, and all encode. */
  lemma {:induction false} FoldedChain(m: map<nat, ParsedCompactBlock>, from: nat, link: RangeLink, k: nat)
    requires Fold(m, from, link.endTreeSizes, k).Some?
    requires forall h <- m :: Honest(h, m[h])
    requires Linked(Some(link.endHash), Fold(m, from, link.endTreeSizes, k).value)
    ensures ChainOk(link, from, Fold(m, from, link.endTreeSizes, k).value)
    ensures forall r <- Fold(m, from, link.endTreeSizes, k).value :: Encode(r).Success?
  {
    hide Honest, Encode, RecordOk, Linked, ParsedCompactBlock.IntoRecord;
    if k > 0 {
      hide ChainOk;
      var rs := Fold(m, from, link.endTreeSizes, k - 1).value;
      FoldLength(m, from, link.endTreeSizes, k - 1);
      var r := m[from + k - 1].IntoRecord(EndSizes(rs, link.endTreeSizes)).value;
      LinkedGrows(link, rs, r);
      FoldedChain(m, from, link, k - 1);
      HonestRecord(from + k - 1, m[from + k - 1], LinkAt(link, rs, k - 1), r);
      ChainGrows(link, from, rs, r);
    }
  }

  /** An aligned chain of 1,000 records that encode is a range. */
  lemma ChainEncodes(link: RangeLink, from: nat, rs: seq<CompactBlockRecord>)
    requires ChainOk(link, from, rs) && |rs| == RANGE_SIZE && from % RANGE_SIZE == 0
    requires forall r <- rs :: Encode(r).Success?
    ensures EncodeRange(rs).Success?
  {
    hide Encode, CheckChain, EncodeAll, RangeBytes;
    var ws := RangeDecoder.Records(rs);
    EncodeAllMeans(ws);
    var ids := seq(|rs|, i requires 0 <= i < |rs| => ws[i].Id().value);
    forall i | 0 < i < |ids|
      ensures ids[i].height == ids[i - 1].height + 1 && ids[i].previousHash == ids[i - 1].hash
    {
      assert RecordOk(LinkAt(link, rs, i), from + i, rs[i]);
      assert RecordOk(LinkAt(link, rs, i - 1), from + (i - 1), rs[i - 1]);
    }
    assert RecordOk(LinkAt(link, rs, 0), from + 0, rs[0]);
    ChainChecks(ws, ids);
  }

  /** `entry` says of `blob` what the records `rs` say. */
  ghost predicate Describes(env: Env, entry: ManifestEntry, rs: seq<CompactBlockRecord>, blob: seq<byte>) {
    && |rs| == RANGE_SIZE && entry.rangeVersion == RANGE_FORMAT_VERSION
    && entry.startHeight == rs[0].height && entry.endHeight == rs[RANGE_SIZE - 1].height
    && entry.endHash == rs[RANGE_SIZE - 1].hash && entry.endTreeSizes == rs[RANGE_SIZE - 1].endTreeSizes
    && entry.blobLen == |blob| && entry.blobDigest == env.digest(blob)
  }

  /** A range of a chain passes the check against its own entry and the link before it. */
  lemma ChainIsAccepted<S>(env: Env, link: RangeLink, from: nat, rs: seq<CompactBlockRecord>, entry: ManifestEntry,
                           blob: seq<byte>, visit: Visitor<S>, s: S)
    requires Inverts(env.payload) && ChainOk(link, from, rs) && EncodeRange(rs) == Success(blob)
    requires Describes(env, entry, rs, blob) && VisitAll(visit, s, rs).Some?
    ensures CheckRange(env, entry, blob, link, visit, s)
            == Verdict.Accepted((LinkOf(rs[RANGE_SIZE - 1]), VisitAll(visit, s, rs).value))
  {
    hide Encode, CheckChain, EncodeAll, EncodeRange, NewDecoder, Decoder.Record, CheckRange, VisitAll, RecordOk,
      Inverts;
    forall i | 0 <= i < RANGE_SIZE
      ensures NewDecoder(blob).Success? && NewDecoder(blob).value.Record(env.payload, i) == Success(rs[i])
    {
      EncodeThenDecodeRange(env.payload, rs, i);
    }
    EncodeThenDecodeRange(env.payload, rs, 0);
    FirstHeight(link, from, rs);
    FirstByte(blob);
    DescribedRangeIsAccepted(env, entry, blob, link, visit, s, rs);
  }

  lemma FirstHeight(link: RangeLink, from: nat, rs: seq<CompactBlockRecord>)
    requires ChainOk(link, from, rs) && rs != []
    ensures rs[0].height == from
  {
    assert RecordOk(LinkAt(link, rs, 0), from + 0, rs[0]);
  }

  lemma FirstByte(blob: seq<byte>)
    requires NewDecoder(blob).Success?
    ensures blob != [] && blob[0] == RANGE_FORMAT_VERSION
  {
  }

  // Whole runs, and runs behind restarts.

  /** The blocks that a run accepted came from the parser. */
  ghost predicate FromParser(events: seq<Event>) {
    forall e <- events :: e.Accepted? ==> e.block.FromParser()
  }

  /** What a run gives behind `link` is one chain of records that encode. Only the first parent of an
      empty index is taken on trust. */
  lemma HonestRun(states: seq<Builder>, events: seq<Event>, link: RangeLink)
    requires Run(states, events) && FromParser(events) && link.endTreeSizes == states[0].sizes
    requires states[0].previous == Some(link.endHash)
             || (states[0].previous.None? && (Output(events) != [] ==> Output(events)[0].previousHash == link.endHash))
    ensures ChainOk(link, states[0].next, Output(events)) && forall r <- Output(events) :: Encode(r).Success?
  {
    hide Encode, Fold, Accounted, OrderedRuns.Step, Output, Accepts, Honest, ChainOk, FromParser;
    OrderedRefinement(states, events);
    AcceptedAreHonest(states, events);
    FoldedChain(Accepts(events), states[0].next, link, |Output(events)|);
  }

  /** A run of a builder that was opened at `state`, and how many of its records reached the index
      before it stopped. */
  datatype Session = Session(state: IndexTip, states: seq<Builder>, events: seq<Event>, written: nat)

  /** The records that the sessions wrote. */
  ghost function Written(ss: seq<Session>): seq<CompactBlockRecord> {
    if ss == [] then []
    else
      var last := ss[|ss| - 1];
      var out := Output(last.events);
      Written(ss[..|ss| - 1]) + if last.written <= |out| then out[..last.written] else []
  }

  /** The index that stood at `start` stands at `state` after the records `index`: the tip is the
      last record. */
  ghost predicate TipOf(start: IndexTip, index: seq<CompactBlockRecord>, state: IndexTip) {
    if index == [] then state.tip == start.tip && state.treeSizes == start.treeSizes
    else
      var last := index[|index| - 1];
      state.tip == Some((last.height, last.hash)) && state.treeSizes == last.endTreeSizes
  }

  /** A session of a builder that `new` gives for the tip of the index behind the records `index`. */
  ghost predicate Resumes(start: IndexTip, index: seq<CompactBlockRecord>, s: Session) {
    && Run(s.states, s.events) && FromParser(s.events) && s.written <= |Output(s.events)|
    && TipOf(start, index, s.state) && Opens(s.state, s.states[0].maxPending, s.states[0])
  }

  ghost predicate Sessions(start: IndexTip, ss: seq<Session>) {
    ss == [] || (var init := ss[..|ss| - 1]; Sessions(start, init) && Resumes(start, Written(init), ss[|ss| - 1]))
  }

  /** The index starts behind `link` at height `from`: its tip is `link`, or the index is empty and
      its first block points to `link`. */
  ghost predicate StartsAt(link: RangeLink, from: nat, start: IndexTip, index: seq<CompactBlockRecord>) {
    && link.endTreeSizes == start.treeSizes
    && match start.tip
       case Some((height, hash)) => from == height + 1 && link.endHash == hash
       case None => from == 0 && (index != [] ==> index[0].previousHash == link.endHash)
  }

  /** Over any restarts, each at the tip that the sessions before it left, the index is one chain of
      records that encode. */
  lemma {:induction false} IndexIsOneChain(start: IndexTip, link: RangeLink, from: nat, ss: seq<Session>)
    requires Sessions(start, ss) && StartsAt(link, from, start, Written(ss))
    ensures ChainOk(link, from, Written(ss)) && forall r <- Written(ss) :: Encode(r).Success?
  {
    hide Encode, Run, Output, FromParser, ChainOk;
    if ss == [] {
      NoChain(link, from);
    } else {
      var init, last := ss[..|ss| - 1], ss[|ss| - 1];
      var index, out := Written(init), Output(last.events);
      IndexIsOneChain(start, link, from, init);
      SessionIsChain(start, link, from, index, last);
    }
  }

  /** A resumed builder stands behind the last record. */
  lemma ResumedState(start: IndexTip, link: RangeLink, from: nat, index: seq<CompactBlockRecord>, s: Session)
    requires ChainOk(link, from, index) && Resumes(start, index, s) && StartsAt(link, from, start, index)
    ensures var b, below := s.states[0], LinkAt(link, index, |index|);
            && b.next == from + |index| && b.sizes == below.endTreeSizes
            && (b.previous == Some(below.endHash) || (b.previous.None? && index == [] && below == link))
  {
    hide Accounted, Output, FromParser, OrderedRuns.Step;
    if index != [] {
      assert RecordOk(LinkAt(link, index, |index| - 1), from + (|index| - 1), index[|index| - 1]);
    }
  }

  lemma SessionIsChain(start: IndexTip, link: RangeLink, from: nat, index: seq<CompactBlockRecord>, s: Session)
    requires ChainOk(link, from, index) && (forall r <- index :: Encode(r).Success?)
    requires Resumes(start, index, s) && StartsAt(link, from, start, index + Output(s.events)[..s.written])
    ensures var all := index + Output(s.events)[..s.written];
            ChainOk(link, from, all) && forall r <- all :: Encode(r).Success?
  {
    hide Encode, Run, Output, FromParser, ChainOk, Accounted;
    var out, below := Output(s.events), LinkAt(link, index, |index|);
    if s.written == 0 {
      assert index + out[..0] == index;
    } else {
      assert (index + out[..s.written])[0] == if index == [] then out[0] else index[0];
      ResumedState(start, link, from, index, s);
      HonestRun(s.states, s.events, below);
      Window(below, from + |index|, out, 0, s.written);
      assert out[0..s.written] == out[..s.written];
      ChainGlues(link, from, index, out[..s.written]);
    }
  }

  /** Every aligned window of 1,000 records of the index, over any restarts, encodes, and its blob
      passes the range check against its own entry and the link of the record before it. */
  lemma HonestRangesPass(env: Env, start: IndexTip, link: RangeLink, from: nat, ss: seq<Session>, i: nat)
    requires Inverts(env.payload) && Sessions(start, ss) && StartsAt(link, from, start, Written(ss))
    requires (from + i) % RANGE_SIZE == 0 && i + RANGE_SIZE <= |Written(ss)|
    ensures var rs := Written(ss)[i..i + RANGE_SIZE];
            && EncodeRange(rs).Success?
            && forall entry | Describes(env, entry, rs, EncodeRange(rs).value) ::
                 CheckRange(env, entry, EncodeRange(rs).value, LinkAt(link, Written(ss), i), Watch, ())
                 == Verdict.Accepted((LinkOf(rs[RANGE_SIZE - 1]), ()))
  {
    hide Encode, Sessions, StartsAt, Written, EncodeRange, CheckRange, VisitAll, Describes, Inverts, ChainOk;
    var all := Written(ss);
    var rs, before := all[i..i + RANGE_SIZE], LinkAt(link, all, i);
    IndexIsOneChain(start, link, from, ss);
    Window(link, from, all, i, RANGE_SIZE);
    ChainEncodes(before, from + i, rs);
    WatchSeesAll(rs);
    forall entry | Describes(env, entry, rs, EncodeRange(rs).value)
      ensures CheckRange(env, entry, EncodeRange(rs).value, before, Watch, ())
              == Verdict.Accepted((LinkOf(rs[RANGE_SIZE - 1]), ()))
    {
      ChainIsAccepted(env, before, from + i, rs, entry, EncodeRange(rs).value, Watch, ());
    }
  }

  lemma {:induction false} BatchesAreOutput(states: seq<Builder>, events: seq<Event>)
    requires Run(states, events)
    ensures forall b <- Batches(events) :: b.records != [] && forall r <- b.records :: r in Output(events)
  {
    hide Accounted, Takes;
    if events != [] {
      var n := |events| - 1;
      BatchesAreOutput(states[..n + 1], events[..n]);
      assert OrderedRuns.Step(states[n], events[n], states[n + 1]);
    }
  }

  /** Every batch of a run over blocks of the parser encodes, on any number of threads. */
  lemma HonestBatchesEncode(states: seq<Builder>, events: seq<Event>, batch: WriteBatch, threads: nat)
    requires Run(states, events) && FromParser(events) && batch in Batches(events)
    ensures batch.records != [] && EncodeBatch(batch, threads).Success?
  {
    hide Encode, OrderedRuns.Step, Output, Batches, FromParser, ChainOk, EncodeOn, EncodeInOrder, Accounted;
    BatchesAreOutput(states, events);
    var out, b := Output(events), states[0];
    var hash := if b.previous.Some? then b.previous.value else if out == [] then ZeroDigest else out[0].previousHash;
    HonestRun(states, events, RangeLink(hash, b.sizes));
    AllEncode(batch.records);
    ThreadsAgree(batch.records, threads);
  }

  /** The visitor of `RangeBlob::check`, which looks at nothing. */
  function Watch(s: (), r: CompactBlockRecord): Verdict<()> {
    Verdict.Accepted(())
  }

  lemma {:induction false} WatchSeesAll(rs: seq<CompactBlockRecord>)
    ensures VisitAll(Watch, (), rs) == Some(())
  {
    if rs != [] {
      WatchSeesAll(rs[1..]);
    }
  }

  /** A refusing `push` is the only way for a block of the parser to stay out, so the accepted
      blocks of a run are honest if the parser made them. */
  lemma {:induction false} AcceptedAreHonest(states: seq<Builder>, events: seq<Event>)
    requires Run(states, events) && FromParser(events)
    ensures forall h <- Accepts(events) :: Honest(h, Accepts(events)[h])
  {
    hide Accounted, ParsedCompactBlock.FromParser, EncodedSizeBound;
    if events != [] {
      var n := |events| - 1;
      AcceptedAreHonest(states[..n + 1], events[..n]);
      assert OrderedRuns.Step(states[n], events[n], states[n + 1]) && events[n] in events;
    }
  }
}
