/** Checking one range blob: the walk over its records, and the set of blobs that pass. */
module RangeCheck {
  import opened Bytes
  import opened ChainTypes
  import opened RecordCodec
  import opened Manifest
  import opened RangeCodec
  import opened RangeDecoder

  /** The protobuf decoder and the digest function that the check relies on. */
  datatype Env = Env(payload: PayloadDecoder, digest: seq<byte> -> Digest)

  /** A block hash and the tree sizes behind that block, to which the next record is compared. */
  datatype RangeLink = RangeLink(endHash: Digest, endTreeSizes: TreeSizes)

  const GENESIS_LINK := RangeLink(ZeroDigest, EmptyTreeSizes)

  function LinkOf(r: CompactBlockRecord): RangeLink {
    RangeLink(r.hash, r.endTreeSizes)
  }

  function EntryLink(e: ManifestEntry): RangeLink {
    RangeLink(e.endHash, e.endTreeSizes)
  }

  datatype Check =
    | RangeVersion | Decode | StartHeight | StartLink | HashChain | TreeSizesCheck | EndHash | EndTreeSizes
    | StartFrontier | Commitment | Frontier | SubtreeRoots

  datatype Reject =
    | Refetch(startHeight: u32, mismatch: BlobMismatch)
    | BlobCount(entries: nat, blobs: nat)
    | Rejected(check: Check, height: nat)

  datatype RangeCheckError =
    | Blob(mismatch: BlobMismatch)
    | BadEnvelope(error: CodecError)
    | BadRecord(height: nat, source: CodecError)
    | Chain(height: nat)
    | Visit(reject: Reject)

  datatype Verdict<+T> = Accepted(value: T) | Refused(reject: Reject)
  datatype Walk<+S> = Walked(link: RangeLink, state: S) | Stopped(error: RangeCheckError)

  /** What the caller's visitor does with a record: a new state of its own, or a rejection. */
  type Visitor<!S> = (S, CompactBlockRecord) -> Verdict<S>

  function Saturating(height: nat): u32 {
    if height <= U32_MAX then height else U32_MAX
  }

  /** The checks of a record against the link below it, before the visitor of the caller. */
  function CheckRecord(start: u32, height: u32, link: RangeLink, r: CompactBlockRecord): Option<Reject> {
    if r.height != height then Some(Rejected(StartHeight, r.height))
    else if r.previousHash != link.endHash then Some(Rejected(if height == start then StartLink else HashChain, height))
    else if link.endTreeSizes.CheckedAdd(r.Additions()) != Some(r.endTreeSizes)
    then Some(Rejected(TreeSizesCheck, height))
    else None
  }

  datatype Step<+S> = Stop(error: RangeCheckError) | Go(record: CompactBlockRecord, state: S)

  /** Record `i`: decode, record rules, link and sizes, the visitor, then the chain check of the
      index against the record `below`. */
  function StepAt<S>(env: Env, d: Decoder, visit: Visitor<S>, start: u32, i: nat, height: u32, link: RangeLink,
                     below: Option<RangeLink>, s: S): Step<S>
    requires d.Valid()
  {
    match d.Record(env.payload, i)
    case Failure(e) => Stop(BadRecord(d.start + i, e))
    case Success(r) =>
      if !r.Check() then Stop(BadRecord(d.start + i, InvalidRecord))
      else
        match CheckRecord(start, height, link, r)
        case Some(reject) => Stop(Visit(reject))
        case None =>
          match visit(s, r)
          case Refused(reject) => Stop(Visit(reject))
          case Accepted(next) =>
            if r.height != d.start + i || (below.Some? && !Continues(below.value, r)) then Stop(Chain(d.start + i))
            else Go(r, next)
  }

  /** The records from `i` on, with the link and the state behind each one. */
  function WalkFrom<S>(env: Env, d: Decoder, visit: Visitor<S>, start: u32, i: nat, height: u32, link: RangeLink,
                       below: Option<RangeLink>, s: S): Walk<S>
    requires d.Valid() && i <= RANGE_SIZE
    decreases RANGE_SIZE - i
  {
    if i == RANGE_SIZE then Walked(link, s)
    else
      match StepAt(env, d, visit, start, i, height, link, below, s)
      case Stop(e) => Stopped(e)
      case Go(r, next) =>
        WalkFrom(env, d, visit, start, i + 1, Saturating(height + 1), LinkOf(r), Some(LinkOf(r)), next)
  }

  predicate Continues(below: RangeLink, r: CompactBlockRecord) {
    r.previousHash == below.endHash && r.endTreeSizes.Follows(below.endTreeSizes)
  }

  /** The rejection for a failed walk: the digest first, then the version, then the rest. */
  function RejectFor(entry: ManifestEntry, blob: seq<byte>, e: RangeCheckError): Reject {
    if e.Blob? then Refetch(entry.startHeight, e.mismatch)
    else if blob == [] || blob[0] != entry.rangeVersion then Rejected(RangeVersion, entry.startHeight)
    else
      match e
      case BadEnvelope(_) => Rejected(Decode, entry.startHeight)
      case BadRecord(height, _) => Rejected(Decode, height)
      case Chain(height) => Rejected(HashChain, height)
      case Visit(reject) => reject
      case Blob(m) => Refetch(entry.startHeight, m)
  }

  function CheckedWalk<S>(env: Env, entry: ManifestEntry, blob: seq<byte>, previous: RangeLink, visit: Visitor<S>,
                          s: S): Walk<S> {
    match CheckBlob(env.digest, entry, blob)
    case Some(mismatch) => Stopped(Blob(mismatch))
    case None =>
      match NewDecoder(blob)
      case Failure(e) => Stopped(BadEnvelope(e))
      case Success(d) => WalkFrom(env, d, visit, entry.startHeight, 0, entry.startHeight, previous, None, s)
  }

  /** `RangeBlob::check_with`. */
  function CheckRange<S>(env: Env, entry: ManifestEntry, blob: seq<byte>, previous: RangeLink, visit: Visitor<S>, s: S)
    : Verdict<(RangeLink, S)>
  {
    match CheckedWalk(env, entry, blob, previous, visit, s)
    case Stopped(e) => Refused(RejectFor(entry, blob, e))
    case Walked(link, end) =>
      if blob == [] || blob[0] != entry.rangeVersion then Refused(Rejected(RangeVersion, entry.startHeight))
      else if link.endHash != entry.endHash then Refused(Rejected(EndHash, entry.endHeight))
      else if link.endTreeSizes != entry.endTreeSizes then Refused(Rejected(EndTreeSizes, entry.endHeight))
      else Accepted((link, end))
  }

  // What the check accepts, without its order.

  /** `n` commitments bring a tree from `before` to `after`. More than `u32::MAX` count as `u32::MAX`. */
  ghost predicate Grows(before: u32, n: nat, after: u32) {
    after == before + if n <= 0xFFFF_FFFF then n else 0xFFFF_FFFF
  }

  /** `r` at `height` continues `link`, holds shielded data in each transaction, and adds exactly its
      own commitments. */
  ghost predicate RecordOk(link: RangeLink, height: nat, r: CompactBlockRecord) {
    && r.height == height && r.previousHash == link.endHash
    && NoneEmpty(r.transactions) && SizesOk(link.endTreeSizes, r)
  }

  ghost predicate NoneEmpty(txs: seq<CompactTransaction>) {
    forall tx <- txs ::
      |tx.saplingSpends| + |tx.saplingOutputs| + |tx.orchardActions| + |tx.ironwoodActions| > 0
  }

  ghost predicate SizesOk(before: TreeSizes, r: CompactBlockRecord) {
    && Grows(before.sapling, |AllOutputs(r.transactions)|, r.endTreeSizes.sapling)
    && Grows(before.orchard, |AllOrchard(r.transactions)|, r.endTreeSizes.orchard)
    && Grows(before.ironwood, |AllIronwood(r.transactions)|, r.endTreeSizes.ironwood)
  }

  /** The two checks of the code on a record say this. */
  lemma CheckedRecord(before: TreeSizes, r: CompactBlockRecord)
    ensures r.Check() <==> NoneEmpty(r.transactions)
    ensures before.CheckedAdd(r.Additions()) == Some(r.endTreeSizes) <==> SizesOk(before, r)
  {
    PayloadIsData(r);
    DataIsCounted(r.transactions);
    CutAdds(before, CountCommitments(r.transactions), r.endTreeSizes);
  }

  lemma PayloadIsData(r: CompactBlockRecord)
    ensures r.Check() <==> NoneEmpty(r.transactions)
  {
    hide AllOutputs, AllOrchard, AllIronwood;
    forall tx <- r.transactions
      ensures tx.HasPayload() <==>
              |tx.saplingSpends| + |tx.saplingOutputs| + |tx.orchardActions| + |tx.ironwoodActions| > 0
    {
    }
  }

  lemma CutAdds(before: TreeSizes, c: Counts, after: TreeSizes)
    ensures before.CheckedAdd(c.Saturated()) == Some(after) <==>
            && Grows(before.sapling, c.sapling, after.sapling) && Grows(before.orchard, c.orchard, after.orchard)
            && Grows(before.ironwood, c.ironwood, after.ironwood)
  {
    hide Grows, CutU32;
    CutAdd(before.sapling, c.sapling, after.sapling);
    CutAdd(before.orchard, c.orchard, after.orchard);
    CutAdd(before.ironwood, c.ironwood, after.ironwood);
  }

  lemma CutAdd(before: u32, n: nat, after: u32)
    ensures Grows(before, n, after) <==> before + CutU32(n) == after
  {
  }

  function LinkAt(link: RangeLink, rs: seq<CompactBlockRecord>, i: nat): RangeLink
    requires i <= |rs|
  {
    if i == 0 then link else LinkOf(rs[i - 1])
  }

  /** One chain from `link` at height `from`. */
  ghost predicate ChainOk(link: RangeLink, from: nat, rs: seq<CompactBlockRecord>) {
    forall i | 0 <= i < |rs| :: RecordOk(LinkAt(link, rs, i), from + i, rs[i])
  }

  /** The visitor over all records, if it refuses none. */
  function VisitAll<S>(visit: Visitor<S>, s: S, rs: seq<CompactBlockRecord>): Option<S> {
    if rs == [] then Some(s)
    else
      match visit(s, rs[0])
      case Refused(_) => None
      case Accepted(next) => VisitAll(visit, next, rs[1..])
  }

  /** The records of a decoder, all decoded. */
  ghost predicate Decodes(env: Env, d: Decoder, rs: seq<CompactBlockRecord>) {
    && d.Valid() && |rs| == RANGE_SIZE
    && forall i | 0 <= i < RANGE_SIZE :: d.Record(env.payload, i) == Success(rs[i])
  }

  /** `blob` is the range that `entry` describes, with the records `rs` behind `previous`. */
  ghost predicate RangeOk(env: Env, entry: ManifestEntry, blob: seq<byte>, previous: RangeLink,
                          rs: seq<CompactBlockRecord>) {
    && |blob| == entry.blobLen && env.digest(blob) == entry.blobDigest
    && NewDecoder(blob).Success? && Decodes(env, NewDecoder(blob).value, rs)
    && ChainOk(previous, entry.startHeight, rs)
    && blob[0] == entry.rangeVersion && EntryLink(entry) == LinkOf(rs[RANGE_SIZE - 1])
  }

  lemma SizesGrow(a: TreeSizes, b: TreeSizes)
    ensures a.CheckedAdd(b).Some? ==> a.CheckedAdd(b).value.Follows(a)
  {
  }

  /** The last check of the walk cannot fail: the visitor of the range check is stricter. So the
      walk never ends with a chain error. */
  lemma {:induction false} ChainErrorIsDead<S>(env: Env, d: Decoder, visit: Visitor<S>, start: u32, i: nat, height: u32,
                                               link: RangeLink, below: Option<RangeLink>, s: S)
    requires d.Valid() && i <= RANGE_SIZE && (below.Some? ==> below.value == link)
    ensures var w := WalkFrom(env, d, visit, start, i, height, link, below, s);
            w.Stopped? ==> !w.error.Chain?
    decreases RANGE_SIZE - i
  {
    hide Decoder.Record, CompactBlockRecord.Additions;
    if i < RANGE_SIZE && d.Record(env.payload, i).Success? {
      var r := d.Record(env.payload, i).value;
      RecordFits(d, env.payload, i);
      SizesGrow(link.endTreeSizes, r.Additions());
      if visit(s, r).Accepted? {
        ChainErrorIsDead(env, d, visit, start, i + 1, Saturating(height + 1), LinkOf(r), Some(LinkOf(r)),
                         visit(s, r).value);
      }
    }
  }

  /** The rest `rs` of the records, from record `i` on. */
  ghost predicate DecodesFrom(env: Env, d: Decoder, i: nat, rs: seq<CompactBlockRecord>) {
    && d.Valid() && |rs| + i == RANGE_SIZE
    && forall k | 0 <= k < |rs| :: d.Record(env.payload, i + k) == Success(rs[k])
  }

  lemma ChainHead(link: RangeLink, from: nat, rs: seq<CompactBlockRecord>)
    requires rs != []
    ensures ChainOk(link, from, rs) <==> RecordOk(link, from, rs[0]) && ChainOk(LinkOf(rs[0]), from + 1, rs[1..])
  {
    hide RecordOk;
    var tail := rs[1..];
    if ChainOk(link, from, rs) {
      assert RecordOk(LinkAt(link, rs, 0), from + 0, rs[0]);
      forall i | 0 <= i < |tail| ensures RecordOk(LinkAt(LinkOf(rs[0]), tail, i), from + 1 + i, tail[i]) {
        assert RecordOk(LinkAt(link, rs, i + 1), from + (i + 1), rs[i + 1]);
      }
    }
    if RecordOk(link, from, rs[0]) && ChainOk(LinkOf(rs[0]), from + 1, tail) {
      forall i | 0 <= i < |rs| ensures RecordOk(LinkAt(link, rs, i), from + i, rs[i]) {
        if i > 0 {
          assert RecordOk(LinkAt(LinkOf(rs[0]), tail, i - 1), from + 1 + (i - 1), tail[i - 1]);
        }
      }
    }
  }

  lemma ChainGlues(link: RangeLink, from: nat, rs: seq<CompactBlockRecord>, ss: seq<CompactBlockRecord>)
    requires ChainOk(link, from, rs) && ChainOk(LinkAt(link, rs, |rs|), from + |rs|, ss)
    ensures ChainOk(link, from, rs + ss) && LinkAt(link, rs + ss, |rs + ss|) == LinkAt(LinkAt(link, rs, |rs|), ss, |ss|)
  {
    hide RecordOk;
    var all := rs + ss;
    forall i | 0 <= i < |all| ensures RecordOk(LinkAt(link, all, i), from + i, all[i]) {
      if i < |rs| {
        assert RecordOk(LinkAt(link, rs, i), from + i, rs[i]);
      } else {
        assert RecordOk(LinkAt(LinkAt(link, rs, |rs|), ss, i - |rs|), from + |rs| + (i - |rs|), ss[i - |rs|]);
      }
    }
  }

  /** The records `i` up to `i + n` of a chain are a chain behind record `i`. */
  lemma Window(link: RangeLink, from: nat, rs: seq<CompactBlockRecord>, i: nat, n: nat)
    requires ChainOk(link, from, rs) && i + n <= |rs|
    ensures ChainOk(LinkAt(link, rs, i), from + i, rs[i..i + n])
  {
    hide RecordOk;
    var w := rs[i..i + n];
    forall j | 0 <= j < n ensures RecordOk(LinkAt(LinkAt(link, rs, i), w, j), from + i + j, w[j]) {
      assert RecordOk(LinkAt(link, rs, i + j), from + (i + j), rs[i + j]);
    }
  }

  lemma StepMeans<S>(env: Env, d: Decoder, visit: Visitor<S>, start: u32, i: nat, height: u32, link: RangeLink,
                     below: Option<RangeLink>, s: S)
    requires d.Valid() && StepAt(env, d, visit, start, i, height, link, below, s).Go?
    ensures var step := StepAt(env, d, visit, start, i, height, link, below, s);
            && d.Record(env.payload, i) == Success(step.record) && RecordOk(link, height, step.record)
            && visit(s, step.record) == Accepted(step.state)
  {
    hide Decoder.Record, CompactBlockRecord.Additions, NoneEmpty, SizesOk;
    CheckedRecord(link.endTreeSizes, d.Record(env.payload, i).value);
  }

  /** A walk that ends well saw one chain; its link is the last record. */
  lemma {:induction false} WalkMeans<S>(env: Env, d: Decoder, visit: Visitor<S>, start: u32, i: nat, height: u32,
                                        link: RangeLink, below: Option<RangeLink>, s: S)
    returns (rs: seq<CompactBlockRecord>)
    requires d.Valid() && i <= RANGE_SIZE && (i < RANGE_SIZE ==> height + (RANGE_SIZE - i) <= U32_MAX + 1)
    requires WalkFrom(env, d, visit, start, i, height, link, below, s).Walked?
    ensures DecodesFrom(env, d, i, rs) && ChainOk(link, height, rs)
    ensures VisitAll(visit, s, rs) == Some(WalkFrom(env, d, visit, start, i, height, link, below, s).state)
    ensures WalkFrom(env, d, visit, start, i, height, link, below, s).link == LinkAt(link, rs, |rs|)
    decreases RANGE_SIZE - i
  {
    hide Decoder.Record, StepAt, ChainOk, RecordOk;
    if i == RANGE_SIZE {
      rs := [];
      NoChain(link, height);
    } else {
      var step := StepAt(env, d, visit, start, i, height, link, below, s);
      StepMeans(env, d, visit, start, i, height, link, below, s);
      var r, next := step.record, step.state;
      var tail := WalkMeans(env, d, visit, start, i + 1, Saturating(height + 1), LinkOf(r), Some(LinkOf(r)), next);
      rs := [r] + tail;
      assert rs[1..] == tail;
      LastTailHeight(i, height, LinkOf(r), tail);
      ChainHead(link, height, rs);
      forall k | 0 <= k < |rs| ensures d.Record(env.payload, i + k) == Success(rs[k]) {
        if k > 0 {
          assert d.Record(env.payload, i + 1 + (k - 1)) == Success(tail[k - 1]);
        }
      }
    }
  }

  lemma NoChain(link: RangeLink, from: nat)
    ensures ChainOk(link, from, [])
  {
  }

  /** The saturated height only matters behind the last record. */
  lemma LastTailHeight(i: nat, height: u32, link: RangeLink, tail: seq<CompactBlockRecord>)
    requires i < RANGE_SIZE && height + (RANGE_SIZE - i) <= U32_MAX + 1 && |tail| == RANGE_SIZE - i - 1
    requires ChainOk(link, Saturating(height + 1), tail)
    ensures ChainOk(link, height + 1, tail)
  {
  }

  /** A chain that decodes and that the visitor does not refuse is walked to its end. */
  lemma {:induction false} WalkAccepts<S>(env: Env, d: Decoder, visit: Visitor<S>, start: u32, i: nat, height: u32,
                                          link: RangeLink, below: Option<RangeLink>, s: S, rs: seq<CompactBlockRecord>)
    requires d.Valid() && i <= RANGE_SIZE && (below.Some? ==> below.value == link)
    requires DecodesFrom(env, d, i, rs) && ChainOk(link, height, rs) && VisitAll(visit, s, rs).Some?
    ensures WalkFrom(env, d, visit, start, i, height, link, below, s)
            == Walked(LinkAt(link, rs, |rs|), VisitAll(visit, s, rs).value)
    decreases RANGE_SIZE - i
  {
    hide Decoder.Record, CompactBlockRecord.Additions, NoneEmpty, SizesOk;
    if i < RANGE_SIZE {
      var r, tail := rs[0], rs[1..];
      CheckedRecord(link.endTreeSizes, r);
      assert d.Record(env.payload, i + 0) == Success(rs[0]);
      RecordFits(d, env.payload, i);
      ChainHead(link, height, rs);
      SizesGrow(link.endTreeSizes, r.Additions());
      forall k | 0 <= k < |tail| ensures d.Record(env.payload, i + 1 + k) == Success(tail[k]) {
        assert d.Record(env.payload, i + (k + 1)) == Success(rs[k + 1]);
      }
      NextHeight(height, LinkOf(r), tail);
      WalkAccepts(env, d, visit, start, i + 1, Saturating(height + 1), LinkOf(r), Some(LinkOf(r)), visit(s, r).value,
                  tail);
    }
  }

  lemma NextHeight(height: u32, link: RangeLink, tail: seq<CompactBlockRecord>)
    requires ChainOk(link, height + 1, tail)
    ensures ChainOk(link, Saturating(height + 1), tail)
  {
    if tail != [] {
      assert RecordOk(LinkAt(link, tail, 0), height + 1 + 0, tail[0]);
    }
  }

  // The check accepts exactly the ranges that the entry describes.

  lemma RangeEndFits(blob: seq<byte>)
    requires NewDecoder(blob).Success?
    ensures NewDecoder(blob).value.start + (RANGE_SIZE - 1) <= U32_MAX
  {
    hide FromBigEndian, Decoder.Offset;
    BigEndianWrites(blob[5..9]);
    Pow256Widths();
  }

  /** The first record ties the height of the walk to the decoder. */
  lemma WalkStarts<S>(env: Env, blob: seq<byte>, visit: Visitor<S>, start: u32, link: RangeLink, s: S)
    requires NewDecoder(blob).Success?
    requires WalkFrom(env, NewDecoder(blob).value, visit, start, 0, start, link, None, s).Walked?
    ensures start + (RANGE_SIZE - 1) <= U32_MAX
  {
    hide NewDecoder, StepAt, Decoder.Record, RecordOk;
    var d := NewDecoder(blob).value;
    StepMeans(env, d, visit, start, 0, start, link, None, s);
    RecordFits(d, env.payload, 0);
    RecordHeight(link, start, d.Record(env.payload, 0).value);
    RangeEndFits(blob);
  }

  lemma RecordHeight(link: RangeLink, height: nat, r: CompactBlockRecord)
    requires RecordOk(link, height, r)
    ensures r.height == height
  {
  }

  lemma AcceptedRange<S>(env: Env, entry: ManifestEntry, blob: seq<byte>, previous: RangeLink, visit: Visitor<S>, s: S)
    returns (rs: seq<CompactBlockRecord>)
    requires CheckRange(env, entry, blob, previous, visit, s).Accepted?
    ensures RangeOk(env, entry, blob, previous, rs)
    ensures Some(CheckRange(env, entry, blob, previous, visit, s).value.1) == VisitAll(visit, s, rs)
    ensures CheckRange(env, entry, blob, previous, visit, s).value.0 == EntryLink(entry)
  {
    hide WalkFrom, NewDecoder, ChainOk, VisitAll, Decoder.Record;
    var d := NewDecoder(blob).value;
    WalkStarts(env, blob, visit, entry.startHeight, previous, s);
    rs := WalkMeans(env, d, visit, entry.startHeight, 0, entry.startHeight, previous, None, s);
    forall i | 0 <= i < RANGE_SIZE ensures d.Record(env.payload, i) == Success(rs[i]) {
      assert d.Record(env.payload, 0 + i) == Success(rs[i]);
    }
  }

  lemma DescribedRangeIsAccepted<S>(env: Env, entry: ManifestEntry, blob: seq<byte>, previous: RangeLink,
                                    visit: Visitor<S>,
                                    s: S, rs: seq<CompactBlockRecord>)
    requires RangeOk(env, entry, blob, previous, rs) && VisitAll(visit, s, rs).Some?
    ensures CheckRange(env, entry, blob, previous, visit, s)
            == Accepted((EntryLink(entry), VisitAll(visit, s, rs).value))
  {
    hide WalkFrom, NewDecoder, ChainOk, VisitAll, Decoder.Record;
    var d := NewDecoder(blob).value;
    forall k | 0 <= k < |rs| ensures d.Record(env.payload, 0 + k) == Success(rs[k]) {
    }
    WalkAccepts(env, d, visit, entry.startHeight, 0, entry.startHeight, previous, None, s, rs);
    NotEmpty(blob);
  }

  lemma NotEmpty(blob: seq<byte>)
    requires NewDecoder(blob).Success?
    ensures blob != []
  {
  }

  // Which fault a refusal names.

  /** The walk goes on behind records that decode, form one chain and are not refused. */
  lemma {:induction false} WalkGoesOn<S>(env: Env, d: Decoder, visit: Visitor<S>, start: u32, previous: RangeLink, s: S,
                                         rs: seq<CompactBlockRecord>)
    returns (below: Option<RangeLink>)
    requires d.Valid() && |rs| <= RANGE_SIZE && Reads(env, d, rs)
    requires ChainOk(previous, start, rs) && VisitAll(visit, s, rs).Some?
    ensures below.Some? ==> below.value == LinkAt(previous, rs, |rs|)
    ensures WalkFrom(env, d, visit, start, 0, start, previous, None, s)
            == WalkFrom(env, d, visit, start, |rs|, Saturating(start + |rs|), LinkAt(previous, rs, |rs|), below,
                        VisitAll(visit, s, rs).value)
  {
    hide Decoder.Record, StepAt, RecordOk, WalkFrom;
    if rs == [] {
      below := None;
    } else {
      var n := |rs| - 1;
      var init, r := rs[..n], rs[n];
      VisitsInit(visit, s, rs);
      forall i | 0 <= i < n ensures RecordOk(LinkAt(previous, init, i), start + i, init[i]) {
        assert RecordOk(LinkAt(previous, rs, i), start + i, rs[i]);
      }
      below := WalkGoesOn(env, d, visit, start, previous, s, init);
      assert RecordOk(LinkAt(previous, rs, n), start + n, rs[n]);
      RecordHeight(LinkAt(previous, rs, n), start + n, r);
      assert d.Record(env.payload, n) == Success(rs[n]);
      StepGoes(env, d, visit, start, n, start + n, LinkAt(previous, rs, n), below, VisitAll(visit, s, init).value, r);
      OneStep(env, d, visit, start, n, start + n, LinkAt(previous, rs, n), below, VisitAll(visit, s, init).value);
      below := Some(LinkOf(r));
    }
  }

  /** The first records of a decoder. */
  ghost predicate Reads(env: Env, d: Decoder, rs: seq<CompactBlockRecord>) {
    d.Valid() && forall i | 0 <= i < |rs| :: d.Record(env.payload, i) == Success(rs[i])
  }

  lemma {:induction false} VisitsInit<S>(visit: Visitor<S>, s: S, rs: seq<CompactBlockRecord>)
    requires rs != [] && VisitAll(visit, s, rs).Some?
    ensures var n := |rs| - 1;
            && VisitAll(visit, s, rs[..n]).Some?
            && visit(VisitAll(visit, s, rs[..n]).value, rs[n]) == Accepted(VisitAll(visit, s, rs).value)
  {
    var n := |rs| - 1;
    if n == 0 {
      assert rs[..n] == [] && rs[1..] == [];
      assert VisitAll(visit, visit(s, rs[0]).value, rs[1..]) == Some(visit(s, rs[0]).value);
    } else {
      VisitsInit(visit, visit(s, rs[0]).value, rs[1..]);
      assert rs[1..][..n - 1] == rs[..n][1..];
    }
  }

  lemma StepGoes<S>(env: Env, d: Decoder, visit: Visitor<S>, start: u32, i: nat, height: u32, link: RangeLink,
                    below: Option<RangeLink>, s: S, r: CompactBlockRecord)
    requires d.Valid() && i < RANGE_SIZE && d.Record(env.payload, i) == Success(r) && RecordOk(link, height, r)
    requires visit(s, r).Accepted? && (below.Some? ==> below.value == link)
    ensures StepAt(env, d, visit, start, i, height, link, below, s) == Go(r, visit(s, r).value)
  {
    hide Decoder.Record, CompactBlockRecord.Additions, NoneEmpty, SizesOk;
    CheckedRecord(link.endTreeSizes, r);
    RecordFits(d, env.payload, i);
    SizesGrow(link.endTreeSizes, r.Additions());
  }

  /** Bytes of a wrong length or digest are fetched again; nothing else about them is looked at. */
  lemma WrongBytesAreRefetched<S>(env: Env, entry: ManifestEntry, blob: seq<byte>, previous: RangeLink,
                                  visit: Visitor<S>, s: S)
    requires |blob| != entry.blobLen || env.digest(blob) != entry.blobDigest
    ensures CheckRange(env, entry, blob, previous, visit, s)
            == Refused(Refetch(entry.startHeight,
                               if |blob| != entry.blobLen then Len(entry.blobLen, |blob|) else WrongDigest))
  {
  }

  /** The right bytes are refused for good: by their version first, then by their envelope. */
  lemma RightBytesAreRejected<S>(env: Env, entry: ManifestEntry, blob: seq<byte>, previous: RangeLink,
                                 visit: Visitor<S>, s: S)
    requires |blob| == entry.blobLen && env.digest(blob) == entry.blobDigest
    ensures blob == [] || blob[0] != entry.rangeVersion ==>
              CheckRange(env, entry, blob, previous, visit, s) == Refused(Rejected(RangeVersion, entry.startHeight))
    ensures blob != [] && blob[0] == entry.rangeVersion && NewDecoder(blob).Failure? ==>
              CheckRange(env, entry, blob, previous, visit, s) == Refused(Rejected(Decode, entry.startHeight))
  {
    hide WalkFrom, NewDecoder;
    if NewDecoder(blob).Success? {
      hide RejectFor;
      WalkNeverBlob(env, NewDecoder(blob).value, visit, entry.startHeight, 0, entry.startHeight, previous, None, s);
      VersionFirst(entry, blob);
    }
  }

  lemma VersionFirst(entry: ManifestEntry, blob: seq<byte>)
    ensures blob == [] || blob[0] != entry.rangeVersion ==>
              forall e: RangeCheckError | !e.Blob? ::
                RejectFor(entry, blob, e) == Rejected(RangeVersion, entry.startHeight)
  {
  }

  lemma {:induction false} WalkNeverBlob<S>(env: Env, d: Decoder, visit: Visitor<S>, start: u32, i: nat, height: u32,
                                            link: RangeLink, below: Option<RangeLink>, s: S)
    requires d.Valid() && i <= RANGE_SIZE
    ensures var w := WalkFrom(env, d, visit, start, i, height, link, below, s);
            w.Stopped? ==> !w.error.Blob? && !w.error.BadEnvelope?
    decreases RANGE_SIZE - i
  {
    hide Decoder.Record, CheckRecord, Continues;
    if i < RANGE_SIZE {
      match StepAt(env, d, visit, start, i, height, link, below, s)
      case Stop(_) =>
      case Go(r, next) =>
        WalkNeverBlob(env, d, visit, start, i + 1, Saturating(height + 1), LinkOf(r), Some(LinkOf(r)), next);
    }
  }

  /** The rejection of a record at position `k`, by the first of its faults. `decoded` is what it
      decodes to, `at` the height that the decoder gives it, and `visited` what the visitor says. */
  ghost predicate Faulty<S>(reject: Option<Reject>, start: nat, link: RangeLink, k: nat, at: nat,
                            decoded: CodecResult<CompactBlockRecord>, visit: Visitor<S>, t: S) {
    if decoded.Failure? || !NoneEmpty(decoded.value.transactions) then reject == Some(Rejected(Decode, at))
    else
      var r := decoded.value;
      if r.height != start + k then reject == Some(Rejected(StartHeight, r.height))
      else if r.previousHash != link.endHash then
        reject == Some(Rejected(if k == 0 then StartLink else HashChain, start + k))
      else if !SizesOk(link.endTreeSizes, r) then reject == Some(Rejected(TreeSizesCheck, start + k))
      else visit(t, r).Refused? ==> reject == Some(visit(t, r).reject)
  }

  function RejectOf<T>(v: Verdict<T>): Option<Reject> {
    match v case Accepted(_) => None case Refused(reject) => Some(reject)
  }

  /** The refusal names the first record, behind `rs`, that is not the next one of the chain, and
      the first of its faults. */
  lemma FirstFaultIsNamed<S>(env: Env, entry: ManifestEntry, blob: seq<byte>, previous: RangeLink, visit: Visitor<S>,
                             s: S, rs: seq<CompactBlockRecord>)
    requires |blob| == entry.blobLen && env.digest(blob) == entry.blobDigest
    requires NewDecoder(blob).Success? && blob[0] == entry.rangeVersion
    requires |rs| < RANGE_SIZE && Reads(env, NewDecoder(blob).value, rs)
    requires ChainOk(previous, entry.startHeight, rs) && VisitAll(visit, s, rs).Some?
    ensures Faulty(RejectOf(CheckRange(env, entry, blob, previous, visit, s)), entry.startHeight,
                   LinkAt(previous, rs, |rs|), |rs|, NewDecoder(blob).value.start + |rs|,
                   NewDecoder(blob).value.Record(env.payload, |rs|), visit, VisitAll(visit, s, rs).value)
  {
    hide WalkFrom, NewDecoder, ChainOk, VisitAll, Decoder.Record, RejectFor, StepAt, NoneEmpty, SizesOk, Reads,
      CheckRange, Faulty;
    var d, start, link := NewDecoder(blob).value, entry.startHeight, LinkAt(previous, rs, |rs|);
    var t := VisitAll(visit, s, rs).value;
    var below := WalkGoesOn(env, d, visit, start, previous, s, rs);
    HeightFits(env, blob, previous, entry.startHeight, rs);
    NotEmpty(blob);
    FaultStops(env, entry, blob, d, visit, start, |rs|, link, below, t);
    OneStep(env, d, visit, start, |rs|, start + |rs|, link, below, t);
    StoppedIsRefused(env, entry, blob, previous, visit, s);
    NoFault(start, link, |rs|, d.start + |rs|, d.Record(env.payload, |rs|), visit, t,
            RejectOf(CheckRange(env, entry, blob, previous, visit, s)));
  }

  /** A record that a walk goes on behind has no fault that a rejection would name. */
  lemma NoFault<S>(start: nat, link: RangeLink, k: nat, at: nat, decoded: CodecResult<CompactBlockRecord>,
                   visit: Visitor<S>, t: S, other: Option<Reject>)
    ensures Faulty(None, start, link, k, at, decoded, visit, t) ==>
              Faulty(other, start, link, k, at, decoded, visit, t)
  {
  }

  lemma StoppedIsRefused<S>(env: Env, entry: ManifestEntry, blob: seq<byte>, previous: RangeLink, visit: Visitor<S>,
                            s: S)
    requires |blob| == entry.blobLen && env.digest(blob) == entry.blobDigest && NewDecoder(blob).Success?
    ensures var w := WalkFrom(env, NewDecoder(blob).value, visit, entry.startHeight, 0, entry.startHeight, previous,
                              None, s);
            w.Stopped? ==>
              CheckRange(env, entry, blob, previous, visit, s) == Refused(RejectFor(entry, blob, w.error))
  {
    hide WalkFrom, NewDecoder, RejectFor;
  }

  lemma OneStep<S>(env: Env, d: Decoder, visit: Visitor<S>, start: u32, i: nat, height: u32, link: RangeLink,
                   below: Option<RangeLink>, s: S)
    requires d.Valid() && i < RANGE_SIZE
    ensures var step := StepAt(env, d, visit, start, i, height, link, below, s);
            WalkFrom(env, d, visit, start, i, height, link, below, s)
            == match step
               case Stop(e) => Stopped(e)
               case Go(r, next) =>
                 WalkFrom(env, d, visit, start, i + 1, Saturating(height + 1), LinkOf(r), Some(LinkOf(r)), next)
  {
  }

  lemma HeightFits(env: Env, blob: seq<byte>, previous: RangeLink, start: u32, rs: seq<CompactBlockRecord>)
    requires NewDecoder(blob).Success? && |rs| < RANGE_SIZE && Reads(env, NewDecoder(blob).value, rs)
    requires ChainOk(previous, start, rs)
    ensures start + |rs| <= U32_MAX
  {
    hide NewDecoder, Decoder.Record;
    if rs != [] {
      var d := NewDecoder(blob).value;
      assert d.Record(env.payload, 0) == Success(rs[0]);
      assert RecordOk(LinkAt(previous, rs, 0), start + 0, rs[0]);
      RecordFits(d, env.payload, 0);
      RangeEndFits(blob);
    }
  }

  /** How the step of a bad record ends. */
  lemma FaultStops<S>(env: Env, entry: ManifestEntry, blob: seq<byte>, d: Decoder, visit: Visitor<S>, start: u32,
                      k: nat, link: RangeLink, below: Option<RangeLink>, t: S)
    requires d.Valid() && k < RANGE_SIZE && start + k <= U32_MAX && blob != [] && blob[0] == entry.rangeVersion
    ensures var step := StepAt(env, d, visit, start, k, start + k, link, below, t);
            var reject := if step.Stop? then Some(RejectFor(entry, blob, step.error)) else None;
            Faulty(reject, start, link, k, d.start + k, d.Record(env.payload, k), visit, t)
  {
    hide Decoder.Record, NoneEmpty, SizesOk, CompactBlockRecord.Additions, Continues;
    if d.Record(env.payload, k).Success? {
      CheckedRecord(link.endTreeSizes, d.Record(env.payload, k).value);
    }
  }

  /** A chain of the whole range that is not refused on the way but ends elsewhere than the entry says. */
  lemma WrongEndIsNamed<S>(env: Env, entry: ManifestEntry, blob: seq<byte>, previous: RangeLink, visit: Visitor<S>,
                           s: S, rs: seq<CompactBlockRecord>)
    requires |blob| == entry.blobLen && env.digest(blob) == entry.blobDigest
    requires NewDecoder(blob).Success? && blob[0] == entry.rangeVersion && |rs| == RANGE_SIZE
    requires Reads(env, NewDecoder(blob).value, rs)
    requires ChainOk(previous, entry.startHeight, rs) && VisitAll(visit, s, rs).Some?
    ensures var last, v := rs[RANGE_SIZE - 1], CheckRange(env, entry, blob, previous, visit, s);
            if last.hash != entry.endHash then v == Refused(Rejected(EndHash, entry.endHeight))
            else if last.endTreeSizes != entry.endTreeSizes then v == Refused(Rejected(EndTreeSizes, entry.endHeight))
            else v == Accepted((RangeLink(last.hash, last.endTreeSizes), VisitAll(visit, s, rs).value))
  {
    hide WalkFrom, NewDecoder, ChainOk, VisitAll, Decoder.Record, RejectFor, StepAt;
    var d := NewDecoder(blob).value;
    var below := WalkGoesOn(env, d, visit, entry.startHeight, previous, s, rs);
    WalkEnds(env, d, visit, entry.startHeight, Saturating(entry.startHeight + RANGE_SIZE),
             LinkAt(previous, rs, RANGE_SIZE), below, VisitAll(visit, s, rs).value);
    NotEmpty(blob);
  }

  lemma WalkEnds<S>(env: Env, d: Decoder, visit: Visitor<S>, start: u32, height: u32, link: RangeLink,
                    below: Option<RangeLink>, s: S)
    requires d.Valid()
    ensures WalkFrom(env, d, visit, start, RANGE_SIZE, height, link, below, s) == Walked(link, s)
  {
  }

  /** A range has one content only: the records of an accepted blob are determined. */
  lemma RangeIsDetermined(env: Env, entry: ManifestEntry, blob: seq<byte>, previous: RangeLink,
                          rs: seq<CompactBlockRecord>, ss: seq<CompactBlockRecord>)
    requires RangeOk(env, entry, blob, previous, rs) && RangeOk(env, entry, blob, previous, ss)
    ensures rs == ss
  {
    hide NewDecoder, ChainOk, Decoder.Record;
    var d := NewDecoder(blob).value;
    forall i | 0 <= i < RANGE_SIZE ensures rs[i] == ss[i] {
      assert d.Record(env.payload, i) == Success(rs[i]);
    }
  }

  // The check as it runs: one pass over the records, with the link and the height updated on the way.

  method RunStep<S>(env: Env, d: Decoder, visit: Visitor<S>, start: u32, i: nat, height: u32, link: RangeLink,
                    below: Option<RangeLink>, s: S) returns (step: Step<S>)
    requires d.Valid()
    ensures step == StepAt(env, d, visit, start, i, height, link, below, s)
  {
    hide Decoder.Record, CheckRecord, Continues;
    var record := d.Record(env.payload, i);
    if record.Failure? {
      return Stop(BadRecord(d.start + i, record.error));
    }
    var r := record.value;
    if !r.Check() {
      return Stop(BadRecord(d.start + i, InvalidRecord));
    }
    var reject := CheckRecord(start, height, link, r);
    if reject.Some? {
      return Stop(Visit(reject.value));
    }
    var visited := visit(s, r);
    if visited.Refused? {
      return Stop(Visit(visited.reject));
    }
    if r.height != d.start + i || (below.Some? && !Continues(below.value, r)) {
      return Stop(Chain(d.start + i));
    }
    step := Go(r, visited.value);
  }

  method RunWalk<S>(env: Env, d: Decoder, visit: Visitor<S>, start: u32, previous: RangeLink, initial: S)
    returns (w: Walk<S>)
    requires d.Valid()
    ensures w == WalkFrom(env, d, visit, start, 0, start, previous, None, initial)
  {
    hide StepAt, Saturating;
    var link, height, state := previous, start, initial;
    var below: Option<RangeLink> := None;
    for i := 0 to RANGE_SIZE
      invariant WalkFrom(env, d, visit, start, 0, start, previous, None, initial)
                == WalkFrom(env, d, visit, start, i, height, link, below, state)
    {
      var step := RunStep(env, d, visit, start, i, height, link, below, state);
      match step {
        case Stop(e) =>
          return Stopped(e);
        case Go(r, next) =>
          height := Saturating((height as nat) + 1);
          link, below, state := LinkOf(r), Some(LinkOf(r)), next;
      }
    }
    w := Walked(link, state);
  }
}
