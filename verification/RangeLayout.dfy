/** The bytes of a packed range, field by field, and when records can be packed. */
module RangeLayout {
  import opened Bytes
  import opened ChainTypes
  import opened RecordCodec
  import opened RangeCodec
  import opened RangeDecoder

  /** 1,000 records from an aligned height on, each behind the one before, that all encode. */
  ghost predicate Packable(records: seq<CompactBlockRecord>) {
    && |records| == 1_000 && records[0].height % 1_000 == 0
    && (forall i | 0 < i < |records| ::
          && records[i].height == records[i - 1].height + 1
          && records[i].previousHash == records[i - 1].hash)
    && forall i | 0 <= i < |records| :: Encode(records[i]).Success?
  }

  /** Entry `i` of the table is the offset of record `i`; the last is the end. */
  ghost predicate EntryAt(b: seq<byte>, offsets: seq<nat>, i: nat)
    requires i < |offsets|
  {
    73 + 4 * i + 4 <= |b| && b[73 + 4 * i..73 + 4 * i + 4] == BigEndian(offsets[i], 4)
  }

  /** Record `i` stands at its offset behind the table, with its length in front. */
  ghost predicate SlotAt(b: seq<byte>, offsets: seq<nat>, parts: seq<seq<byte>>, i: nat)
    requires i + 1 < |offsets| && i < |parts|
  {
    && offsets[i + 1] == offsets[i] + 4 + |parts[i]| && 4_077 + offsets[i + 1] <= |b|
    && b[4_077 + offsets[i]..4_077 + offsets[i + 1]] == BigEndian(|parts[i]|, 4) + parts[i]
  }

  ghost predicate LaidOut(b: seq<byte>, records: seq<CompactBlockRecord>, parts: seq<seq<byte>>, offsets: seq<nat>) {
    && |records| == |parts| == 1_000 && |offsets| == 1_001 && offsets[0] == 0 && |b| == 4_077 + offsets[1_000]
    && b[0] == 1 && b[1..5] == BigEndian(records[0].height, 4) && b[5..9] == BigEndian(records[999].height, 4)
    && b[9..41] == records[0].previousHash && b[41..73] == records[999].hash
    && (forall i | 0 <= i <= 1_000 :: EntryAt(b, offsets, i))
    && (forall i | 0 <= i < 1_000 :: Encode(records[i]) == Success(parts[i]) && SlotAt(b, offsets, parts, i))
  }

  lemma ChainIsPackable(records: seq<CompactBlockRecord>)
    requires |records| == 1_000 && CheckChain(Records(records)).Success? && EncodeAll(Records(records)).Success?
    ensures Packable(records)
    ensures var ids := CheckChain(Records(records)).value;
            && |ids| == 1_000 && ids[0].height == records[0].height && ids[999].height == records[999].height
            && ids[0].previousHash == records[0].previousHash && ids[999].hash == records[999].hash
  {
    hide Encode, CheckChain, EncodeAll;
    var ws := Records(records);
    CheckChainMeans(ws);
    EncodeAllMeans(ws);
    forall i | 0 <= i < |records|
      ensures ws[i].Id().value.height == records[i].height && ws[i].Id().value.hash == records[i].hash
              && ws[i].Id().value.previousHash == records[i].previousHash && ws[i].Encoded() == Encode(records[i])
    {
    }
  }

  lemma PackedChain(records: seq<CompactBlockRecord>)
    requires EncodeRange(records).Success?
    ensures Packable(records) && EncodeAll(Records(records)).Success?
    ensures var parts := EncodeAll(Records(records)).value;
            && |parts| == 1_000 && (forall i | 0 <= i < 1_000 :: Encode(records[i]) == Success(parts[i]))
            && EncodeRange(records).value
               == RangeBytes(records[0].height, records[999].height, records[0].previousHash, records[999].hash, parts)
  {
    hide Encode, CheckChain, EncodeAll, RangeBytes, Packable;
    ChainIsPackable(records);
    EncodeAllMeans(Records(records));
    forall i | 0 <= i < 1_000 ensures Records(records)[i].Encoded() == Encode(records[i]) {
    }
  }

  /** Records are packed exactly if they can be. */
  lemma PackableIsExact(records: seq<CompactBlockRecord>)
    ensures EncodeRange(records).Success? <==> Packable(records)
  {
    hide Encode, CheckChain, EncodeAll, RangeBytes;
    if EncodeRange(records).Success? {
      PackedChain(records);
    }
    if Packable(records) {
      var ws := Records(records);
      EncodeAllMeans(ws);
      ChainChecks(ws, seq(|records|, i requires 0 <= i < |records| => ws[i].Id().value));
    }
  }

  ghost function Offsets(parts: seq<seq<byte>>): seq<nat> {
    seq(|parts| + 1, i requires 0 <= i <= |parts| => |Body(parts[..i])|)
  }

  lemma PartsAreSmall(records: seq<CompactBlockRecord>, parts: seq<seq<byte>>)
    requires |records| == |parts| && forall i | 0 <= i < |parts| :: Encode(records[i]) == Success(parts[i])
    ensures RangeCodec.Small(parts)
  {
    hide Encode;
    forall i | 0 <= i < |parts| ensures |parts[i]| <= MAX_RECORD_BYTES {
      EncodeThenEnvelope(records[i]);
    }
  }

  lemma EntryStands(envelope: seq<byte>, parts: seq<seq<byte>>, i: nat)
    requires |envelope| == 73 && |parts| == 1_000 && i <= 1_000
    ensures EntryAt(envelope + Table(parts, 1_001) + Body(parts), Offsets(parts), i)
  {
    hide BigEndian, Body, Table;
    TableEntry(parts, 1_001, i);
    var b, table := envelope + Table(parts, 1_001) + Body(parts), Table(parts, 1_001);
    assert b[73 + 4 * i..73 + 4 * i + 4] == table[4 * i..4 * i + 4];
  }

  lemma SlotStands(envelope: seq<byte>, parts: seq<seq<byte>>, i: nat)
    requires |envelope| == 73 && |parts| == 1_000 && i < 1_000
    ensures SlotAt(envelope + Table(parts, 1_001) + Body(parts), Offsets(parts), parts, i)
  {
    hide BigEndian, Body, Table;
    BodyEntry(parts, i);
    var b, body := envelope + Table(parts, 1_001) + Body(parts), Body(parts);
    var from, to := |Body(parts[..i])|, |Body(parts[..i + 1])|;
    assert b[4_077 + from..4_077 + to] == body[from..to];
  }

  /** The layout of every packed range. */
  lemma RangeIsLaidOut(records: seq<CompactBlockRecord>, b: seq<byte>)
    returns (parts: seq<seq<byte>>, offsets: seq<nat>)
    requires EncodeRange(records) == Success(b)
    ensures LaidOut(b, records, parts, offsets)
  {
    hide Encode, EncodeRange, BigEndian, Body, Table, EncodeAll, EntryAt, SlotAt;
    PackedChain(records);
    parts, offsets := EncodeAll(Records(records)).value, Offsets(EncodeAll(Records(records)).value);
    PartsAreSmall(records, parts);
    var envelope := RangeEnvelope(records[0].height, records[999].height, records[0].previousHash, records[999].hash);
    assert b == envelope + Table(parts, 1_001) + Body(parts);
    BodyOfNothing(parts);
    assert parts[..1_000] == parts;
    forall i | 0 <= i <= 1_000 ensures EntryAt(b, offsets, i) {
      EntryStands(envelope, parts, i);
    }
    forall i | 0 <= i < 1_000 ensures SlotAt(b, offsets, parts, i) {
      SlotStands(envelope, parts, i);
    }
    EnvelopeStands(records[0].height, records[999].height, records[0].previousHash, records[999].hash,
                   Table(parts, 1_001) + Body(parts));
    assert b == envelope + (Table(parts, 1_001) + Body(parts));
  }

  lemma EnvelopeStands(first: u32, last: u32, parent: Digest, terminal: Digest, rest: seq<byte>)
    ensures var b := RangeEnvelope(first, last, parent, terminal) + rest;
            && b[0] == 1 && b[1..5] == BigEndian(first, 4) && b[5..9] == BigEndian(last, 4)
            && b[9..41] == parent && b[41..73] == terminal
  {
    hide BigEndian;
    var b := RangeEnvelope(first, last, parent, terminal) + rest;
    assert b[1..5] == BigEndian(first, 4) && b[5..9] == BigEndian(last, 4);
    assert b[9..41] == parent && b[41..73] == terminal;
  }

  /** The first entry of the table and its end do not allow another length. */
  lemma OtherLengthFails(b: seq<byte>, c: seq<byte>, offsets: seq<nat>)
    requires |offsets| == 1_001 && 4_077 <= |b| && EntryAt(b, offsets, 1_000) && offsets[1_000] <= U32_MAX
    requires 4_077 <= |c| && |c| != 4_077 + offsets[1_000] && c[..4_077] == b[..4_077] && NewDecoder(b).Success?
    ensures NewDecoder(c) == Failure(Length)
  {
    hide BigEndian, FromBigEndian;
    Pow256Widths();
    BigEndianReads(offsets[1_000], 4);
    assert c[1..5] == b[..4_077][1..5] == b[1..5] && c[5..9] == b[..4_077][5..9] == b[5..9];
    var table := c[73..4_077];
    assert table[4_000..4_004] == c[4_073..4_077] == b[..4_077][4_073..4_077] == b[4_073..4_077];
  }

  /** Every strict prefix of a packed range is refused as truncated, or by its length if the table is
      whole; so are bytes behind it; and another version is named. */
  lemma SpoiledRangeIsNamed(records: seq<CompactBlockRecord>, b: seq<byte>, k: nat, more: seq<byte>, version: byte)
    requires EncodeRange(records) == Success(b)
    ensures k < |b| ==> NewDecoder(b[..k]) == Failure(if k < 4_077 then Truncated else Length)
    ensures more != [] ==> NewDecoder(b + more) == Failure(Length)
    ensures b != [] && (version != 1 ==> NewDecoder(b[0 := version]) == Failure(Version(version)))
  {
    hide Encode, EncodeRange, BigEndian, FromBigEndian, EntryAt, SlotAt;
    var parts, offsets := RangeIsLaidOut(records, b);
    PackedDecodes(records, b);
    EndFits(records, b, parts, offsets);
    if 4_077 <= k < |b| {
      assert b[..k][..4_077] == b[..4_077];
      OtherLengthFails(b, b[..k], offsets);
    } else if k < 4_077 {
      CutEnvelope(b, k);
    }
    if more != [] {
      assert (b + more)[..4_077] == b[..4_077];
      OtherLengthFails(b, b + more, offsets);
    }
  }

  lemma CutEnvelope(b: seq<byte>, k: nat)
    requires NewDecoder(b).Success? && k < 4_077 <= |b|
    ensures NewDecoder(b[..k]) == Failure(Truncated)
  {
    hide FromBigEndian, Decoder.Offset;
    if k >= 73 {
      assert b[..k][1..5] == b[1..5] && b[..k][5..9] == b[5..9];
    }
  }

  lemma PackedDecodes(records: seq<CompactBlockRecord>, b: seq<byte>)
    requires EncodeRange(records) == Success(b)
    ensures NewDecoder(b).Success?
  {
    hide Encode, EncodeAll, RangeBytes, NewDecoder;
    PackedChain(records);
    var parts := EncodeAll(Records(records)).value;
    PartsAreSmall(records, parts);
    HeightsRise(records, 999);
    WrittenDecodes(records[0].height, records[999].height, records[0].previousHash, records[999].hash, parts);
  }

  lemma {:induction false} HeightsRise(records: seq<CompactBlockRecord>, i: nat)
    requires Packable(records) && i < 1_000
    ensures records[i].height == records[0].height + i
  {
    hide Encode;
    if i > 0 {
      HeightsRise(records, i - 1);
    }
  }

  lemma EndFits(records: seq<CompactBlockRecord>, b: seq<byte>, parts: seq<seq<byte>>, offsets: seq<nat>)
    requires LaidOut(b, records, parts, offsets)
    ensures offsets[1_000] <= U32_MAX && EntryAt(b, offsets, 1_000) && |b| == 4_077 + offsets[1_000]
  {
    hide Encode, BigEndian, EntryAt;
    PartsAreSmall(records, parts);
    OffsetsRise(records, b, parts, offsets, 1_000);
  }

  lemma {:induction false} OffsetsRise(records: seq<CompactBlockRecord>, b: seq<byte>, parts: seq<seq<byte>>,
                                       offsets: seq<nat>, i: nat)
    requires LaidOut(b, records, parts, offsets) && RangeCodec.Small(parts) && i <= 1_000
    ensures offsets[i] <= i * 2_000_004
  {
    hide Encode, BigEndian, EntryAt;
    if i > 0 {
      OffsetsRise(records, b, parts, offsets, i - 1);
      assert SlotAt(b, offsets, parts, i - 1);
    }
  }
}
