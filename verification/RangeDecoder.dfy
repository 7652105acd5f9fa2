/** Random access to the records of a packed range, and why the codec is a bijection. */
module RangeDecoder {
  import opened Bytes
  import opened ChainTypes
  import opened RecordCodec
  import opened RangeCodec
  import Protobuf

  datatype Decoder = Decoder(start: u32, firstPreviousHash: Digest, terminalHash: Digest, offsets: seq<byte>,
                             body: seq<byte>) {
    predicate Valid() {
      |offsets| == TABLE_BYTES
    }

    function Offset(i: nat): nat
      requires Valid() && i <= RANGE_SIZE
    {
      FromBigEndian(offsets[4 * i..4 * i + 4])
    }

    /** The bytes of record `i` with its length field, if the offsets allow them. */
    function Slot(i: nat): Option<seq<byte>>
      requires Valid() && i < RANGE_SIZE
    {
      if Offset(i) <= Offset(i + 1) <= |body| then Some(body[Offset(i)..Offset(i + 1)]) else None
    }

    /** Record `i`: decoded, and at the height and between the hashes that the envelope gives. */
    function Record(payload: PayloadDecoder, i: nat): CodecResult<CompactBlockRecord>
      requires Valid()
    {
      if i >= RANGE_SIZE then Failure(RangeIndex)
      else
        match Slot(i)
        case None => Failure(Length)
        case Some(slot) =>
          if |slot| < 4 then Failure(Truncated)
          else
            var len := FromBigEndian(slot[..4]);
            if 4 + len > |slot| then Failure(Truncated)
            else
              var r :- Decode(payload, slot[4..4 + len]);
              if 4 + len < |slot| then Failure(TrailingBytes)
              else if start + i != r.height || (i == 0 && r.previousHash != firstPreviousHash)
                      || (i + 1 == RANGE_SIZE && r.hash != terminalHash) then Failure(InvalidRange)
              else Success(r)
    }
  }

  function NewDecoder(b: seq<byte>): (r: CodecResult<Decoder>)
    ensures r.Success? ==> r.value.Valid()
  {
    if b == [] then Failure(Truncated)
    else if b[0] != RANGE_FORMAT_VERSION then Failure(Version(b[0]))
    else if |b| < RANGE_ENVELOPE_BYTES then Failure(Truncated)
    else
      var start, end := FromBigEndian(b[1..5]), FromBigEndian(b[5..9]);
      if start % RANGE_SIZE != 0 || start + (RANGE_SIZE - 1) != end then Failure(InvalidRange)
      else if |b| < RANGE_ENVELOPE_BYTES + TABLE_BYTES then Failure(Truncated)
      else
        BigEndianWrites(b[1..5]);
        Pow256Widths();
        var body := b[RANGE_ENVELOPE_BYTES + TABLE_BYTES..];
        var d := Decoder(start, b[9..41], b[41..73], b[RANGE_ENVELOPE_BYTES..RANGE_ENVELOPE_BYTES + TABLE_BYTES], body);
        if d.Offset(0) != 0 || d.Offset(RANGE_SIZE) != |body|
           || (exists i | 1 <= i <= RANGE_SIZE :: d.Offset(i - 1) > d.Offset(i)) then Failure(Length)
        else Success(d)
  }

  // Writing, then decoding.

  lemma {:induction false} TableEntry(parts: seq<seq<byte>>, k: nat, i: nat)
    requires i < k <= |parts| + 1
    ensures Table(parts, k)[4 * i..4 * i + 4] == BigEndian(|Body(parts[..i])|, 4)
  {
    hide BigEndian, Body;
    TableStep(parts, k - 1);
    if i < k - 1 {
      TableEntry(parts, k - 1, i);
      assert Table(parts, k)[4 * i..4 * i + 4] == Table(parts, k - 1)[4 * i..4 * i + 4];
    }
  }

  lemma {:induction false} BodyEntry(parts: seq<seq<byte>>, i: nat)
    requires i < |parts|
    ensures |Body(parts[..i + 1])| == |Body(parts[..i])| + 4 + |parts[i]| <= |Body(parts)|
    ensures Body(parts)[|Body(parts[..i])|..|Body(parts[..i + 1])|] == Framed(parts[i])
  {
    hide BigEndian;
    assert parts[..i + 1][..i] == parts[..i];
    if i + 1 == |parts| {
      assert parts[..i + 1] == parts;
    } else {
      var init := parts[..|parts| - 1];
      assert init[..i] == parts[..i] && init[..i + 1] == parts[..i + 1];
      BodyEntry(init, i);
      assert Body(parts)[|Body(parts[..i])|..|Body(parts[..i + 1])|]
        == Body(init)[|Body(parts[..i])|..|Body(parts[..i + 1])|];
    }
  }

  lemma WrittenOffset(d: Decoder, parts: seq<seq<byte>>, i: nat)
    requires |parts| == RANGE_SIZE && Small(parts) && i <= RANGE_SIZE
    requires d.offsets == Table(parts, RANGE_SIZE + 1)
    ensures d.Offset(i) == |Body(parts[..i])|
  {
    hide BigEndian, FromBigEndian, Body, Table;
    TableEntry(parts, RANGE_SIZE + 1, i);
    OffsetsFit(parts[..i]);
    Pow256Widths();
    BigEndianReads(|Body(parts[..i])|, 4);
  }

  lemma EnvelopeFields(first: u32, last: u32, parent: Digest, terminal: Digest, rest: seq<byte>)
    ensures var b := RangeEnvelope(first, last, parent, terminal) + rest;
            && b[0] == RANGE_FORMAT_VERSION && FromBigEndian(b[1..5]) == first && FromBigEndian(b[5..9]) == last
            && b[9..41] == parent && b[41..73] == terminal
  {
    hide BigEndian, FromBigEndian;
    var b := RangeEnvelope(first, last, parent, terminal) + rest;
    assert b[1..5] == BigEndian(first, 4) && b[5..9] == BigEndian(last, 4);
    assert b[9..41] == parent && b[41..73] == terminal;
    Pow256Widths();
    BigEndianReads(first, 4);
    BigEndianReads(last, 4);
  }

  lemma WrittenDecodes(first: u32, last: u32, parent: Digest, terminal: Digest, parts: seq<seq<byte>>)
    requires |parts| == RANGE_SIZE && Small(parts) && first % RANGE_SIZE == 0 && first + RANGE_SIZE - 1 == last
    ensures NewDecoder(RangeBytes(first, last, parent, terminal, parts))
            == Success(Decoder(first, parent, terminal, Table(parts, RANGE_SIZE + 1), Body(parts)))
  {
    hide BigEndian, FromBigEndian, Body, Table, RangeEnvelope, Decoder.Offset;
    var table, body := Table(parts, RANGE_SIZE + 1), Body(parts);
    var envelope := RangeEnvelope(first, last, parent, terminal);
    var b := RangeBytes(first, last, parent, terminal, parts);
    assert b == envelope + (table + body);
    EnvelopeFields(first, last, parent, terminal, table + body);
    assert b[RANGE_ENVELOPE_BYTES..RANGE_ENVELOPE_BYTES + TABLE_BYTES] == table;
    assert b[RANGE_ENVELOPE_BYTES + TABLE_BYTES..] == body;
    var d := Decoder(first, parent, terminal, table, body);
    WrittenOffset(d, parts, 0);
    BodyOfNothing(parts);
    WrittenOffset(d, parts, RANGE_SIZE);
    assert parts[..RANGE_SIZE] == parts;
    forall i | 1 <= i <= RANGE_SIZE ensures d.Offset(i - 1) <= d.Offset(i) {
      WrittenOffset(d, parts, i - 1);
      WrittenOffset(d, parts, i);
      BodyEntry(parts, i - 1);
    }
  }

  lemma BodyOfNothing(parts: seq<seq<byte>>)
    ensures Body(parts[..0]) == []
  {
  }

  /** What the decoder finds at `i` of a written range is the record that was written there. */
  lemma WrittenSlot(d: Decoder, parts: seq<seq<byte>>, i: nat)
    requires |parts| == RANGE_SIZE && Small(parts) && i < RANGE_SIZE
    requires d.offsets == Table(parts, RANGE_SIZE + 1) && d.body == Body(parts)
    ensures d.Slot(i) == Some(Framed(parts[i]))
    ensures Framed(parts[i])[4..] == parts[i] && FromBigEndian(Framed(parts[i])[..4]) == |parts[i]|
  {
    hide BigEndian, FromBigEndian, Body, Table, Decoder.Offset;
    WrittenOffset(d, parts, i);
    WrittenOffset(d, parts, i + 1);
    BodyEntry(parts, i);
    Pow256Widths();
    BigEndianReads(|parts[i]|, 4);
    assert Framed(parts[i])[..4] == BigEndian(|parts[i]|, 4);
  }

  function Records(records: seq<CompactBlockRecord>): seq<RangeRecord> {
    seq(|records|, i requires 0 <= i < |records| => RangeRecord.Record(records[i]))
  }

  function Rows(rows: seq<seq<byte>>): seq<RangeRecord> {
    seq(|rows|, i requires 0 <= i < |rows| => Row(rows[i]))
  }

  /** Decoding record `i` of an encoded range gives record `i`. */
  lemma EncodeThenDecodeRange(payload: PayloadDecoder, records: seq<CompactBlockRecord>, i: nat)
    requires Inverts(payload) && EncodeRange(records).Success? && i < RANGE_SIZE
    ensures |records| == RANGE_SIZE
    ensures var d := NewDecoder(EncodeRange(records).value);
            d.Success? && d.value.start == records[0].height && d.value.Record(payload, i) == Success(records[i])
  {
    hide Body, Table, CheckChain, EncodeAll, Encode, NewDecoder, RangeBytes, Inverts, Decoder.Record;
    var rs := Records(records);
    CheckChainMeans(rs);
    EncodeAllMeans(rs);
    WrittenPartsAreSmall(rs);
    var ids, parts := CheckChain(rs).value, EncodeAll(rs).value;
    WrittenDecodes(ids[0].height, ids[RANGE_SIZE - 1].height, ids[0].previousHash, ids[RANGE_SIZE - 1].hash, parts);
    assert rs[0].Id() == Success(ids[0]) && rs[i].Id() == Success(ids[i]);
    assert rs[RANGE_SIZE - 1].Id() == Success(ids[RANGE_SIZE - 1]);
    assert rs[i].Encoded() == Success(parts[i]);
    WrittenRecord(payload, NewDecoder(EncodeRange(records).value).value, parts, records[i], i);
  }

  lemma WrittenRecord(payload: PayloadDecoder, d: Decoder, parts: seq<seq<byte>>, r: CompactBlockRecord, i: nat)
    requires Inverts(payload) && |parts| == RANGE_SIZE && Small(parts) && i < RANGE_SIZE
    requires d.offsets == Table(parts, RANGE_SIZE + 1) && d.body == Body(parts)
    requires Encode(r) == Success(parts[i]) && r.height == d.start + i
    requires i == 0 ==> r.previousHash == d.firstPreviousHash
    requires i + 1 == RANGE_SIZE ==> r.hash == d.terminalHash
    ensures d.Record(payload, i) == Success(r)
  {
    hide Body, Table, BigEndian, FromBigEndian, Encode, Decode, Inverts, Decoder.Slot;
    WrittenSlot(d, parts, i);
    EncodeThenDecode(payload, r);
    assert Framed(parts[i])[4..4 + |parts[i]|] == parts[i];
  }

  /** Sealing rows copies their bytes, and gives what encoding the records again would give. */
  lemma RowsEncodeAlike(records: seq<CompactBlockRecord>, rows: seq<seq<byte>>)
    requires |rows| == |records|
    requires forall i | 0 <= i < |records| :: Encode(records[i]) == Success(rows[i])
    ensures EncodeRangeFromBytes(rows) == EncodeRange(records)
  {
    hide Body, Table, BigEndian, CheckChain, EncodeAll, Encode, RangeBytes, ReadEnvelope;
    if |records| == RANGE_SIZE {
      var rs, ws := Records(records), Rows(rows);
      forall i | 0 <= i < |records|
        ensures rs[i].Id() == ws[i].Id() && rs[i].Encoded() == ws[i].Encoded()
      {
        EncodeThenEnvelope(records[i]);
      }
      SameChecks(rs, ws);
    }
  }

  lemma {:induction false} SameChecks(rs: seq<RangeRecord>, ws: seq<RangeRecord>)
    requires |rs| == |ws|
    requires forall i | 0 <= i < |rs| :: rs[i].Id() == ws[i].Id() && rs[i].Encoded() == ws[i].Encoded()
    ensures rs != [] ==> CheckChain(rs) == CheckChain(ws)
    ensures EncodeAll(rs) == EncodeAll(ws)
  {
    hide RangeRecord.Id, RangeRecord.Encoded;
    if rs != [] {
      SameChecks(rs[..|rs| - 1], ws[..|ws| - 1]);
    }
  }

  // Decoding, then writing.

  /** Slot `i` is the record bytes `part` behind their length. */
  ghost predicate FramedSlot(d: Decoder, i: nat, part: seq<byte>) {
    && d.Valid() && i < RANGE_SIZE && d.Offset(i) <= d.Offset(i + 1) <= |d.body|
    && d.body[d.Offset(i)..d.Offset(i + 1)] == Framed(part)
  }

  /** The record slices of a decoder whose slots are all framed correctly. */
  ghost predicate Slices(d: Decoder, parts: seq<seq<byte>>) {
    && d.Valid() && |parts| == RANGE_SIZE && d.Offset(0) == 0
    && forall i | 0 <= i < RANGE_SIZE :: FramedSlot(d, i, parts[i])
  }

  lemma {:induction false} BodyFromSlices(d: Decoder, parts: seq<seq<byte>>, k: nat)
    requires Slices(d, parts) && k <= RANGE_SIZE
    ensures d.Offset(k) <= |d.body| && Body(parts[..k]) == d.body[..d.Offset(k)]
  {
    hide BigEndian, FromBigEndian, Decoder.Offset;
    if k > 0 {
      BodyFromSlices(d, parts, k - 1);
      assert parts[..k][..k - 1] == parts[..k - 1];
      assert FramedSlot(d, k - 1, parts[k - 1]);
      var w := d.body[..d.Offset(k)];
      assert w == w[..d.Offset(k - 1)] + w[d.Offset(k - 1)..];
      assert w[..d.Offset(k - 1)] == d.body[..d.Offset(k - 1)];
      assert w[d.Offset(k - 1)..] == d.body[d.Offset(k - 1)..d.Offset(k)];
    }
  }

  lemma {:induction false} TableFromSlices(d: Decoder, parts: seq<seq<byte>>, k: nat)
    requires Slices(d, parts) && k <= RANGE_SIZE + 1
    ensures Table(parts, k) == d.offsets[..4 * k]
  {
    hide BigEndian, FromBigEndian, Body, FramedSlot;
    if k > 0 {
      TableFromSlices(d, parts, k - 1);
      BodyFromSlices(d, parts, k - 1);
      BigEndianWrites(d.offsets[4 * (k - 1)..4 * k]);
      TableStep(parts, k - 1);
      assert d.offsets[..4 * k] == d.offsets[..4 * (k - 1)] + d.offsets[4 * (k - 1)..4 * k];
    }
  }

  /** The record bytes of slot `i`. */
  ghost function Part(d: Decoder, i: nat): seq<byte>
    requires d.Valid() && i < RANGE_SIZE
  {
    if d.Offset(i) + 4 <= d.Offset(i + 1) <= |d.body| then d.body[d.Offset(i) + 4..d.Offset(i + 1)] else []
  }

  /** The bytes of an accepted record carry the identity of the record. */
  ghost predicate Identifies(part: seq<byte>, r: CompactBlockRecord) {
    match ReadEnvelope(part)
    case Success(e) => e.height == r.height && e.hash == r.hash && e.previousHash == r.previousHash
    case Failure(_) => false
  }

  /** An accepted slot is the framing of the record bytes inside it. */
  lemma SlotIsFramed(d: Decoder, payload: PayloadDecoder, i: nat)
    requires d.Valid() && i < RANGE_SIZE && d.Record(payload, i).Success?
    ensures FramedSlot(d, i, Part(d, i)) && Identifies(Part(d, i), d.Record(payload, i).value)
  {
    hide BigEndian, FromBigEndian, ReadEnvelope, Decoder.Offset;
    var slot := d.Slot(i).value;
    BigEndianWrites(slot[..4]);
    assert slot[4..] == Part(d, i) && slot == slot[..4] + slot[4..];
    assert slot[4..4 + FromBigEndian(slot[..4])] == slot[4..];
  }

  /** The identities of a chain are all that the check of the writer looks at. */
  lemma {:induction false} ChainChecks(records: seq<RangeRecord>, ids: seq<Envelope>)
    requires |ids| == |records| > 0 && ids[0].height % RANGE_SIZE == 0
    requires forall i | 0 <= i < |ids| :: records[i].Id() == Success(ids[i])
    requires forall i | 0 < i < |ids| ::
               ids[i].height == ids[i - 1].height + 1 && ids[i].previousHash == ids[i - 1].hash
    ensures CheckChain(records) == Success(ids)
  {
    hide RangeRecord.Id;
    if |records| > 1 {
      ChainChecks(records[..|records| - 1], ids[..|ids| - 1]);
      assert ids == ids[..|ids| - 1] + [ids[|ids| - 1]];
    } else {
      assert ids == [ids[0]];
    }
  }

  /** The records of a decoder all decode, and each links to the one before. */
  ghost predicate DecodesLinked(d: Decoder, payload: PayloadDecoder) {
    && d.Valid()
    && (forall i | 0 <= i < RANGE_SIZE :: d.Record(payload, i).Success?)
    && forall i | 0 < i < RANGE_SIZE ::
         d.Record(payload, i).value.previousHash == d.Record(payload, i - 1).value.hash
  }

  ghost function RecordSlices(d: Decoder): seq<seq<byte>>
    requires d.Valid()
  {
    seq(RANGE_SIZE, i requires 0 <= i < RANGE_SIZE => Part(d, i))
  }

  lemma SlicesOf(d: Decoder, payload: PayloadDecoder)
    requires DecodesLinked(d, payload) && d.Offset(0) == 0
    ensures Slices(d, RecordSlices(d))
    ensures forall i | 0 <= i < RANGE_SIZE :: Identifies(RecordSlices(d)[i], d.Record(payload, i).value)
  {
    hide Decoder.Offset, FramedSlot, Identifies, Decoder.Record, Part;
    var parts := RecordSlices(d);
    forall i | 0 <= i < RANGE_SIZE
      ensures FramedSlot(d, i, parts[i]) && Identifies(parts[i], d.Record(payload, i).value)
    {
      SlotIsFramed(d, payload, i);
    }
  }

  /** The slices pass the chain check of the writer, with the identities of the envelope. */
  lemma SlicesChain(d: Decoder, payload: PayloadDecoder, parts: seq<seq<byte>>)
    requires DecodesLinked(d, payload) && d.start % RANGE_SIZE == 0 && |parts| == RANGE_SIZE
    requires forall i | 0 <= i < RANGE_SIZE :: Identifies(parts[i], d.Record(payload, i).value)
    ensures CheckChain(Rows(parts)).Success?
    ensures var ids := CheckChain(Rows(parts)).value;
            && |ids| == RANGE_SIZE
            && ids[0].height == d.start && ids[RANGE_SIZE - 1].height == d.start + RANGE_SIZE - 1
            && ids[0].previousHash == d.firstPreviousHash && ids[RANGE_SIZE - 1].hash == d.terminalHash
  {
    hide ReadEnvelope, CheckChain, Decoder.Record;
    forall i | 0 <= i < RANGE_SIZE
      ensures ReadEnvelope(parts[i]).Success?
    {
      assert Identifies(parts[i], d.Record(payload, i).value);
    }
    var ids := seq(RANGE_SIZE, i requires 0 <= i < RANGE_SIZE => ReadEnvelope(parts[i]).value);
    forall i | 0 <= i < RANGE_SIZE
      ensures var r := d.Record(payload, i).value;
              ids[i].height == r.height == d.start + i && ids[i].hash == r.hash && ids[i].previousHash == r.previousHash
    {
      assert Identifies(parts[i], d.Record(payload, i).value);
      RecordFits(d, payload, i);
    }
    RecordFits(d, payload, 0);
    RecordFits(d, payload, RANGE_SIZE - 1);
    ChainChecks(Rows(parts), ids);
  }

  lemma RecordFits(d: Decoder, payload: PayloadDecoder, i: nat)
    requires d.Valid() && i < RANGE_SIZE && d.Record(payload, i).Success?
    ensures var r := d.Record(payload, i).value;
            && r.height == d.start + i && (i == 0 ==> r.previousHash == d.firstPreviousHash)
            && (i + 1 == RANGE_SIZE ==> r.hash == d.terminalHash)
  {
    hide Decoder.Slot, Decode, FromBigEndian;
  }

  lemma {:induction false} RowsEncode(rows: seq<seq<byte>>)
    ensures EncodeAll(Rows(rows)) == Success(rows)
  {
    var ws := Rows(rows);
    if rows != [] {
      RowsEncode(rows[..|rows| - 1]);
      assert ws[..|ws| - 1] == Rows(rows[..|rows| - 1]);
      assert rows == rows[..|rows| - 1] + [rows[|rows| - 1]];
    } else {
      assert ws == [];
    }
  }

  /** A blob whose records all decode and link is, byte for byte, the range of its own slices. */
  lemma DecodeThenEncodeRange(payload: PayloadDecoder, b: seq<byte>)
    requires NewDecoder(b).Success? && DecodesLinked(NewDecoder(b).value, payload)
    ensures EncodeRangeFromBytes(RecordSlices(NewDecoder(b).value)) == Success(b)
  {
    hide Decoder.Offset, Framed, ReadEnvelope, CheckChain, Table, Body, EncodeAll, Slices, DecodesLinked, BigEndian;
    hide FromBigEndian, RecordSlices, Identifies, RangeEnvelope;
    var d := NewDecoder(b).value;
    var parts := RecordSlices(d);
    SlicesOf(d, payload);
    SliceCount(d, parts);
    SlicesChain(d, payload, parts);
    RowsEncode(parts);
    WholeBody(d, parts);
    TableFromSlices(d, parts, RANGE_SIZE + 1);
    assert d.offsets[..4 * (RANGE_SIZE + 1)] == d.offsets;
    RebuiltEnvelope(b);
    assert b == b[..73] + b[73..73 + TABLE_BYTES] + b[73 + TABLE_BYTES..];
  }

  lemma SliceCount(d: Decoder, parts: seq<seq<byte>>)
    requires Slices(d, parts)
    ensures |parts| == RANGE_SIZE
  {
  }

  lemma WholeBody(d: Decoder, parts: seq<seq<byte>>)
    requires Slices(d, parts) && d.Offset(RANGE_SIZE) == |d.body|
    ensures Body(parts) == d.body
  {
    hide Decoder.Offset, Body;
    BodyFromSlices(d, parts, RANGE_SIZE);
    assert parts[..RANGE_SIZE] == parts && d.body[..|d.body|] == d.body;
  }

  lemma RebuiltEnvelope(b: seq<byte>)
    requires NewDecoder(b).Success?
    ensures var d := NewDecoder(b).value;
            d.start + RANGE_SIZE - 1 <= U32_MAX
            && RangeEnvelope(d.start, d.start + RANGE_SIZE - 1, d.firstPreviousHash, d.terminalHash) == b[..73]
  {
    hide BigEndian, FromBigEndian, Decoder.Offset;
    BigEndianWrites(b[1..5]);
    BigEndianWrites(b[5..9]);
    Pow256Widths();
    assert b[..73] == [b[0]] + b[1..5] + b[5..9] + b[9..41] + b[41..73];
  }
}
