/** Packed ranges of 1,000 block records with an offset table: the writer and the decoder. */
module RangeCodec {
  import opened Bytes
  import opened ChainTypes
  import opened RecordCodec
  import Protobuf

  const RANGE_FORMAT_VERSION: byte := 1
  /** Version, first and last height, parent hash and last hash. */
  const RANGE_ENVELOPE_BYTES: nat := 73
  const TABLE_BYTES: nat := 4 * (RANGE_SIZE + 1)

  // The layout, as a function of the encoded records.

  function Framed(part: seq<byte>): seq<byte> {
    BigEndian(|part|, 4) + part
  }

  function Body(parts: seq<seq<byte>>): seq<byte> {
    if parts == [] then [] else Body(parts[..|parts| - 1]) + Framed(parts[|parts| - 1])
  }

  /** The first `k` entries of the offset table. */
  function Table(parts: seq<seq<byte>>, k: nat): (t: seq<byte>)
    requires k <= |parts| + 1
    ensures |t| == 4 * k
  {
    if k == 0 then [] else Table(parts, k - 1) + BigEndian(|Body(parts[..k - 1])|, 4)
  }

  function RangeEnvelope(first: u32, last: u32, parent: Digest, terminal: Digest): (e: seq<byte>)
    ensures |e| == RANGE_ENVELOPE_BYTES
  {
    [RANGE_FORMAT_VERSION] + BigEndian(first, 4) + BigEndian(last, 4) + parent + terminal
  }

  function RangeBytes(first: u32, last: u32, parent: Digest, terminal: Digest, parts: seq<seq<byte>>): seq<byte> {
    RangeEnvelope(first, last, parent, terminal) + Table(parts, |parts| + 1) + Body(parts)
  }

  // What a range is made of: records, or rows that are encoded already.

  datatype RangeRecord = Record(record: CompactBlockRecord) | Row(bytes: seq<byte>) {
    function Id(): CodecResult<Envelope> {
      match this
      case Record(r) => Success(Envelope(r.height, r.hash, r.previousHash, Protobuf.Block(r)))
      case Row(b) => ReadEnvelope(b)
    }

    function Encoded(): CodecResult<seq<byte>> {
      match this
      case Record(r) => Encode(r)
      case Row(b) => Success(b)
    }
  }

  /** The identities of `records`, if they are readable, consecutive and linked from the first on. */
  function CheckChain(records: seq<RangeRecord>): (r: CodecResult<seq<Envelope>>)
    requires records != []
    ensures r.Success? ==> |r.value| == |records|
  {
    if |records| == 1 then
      var id :- records[0].Id();
      if id.height % RANGE_SIZE != 0 then Failure(InvalidRange) else Success([id])
    else
      var ids :- CheckChain(records[..|records| - 1]);
      var id :- records[|records| - 1].Id();
      var below := ids[|ids| - 1];
      if below.height + 1 != id.height || id.previousHash != below.hash then Failure(InvalidRange)
      else Success(ids + [id])
  }

  /** The encodings of `records`, or the error of the first that does not encode. */
  function EncodeAll(records: seq<RangeRecord>): (r: CodecResult<seq<seq<byte>>>)
    ensures r.Success? ==> |r.value| == |records|
  {
    if records == [] then Success([])
    else
      var parts :- EncodeAll(records[..|records| - 1]);
      var part :- records[|records| - 1].Encoded();
      Success(parts + [part])
  }

  function WriteRange(records: seq<RangeRecord>): CodecResult<seq<byte>> {
    if |records| != RANGE_SIZE then Failure(InvalidRange)
    else
      var ids :- CheckChain(records);
      var parts :- EncodeAll(records);
      var last := ids[|ids| - 1];
      Success(RangeBytes(ids[0].height, last.height, ids[0].previousHash, last.hash, parts))
  }

  function EncodeRange(records: seq<CompactBlockRecord>): CodecResult<seq<byte>> {
    WriteRange(seq(|records|, i requires 0 <= i < |records| => Record(records[i])))
  }

  function EncodeRangeFromBytes(rows: seq<seq<byte>>): CodecResult<seq<byte>> {
    WriteRange(seq(|rows|, i requires 0 <= i < |rows| => Row(rows[i])))
  }

  // Facts about the parts.

  ghost predicate Small(parts: seq<seq<byte>>) {
    forall i | 0 <= i < |parts| :: |parts[i]| <= MAX_RECORD_BYTES
  }

  lemma {:induction false} BodyFits(parts: seq<seq<byte>>)
    requires Small(parts)
    ensures |Body(parts)| <= |parts| * (MAX_RECORD_BYTES + 4)
  {
    if parts != [] {
      BodyFits(parts[..|parts| - 1]);
    }
  }

  /** No offset of a range needs more than 32 bits. */
  lemma OffsetsFit(parts: seq<seq<byte>>)
    requires Small(parts) && |parts| <= RANGE_SIZE
    ensures |Body(parts)| <= U32_MAX
  {
    BodyFits(parts);
  }

  lemma {:induction false} CheckChainMeans(records: seq<RangeRecord>)
    requires records != [] && CheckChain(records).Success?
    ensures var ids := CheckChain(records).value;
            && |ids| == |records| && ids[0].height % RANGE_SIZE == 0
            && (forall i | 0 <= i < |ids| :: records[i].Id() == Success(ids[i]))
            && (forall i | 0 <= i < |ids| :: ids[i].height == ids[0].height + i)
            && (forall i | 0 < i < |ids| :: ids[i].previousHash == ids[i - 1].hash)
  {
    hide ReadEnvelope, Protobuf.Block;
    if |records| > 1 {
      CheckChainMeans(records[..|records| - 1]);
    }
  }

  lemma {:induction false} EncodeAllMeans(records: seq<RangeRecord>)
    ensures EncodeAll(records).Success? <==> forall i | 0 <= i < |records| :: records[i].Encoded().Success?
    ensures EncodeAll(records).Success? ==>
            forall i | 0 <= i < |records| :: records[i].Encoded() == Success(EncodeAll(records).value[i])
  {
    hide ReadEnvelope, Encode;
    if records != [] {
      EncodeAllMeans(records[..|records| - 1]);
      assert records == records[..|records| - 1] + [records[|records| - 1]];
    }
  }

  lemma WrittenPartsAreSmall(records: seq<RangeRecord>)
    requires records != [] && CheckChain(records).Success? && EncodeAll(records).Success?
    ensures Small(EncodeAll(records).value)
  {
    hide CheckChain, EncodeAll, ReadEnvelope, Encode;
    CheckChainMeans(records);
    EncodeAllMeans(records);
    forall i | 0 <= i < |records|
      ensures |EncodeAll(records).value[i]| <= MAX_RECORD_BYTES
    {
      PartIsSmall(records[i]);
    }
  }

  lemma PartIsSmall(r: RangeRecord)
    requires r.Id().Success? && r.Encoded().Success?
    ensures |r.Encoded().value| <= MAX_RECORD_BYTES
  {
    if r.Record? {
      EncodeThenEnvelope(r.record);
    }
  }

  // The writer as it runs: one pass, with the table and the length fields patched afterwards.

  /** `after` is `before` with `value` in its four bytes at `offset`, and no other byte changed. */
  ghost predicate Holds(before: seq<byte>, offset: nat, value: nat, after: seq<byte>) {
    && |after| == |before| && offset + 4 <= |before| && FromBigEndian(after[offset..offset + 4]) == value
    && forall i | 0 <= i < |before| && (i < offset || offset + 4 <= i) :: after[i] == before[i]
  }

  method SetU32(bytes: seq<byte>, offset: nat, value: nat) returns (r: CodecResult<seq<byte>>)
    requires offset + 4 <= |bytes|
    ensures value > U32_MAX ==> r == Failure(Length)
    ensures value <= U32_MAX ==> r.Success? && Holds(bytes, offset, value, r.value)
  {
    if value > U32_MAX {
      return Failure(Length);
    }
    var field := BigEndian(value, 4);
    Pow256Widths();
    BigEndianReads(value, 4);
    r := Success(bytes[..offset] + field + bytes[offset + 4..]);
    assert r.value[offset..offset + 4] == field;
  }

  /** There is only one such buffer. */
  lemma HoldsOne(before: seq<byte>, offset: nat, value: nat, after: seq<byte>)
    requires Holds(before, offset, value, after)
    ensures after == before[..offset] + BigEndian(value, 4) + before[offset + 4..]
  {
    BigEndianWrites(after[offset..offset + 4]);
    assert after == after[..offset] + after[offset..offset + 4] + after[offset + 4..];
  }

  lemma Patched(head: seq<byte>, field: seq<byte>, tail: seq<byte>)
    requires |field| == 4
    ensures (head + field + tail)[..|head|] == head && (head + field + tail)[|head| + 4..] == tail
  {
  }

  function Zeros(n: nat): (z: seq<byte>)
    ensures |z| == n
  {
    seq(n, _ => 0)
  }

  /** The buffer after `i` records: the rest of the table is still zero. */
  function Partial(envelope: seq<byte>, parts: seq<seq<byte>>, k: nat, size: nat): seq<byte>
    requires |parts| <= size && k <= |parts| + 1 && k <= size + 1
  {
    envelope + Table(parts, k) + Zeros(4 * (size + 1 - k)) + Body(parts)
  }

  /** Filling the table entry of the next record is one patch. */
  lemma PatchTable(envelope: seq<byte>, parts: seq<seq<byte>>, size: nat, after: seq<byte>)
    requires |parts| <= size
    requires Holds(Partial(envelope, parts, |parts|, size), |envelope| + 4 * |parts|, |Body(parts)|, after)
    ensures after == Partial(envelope, parts, |parts| + 1, size)
  {
    hide Body, BigEndian, Table, Holds;
    var k := |parts|;
    HoldsOne(Partial(envelope, parts, k, size), |envelope| + 4 * k, |Body(parts)|, after);
    var head, tail := envelope + Table(parts, k), Zeros(4 * (size - k)) + Body(parts);
    assert Zeros(4 * (size + 1 - k)) == Zeros(4) + Zeros(4 * (size - k));
    assert Partial(envelope, parts, k, size) == head + Zeros(4) + tail;
    Patched(head, Zeros(4), tail);
    TableStep(parts, k);
    assert parts[..k] == parts;
    assert Partial(envelope, parts, k + 1, size) == head + BigEndian(|Body(parts)|, 4) + tail;
  }

  lemma TableStep(parts: seq<seq<byte>>, k: nat)
    requires k <= |parts|
    ensures Table(parts, k + 1) == Table(parts, k) + BigEndian(|Body(parts[..k])|, 4)
  {
  }

  /** Appending a zero length and a record, then patching the length, appends the framed record. */
  lemma PatchLength(before: seq<byte>, part: seq<byte>, after: seq<byte>)
    requires Holds(before + Zeros(4) + part, |before|, |part|, after)
    ensures after == before + Framed(part)
  {
    hide BigEndian, Holds;
    HoldsOne(before + Zeros(4) + part, |before|, |part|, after);
    Patched(before, Zeros(4), part);
    assert before + BigEndian(|part|, 4) + part == before + (BigEndian(|part|, 4) + part);
  }

  /** The table entries written so far do not depend on the record that is appended. */
  lemma {:induction false} TableIsStable(parts: seq<seq<byte>>, part: seq<byte>, k: nat)
    requires k <= |parts| + 1
    ensures Table(parts + [part], k) == Table(parts, k)
  {
    if k > 0 {
      TableIsStable(parts, part, k - 1);
      assert (parts + [part])[..k - 1] == parts[..k - 1];
    }
  }

  lemma AppendRecord(envelope: seq<byte>, parts: seq<seq<byte>>, part: seq<byte>, size: nat)
    requires |parts| < size
    ensures Partial(envelope, parts, |parts| + 1, size) + Framed(part)
            == Partial(envelope, parts + [part], |parts| + 1, size)
  {
    hide BigEndian, Table;
    TableIsStable(parts, part, |parts| + 1);
    assert (parts + [part])[..|parts|] == parts;
    assert Body(parts + [part]) == Body(parts) + Framed(part);
  }

  method RunWriteRange(records: seq<RangeRecord>) returns (r: CodecResult<seq<byte>>)
    ensures r == WriteRange(records)
  {
    hide CheckChain, EncodeAll, Body, Table, BigEndian, Partial, Encode, ReadEnvelope;
    if |records| != RANGE_SIZE {
      return Failure(InvalidRange);
    }
    var chain := RunCheckChain(records);
    if chain.Failure? {
      return Failure(chain.error);
    }
    var (first, last) := chain.value;
    var envelope := RangeEnvelope(first.height, last.height, first.previousHash, last.hash);
    r := WriteRecords(records, envelope);
  }

  /** The check loop keeps only the first identity and the one before. */
  method RunCheckChain(records: seq<RangeRecord>) returns (r: CodecResult<(Envelope, Envelope)>)
    requires records != []
    ensures r.Success? <==> CheckChain(records).Success?
    ensures r.Failure? ==> CheckChain(records) == Failure(r.error)
    ensures r.Success? ==> var ids := CheckChain(records).value; |ids| > 0 && r.value == (ids[0], ids[|ids| - 1])
  {
    hide ReadEnvelope, Protobuf.Block;
    assert records[..1] == [records[0]];
    FailureIsFinal(records, 1);
    var first :- records[0].Id();
    if first.height % RANGE_SIZE != 0 {
      return Failure(InvalidRange);
    }
    var last := first;
    for i := 1 to |records|
      invariant CheckChain(records[..i]).Success?
      invariant var ids := CheckChain(records[..i]).value; |ids| > 0 && ids[0] == first && ids[|ids| - 1] == last
    {
      assert records[..i + 1][..i] == records[..i];
      FailureIsFinal(records, i + 1);
      var id :- records[i].Id();
      if last.height + 1 != id.height || id.previousHash != last.hash {
        return Failure(InvalidRange);
      }
      last := id;
    }
    assert records[..|records|] == records;
    r := Success((first, last));
  }

  lemma {:induction false} FailureIsFinal(records: seq<RangeRecord>, k: nat)
    requires 1 <= k <= |records|
    ensures CheckChain(records[..k]).Failure? ==> CheckChain(records) == Failure(CheckChain(records[..k]).error)
    decreases |records| - k
  {
    hide ReadEnvelope, Protobuf.Block;
    if k < |records| {
      assert records[..k + 1][..k] == records[..k];
      FailureIsFinal(records, k + 1);
    } else {
      assert records[..k] == records;
    }
  }

  lemma {:induction false} EncodeFailureIsFinal(records: seq<RangeRecord>, k: nat)
    requires k <= |records|
    ensures EncodeAll(records[..k]).Failure? ==> EncodeAll(records) == Failure(EncodeAll(records[..k]).error)
    ensures EncodeAll(records).Success? ==> EncodeAll(records[..k]).Success?
    decreases |records| - k
  {
    hide ReadEnvelope, Encode;
    if k < |records| {
      assert records[..k + 1][..k] == records[..k];
      EncodeFailureIsFinal(records, k + 1);
    } else {
      assert records[..k] == records;
    }
  }

  method WriteRecords(records: seq<RangeRecord>, envelope: seq<byte>) returns (r: CodecResult<seq<byte>>)
    requires |records| == RANGE_SIZE && |envelope| == RANGE_ENVELOPE_BYTES
    requires CheckChain(records).Success?
    ensures EncodeAll(records).Failure? ==> r == Failure(EncodeAll(records).error)
    ensures EncodeAll(records).Success? ==>
            r == Success(envelope + Table(EncodeAll(records).value, RANGE_SIZE + 1) + Body(EncodeAll(records).value))
  {
    hide CheckChain, EncodeAll, Body, Table, BigEndian, Partial, Encode, ReadEnvelope, Holds;
    var bytes := envelope + Zeros(TABLE_BYTES);
    ghost var parts := [];
    PartialStart(envelope, RANGE_SIZE);
    for i := 0 to RANGE_SIZE
      invariant |parts| == i && Small(parts) && EncodeAll(records[..i]) == Success(parts)
      invariant bytes == Partial(envelope, parts, i, RANGE_SIZE)
    {
      OffsetsFit(parts);
      PartialLength(envelope, parts, i, RANGE_SIZE);
      var offset := SetU32(bytes, RANGE_ENVELOPE_BYTES + 4 * i, |bytes| - RANGE_ENVELOPE_BYTES - TABLE_BYTES);
      if offset.Failure? {
        return offset;
      }
      PatchTable(envelope, parts, RANGE_SIZE, offset.value);
      bytes := offset.value;
      var part := records[i].Encoded();
      NextPart(records, i, parts);
      if part.Failure? {
        return Failure(part.error);
      }
      ghost var before := bytes;
      var lengthOffset := |bytes|;
      bytes := bytes + Zeros(4) + part.value;
      var length := SetU32(bytes, lengthOffset, |bytes| - lengthOffset - 4);
      if length.Failure? {
        return length;
      }
      PatchLength(before, part.value, length.value);
      bytes := length.value;
      AppendRecord(envelope, parts, part.value, RANGE_SIZE);
      parts := parts + [part.value];
    }
    assert records[..RANGE_SIZE] == records;
    OffsetsFit(parts);
    PartialLength(envelope, parts, RANGE_SIZE, RANGE_SIZE);
    PartialEnd(envelope, parts);
    r := SetU32(bytes, RANGE_ENVELOPE_BYTES + 4 * RANGE_SIZE, |bytes| - RANGE_ENVELOPE_BYTES - TABLE_BYTES);
    PatchTable(envelope, parts, RANGE_SIZE, r.value);
  }

  lemma PartialStart(envelope: seq<byte>, size: nat)
    ensures Partial(envelope, [], 0, size) == envelope + Zeros(4 * (size + 1))
    ensures EncodeAll([]) == Success([])
  {
  }

  lemma PartialLength(envelope: seq<byte>, parts: seq<seq<byte>>, k: nat, size: nat)
    requires |parts| <= size && k <= |parts| + 1 && k <= size + 1
    ensures |Partial(envelope, parts, k, size)| == |envelope| + 4 * (size + 1) + |Body(parts)|
  {
  }

  lemma PartialEnd(envelope: seq<byte>, parts: seq<seq<byte>>)
    ensures Partial(envelope, parts, |parts| + 1, |parts|) == envelope + Table(parts, |parts| + 1) + Body(parts)
  {
    hide Table, Body;
    assert Zeros(0) == [];
    var t := envelope + Table(parts, |parts| + 1);
    assert t + [] == t;
  }

  /** What the next record adds to the encodings, if it encodes; its encoding is small then. */
  lemma NextPart(records: seq<RangeRecord>, i: nat, parts: seq<seq<byte>>)
    requires i < |records| && CheckChain(records).Success? && EncodeAll(records[..i]) == Success(parts)
    ensures records[i].Encoded().Failure? ==> EncodeAll(records) == Failure(records[i].Encoded().error)
    ensures records[i].Encoded().Success? ==>
            && EncodeAll(records[..i + 1]) == Success(parts + [records[i].Encoded().value])
            && |records[i].Encoded().value| <= MAX_RECORD_BYTES
  {
    hide CheckChain, Encode, ReadEnvelope;
    assert records[..i + 1][..i] == records[..i];
    EncodeFailureIsFinal(records, i + 1);
    CheckChainMeans(records);
    if records[i].Encoded().Success? {
      PartIsSmall(records[i]);
    }
  }
}
