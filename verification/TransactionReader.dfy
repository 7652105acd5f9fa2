/**
 * The parser as it runs: a reader whose offset advances, with loops that collect the compact
 * fields. Each method does what its function in `Cursor` or `TransactionParser` says.
 */
module TransactionReader {
  import opened Bytes
  import opened ChainTypes
  import opened Cursor
  import opened WireFormat
  import opened TransactionParser

  type ReadResult<+T> = Result<T, ParseError>

  /** `xs` in front of the items that are still to come. */
  function Prepend<T>(xs: seq<T>, rest: Parsed<seq<T>>): Parsed<seq<T>> {
    match rest
    case Ok(ys, next) => Ok(xs + ys, next)
    case Err(e) => Err(e)
  }

  lemma NothingToPrepend<T>(rest: Parsed<seq<T>>)
    ensures Prepend([], rest) == rest
  {
    assert rest.Ok? ==> [] + rest.value == rest.value;
  }

  lemma NothingToCome<T>(xs: seq<T>, next: nat)
    ensures Prepend(xs, Ok([], next)) == Ok(xs, next)
  {
    assert xs + [] == xs;
  }

  /** One turn of a loop that collects items. */
  lemma Collects<T>(item: (Buffer, nat) -> Parsed<T>, b: Buffer, o: nat, n: nat, xs: seq<T>)
    requires n > 0
    ensures item(b, o).Ok? ==> Prepend(xs, Items(item, b, o, n))
                               == Prepend(xs + [item(b, o).value], Items(item, b, item(b, o).next, n - 1))
    ensures item(b, o).Err? ==> Prepend(xs, Items(item, b, o, n)) == Err(item(b, o).error)
  {
    if item(b, o).Ok? && Items(item, b, item(b, o).next, n - 1).Ok? {
      var x, ys := item(b, o).value, Items(item, b, item(b, o).next, n - 1).value;
      assert xs + ([x] + ys) == xs + [x] + ys;
    }
  }

  class Reader {
    const bytes: Buffer
    var offset: nat

    ghost predicate Valid()
      reads this
    {
      offset <= |bytes|
    }

    /** The result is `p`, and after a success the reader stands behind the value. */
    ghost predicate Did<T>(r: ReadResult<T>, p: Parsed<T>)
      reads this
    {
      && Valid()
      && match p
         case Ok(value, next) => r == Success(value) && offset == next
         case Err(error) => r == Failure(error)
    }

    constructor (bytes: Buffer)
      ensures this.bytes == bytes && offset == 0 && Valid()
    {
      this.bytes := bytes;
      offset := 0;
    }

    method Take(len: nat) returns (r: ReadResult<seq<byte>>)
      requires Valid()
      modifies this
      ensures Did(r, Cursor.Take(bytes, old(offset), len))
    {
      if offset + len > USIZE_MAX {
        return Failure(LengthLimit(offset));
      }
      var end := offset + len;
      if end > |bytes| {
        return Failure(Truncated(offset));
      }
      r := Success(bytes[offset..end]);
      offset := end;
    }

    method Skip(len: nat) returns (r: ReadResult<()>)
      requires Valid()
      modifies this
      ensures Did(r, Cursor.Skip(bytes, old(offset), len))
    {
      var _ :- Take(len);
      r := Success(());
    }

    method TakeDigest() returns (r: ReadResult<Digest>)
      requires Valid()
      modifies this
      ensures Did(r, Cursor.TakeDigest(bytes, old(offset)))
    {
      var taken :- Take(32);
      r := Success(taken);
    }

    method TakeCiphertext() returns (r: ReadResult<Ciphertext>)
      requires Valid()
      modifies this
      ensures Did(r, Cursor.TakeCiphertext(bytes, old(offset)))
    {
      var taken :- Take(52);
      r := Success(taken);
    }

    method TakeU32() returns (r: ReadResult<u32>)
      requires Valid()
      modifies this
      ensures Did(r, Cursor.TakeU32(bytes, old(offset)))
    {
      var taken :- Take(4);
      LittleEndianWrites(taken);
      Pow256Widths();
      r := Success(FromLittleEndian(taken));
    }

    method CompactSize(max: nat) returns (r: ReadResult<nat>)
      requires Valid()
      modifies this
      ensures Did(r, Cursor.CompactSize(bytes, old(offset), max))
    {
      hide FromLittleEndian;
      var start := offset;
      var first :- Take(1);
      var value: nat := first[0];
      if first[0] == 253 {
        var wide :- Take(2);
        value := FromLittleEndian(wide);
        if value < 253 {
          return Failure(NonCanonicalCompactSize(start));
        }
      } else if first[0] == 254 {
        var wide :- Take(4);
        value := FromLittleEndian(wide);
        if value <= U16_MAX {
          return Failure(NonCanonicalCompactSize(start));
        }
      } else if first[0] == 255 {
        var wide :- Take(8);
        value := FromLittleEndian(wide);
        if value <= U32_MAX {
          return Failure(NonCanonicalCompactSize(start));
        }
      }
      if value > max {
        return Failure(LengthLimit(start));
      }
      r := Success(value);
    }

    method Count() returns (r: ReadResult<nat>)
      requires Valid()
      modifies this
      ensures Did(r, Cursor.Count(bytes, old(offset)))
    {
      r := CompactSize(MAX_VECTOR_ITEMS);
    }

    method SkipItems(count: nat, size: nat) returns (r: ReadResult<()>)
      requires Valid()
      modifies this
      ensures Did(r, Cursor.SkipItems(bytes, old(offset), count, size))
    {
      if count * size > USIZE_MAX {
        return Failure(LengthLimit(offset));
      }
      r := Skip(count * size);
    }

    method EnsureItems(count: nat, size: nat) returns (r: ReadResult<()>)
      requires Valid()
      ensures Did(r, Cursor.EnsureItems(bytes, offset, count, size))
    {
      if count * size > USIZE_MAX {
        return Failure(LengthLimit(offset));
      }
      if count * size > |bytes| - offset {
        return Failure(Truncated(offset));
      }
      r := Success(());
    }

    method ExpectGroup(expected: u32) returns (r: ReadResult<()>)
      requires Valid()
      modifies this
      ensures Did(r, TransactionParser.ExpectGroup(bytes, old(offset), expected))
    {
      hide Cursor.TakeU32;
      var actual :- TakeU32();
      if actual != expected {
        return Failure(VersionGroup(actual, expected));
      }
      r := Success(());
    }

    method SkipSized() returns (r: ReadResult<()>)
      requires Valid()
      modifies this
      ensures Did(r, Cursor.SkipSized(bytes, old(offset)))
    {
      hide Cursor.CompactSize;
      var len :- CompactSize(MAX_TRANSACTION_BYTES);
      r := Skip(len);
    }

    method TxIn() returns (r: ReadResult<()>)
      requires Valid()
      modifies this
      ensures Did(r, ParseTxIn(bytes, old(offset)))
    {
      hide Cursor.SkipSized;
      var _ :- Skip(36);
      var _ :- SkipSized();
      r := Skip(4);
    }

    method TxOut() returns (r: ReadResult<()>)
      requires Valid()
      modifies this
      ensures Did(r, ParseTxOut(bytes, old(offset)))
    {
      hide Cursor.SkipSized;
      var _ :- Skip(8);
      r := SkipSized();
    }

    method TxIns() returns (r: ReadResult<()>)
      requires Valid()
      modifies this
      ensures Valid()
      ensures var p := Counted(ParseTxIn, bytes, old(offset));
              if p.Ok? then r == Success(()) && offset == p.next else r == Failure(p.error)
    {
      hide Cursor.CompactSize, ParseTxIn;
      var count :- Count();
      ghost var start, done := offset, [];
      NothingToPrepend(Items(ParseTxIn, bytes, start, count));
      for i := 0 to count
        invariant Valid()
        invariant Items(ParseTxIn, bytes, start, count) == Prepend(done, Items(ParseTxIn, bytes, offset, count - i))
      {
        Collects(ParseTxIn, bytes, offset, count - i, done);
        var _ :- TxIn();
        done := done + [()];
      }
      r := Success(());
    }

    method TxOuts() returns (r: ReadResult<()>)
      requires Valid()
      modifies this
      ensures Valid()
      ensures var p := Counted(ParseTxOut, bytes, old(offset));
              if p.Ok? then r == Success(()) && offset == p.next else r == Failure(p.error)
    {
      hide Cursor.CompactSize, ParseTxOut;
      var count :- Count();
      ghost var start, done := offset, [];
      NothingToPrepend(Items(ParseTxOut, bytes, start, count));
      for i := 0 to count
        invariant Valid()
        invariant Items(ParseTxOut, bytes, start, count) == Prepend(done, Items(ParseTxOut, bytes, offset, count - i))
      {
        Collects(ParseTxOut, bytes, offset, count - i, done);
        var _ :- TxOut();
        done := done + [()];
      }
      r := Success(());
    }

    method TransparentBundle() returns (r: ReadResult<()>)
      requires Valid()
      modifies this
      ensures Did(r, TransactionParser.TransparentBundle(bytes, old(offset)))
    {
      hide Counted;
      var _ :- TxIns();
      r := TxOuts();
    }

    method JoinSplits(size: nat) returns (r: ReadResult<()>)
      requires Valid()
      modifies this
      ensures Did(r, ParseJoinSplits(bytes, old(offset), size))
    {
      hide Cursor.CompactSize;
      var count :- Count();
      var _ :- SkipItems(count, size);
      if count > 0 {
        var _ :- Skip(96);
      }
      r := Success(());
    }

    /** One spend, with `before` bytes in front of its nullifier and `behind` behind it. */
    method Spend(before: nat, behind: nat) returns (r: ReadResult<Digest>)
      requires Valid()
      modifies this
      ensures before == 64 && behind == 288 ==> Did(r, ParseSpendV4(bytes, old(offset)))
      ensures before == 32 && behind == 32 ==> Did(r, ParseSpendV5(bytes, old(offset)))
      ensures Valid()
    {
      var _ :- Skip(before);
      var nullifier :- TakeDigest();
      var _ :- Skip(behind);
      r := Success(nullifier);
    }

    method SaplingOutput(includesProof: bool) returns (r: ReadResult<CompactSaplingOutput>)
      requires Valid()
      modifies this
      ensures Did(r, if includesProof then ParseOutputV4(bytes, old(offset)) else ParseOutputV5(bytes, old(offset)))
    {
      var _ :- Skip(32);
      var cmu :- TakeDigest();
      var ephemeralKey :- TakeDigest();
      var ciphertext :- TakeCiphertext();
      var _ :- Skip(580 - 52 + 80);
      if includesProof {
        var _ :- Skip(948 - 756);
      }
      r := Success(CompactSaplingOutput(cmu, ephemeralKey, ciphertext));
    }

    method SpendsV4() returns (r: ReadResult<seq<Digest>>)
      requires Valid()
      modifies this
      ensures Did(r, Vector(ParseSpendV4, 384, bytes, old(offset)))
    {
      hide Cursor.CompactSize, ParseSpendV4, ParseSpendV5;
      var count :- Count();
      var _ :- EnsureItems(count, 384);
      ghost var start := offset;
      var spends := [];
      NothingToPrepend(Items(ParseSpendV4, bytes, start, count));
      for i := 0 to count
        invariant Valid()
        invariant Items(ParseSpendV4, bytes, start, count)
                  == Prepend(spends, Items(ParseSpendV4, bytes, offset, count - i))
      {
        Collects(ParseSpendV4, bytes, offset, count - i, spends);
        var spend :- Spend(64, 384 - 96);
        spends := spends + [spend];
      }
      NothingToCome(spends, offset);
      r := Success(spends);
    }

    method SpendsV5() returns (r: ReadResult<seq<Digest>>)
      requires Valid()
      modifies this
      ensures Did(r, Vector(ParseSpendV5, 96, bytes, old(offset)))
    {
      hide Cursor.CompactSize, ParseSpendV4, ParseSpendV5;
      var count :- Count();
      var _ :- EnsureItems(count, 96);
      ghost var start := offset;
      var spends := [];
      NothingToPrepend(Items(ParseSpendV5, bytes, start, count));
      for i := 0 to count
        invariant Valid()
        invariant Items(ParseSpendV5, bytes, start, count)
                  == Prepend(spends, Items(ParseSpendV5, bytes, offset, count - i))
      {
        Collects(ParseSpendV5, bytes, offset, count - i, spends);
        var spend :- Spend(32, 96 - 64);
        spends := spends + [spend];
      }
      NothingToCome(spends, offset);
      r := Success(spends);
    }

    method OutputsV4() returns (r: ReadResult<seq<CompactSaplingOutput>>)
      requires Valid()
      modifies this
      ensures Did(r, Vector(ParseOutputV4, 948, bytes, old(offset)))
    {
      hide Cursor.CompactSize, ParseOutputV4, ParseOutputV5;
      var count :- Count();
      var _ :- EnsureItems(count, 948);
      ghost var start := offset;
      var outputs := [];
      NothingToPrepend(Items(ParseOutputV4, bytes, start, count));
      for i := 0 to count
        invariant Valid()
        invariant Items(ParseOutputV4, bytes, start, count)
                  == Prepend(outputs, Items(ParseOutputV4, bytes, offset, count - i))
      {
        Collects(ParseOutputV4, bytes, offset, count - i, outputs);
        var output :- SaplingOutput(true);
        outputs := outputs + [output];
      }
      NothingToCome(outputs, offset);
      r := Success(outputs);
    }

    method OutputsV5() returns (r: ReadResult<seq<CompactSaplingOutput>>)
      requires Valid()
      modifies this
      ensures Did(r, Vector(ParseOutputV5, 756, bytes, old(offset)))
    {
      hide Cursor.CompactSize, ParseOutputV4, ParseOutputV5;
      var count :- Count();
      var _ :- EnsureItems(count, 756);
      ghost var start := offset;
      var outputs := [];
      NothingToPrepend(Items(ParseOutputV5, bytes, start, count));
      for i := 0 to count
        invariant Valid()
        invariant Items(ParseOutputV5, bytes, start, count)
                  == Prepend(outputs, Items(ParseOutputV5, bytes, offset, count - i))
      {
        Collects(ParseOutputV5, bytes, offset, count - i, outputs);
        var output :- SaplingOutput(false);
        outputs := outputs + [output];
      }
      NothingToCome(outputs, offset);
      r := Success(outputs);
    }

    method SaplingV4() returns (r: ReadResult<Sapling>)
      requires Valid()
      modifies this
      ensures Did(r, ParseSaplingV4(bytes, old(offset)))
    {
      hide Vector, ParseJoinSplits;
      var spends :- SpendsV4();
      var outputs :- OutputsV4();
      var _ :- JoinSplits(GROTH16_JOINSPLIT_BYTES);
      if |spends| > 0 || |outputs| > 0 {
        var _ :- Skip(64);
      }
      r := Success(Sapling(spends, outputs));
    }

    method SkipProofs(spends: nat, outputs: nat) returns (r: ReadResult<()>)
      requires Valid()
      modifies this
      ensures Did(r, TransactionParser.SkipProofs(bytes, old(offset), spends, outputs))
    {
      if spends > 0 || outputs > 0 {
        var _ :- Skip(8);
        if spends > 0 {
          var _ :- Skip(32);
        }
        var _ :- SkipItems(spends, 192 + 64);
        var _ :- SkipItems(outputs, 192);
        var _ :- Skip(64);
      }
      r := Success(());
    }

    method SaplingV5() returns (r: ReadResult<Sapling>)
      requires Valid()
      modifies this
      ensures Did(r, ParseSaplingV5(bytes, old(offset)))
    {
      hide Vector, TransactionParser.SkipProofs;
      var spends :- SpendsV5();
      var outputs :- OutputsV5();
      var _ :- SkipProofs(|spends|, |outputs|);
      r := Success(Sapling(spends, outputs));
    }

    method Action() returns (r: ReadResult<CompactShieldedAction>)
      requires Valid()
      modifies this
      ensures Did(r, ParseAction(bytes, old(offset)))
    {
      var _ :- Skip(32);
      var nullifier :- TakeDigest();
      var _ :- Skip(32);
      var commitment :- TakeDigest();
      var ephemeralKey :- TakeDigest();
      var ciphertext :- TakeCiphertext();
      var _ :- Skip(580 - 52 + 80);
      r := Success(CompactShieldedAction(nullifier, commitment, ephemeralKey, ciphertext));
    }

    method Actions() returns (r: ReadResult<seq<CompactShieldedAction>>)
      requires Valid()
      modifies this
      ensures Did(r, ParseActions(bytes, old(offset)))
    {
      hide Cursor.CompactSize, Cursor.SkipSized, ParseAction;
      var count :- Count();
      var _ :- EnsureItems(count, 820);
      ghost var start := offset;
      var actions := [];
      NothingToPrepend(Items(ParseAction, bytes, start, count));
      for i := 0 to count
        invariant Valid() && |actions| == i
        invariant Items(ParseAction, bytes, start, count)
                  == Prepend(actions, Items(ParseAction, bytes, offset, count - i))
      {
        Collects(ParseAction, bytes, offset, count - i, actions);
        var action :- Action();
        actions := actions + [action];
      }
      NothingToCome(actions, offset);
      if count > 0 {
        var _ :- Skip(1 + 8 + 32);
        var _ :- SkipSized();
        var _ :- SkipItems(count, 64);
        var _ :- Skip(64);
      }
      r := Success(actions);
    }

    method V5Head(group: u32) returns (r: ReadResult<Sapling>)
      requires Valid()
      modifies this
      ensures Did(r, ParseV5Head(bytes, old(offset), group))
    {
      hide TransactionParser.ExpectGroup, TransactionParser.TransparentBundle, ParseSaplingV5;
      var _ :- ExpectGroup(group);
      var _ :- Skip(12);
      var _ :- TransparentBundle();
      r := SaplingV5();
    }

    /** The versions without shielded data that the compact format keeps. */
    method Unshielded(header: u32) returns (r: ReadResult<()>)
      requires Valid() && header in {1, 2, 0x8000_0003}
      modifies this
      ensures header == 1 ==> Did(r, ParseV1(bytes, old(offset)))
      ensures header == 2 ==> Did(r, ParseV2(bytes, old(offset)))
      ensures header == 0x8000_0003 ==> Did(r, ParseV3(bytes, old(offset)))
    {
      hide TransactionParser.ExpectGroup, TransactionParser.TransparentBundle, ParseJoinSplits;
      if header == 0x8000_0003 {
        var _ :- ExpectGroup(OVERWINTER_GROUP_ID);
      }
      var _ :- TransparentBundle();
      var _ :- Skip(if header == 0x8000_0003 then 8 else 4);
      if header != 1 {
        var _ :- JoinSplits(BCTV14_JOINSPLIT_BYTES);
      }
      r := Success(());
    }

    method V4() returns (r: ReadResult<Sapling>)
      requires Valid()
      modifies this
      ensures Did(r, ParseV4(bytes, old(offset)))
    {
      hide TransactionParser.ExpectGroup, TransactionParser.TransparentBundle, ParseSaplingV4;
      var _ :- ExpectGroup(SAPLING_GROUP_ID);
      var _ :- TransparentBundle();
      var _ :- Skip(16);
      r := SaplingV4();
    }

    method Transaction(txid: Digest, index: u64) returns (r: ReadResult<CompactTransaction>)
      requires Valid()
      modifies this
      ensures Did(r, ParseTransactionFrom(bytes, old(offset), txid, index))
    {
      hide Cursor.TakeU32, ParseV1, ParseV2, ParseV3, ParseV4, ParseV5Head, ParseActions;
      var header :- TakeU32();
      var version, overwintered := header % 0x8000_0000, header / 0x8000_0000 != 0;
      var compact := CompactTransaction(index, txid, [], [], [], []);
      match (version, overwintered) {
        case (1, false) =>
          var _ :- Unshielded(header);
        case (2, false) =>
          var _ :- Unshielded(header);
        case (3, true) =>
          var _ :- Unshielded(header);
        case (4, true) =>
          var sapling :- V4();
          compact := compact.(saplingSpends := sapling.spends, saplingOutputs := sapling.outputs);
        case (5, true) =>
          var sapling :- V5Head(V5_GROUP_ID);
          var orchard :- Actions();
          compact := compact.(saplingSpends := sapling.spends, saplingOutputs := sapling.outputs,
                              orchardActions := orchard);
        case (6, true) =>
          var sapling :- V5Head(V6_GROUP_ID);
          var orchard :- Actions();
          var ironwood :- Actions();
          compact := compact.(saplingSpends := sapling.spends, saplingOutputs := sapling.outputs,
                              orchardActions := orchard, ironwoodActions := ironwood);
        case (_, _) =>
          return Failure(UnsupportedHeader(header));
      }
      r := Success(compact);
    }

    method Finish() returns (r: ReadResult<()>)
      requires Valid()
      ensures r == if offset == |bytes| then Success(()) else Failure(TrailingBytes(offset))
    {
      r := if offset == |bytes| then Success(()) else Failure(TrailingBytes(offset));
    }
  }

  /** `parse_transaction`: one transaction that fills `bytes`. */
  method ParseWhole(bytes: Buffer, txid: Digest, index: u64) returns (r: ReadResult<CompactTransaction>)
    ensures match ParseTransaction(bytes, txid, index)
            case Ok(compact, _) => r == Success(compact)
            case Err(e) => r == Failure(e)
  {
    hide ParseTransactionFrom;
    if |bytes| > MAX_TRANSACTION_BYTES {
      return Failure(TooLarge);
    }
    var reader := new Reader(bytes);
    var compact :- reader.Transaction(txid, index);
    var _ :- reader.Finish();
    r := Success(compact);
  }
}
