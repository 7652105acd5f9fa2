/**
 * The parser accepts exactly the serialized transactions of `WireFormat`, and gives exactly their
 * compact form. For each part of a transaction there are two lemmas: `...Reads` says that the
 * parser reads back what the writer writes, and `...Covers` that it accepts nothing else.
 */
module TransactionGrammar {
  import opened Bytes
  import opened ChainTypes
  import opened Cursor
  import opened WireFormat
  import opened TransactionParser

  lemma SizedReads(b: Buffer, o: nat, s: seq<byte>)
    requires |s| <= MAX_TRANSACTION_BYTES && At(b, o, WriteSized(s))
    ensures SkipSized(b, o) == Ok((), o + |WriteSized(s)|)
  {
    AtConcat(b, o, WriteSize(|s|), s);
    SizeReads(b, o, |s|, MAX_TRANSACTION_BYTES);
  }

  lemma SizedCovers(b: Buffer, o: nat) returns (s: seq<byte>)
    requires SkipSized(b, o).Ok?
    ensures |s| <= MAX_TRANSACTION_BYTES && At(b, o, WriteSized(s))
    ensures SkipSized(b, o).next == o + |WriteSized(s)|
  {
    SizeCovers(b, o, MAX_TRANSACTION_BYTES);
    var len := CompactSize(b, o, MAX_TRANSACTION_BYTES);
    s := b[len.next..len.next + len.value];
    AtConcat(b, o, WriteSize(|s|), s);
  }

  // Inputs and outputs of the transparent bundle.

  function Unit<T>(x: T): () {
    ()
  }

  lemma TxInReads()
    ensures Reads(ParseTxIn, WriteTxIn, TxInOk, Unit<TxIn>)
  {
    hide SkipSized, WriteSized;
    forall b: Buffer, o: nat, x: TxIn | TxInOk(x) && At(b, o, WriteTxIn(x))
      ensures ParseTxIn(b, o) == Ok((), o + |WriteTxIn(x)|)
    {
      AtConcat(b, o, x.outpoint, WriteSized(x.script) + x.sequence);
      AtConcat(b, o + 36, WriteSized(x.script), x.sequence);
      SizedReads(b, o + 36, x.script);
    }
  }

  lemma TxInSpelled(b: Buffer, o: nat) returns (x: TxIn)
    requires ParseTxIn(b, o).Ok?
    ensures TxInOk(x) && At(b, o, WriteTxIn(x)) && ParseTxIn(b, o).next == o + |WriteTxIn(x)|
  {
    hide SkipSized, WriteSized;
    var script := SizedCovers(b, o + 36);
    var o2 := SkipSized(b, o + 36).next;
    x := TxIn(b[o..o + 36], script, b[o2..o2 + 4]);
    AtConcat(b, o + 36, WriteSized(x.script), x.sequence);
    AtConcat(b, o, x.outpoint, WriteSized(x.script) + x.sequence);
  }

  lemma TxInCovers()
    ensures Covers(ParseTxIn, WriteTxIn, TxInOk, Unit<TxIn>)
  {
    forall b: Buffer, o: nat | ParseTxIn(b, o).Ok?
      ensures exists x :: Spells(b, o, ParseTxIn(b, o), WriteTxIn, TxInOk, Unit<TxIn>, x)
    {
      var x := TxInSpelled(b, o);
      assert Spells(b, o, ParseTxIn(b, o), WriteTxIn, TxInOk, Unit<TxIn>, x);
    }
  }

  lemma TxOutReads()
    ensures Reads(ParseTxOut, WriteTxOut, TxOutOk, Unit<TxOut>)
  {
    hide SkipSized, WriteSized;
    forall b: Buffer, o: nat, x: TxOut | TxOutOk(x) && At(b, o, WriteTxOut(x))
      ensures ParseTxOut(b, o) == Ok((), o + |WriteTxOut(x)|)
    {
      AtConcat(b, o, x.value, WriteSized(x.script));
      SizedReads(b, o + 8, x.script);
    }
  }

  lemma TxOutCovers()
    ensures Covers(ParseTxOut, WriteTxOut, TxOutOk, Unit<TxOut>)
  {
    forall b: Buffer, o: nat | ParseTxOut(b, o).Ok?
      ensures exists x :: Spells(b, o, ParseTxOut(b, o), WriteTxOut, TxOutOk, Unit<TxOut>, x)
    {
      var script := SizedCovers(b, o + 8);
      var x := TxOut(b[o..o + 8], script);
      AtConcat(b, o, x.value, WriteSized(x.script));
      assert Spells(b, o, ParseTxOut(b, o), WriteTxOut, TxOutOk, Unit<TxOut>, x);
    }
  }

  lemma TransparentReads(b: Buffer, o: nat, x: Transparent)
    requires TransparentOk(x) && At(b, o, WriteTransparent(x))
    ensures TransparentBundle(b, o) == Ok((), o + |WriteTransparent(x)|)
  {
    hide Counted, WriteVector;
    AtConcat(b, o, WriteVector(WriteTxIn, x.inputs), WriteVector(WriteTxOut, x.outputs));
    TxInReads();
    CountedReads(ParseTxIn, WriteTxIn, TxInOk, Unit<TxIn>, b, o, x.inputs);
    TxOutReads();
    CountedReads(ParseTxOut, WriteTxOut, TxOutOk, Unit<TxOut>, b, o + |WriteVector(WriteTxIn, x.inputs)|, x.outputs);
  }

  lemma TransparentCovers(b: Buffer, o: nat) returns (x: Transparent)
    requires TransparentBundle(b, o).Ok?
    ensures TransparentOk(x) && At(b, o, WriteTransparent(x))
    ensures TransparentBundle(b, o).next == o + |WriteTransparent(x)|
  {
    hide Counted, WriteVector;
    TxInCovers();
    var inputs := CountedCovers(ParseTxIn, WriteTxIn, TxInOk, Unit<TxIn>, b, o);
    TxOutCovers();
    var outputs := CountedCovers(ParseTxOut, WriteTxOut, TxOutOk, Unit<TxOut>, b, Counted(ParseTxIn, b, o).next);
    x := Transparent(inputs, outputs);
    AtConcat(b, o, WriteVector(WriteTxIn, x.inputs), WriteVector(WriteTxOut, x.outputs));
  }

  lemma JoinSplitsReads(b: Buffer, o: nat, x: JoinSplits, size: nat)
    requires size <= BCTV14_JOINSPLIT_BYTES && JoinSplitsOk(x, size) && At(b, o, WriteJoinSplits(x))
    ensures ParseJoinSplits(b, o, size) == Ok((), o + |WriteJoinSplits(x)|)
  {
    hide CompactSize, WriteSize;
    AtConcat(b, o, WriteSize(x.count), x.data);
    SizeReads(b, o, x.count, MAX_VECTOR_ITEMS);
  }

  lemma JoinSplitsCovers(b: Buffer, o: nat, size: nat) returns (x: JoinSplits)
    requires ParseJoinSplits(b, o, size).Ok?
    ensures JoinSplitsOk(x, size) && At(b, o, WriteJoinSplits(x))
    ensures ParseJoinSplits(b, o, size).next == o + |WriteJoinSplits(x)|
  {
    hide CompactSize, WriteSize;
    SizeCovers(b, o, MAX_VECTOR_ITEMS);
    var n := Count(b, o);
    x := JoinSplits(n.value, b[n.next..ParseJoinSplits(b, o, size).next]);
    AtConcat(b, o, WriteSize(x.count), x.data);
  }

  // Descriptions of the shielded bundles.

  lemma SpendV4Reads()
    ensures Reads(ParseSpendV4, WriteSpend, SpendV4Ok, Nullifier)
  {
    forall b: Buffer, o: nat, x: Spend | SpendV4Ok(x) && At(b, o, WriteSpend(x))
      ensures ParseSpendV4(b, o) == Ok(x.nullifier, o + |WriteSpend(x)|)
    {
      AtConcat(b, o, x.head, x.nullifier + x.tail);
      AtConcat(b, o + 64, x.nullifier, x.tail);
    }
  }

  lemma SpendV4Covers()
    ensures Covers(ParseSpendV4, WriteSpend, SpendV4Ok, Nullifier)
  {
    forall b: Buffer, o: nat | ParseSpendV4(b, o).Ok?
      ensures exists x :: Spells(b, o, ParseSpendV4(b, o), WriteSpend, SpendV4Ok, Nullifier, x)
    {
      var x := Spend(b[o..o + 64], b[o + 64..o + 96], b[o + 96..o + 384]);
      AtConcat(b, o + 64, x.nullifier, x.tail);
      AtConcat(b, o, x.head, x.nullifier + x.tail);
      assert Spells(b, o, ParseSpendV4(b, o), WriteSpend, SpendV4Ok, Nullifier, x);
    }
  }

  lemma SpendV5Reads()
    ensures Reads(ParseSpendV5, WriteSpend, SpendV5Ok, Nullifier)
  {
    forall b: Buffer, o: nat, x: Spend | SpendV5Ok(x) && At(b, o, WriteSpend(x))
      ensures ParseSpendV5(b, o) == Ok(x.nullifier, o + |WriteSpend(x)|)
    {
      AtConcat(b, o, x.head, x.nullifier + x.tail);
      AtConcat(b, o + 32, x.nullifier, x.tail);
    }
  }

  lemma SpendV5Covers()
    ensures Covers(ParseSpendV5, WriteSpend, SpendV5Ok, Nullifier)
  {
    forall b: Buffer, o: nat | ParseSpendV5(b, o).Ok?
      ensures exists x :: Spells(b, o, ParseSpendV5(b, o), WriteSpend, SpendV5Ok, Nullifier, x)
    {
      var x := Spend(b[o..o + 32], b[o + 32..o + 64], b[o + 64..o + 96]);
      AtConcat(b, o + 32, x.nullifier, x.tail);
      AtConcat(b, o, x.head, x.nullifier + x.tail);
      assert Spells(b, o, ParseSpendV5(b, o), WriteSpend, SpendV5Ok, Nullifier, x);
    }
  }

  /** The fields of an output stand one behind the other. */
  lemma OutputAt(b: Buffer, o: nat, x: Output)
    requires |x.cv| == 32
    ensures At(b, o, WriteOutput(x)) <==>
            At(b, o, x.cv) && At(b, o + 32, x.compact.cmu) && At(b, o + 64, x.compact.ephemeralKey)
            && At(b, o + 96, x.compact.ciphertext) && At(b, o + 148, x.tail)
    ensures |WriteOutput(x)| == 148 + |x.tail|
  {
    var t3 := x.compact.ciphertext + x.tail;
    var t2 := x.compact.ephemeralKey + t3;
    AtConcat(b, o, x.cv, x.compact.cmu + t2);
    AtConcat(b, o + 32, x.compact.cmu, t2);
    AtConcat(b, o + 64, x.compact.ephemeralKey, t3);
    AtConcat(b, o + 96, x.compact.ciphertext, x.tail);
  }

  lemma OutputV5Reads()
    ensures Reads(ParseOutputV5, WriteOutput, OutputV5Ok, CompactOutput)
  {
    forall b: Buffer, o: nat, x: Output | OutputV5Ok(x) && At(b, o, WriteOutput(x))
      ensures ParseOutputV5(b, o) == Ok(x.compact, o + |WriteOutput(x)|)
    {
      OutputAt(b, o, x);
    }
  }

  lemma OutputV5Covers()
    ensures Covers(ParseOutputV5, WriteOutput, OutputV5Ok, CompactOutput)
  {
    forall b: Buffer, o: nat | ParseOutputV5(b, o).Ok?
      ensures exists x :: Spells(b, o, ParseOutputV5(b, o), WriteOutput, OutputV5Ok, CompactOutput, x)
    {
      var x := Output(b[o..o + 32], ParseOutputV5(b, o).value, b[o + 148..o + 756]);
      OutputAt(b, o, x);
      assert Spells(b, o, ParseOutputV5(b, o), WriteOutput, OutputV5Ok, CompactOutput, x);
    }
  }

  lemma OutputV4Reads()
    ensures Reads(ParseOutputV4, WriteOutput, OutputV4Ok, CompactOutput)
  {
    forall b: Buffer, o: nat, x: Output | OutputV4Ok(x) && At(b, o, WriteOutput(x))
      ensures ParseOutputV4(b, o) == Ok(x.compact, o + |WriteOutput(x)|)
    {
      OutputAt(b, o, x);
    }
  }

  lemma OutputV4Covers()
    ensures Covers(ParseOutputV4, WriteOutput, OutputV4Ok, CompactOutput)
  {
    forall b: Buffer, o: nat | ParseOutputV4(b, o).Ok?
      ensures exists x :: Spells(b, o, ParseOutputV4(b, o), WriteOutput, OutputV4Ok, CompactOutput, x)
    {
      var x := Output(b[o..o + 32], ParseOutputV4(b, o).value, b[o + 148..o + 948]);
      OutputAt(b, o, x);
      assert Spells(b, o, ParseOutputV4(b, o), WriteOutput, OutputV4Ok, CompactOutput, x);
    }
  }

  lemma ActionAt(b: Buffer, o: nat, x: Action)
    requires |x.cv| == 32 && |x.randomizedKey| == 32
    ensures At(b, o, WriteAction(x)) <==>
            At(b, o, x.cv) && At(b, o + 32, x.compact.nullifier) && At(b, o + 64, x.randomizedKey)
            && At(b, o + 96, x.compact.commitment) && At(b, o + 128, x.compact.ephemeralKey)
            && At(b, o + 160, x.compact.ciphertext) && At(b, o + 212, x.tail)
    ensures |WriteAction(x)| == 212 + |x.tail|
  {
    var t5 := x.compact.ciphertext + x.tail;
    var t4 := x.compact.ephemeralKey + t5;
    var t3 := x.compact.commitment + t4;
    var t2 := x.randomizedKey + t3;
    AtConcat(b, o, x.cv, x.compact.nullifier + t2);
    AtConcat(b, o + 32, x.compact.nullifier, t2);
    AtConcat(b, o + 64, x.randomizedKey, t3);
    AtConcat(b, o + 96, x.compact.commitment, t4);
    AtConcat(b, o + 128, x.compact.ephemeralKey, t5);
    AtConcat(b, o + 160, x.compact.ciphertext, x.tail);
  }

  lemma ActionReads()
    ensures Reads(ParseAction, WriteAction, ActionOk, CompactAction)
  {
    forall b: Buffer, o: nat, x: Action | ActionOk(x) && At(b, o, WriteAction(x))
      ensures ParseAction(b, o) == Ok(x.compact, o + |WriteAction(x)|)
    {
      ActionAt(b, o, x);
    }
  }

  lemma ActionCovers()
    ensures Covers(ParseAction, WriteAction, ActionOk, CompactAction)
  {
    forall b: Buffer, o: nat | ParseAction(b, o).Ok?
      ensures exists x :: Spells(b, o, ParseAction(b, o), WriteAction, ActionOk, CompactAction, x)
    {
      var x := Action(b[o..o + 32], b[o + 64..o + 96], ParseAction(b, o).value, b[o + 212..o + 820]);
      ActionAt(b, o, x);
      assert Spells(b, o, ParseAction(b, o), WriteAction, ActionOk, CompactAction, x);
    }
  }

  // Vectors of descriptions.

  lemma SpendsV4Read(b: Buffer, o: nat, xs: seq<Spend>)
    requires |xs| <= MAX_VECTOR_ITEMS && (forall x <- xs :: SpendV4Ok(x)) && At(b, o, WriteVector(WriteSpend, xs))
    ensures Vector(ParseSpendV4, 384, b, o) == Ok(ViewAll(Nullifier, xs), o + |WriteVector(WriteSpend, xs)|)
  {
    SpendV4Reads();
    LookAheadReads(ParseSpendV4, WriteSpend, SpendV4Ok, Nullifier, 384, b, o, xs);
  }

  lemma SpendsV4Cover(b: Buffer, o: nat) returns (xs: seq<Spend>)
    requires Vector(ParseSpendV4, 384, b, o).Ok?
    ensures |xs| <= MAX_VECTOR_ITEMS && (forall x <- xs :: SpendV4Ok(x)) && At(b, o, WriteVector(WriteSpend, xs))
    ensures Vector(ParseSpendV4, 384, b, o) == Ok(ViewAll(Nullifier, xs), o + |WriteVector(WriteSpend, xs)|)
  {
    SpendV4Covers();
    xs := CountedCovers(ParseSpendV4, WriteSpend, SpendV4Ok, Nullifier, b, o);
  }

  lemma SpendsV5Read(b: Buffer, o: nat, xs: seq<Spend>)
    requires |xs| <= MAX_VECTOR_ITEMS && (forall x <- xs :: SpendV5Ok(x)) && At(b, o, WriteVector(WriteSpend, xs))
    ensures Vector(ParseSpendV5, 96, b, o) == Ok(ViewAll(Nullifier, xs), o + |WriteVector(WriteSpend, xs)|)
  {
    SpendV5Reads();
    LookAheadReads(ParseSpendV5, WriteSpend, SpendV5Ok, Nullifier, 96, b, o, xs);
  }

  lemma SpendsV5Cover(b: Buffer, o: nat) returns (xs: seq<Spend>)
    requires Vector(ParseSpendV5, 96, b, o).Ok?
    ensures |xs| <= MAX_VECTOR_ITEMS && (forall x <- xs :: SpendV5Ok(x)) && At(b, o, WriteVector(WriteSpend, xs))
    ensures Vector(ParseSpendV5, 96, b, o) == Ok(ViewAll(Nullifier, xs), o + |WriteVector(WriteSpend, xs)|)
  {
    SpendV5Covers();
    xs := CountedCovers(ParseSpendV5, WriteSpend, SpendV5Ok, Nullifier, b, o);
  }

  lemma OutputsV4Read(b: Buffer, o: nat, xs: seq<Output>)
    requires |xs| <= MAX_VECTOR_ITEMS && (forall x <- xs :: OutputV4Ok(x)) && At(b, o, WriteVector(WriteOutput, xs))
    ensures Vector(ParseOutputV4, 948, b, o) == Ok(ViewAll(CompactOutput, xs), o + |WriteVector(WriteOutput, xs)|)
  {
    OutputV4Reads();
    LookAheadReads(ParseOutputV4, WriteOutput, OutputV4Ok, CompactOutput, 948, b, o, xs);
  }

  lemma OutputsV4Cover(b: Buffer, o: nat) returns (xs: seq<Output>)
    requires Vector(ParseOutputV4, 948, b, o).Ok?
    ensures |xs| <= MAX_VECTOR_ITEMS && (forall x <- xs :: OutputV4Ok(x)) && At(b, o, WriteVector(WriteOutput, xs))
    ensures Vector(ParseOutputV4, 948, b, o) == Ok(ViewAll(CompactOutput, xs), o + |WriteVector(WriteOutput, xs)|)
  {
    OutputV4Covers();
    xs := CountedCovers(ParseOutputV4, WriteOutput, OutputV4Ok, CompactOutput, b, o);
  }

  lemma OutputsV5Read(b: Buffer, o: nat, xs: seq<Output>)
    requires |xs| <= MAX_VECTOR_ITEMS && (forall x <- xs :: OutputV5Ok(x)) && At(b, o, WriteVector(WriteOutput, xs))
    ensures Vector(ParseOutputV5, 756, b, o) == Ok(ViewAll(CompactOutput, xs), o + |WriteVector(WriteOutput, xs)|)
  {
    OutputV5Reads();
    LookAheadReads(ParseOutputV5, WriteOutput, OutputV5Ok, CompactOutput, 756, b, o, xs);
  }

  lemma OutputsV5Cover(b: Buffer, o: nat) returns (xs: seq<Output>)
    requires Vector(ParseOutputV5, 756, b, o).Ok?
    ensures |xs| <= MAX_VECTOR_ITEMS && (forall x <- xs :: OutputV5Ok(x)) && At(b, o, WriteVector(WriteOutput, xs))
    ensures Vector(ParseOutputV5, 756, b, o) == Ok(ViewAll(CompactOutput, xs), o + |WriteVector(WriteOutput, xs)|)
  {
    OutputV5Covers();
    xs := CountedCovers(ParseOutputV5, WriteOutput, OutputV5Ok, CompactOutput, b, o);
  }

  lemma ActionListRead(b: Buffer, o: nat, xs: seq<Action>)
    requires |xs| <= MAX_VECTOR_ITEMS && (forall x <- xs :: ActionOk(x)) && At(b, o, WriteVector(WriteAction, xs))
    ensures Vector(ParseAction, 820, b, o) == Ok(ViewAll(CompactAction, xs), o + |WriteVector(WriteAction, xs)|)
  {
    ActionReads();
    LookAheadReads(ParseAction, WriteAction, ActionOk, CompactAction, 820, b, o, xs);
  }

  lemma ActionListCover(b: Buffer, o: nat) returns (xs: seq<Action>)
    requires Vector(ParseAction, 820, b, o).Ok?
    ensures |xs| <= MAX_VECTOR_ITEMS && (forall x <- xs :: ActionOk(x)) && At(b, o, WriteVector(WriteAction, xs))
    ensures Vector(ParseAction, 820, b, o) == Ok(ViewAll(CompactAction, xs), o + |WriteVector(WriteAction, xs)|)
  {
    ActionCovers();
    xs := CountedCovers(ParseAction, WriteAction, ActionOk, CompactAction, b, o);
  }

  // The shielded bundles.

  /** The descriptions of both Sapling layouts, then `rest`. */
  lemma SaplingAt(b: Buffer, o: nat, spends: seq<Spend>, outputs: seq<Output>, rest: seq<byte>)
    ensures var s, t := WriteVector(WriteSpend, spends), WriteVector(WriteOutput, outputs);
            At(b, o, s + (t + rest)) <==>
            At(b, o, s) && At(b, o + |s|, t) && At(b, o + |s| + |t|, rest)
  {
    var s, t := WriteVector(WriteSpend, spends), WriteVector(WriteOutput, outputs);
    AtConcat(b, o, s, t + rest);
    AtConcat(b, o + |s|, t, rest);
  }

  lemma SaplingV4Reads(b: Buffer, o: nat, x: SaplingV4)
    requires SaplingV4Ok(x) && At(b, o, WriteSaplingV4(x))
    ensures ParseSaplingV4(b, o)
            == Ok(Sapling(ViewAll(Nullifier, x.spends), ViewAll(CompactOutput, x.outputs)), o + |WriteSaplingV4(x)|)
  {
    hide Vector, WriteVector, ViewAll, ParseJoinSplits, WriteJoinSplits;
    var o1 := o + |WriteVector(WriteSpend, x.spends)|;
    var o2 := o1 + |WriteVector(WriteOutput, x.outputs)|;
    SaplingAt(b, o, x.spends, x.outputs, WriteJoinSplits(x.joinSplits) + x.bindingSig);
    AtConcat(b, o2, WriteJoinSplits(x.joinSplits), x.bindingSig);
    SpendsV4Read(b, o, x.spends);
    OutputsV4Read(b, o1, x.outputs);
    JoinSplitsReads(b, o2, x.joinSplits, GROTH16_JOINSPLIT_BYTES);
  }

  lemma SaplingV4Covers(b: Buffer, o: nat) returns (x: SaplingV4)
    requires ParseSaplingV4(b, o).Ok?
    ensures SaplingV4Ok(x) && At(b, o, WriteSaplingV4(x))
    ensures ParseSaplingV4(b, o)
            == Ok(Sapling(ViewAll(Nullifier, x.spends), ViewAll(CompactOutput, x.outputs)), o + |WriteSaplingV4(x)|)
  {
    hide Vector, WriteVector, ViewAll, ParseJoinSplits, WriteJoinSplits;
    var spends := SpendsV4Cover(b, o);
    var o1 := Vector(ParseSpendV4, 384, b, o).next;
    var outputs := OutputsV4Cover(b, o1);
    var o2 := Vector(ParseOutputV4, 948, b, o1).next;
    var joinSplits := JoinSplitsCovers(b, o2, GROTH16_JOINSPLIT_BYTES);
    var o3 := o2 + |WriteJoinSplits(joinSplits)|;
    x := SaplingV4(spends, outputs, joinSplits, b[o3..ParseSaplingV4(b, o).next]);
    AtConcat(b, o2, WriteJoinSplits(joinSplits), x.bindingSig);
    SaplingAt(b, o, spends, outputs, WriteJoinSplits(joinSplits) + x.bindingSig);
  }

  lemma ProofsSkipped(b: Buffer, o: nat, spends: nat, outputs: nat)
    requires spends <= MAX_VECTOR_ITEMS && outputs <= MAX_VECTOR_ITEMS && o <= |b|
    ensures SkipProofs(b, o, spends, outputs).Ok? <==> o + ProofBytes(spends, outputs) <= |b|
    ensures SkipProofs(b, o, spends, outputs).Ok? ==>
            SkipProofs(b, o, spends, outputs).next == o + ProofBytes(spends, outputs)
  {
  }

  lemma SaplingV5Reads(b: Buffer, o: nat, x: SaplingV5)
    requires SaplingV5Ok(x) && At(b, o, WriteSaplingV5(x))
    ensures ParseSaplingV5(b, o)
            == Ok(Sapling(ViewAll(Nullifier, x.spends), ViewAll(CompactOutput, x.outputs)), o + |WriteSaplingV5(x)|)
  {
    hide Vector, WriteVector, ViewAll, SkipProofs, ProofBytes;
    var o1 := o + |WriteVector(WriteSpend, x.spends)|;
    var o2 := o1 + |WriteVector(WriteOutput, x.outputs)|;
    SaplingAt(b, o, x.spends, x.outputs, x.proofs);
    SpendsV5Read(b, o, x.spends);
    OutputsV5Read(b, o1, x.outputs);
    ProofsSkipped(b, o2, |x.spends|, |x.outputs|);
  }

  lemma SaplingV5Covers(b: Buffer, o: nat) returns (x: SaplingV5)
    requires ParseSaplingV5(b, o).Ok?
    ensures SaplingV5Ok(x) && At(b, o, WriteSaplingV5(x))
    ensures ParseSaplingV5(b, o)
            == Ok(Sapling(ViewAll(Nullifier, x.spends), ViewAll(CompactOutput, x.outputs)), o + |WriteSaplingV5(x)|)
  {
    hide Vector, WriteVector, ViewAll, SkipProofs, ProofBytes;
    var spends := SpendsV5Cover(b, o);
    var o1 := Vector(ParseSpendV5, 96, b, o).next;
    var outputs := OutputsV5Cover(b, o1);
    var o2 := Vector(ParseOutputV5, 756, b, o1).next;
    ProofsSkipped(b, o2, |spends|, |outputs|);
    x := SaplingV5(spends, outputs, b[o2..ParseSaplingV5(b, o).next]);
    SaplingAt(b, o, spends, outputs, x.proofs);
  }

  /** What stands behind the descriptions of a non-empty action bundle. */
  lemma AuthorizationReads(b: Buffer, o: nat, x: Actions)
    requires ActionsOk(x) && x.actions != [] && At(b, o, x.middle + (WriteSized(x.proof) + x.signatures))
    ensures SkipAuthorization(b, o, |x.actions|)
            == Ok((), o + |x.middle + (WriteSized(x.proof) + x.signatures)|)
  {
    hide SkipSized, WriteSized;
    AtConcat(b, o, x.middle, WriteSized(x.proof) + x.signatures);
    AtConcat(b, o + 41, WriteSized(x.proof), x.signatures);
    SizedReads(b, o + 41, x.proof);
  }

  lemma AuthorizationCovers(b: Buffer, o: nat, actions: seq<Action>) returns (x: Actions)
    requires 0 < |actions| <= MAX_VECTOR_ITEMS && (forall a <- actions :: ActionOk(a))
    requires SkipAuthorization(b, o, |actions|).Ok?
    ensures x.actions == actions && ActionsOk(x)
    ensures At(b, o, x.middle + (WriteSized(x.proof) + x.signatures))
    ensures SkipAuthorization(b, o, |actions|).next == o + |x.middle + (WriteSized(x.proof) + x.signatures)|
  {
    hide SkipSized, WriteSized;
    var proof := SizedCovers(b, o + 41);
    var o2 := SkipSized(b, o + 41).next;
    x := Actions(actions, b[o..o + 41], proof, b[o2..o2 + 64 * |actions| + 64]);
    AtConcat(b, o + 41, WriteSized(x.proof), x.signatures);
    AtConcat(b, o, x.middle, WriteSized(x.proof) + x.signatures);
  }

  lemma ActionsReads(b: Buffer, o: nat, x: Actions)
    requires ActionsOk(x) && At(b, o, WriteActions(x))
    ensures ParseActions(b, o) == Ok(ViewAll(CompactAction, x.actions), o + |WriteActions(x)|)
  {
    hide Vector, WriteVector, SkipSized, WriteSized, ViewAll;
    var v := WriteVector(WriteAction, x.actions);
    AtConcat(b, o, v, if x.actions == [] then [] else x.middle + (WriteSized(x.proof) + x.signatures));
    ActionListRead(b, o, x.actions);
    if x.actions != [] {
      AuthorizationReads(b, o + |v|, x);
    }
  }

  lemma ActionsCovers(b: Buffer, o: nat) returns (x: Actions)
    requires ParseActions(b, o).Ok?
    ensures ActionsOk(x) && At(b, o, WriteActions(x))
    ensures ParseActions(b, o) == Ok(ViewAll(CompactAction, x.actions), o + |WriteActions(x)|)
  {
    hide Vector, WriteVector, SkipSized, WriteSized, ViewAll;
    var actions := ActionListCover(b, o);
    var v := WriteVector(WriteAction, actions);
    if actions == [] {
      x := Actions([], [], [], []);
      assert v + [] == v;
    } else {
      x := AuthorizationCovers(b, o + |v|, actions);
      AtConcat(b, o, v, x.middle + (WriteSized(x.proof) + x.signatures));
    }
  }

  // Headers.

  lemma U32Reads(b: Buffer, o: nat, n: u32)
    requires At(b, o, LittleEndian(n, 4))
    ensures TakeU32(b, o) == Ok(n, o + 4)
  {
    Pow256Widths();
    LittleEndianReads(n, 4);
  }

  lemma U32Covers(b: Buffer, o: nat)
    requires TakeU32(b, o).Ok?
    ensures At(b, o, LittleEndian(TakeU32(b, o).value, 4)) && TakeU32(b, o).next == o + 4
  {
    LittleEndianWrites(b[o..o + 4]);
  }

  // Bodies, version by version.

  lemma BodyReadsOld(b: Buffer, o: nat, x: Transaction)
    requires TransactionOk(x) && (x.V1? || x.V2?) && At(b, o, WriteBody(x))
    ensures x.V1? ==> ParseV1(b, o) == Ok((), o + |WriteBody(x)|)
    ensures x.V2? ==> ParseV2(b, o) == Ok((), o + |WriteBody(x)|)
  {
    hide TransparentBundle, WriteTransparent, ParseJoinSplits, WriteJoinSplits, TransparentOk, JoinSplitsOk;
    var t := WriteTransparent(x.transparent);
    if x.V1? {
      AtConcat(b, o, t, x.lockTime);
    } else {
      AtConcat(b, o, t, x.lockTime + WriteJoinSplits(x.joinSplits));
      AtConcat(b, o + |t|, x.lockTime, WriteJoinSplits(x.joinSplits));
      JoinSplitsReads(b, o + |t| + 4, x.joinSplits, BCTV14_JOINSPLIT_BYTES);
    }
    TransparentReads(b, o, x.transparent);
  }

  lemma BodyCoversV1(b: Buffer, o: nat) returns (x: Transaction)
    requires ParseV1(b, o).Ok?
    ensures x.V1? && TransactionOk(x) && At(b, o, WriteBody(x)) && ParseV1(b, o).next == o + |WriteBody(x)|
  {
    hide TransparentBundle, WriteTransparent, TransparentOk;
    var t := TransparentCovers(b, o);
    var o1 := o + |WriteTransparent(t)|;
    x := V1(t, b[o1..o1 + 4]);
    AtConcat(b, o, WriteTransparent(t), x.lockTime);
  }

  lemma BodyCoversV2(b: Buffer, o: nat) returns (x: Transaction)
    requires ParseV2(b, o).Ok?
    ensures x.V2? && TransactionOk(x) && At(b, o, WriteBody(x)) && ParseV2(b, o).next == o + |WriteBody(x)|
  {
    hide TransparentBundle, WriteTransparent, ParseJoinSplits, WriteJoinSplits, TransparentOk, JoinSplitsOk;
    var t := TransparentCovers(b, o);
    var o1 := o + |WriteTransparent(t)|;
    var js := JoinSplitsCovers(b, o1 + 4, BCTV14_JOINSPLIT_BYTES);
    x := V2(t, b[o1..o1 + 4], js);
    AtConcat(b, o1, x.lockTime, WriteJoinSplits(js));
    AtConcat(b, o, WriteTransparent(t), x.lockTime + WriteJoinSplits(js));
  }

  /** A version group, a transparent bundle, `raw` bytes, then `rest`. */
  lemma GroupAt(b: Buffer, o: nat, group: u32, t: Transparent, raw: seq<byte>, rest: seq<byte>)
    ensures At(b, o, LittleEndian(group, 4) + (WriteTransparent(t) + (raw + rest))) <==>
            && At(b, o, LittleEndian(group, 4)) && At(b, o + 4, WriteTransparent(t))
            && At(b, o + 4 + |WriteTransparent(t)|, raw) && At(b, o + 4 + |WriteTransparent(t)| + |raw|, rest)
  {
    hide WriteTransparent, LittleEndian;
    var w := WriteTransparent(t);
    AtConcat(b, o, LittleEndian(group, 4), w + (raw + rest));
    AtConcat(b, o + 4, w, raw + rest);
    AtConcat(b, o + 4 + |w|, raw, rest);
  }

  lemma BodyReadsV3(b: Buffer, o: nat, x: Transaction)
    requires TransactionOk(x) && x.V3? && At(b, o, WriteBody(x))
    ensures ParseV3(b, o) == Ok((), o + |WriteBody(x)|)
  {
    hide TransparentBundle, WriteTransparent, ParseJoinSplits, WriteJoinSplits, TransparentOk, JoinSplitsOk;
    hide TakeU32, LittleEndian;
    GroupAt(b, o, OVERWINTER_GROUP_ID, x.transparent, x.expiry, WriteJoinSplits(x.joinSplits));
    U32Reads(b, o, OVERWINTER_GROUP_ID);
    TransparentReads(b, o + 4, x.transparent);
    JoinSplitsReads(b, o + 12 + |WriteTransparent(x.transparent)|, x.joinSplits, BCTV14_JOINSPLIT_BYTES);
  }

  lemma BodyCoversV3(b: Buffer, o: nat) returns (x: Transaction)
    requires ParseV3(b, o).Ok?
    ensures x.V3? && TransactionOk(x) && At(b, o, WriteBody(x)) && ParseV3(b, o).next == o + |WriteBody(x)|
  {
    hide TransparentBundle, WriteTransparent, ParseJoinSplits, WriteJoinSplits, TransparentOk, JoinSplitsOk;
    hide TakeU32, LittleEndian;
    U32Covers(b, o);
    var t := TransparentCovers(b, o + 4);
    var o2 := o + 4 + |WriteTransparent(t)|;
    var js := JoinSplitsCovers(b, o2 + 8, BCTV14_JOINSPLIT_BYTES);
    x := V3(t, b[o2..o2 + 8], js);
    GroupAt(b, o, OVERWINTER_GROUP_ID, t, x.expiry, WriteJoinSplits(js));
  }

  lemma BodyReadsV4(b: Buffer, o: nat, x: Transaction)
    requires TransactionOk(x) && x.V4? && At(b, o, WriteBody(x))
    ensures ParseV4(b, o)
            == Ok(Sapling(ViewAll(Nullifier, x.saplingV4.spends), ViewAll(CompactOutput, x.saplingV4.outputs)),
                  o + |WriteBody(x)|)
  {
    hide TransparentBundle, WriteTransparent, ParseSaplingV4, WriteSaplingV4, TransparentOk, SaplingV4Ok, ViewAll;
    hide TakeU32, LittleEndian;
    GroupAt(b, o, SAPLING_GROUP_ID, x.transparent, x.balance, WriteSaplingV4(x.saplingV4));
    U32Reads(b, o, SAPLING_GROUP_ID);
    TransparentReads(b, o + 4, x.transparent);
    SaplingV4Reads(b, o + 20 + |WriteTransparent(x.transparent)|, x.saplingV4);
  }

  lemma BodyCoversV4(b: Buffer, o: nat) returns (x: Transaction)
    requires ParseV4(b, o).Ok?
    ensures x.V4? && TransactionOk(x) && At(b, o, WriteBody(x))
    ensures ParseV4(b, o)
            == Ok(Sapling(ViewAll(Nullifier, x.saplingV4.spends), ViewAll(CompactOutput, x.saplingV4.outputs)),
                  o + |WriteBody(x)|)
  {
    hide TransparentBundle, WriteTransparent, ParseSaplingV4, WriteSaplingV4, TransparentOk, SaplingV4Ok, ViewAll;
    hide TakeU32, LittleEndian;
    U32Covers(b, o);
    var t := TransparentCovers(b, o + 4);
    var o2 := o + 4 + |WriteTransparent(t)|;
    var sapling := SaplingV4Covers(b, o2 + 16);
    x := V4(t, b[o2..o2 + 16], sapling);
    GroupAt(b, o, SAPLING_GROUP_ID, t, x.balance, WriteSaplingV4(sapling));
  }

  lemma V5HeadAt(b: Buffer, o: nat, group: u32, header: seq<byte>, t: Transparent, s: SaplingV5)
    requires |header| == 12
    ensures At(b, o, WriteV5Head(group, header, t, s)) <==>
            && At(b, o, LittleEndian(group, 4)) && At(b, o + 4, header) && At(b, o + 16, WriteTransparent(t))
            && At(b, o + 16 + |WriteTransparent(t)|, WriteSaplingV5(s))
    ensures |WriteV5Head(group, header, t, s)| == 16 + |WriteTransparent(t)| + |WriteSaplingV5(s)|
  {
    hide WriteTransparent, WriteSaplingV5, LittleEndian;
    AtConcat(b, o, LittleEndian(group, 4), header + (WriteTransparent(t) + WriteSaplingV5(s)));
    AtConcat(b, o + 4, header, WriteTransparent(t) + WriteSaplingV5(s));
    AtConcat(b, o + 16, WriteTransparent(t), WriteSaplingV5(s));
  }

  lemma V5HeadReads(b: Buffer, o: nat, group: u32, header: seq<byte>, t: Transparent, s: SaplingV5)
    requires |header| == 12 && TransparentOk(t) && SaplingV5Ok(s) && At(b, o, WriteV5Head(group, header, t, s))
    ensures ParseV5Head(b, o, group) == Ok(Sapling(ViewAll(Nullifier, s.spends), ViewAll(CompactOutput, s.outputs)),
                                           o + |WriteV5Head(group, header, t, s)|)
  {
    hide TransparentBundle, WriteTransparent, ParseSaplingV5, WriteSaplingV5, TransparentOk, SaplingV5Ok, ViewAll;
    hide TakeU32, LittleEndian, WriteV5Head;
    V5HeadAt(b, o, group, header, t, s);
    U32Reads(b, o, group);
    TransparentReads(b, o + 16, t);
    SaplingV5Reads(b, o + 16 + |WriteTransparent(t)|, s);
  }

  lemma V5HeadCovers(b: Buffer, o: nat, group: u32) returns (header: seq<byte>, t: Transparent, s: SaplingV5)
    requires ParseV5Head(b, o, group).Ok?
    ensures |header| == 12 && TransparentOk(t) && SaplingV5Ok(s) && At(b, o, WriteV5Head(group, header, t, s))
    ensures ParseV5Head(b, o, group) == Ok(Sapling(ViewAll(Nullifier, s.spends), ViewAll(CompactOutput, s.outputs)),
                                           o + |WriteV5Head(group, header, t, s)|)
  {
    hide TransparentBundle, WriteTransparent, ParseSaplingV5, WriteSaplingV5, TransparentOk, SaplingV5Ok, ViewAll;
    hide TakeU32, LittleEndian, WriteV5Head;
    U32Covers(b, o);
    header := b[o + 4..o + 16];
    t := TransparentCovers(b, o + 16);
    s := SaplingV5Covers(b, o + 16 + |WriteTransparent(t)|);
    V5HeadAt(b, o, group, header, t, s);
  }

  // Whole transactions.

  /** Parsing what a node writes succeeds, whatever stands before and behind it, and keeps exactly
      the nullifiers, commitments, keys and ciphertext prefixes, in order. */
  lemma TransactionReads(b: Buffer, o: nat, x: Transaction, txid: Digest, index: u64)
    requires TransactionOk(x) && At(b, o, WriteTransaction(x))
    ensures ParseTransactionFrom(b, o, txid, index) == Ok(Compact(x, txid, index), o + |WriteTransaction(x)|)
  {
    hide TakeU32, LittleEndian, ParseV1, ParseV2, ParseV3, ParseV4, ParseV5Head, ParseActions, ViewAll;
    hide WriteTransparent, WriteSaplingV4, WriteSaplingV5, WriteV5Head, WriteActions, WriteJoinSplits;
    hide At, TransparentOk, SaplingV4Ok, SaplingV5Ok, ActionsOk, JoinSplitsOk;
    AtConcat(b, o, LittleEndian(HeaderOf(x), 4), WriteBody(x));
    U32Reads(b, o, HeaderOf(x));
    match x
    case V1(_, _) => BodyReadsOld(b, o + 4, x);
    case V2(_, _, _) => BodyReadsOld(b, o + 4, x);
    case V3(_, _, _) => BodyReadsV3(b, o + 4, x);
    case V4(_, _, _) => BodyReadsV4(b, o + 4, x);
    case V5(header, t, s, orchard) =>
      var head := WriteV5Head(V5_GROUP_ID, header, t, s);
      AtConcat(b, o + 4, head, WriteActions(orchard));
      V5HeadReads(b, o + 4, V5_GROUP_ID, header, t, s);
      ActionsReads(b, o + 4 + |head|, orchard);
    case V6(header, t, s, orchard, ironwood) =>
      var head := WriteV5Head(V6_GROUP_ID, header, t, s);
      AtConcat(b, o + 4, head, WriteActions(orchard) + WriteActions(ironwood));
      AtConcat(b, o + 4 + |head|, WriteActions(orchard), WriteActions(ironwood));
      V5HeadReads(b, o + 4, V6_GROUP_ID, header, t, s);
      ActionsReads(b, o + 4 + |head|, orchard);
      ActionsReads(b, o + 4 + |head| + |WriteActions(orchard)|, ironwood);
  }

  /** The bytes of an accepted transaction are a serialized transaction with that compact form. */
  lemma TransactionCovers(b: Buffer, o: nat, txid: Digest, index: u64) returns (x: Transaction)
    requires ParseTransactionFrom(b, o, txid, index).Ok?
    ensures TransactionOk(x) && At(b, o, WriteTransaction(x))
    ensures ParseTransactionFrom(b, o, txid, index) == Ok(Compact(x, txid, index), o + |WriteTransaction(x)|)
  {
    hide TakeU32, LittleEndian, ParseV1, ParseV2, ParseV3, ParseV4, ParseV5Head, ParseActions, ViewAll;
    hide WriteTransparent, WriteSaplingV4, WriteSaplingV5, WriteV5Head, WriteActions, WriteJoinSplits;
    hide At, TransparentOk, SaplingV4Ok, SaplingV5Ok, ActionsOk, JoinSplitsOk;
    U32Covers(b, o);
    var header := TakeU32(b, o).value;
    if header == 1 {
      x := BodyCoversV1(b, o + 4);
    } else if header == 2 {
      x := BodyCoversV2(b, o + 4);
    } else if header == 0x8000_0003 {
      x := BodyCoversV3(b, o + 4);
    } else if header == 0x8000_0004 {
      x := BodyCoversV4(b, o + 4);
    } else if header == 0x8000_0005 {
      var h, t, s := V5HeadCovers(b, o + 4, V5_GROUP_ID);
      var head := WriteV5Head(V5_GROUP_ID, h, t, s);
      var orchard := ActionsCovers(b, o + 4 + |head|);
      x := V5(h, t, s, orchard);
      AtConcat(b, o + 4, head, WriteActions(orchard));
    } else {
      var h, t, s := V5HeadCovers(b, o + 4, V6_GROUP_ID);
      var head := WriteV5Head(V6_GROUP_ID, h, t, s);
      var orchard := ActionsCovers(b, o + 4 + |head|);
      var ironwood := ActionsCovers(b, o + 4 + |head| + |WriteActions(orchard)|);
      x := V6(h, t, s, orchard, ironwood);
      AtConcat(b, o + 4 + |head|, WriteActions(orchard), WriteActions(ironwood));
      AtConcat(b, o + 4, head, WriteActions(orchard) + WriteActions(ironwood));
    }
    AtConcat(b, o, LittleEndian(HeaderOf(x), 4), WriteBody(x));
  }

  /** Whether a transaction parses, and to what, depends on its own bytes only: neither the bytes
      around it nor the room that the look-ahead sees can change a success. */
  lemma ParseIsLocal(b: Buffer, o: nat, n: nat, c: Buffer, p: nat, compact: CompactTransaction)
    requires ParseTransactionFrom(b, o, compact.txid, compact.index) == Ok(compact, n)
    requires o <= n <= |b| ==> At(c, p, b[o..n])
    ensures o <= n <= |b| && ParseTransactionFrom(c, p, compact.txid, compact.index) == Ok(compact, p + (n - o))
  {
    hide ParseTransactionFrom, WriteTransaction, Compact;
    var x := TransactionCovers(b, o, compact.txid, compact.index);
    TransactionReads(c, p, x, compact.txid, compact.index);
  }

  /** `parse_transaction` accepts exactly the serialized transactions of at most 2,000,000 bytes. */
  lemma ParseTransactionExact(b: Buffer, txid: Digest, index: u64, compact: CompactTransaction)
    ensures ParseTransaction(b, txid, index) == Ok(compact, |b|) <==>
            |b| <= MAX_TRANSACTION_BYTES
            && exists x :: TransactionOk(x) && WriteTransaction(x) == b && Compact(x, txid, index) == compact
  {
    hide ParseTransactionFrom, WriteTransaction, Compact, TransactionOk;
    assert b[0..|b|] == b;
    if ParseTransaction(b, txid, index) == Ok(compact, |b|) {
      var x := TransactionCovers(b, 0, txid, index);
    }
    forall x | |b| <= MAX_TRANSACTION_BYTES && TransactionOk(x) && WriteTransaction(x) == b
               && Compact(x, txid, index) == compact
      ensures ParseTransaction(b, txid, index) == Ok(compact, |b|)
    {
      TransactionReads(b, 0, x, txid, index);
    }
  }
}
