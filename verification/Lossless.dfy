/** The protobuf form of a block loses nothing, so a payload decoder with the laws exists. */
module Lossless {
  import opened Bytes
  import opened ChainTypes
  import opened Protobuf
  import opened RecordCodec

  /** `s` does not start with the key byte `key`. */
  ghost predicate Clear(key: nat, s: seq<byte>) {
    s == [] || s[0] != key
  }

  // Every part of an encoding ends where it ends, whatever comes behind it.

  lemma {:induction false} VarintEnds(n: nat, m: nat, x: seq<byte>, y: seq<byte>)
    requires Varint(n) + x == Varint(m) + y
    ensures n == m && x == y
  {
    var a, b := Varint(n) + x, Varint(m) + y;
    assert a[0] == b[0];
    if n < 128 {
      assert x == a[1..] && y == b[1..];
    } else {
      assert a[1..] == Varint(n / 128) + x && b[1..] == Varint(m / 128) + y;
      VarintEnds(n / 128, m / 128, x, y);
    }
  }

  lemma FieldEnds(tag: nat, s: seq<byte>, u: seq<byte>, x: seq<byte>, y: seq<byte>)
    requires tag < 16 && Field(tag, s) + x == Field(tag, u) + y
    ensures s == u && x == y
  {
    var a, b := Field(tag, s) + x, Field(tag, u) + y;
    assert a[1..] == Varint(|s|) + (s + x) && b[1..] == Varint(|u|) + (u + y);
    VarintEnds(|s|, |u|, s + x, u + y);
    assert s == (s + x)[..|s|] && x == (s + x)[|s|..];
    assert u == (u + y)[..|s|] && y == (u + y)[|s|..];
  }

  lemma UintEnds(tag: nat, n: nat, m: nat, x: seq<byte>, y: seq<byte>)
    requires tag < 16 && UintField(tag, n) + x == UintField(tag, m) + y && Clear(8 * tag, x) && Clear(8 * tag, y)
    ensures n == m && x == y
  {
    UintKey(tag, n, x);
    UintKey(tag, m, y);
    if n > 0 && m > 0 {
      NumberBehindKey(tag, n, x);
      NumberBehindKey(tag, m, y);
      VarintEnds(n, m, x, y);
    } else {
      hide UintField;
    }
  }

  lemma NumberBehindKey(tag: nat, n: nat, x: seq<byte>)
    requires tag < 16 && n > 0
    ensures |UintField(tag, n)| > 0 && (UintField(tag, n) + x)[1..] == Varint(n) + x
  {
    hide Varint;
  }

  lemma {:induction false} RepeatedHead<T>(tag: nat, message: T -> seq<byte>, xs: seq<T>)
    requires tag < 16 && xs != []
    ensures Repeated(tag, message, xs) == Field(tag, message(xs[0])) + Repeated(tag, message, xs[1..])
  {
    hide Field;
    var n := |xs| - 1;
    if n == 0 {
      assert Repeated(tag, message, xs[..0]) == [] && Repeated(tag, message, xs[1..]) == [];
      assert [] + Field(tag, message(xs[0])) == Field(tag, message(xs[0])) == Field(tag, message(xs[0])) + [];
    } else {
      RepeatedHead(tag, message, xs[..n]);
      assert xs[..n][1..] == xs[1..][..n - 1];
    }
  }

  /** The messages of `xs` differ where the values differ. */
  ghost predicate Injective<T(!new)>(message: T -> seq<byte>) {
    forall x, y :: message(x) == message(y) ==> x == y
  }

  lemma {:induction false} RepeatedEnds<T(!new)>(tag: nat, message: T -> seq<byte>, xs: seq<T>, ys: seq<T>,
                                                 x: seq<byte>, y: seq<byte>)
    requires tag < 16 && Injective(message) && Repeated(tag, message, xs) + x == Repeated(tag, message, ys) + y
    requires Clear(8 * tag + 2, x) && Clear(8 * tag + 2, y)
    ensures xs == ys && x == y
    decreases xs
  {
    hide Repeated, Injective;
    var a, b := Repeated(tag, message, xs) + x, Repeated(tag, message, ys) + y;
    RepeatedStarts(tag, message, xs, x);
    RepeatedStarts(tag, message, ys, y);
    if xs != [] && ys != [] {
      RepeatedHead(tag, message, xs);
      RepeatedHead(tag, message, ys);
      var xrest, yrest := Repeated(tag, message, xs[1..]) + x, Repeated(tag, message, ys[1..]) + y;
      assert a == Field(tag, message(xs[0])) + xrest && b == Field(tag, message(ys[0])) + yrest;
      FieldEnds(tag, message(xs[0]), message(ys[0]), xrest, yrest);
      SameMessage(message, xs[0], ys[0]);
      RepeatedEnds(tag, message, xs[1..], ys[1..], x, y);
      assert xs == [xs[0]] + xs[1..] && ys == [ys[0]] + ys[1..];
    }
  }

  lemma SameMessage<T(!new)>(message: T -> seq<byte>, x: T, y: T)
    requires Injective(message) && message(x) == message(y)
    ensures x == y
  {
  }

  /** Only a non-empty list starts with its own key. */
  lemma RepeatedStarts<T>(tag: nat, message: T -> seq<byte>, xs: seq<T>, x: seq<byte>)
    requires tag < 16 && Clear(8 * tag + 2, x)
    ensures xs == [] ==> Repeated(tag, message, xs) + x == x
    ensures xs != [] ==> var a := Repeated(tag, message, xs) + x; a != [] && a[0] == 8 * tag + 2
  {
    if xs != [] {
      RepeatedHead(tag, message, xs);
    }
  }

  // Messages.

  lemma OutputInjective(a: CompactSaplingOutput, b: CompactSaplingOutput)
    requires Output(a) == Output(b)
    ensures a == b
  {
    hide Field;
    var x, y := Field(3, a.ciphertext), Field(3, b.ciphertext);
    assert Output(a) == Field(1, a.cmu) + (Field(2, a.ephemeralKey) + x);
    assert Output(b) == Field(1, b.cmu) + (Field(2, b.ephemeralKey) + y);
    FieldEnds(1, a.cmu, b.cmu, Field(2, a.ephemeralKey) + x, Field(2, b.ephemeralKey) + y);
    FieldEnds(2, a.ephemeralKey, b.ephemeralKey, x, y);
    assert x + [] == x && y + [] == y;
    FieldEnds(3, a.ciphertext, b.ciphertext, [], []);
  }

  lemma ActionInjective(a: CompactShieldedAction, b: CompactShieldedAction)
    requires Action(a) == Action(b)
    ensures a == b
  {
    hide Field;
    var x, y := Field(4, a.ciphertext), Field(4, b.ciphertext);
    var u, v := Field(3, a.ephemeralKey) + x, Field(3, b.ephemeralKey) + y;
    assert Action(a) == Field(1, a.nullifier) + (Field(2, a.commitment) + u);
    assert Action(b) == Field(1, b.nullifier) + (Field(2, b.commitment) + v);
    FieldEnds(1, a.nullifier, b.nullifier, Field(2, a.commitment) + u, Field(2, b.commitment) + v);
    FieldEnds(2, a.commitment, b.commitment, u, v);
    FieldEnds(3, a.ephemeralKey, b.ephemeralKey, x, y);
    assert x + [] == x && y + [] == y;
    FieldEnds(4, a.ciphertext, b.ciphertext, [], []);
  }

  lemma SpendInjective(a: Digest, b: Digest)
    requires Spend(a) == Spend(b)
    ensures a == b
  {
    assert Spend(a) + [] == Spend(a) && Spend(b) + [] == Spend(b);
    FieldEnds(1, a, b, [], []);
  }

  lemma PartsInjective()
    ensures Injective(Spend) && Injective(Output) && Injective(Action)
  {
    forall a, b | Spend(a) == Spend(b) ensures a == b { SpendInjective(a, b); }
    forall a, b | Output(a) == Output(b) ensures a == b { OutputInjective(a, b); }
    forall a, b | Action(a) == Action(b) ensures a == b { ActionInjective(a, b); }
  }

  /** The lists of a transaction from its fourth on. */
  function Lists(tx: CompactTransaction, n: nat): seq<byte> {
    (if n <= 4 then Repeated(4, Spend, tx.saplingSpends) else [])
    + (if n <= 5 then Repeated(5, Output, tx.saplingOutputs) else [])
    + (if n <= 6 then Repeated(6, Action, tx.orchardActions) else []) + Repeated(9, Action, tx.ironwoodActions)
  }

  lemma ListsClear(tx: CompactTransaction)
    ensures Clear(34, Lists(tx, 5)) && Clear(42, Lists(tx, 6)) && Clear(50, Lists(tx, 7)) && Clear(74, [])
  {
    hide Repeated, Lists;
    ListsUnfold(tx);
    RepeatedStarts(9, Action, tx.ironwoodActions, []);
    RepeatedStarts(6, Action, tx.orchardActions, Lists(tx, 7));
    RepeatedStarts(5, Output, tx.saplingOutputs, Lists(tx, 6));
  }

  lemma ListsInjective(a: CompactTransaction, b: CompactTransaction)
    requires Lists(a, 4) == Lists(b, 4)
    ensures a.saplingSpends == b.saplingSpends && a.saplingOutputs == b.saplingOutputs
    ensures a.orchardActions == b.orchardActions && a.ironwoodActions == b.ironwoodActions
  {
    hide Repeated, Injective;
    PartsInjective();
    ListsClear(a);
    ListsClear(b);
    ListsUnfold(a);
    ListsUnfold(b);
    RepeatedEnds(4, Spend, a.saplingSpends, b.saplingSpends, Lists(a, 5), Lists(b, 5));
    RepeatedEnds(5, Output, a.saplingOutputs, b.saplingOutputs, Lists(a, 6), Lists(b, 6));
    RepeatedEnds(6, Action, a.orchardActions, b.orchardActions, Lists(a, 7), Lists(b, 7));
    RepeatedEnds(9, Action, a.ironwoodActions, b.ironwoodActions, [], []);
  }

  lemma ListsUnfold(tx: CompactTransaction)
    ensures Lists(tx, 4) == Repeated(4, Spend, tx.saplingSpends) + Lists(tx, 5)
    ensures Lists(tx, 5) == Repeated(5, Output, tx.saplingOutputs) + Lists(tx, 6)
    ensures Lists(tx, 6) == Repeated(6, Action, tx.orchardActions) + Lists(tx, 7)
    ensures Lists(tx, 7) == Repeated(9, Action, tx.ironwoodActions) + []
  {
    hide Repeated;
  }

  lemma TransactionInjective(a: CompactTransaction, b: CompactTransaction)
    requires Transaction(a) == Transaction(b)
    ensures a == b
  {
    hide Field, UintField, Repeated;
    var x, y := Field(2, a.txid) + Lists(a, 4), Field(2, b.txid) + Lists(b, 4);
    TransactionUnfolds(a);
    TransactionUnfolds(b);
    FieldKey(2, a.txid, Lists(a, 4));
    FieldKey(2, b.txid, Lists(b, 4));
    UintEnds(1, a.index, b.index, x, y);
    FieldEnds(2, a.txid, b.txid, Lists(a, 4), Lists(b, 4));
    ListsInjective(a, b);
  }

  lemma TransactionUnfolds(tx: CompactTransaction)
    ensures Transaction(tx) == UintField(1, tx.index) + (Field(2, tx.txid) + Lists(tx, 4))
  {
    hide Field, UintField, Repeated;
  }

  lemma FieldKey(tag: nat, s: seq<byte>, x: seq<byte>)
    requires tag < 16
    ensures var a := Field(tag, s) + x; a != [] && a[0] == 8 * tag + 2
  {
  }

  lemma MetadataInjective(a: TreeSizes, b: TreeSizes)
    requires Metadata(a) == Metadata(b)
    ensures a == b
  {
    hide UintField;
    var x, y := UintField(3, a.ironwood), UintField(3, b.ironwood);
    assert Metadata(a) == UintField(1, a.sapling) + (UintField(2, a.orchard) + x);
    assert Metadata(b) == UintField(1, b.sapling) + (UintField(2, b.orchard) + y);
    UintKey(3, a.ironwood, []);
    UintKey(3, b.ironwood, []);
    assert x + [] == x && y + [] == y;
    UintKey(2, a.orchard, x);
    UintKey(2, b.orchard, y);
    UintEnds(1, a.sapling, b.sapling, UintField(2, a.orchard) + x, UintField(2, b.orchard) + y);
    UintEnds(2, a.orchard, b.orchard, x, y);
    UintEnds(3, a.ironwood, b.ironwood, [], []);
  }

  /** A number starts with its key or not at all. */
  lemma UintKey(tag: nat, n: nat, x: seq<byte>)
    requires tag < 16
    ensures var a := UintField(tag, n) + x; (n == 0 ==> a == x) && (n > 0 ==> a != [] && a[0] == 8 * tag)
  {
  }

  /** The parts of a block behind its hashes. */
  function Rest(r: CompactBlockRecord): seq<byte> {
    Repeated(7, Transaction, r.transactions) + Field(8, Metadata(r.endTreeSizes))
  }

  lemma BlockUnfolds(r: CompactBlockRecord)
    ensures Block(r)
            == UintField(2, r.height)
               + (Field(3, r.hash) + (Field(4, r.previousHash) + (UintField(5, r.time) + Rest(r))))
    ensures Clear(16, Field(3, r.hash) + (Field(4, r.previousHash) + (UintField(5, r.time) + Rest(r))))
            && Clear(40, Rest(r))
    ensures Clear(58, Field(8, Metadata(r.endTreeSizes)))
  {
    hide Field, UintField, Repeated, Metadata, Transaction;
    FieldKey(3, r.hash, Field(4, r.previousHash) + (UintField(5, r.time) + Rest(r)));
    var last := Field(8, Metadata(r.endTreeSizes));
    FieldKey(8, Metadata(r.endTreeSizes), []);
    assert last + [] == last;
    RepeatedStarts(7, Transaction, r.transactions, last);
  }

  /** Two records with the same protobuf form are the same record. */
  lemma BlockIsLossless(a: CompactBlockRecord, b: CompactBlockRecord)
    requires Block(a) == Block(b)
    ensures a == b
  {
    hide Field, UintField, Repeated, Metadata, Transaction, Block, Rest;
    BlockUnfolds(a);
    BlockUnfolds(b);
    var a5, b5 := UintField(5, a.time) + Rest(a), UintField(5, b.time) + Rest(b);
    var a4, b4 := Field(4, a.previousHash) + a5, Field(4, b.previousHash) + b5;
    UintEnds(2, a.height, b.height, Field(3, a.hash) + a4, Field(3, b.hash) + b4);
    FieldEnds(3, a.hash, b.hash, a4, b4);
    FieldEnds(4, a.previousHash, b.previousHash, a5, b5);
    UintEnds(5, a.time, b.time, Rest(a), Rest(b));
    RestInjective(a, b);
  }

  lemma RestInjective(a: CompactBlockRecord, b: CompactBlockRecord)
    requires Rest(a) == Rest(b)
    ensures a.transactions == b.transactions && a.endTreeSizes == b.endTreeSizes
  {
    hide Field, Repeated, Metadata, Transaction, Injective;
    var x, y := Field(8, Metadata(a.endTreeSizes)), Field(8, Metadata(b.endTreeSizes));
    BlockUnfolds(a);
    BlockUnfolds(b);
    TransactionsInjective();
    RepeatedEnds(7, Transaction, a.transactions, b.transactions, x, y);
    assert x + [] == x && y + [] == y;
    FieldEnds(8, Metadata(a.endTreeSizes), Metadata(b.endTreeSizes), [], []);
    MetadataInjective(a.endTreeSizes, b.endTreeSizes);
  }

  lemma TransactionsInjective()
    ensures Injective(Transaction)
  {
    hide Transaction;
    forall a, b | Transaction(a) == Transaction(b) ensures a == b {
      TransactionInjective(a, b);
    }
  }

  // The laws of the payload decoder can be met.

  lemma {:induction false} TransactionsAreLong(txs: seq<CompactTransaction>)
    ensures var c := CountCommitments(txs); 32 * (c.sapling + c.orchard + c.ironwood) <= |Repeated(7, Transaction, txs)|
  {
    hide Transaction, Field;
    if txs != [] {
      var tx := txs[|txs| - 1];
      TransactionsAreLong(txs[..|txs| - 1]);
      TransactionLength(tx);
      FieldLength(7, Transaction(tx));
    }
  }

  ghost function Decoded(s: seq<byte>): Option<CompactBlockRecord> {
    if r: CompactBlockRecord :| Block(r) == s then Some(r) else None
  }

  /** There is a decoder that undoes the encoder and takes 32 bytes for every commitment. */
  lemma DecoderExists() returns (payload: PayloadDecoder)
    ensures Inverts(payload) && Thrifty(payload)
  {
    hide Block;
    payload := s => Decoded(s);
    forall r ensures payload(Block(r)) == Some(r) {
      var q := Decoded(Block(r)).value;
      BlockIsLossless(q, r);
    }
    forall s | payload(s).Some?
      ensures var c := CountCommitments(payload(s).value.transactions); 32 * (c.sapling + c.orchard + c.ironwood) <= |s|
    {
      LongEnough(payload(s).value);
    }
  }

  lemma LongEnough(r: CompactBlockRecord)
    ensures var c := CountCommitments(r.transactions); 32 * (c.sapling + c.orchard + c.ironwood) <= |Block(r)|
  {
    hide Field, Repeated, Transaction, CountCommitments;
    TransactionsAreLong(r.transactions);
  }
}
