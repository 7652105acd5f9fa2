/**
 * The protobuf form of a compact block, as the generated encoder writes it: base-128 varints,
 * fields in tag order, and no field for a zero number (the Protocol Buffers encoding). Every tag
 * of the compact block schema is below 16, so a field key is one byte.
 */
module Protobuf {
  import opened Bytes
  import opened ChainTypes

  function Varint(n: nat): (s: seq<byte>)
    ensures |s| >= 1
  {
    if n < 128 then [n] else [n % 128 + 128] + Varint(n / 128)
  }

  function UintField(tag: nat, n: nat): seq<byte>
    requires tag < 16
  {
    if n == 0 then [] else [8 * tag] + Varint(n)
  }

  /** A length-delimited field: bytes or a nested message. */
  function Field(tag: nat, s: seq<byte>): seq<byte>
    requires tag < 16
  {
    [8 * tag + 2] + Varint(|s|) + s
  }

  function Spend(nullifier: Digest): seq<byte> {
    Field(1, nullifier)
  }

  function Output(x: CompactSaplingOutput): seq<byte> {
    Field(1, x.cmu) + Field(2, x.ephemeralKey) + Field(3, x.ciphertext)
  }

  function Action(x: CompactShieldedAction): seq<byte> {
    Field(1, x.nullifier) + Field(2, x.commitment) + Field(3, x.ephemeralKey) + Field(4, x.ciphertext)
  }

  function Repeated<T>(tag: nat, message: T -> seq<byte>, xs: seq<T>): seq<byte>
    requires tag < 16
  {
    if xs == [] then [] else Repeated(tag, message, xs[..|xs| - 1]) + Field(tag, message(xs[|xs| - 1]))
  }

  function Transaction(tx: CompactTransaction): seq<byte> {
    UintField(1, tx.index) + Field(2, tx.txid)
    + Repeated(4, Spend, tx.saplingSpends) + Repeated(5, Output, tx.saplingOutputs)
    + Repeated(6, Action, tx.orchardActions) + Repeated(9, Action, tx.ironwoodActions)
  }

  function Metadata(sizes: TreeSizes): seq<byte> {
    UintField(1, sizes.sapling) + UintField(2, sizes.orchard) + UintField(3, sizes.ironwood)
  }

  function Block(r: CompactBlockRecord): seq<byte> {
    UintField(2, r.height) + Field(3, r.hash) + Field(4, r.previousHash) + UintField(5, r.time)
    + Repeated(7, Transaction, r.transactions) + Field(8, Metadata(r.endTreeSizes))
  }

  // Length bounds.

  lemma {:induction false} VarintLength(n: nat, k: nat)
    requires k >= 1 && n < Pow128(k)
    ensures |Varint(n)| <= k
  {
    if n >= 128 {
      VarintLength(n / 128, k - 1);
    }
  }

  function Pow128(k: nat): (p: nat)
    ensures p >= 1
  {
    if k == 0 then 1 else 128 * Pow128(k - 1)
  }

  lemma Pow128Widths()
    ensures Pow128(1) == 0x80 && Pow128(2) == 0x4000 && Pow128(5) >= 0x1_0000_0000
    ensures Pow128(10) >= 0x1_0000_0000_0000_0000
  {
    assert Pow128(2) == 128 * Pow128(1);
    assert Pow128(3) == 128 * Pow128(2);
    assert Pow128(4) == 128 * Pow128(3);
    assert Pow128(5) == 128 * Pow128(4);
    assert Pow128(6) == 128 * Pow128(5);
    assert Pow128(7) == 128 * Pow128(6);
    assert Pow128(8) == 128 * Pow128(7);
    assert Pow128(9) == 128 * Pow128(8);
    assert Pow128(10) == 128 * Pow128(9);
  }

  lemma OneMore(k: nat, n: nat)
    ensures k * (n + 1) == k * n + k
  {
  }

  lemma {:induction false} RepeatedLength<T>(tag: nat, message: T -> seq<byte>, xs: seq<T>, least: nat, most: nat)
    requires tag < 16 && forall x <- xs :: least <= |Field(tag, message(x))| <= most
    ensures least * |xs| <= |Repeated(tag, message, xs)| <= most * |xs|
  {
    hide Field;
    if xs != [] {
      var n := |xs| - 1;
      assert xs[n] in xs && forall x <- xs[..n] :: x in xs;
      RepeatedLength(tag, message, xs[..n], least, most);
      OneMore(least, n);
      OneMore(most, n);
    }
  }

  lemma FieldLength(tag: nat, s: seq<byte>)
    requires tag < 16
    ensures |s| < 128 ==> |Field(tag, s)| == 2 + |s|
    ensures 128 <= |s| < 0x4000 ==> |Field(tag, s)| == 3 + |s|
    ensures |Field(tag, s)| >= 2 + |s|
    ensures |s| <= U64_MAX ==> |Field(tag, s)| <= 11 + |s|
  {
    Pow128Widths();
    if |s| >= 128 && |s| < 0x4000 {
      assert Varint(|s| / 128) == [|s| / 128];
    }
    if |s| <= U64_MAX {
      VarintLength(|s|, 10);
    }
  }

  lemma UintLength(tag: nat, n: nat)
    requires tag < 16
    ensures n <= U32_MAX ==> |UintField(tag, n)| <= 6
    ensures n <= U64_MAX ==> |UintField(tag, n)| <= 11
  {
    Pow128Widths();
    if n <= U32_MAX {
      VarintLength(n, 5);
    }
    if n <= U64_MAX {
      VarintLength(n, 10);
    }
  }

  lemma OutputLength(x: CompactSaplingOutput, tag: nat)
    requires tag < 16
    ensures |Field(tag, Output(x))| == 124
  {
    hide Varint;
    FieldLength(1, x.cmu);
    FieldLength(2, x.ephemeralKey);
    FieldLength(3, x.ciphertext);
    FieldLength(tag, Output(x));
  }

  lemma ActionLength(x: CompactShieldedAction, tag: nat)
    requires tag < 16
    ensures |Field(tag, Action(x))| == 159
  {
    hide Varint;
    FieldLength(1, x.nullifier);
    FieldLength(2, x.commitment);
    FieldLength(3, x.ephemeralKey);
    FieldLength(4, x.ciphertext);
    FieldLength(tag, Action(x));
  }

  lemma SpendLength(nullifier: Digest)
    ensures |Field(4, Spend(nullifier))| == 36
  {
    hide Varint;
    FieldLength(1, nullifier);
    FieldLength(4, Spend(nullifier));
  }

  /** The shielded data of a transaction in the schema's encoding. */
  function PayloadBytes(tx: CompactTransaction): nat {
    36 * |tx.saplingSpends| + 124 * |tx.saplingOutputs| + 159 * |tx.orchardActions| + 159 * |tx.ironwoodActions|
  }

  lemma TransactionLength(tx: CompactTransaction)
    ensures PayloadBytes(tx) <= |Transaction(tx)| <= 45 + PayloadBytes(tx)
  {
    hide Field, UintField, Repeated;
    forall x <- tx.saplingSpends ensures |Field(4, Spend(x))| == 36 { SpendLength(x); }
    forall x <- tx.saplingOutputs ensures |Field(5, Output(x))| == 124 { OutputLength(x, 5); }
    forall x <- tx.orchardActions ensures |Field(6, Action(x))| == 159 { ActionLength(x, 6); }
    forall x <- tx.ironwoodActions ensures |Field(9, Action(x))| == 159 { ActionLength(x, 9); }
    RepeatedLength(4, Spend, tx.saplingSpends, 36, 36);
    RepeatedLength(5, Output, tx.saplingOutputs, 124, 124);
    RepeatedLength(6, Action, tx.orchardActions, 159, 159);
    RepeatedLength(9, Action, tx.ironwoodActions, 159, 159);
    UintLength(1, tx.index);
    FieldLength(2, tx.txid);
  }
}
