/** Bounds-checked reads at an offset of a byte buffer: the meaning of the parser's `Reader`. */
module Cursor {
  import opened Bytes
  import opened ChainTypes

  datatype ParseError =
    | TooLarge
    | Truncated(offset: nat)
    | NonCanonicalCompactSize(offset: nat)
    | LengthLimit(offset: nat)
    | UnsupportedHeader(header: u32)
    | VersionGroup(actual: u32, expected: u32)
    | TrailingBytes(offset: nat)

  /** The value read and the offset behind it, or the error that ends the parse. */
  datatype Parsed<+T> = Ok(value: T, next: nat) | Err(error: ParseError) {
    predicate IsFailure() {
      Err?
    }

    function PropagateFailure<U>(): Parsed<U>
      requires Err?
    {
      Err(error)
    }

    function Extract(): (T, nat)
      requires Ok?
    {
      (value, next)
    }
  }

  const MAX_TRANSACTION_BYTES: nat := 2_000_000
  const MAX_VECTOR_ITEMS: nat := U16_MAX

  function Take(b: Buffer, o: nat, len: nat): Parsed<seq<byte>> {
    if o + len > USIZE_MAX then Err(LengthLimit(o))
    else if o + len > |b| then Err(Truncated(o))
    else Ok(b[o..o + len], o + len)
  }

  function Skip(b: Buffer, o: nat, len: nat): Parsed<()> {
    var (_, next) :- Take(b, o, len);
    Ok((), next)
  }

  function TakeDigest(b: Buffer, o: nat): Parsed<Digest> {
    var (bytes, next) :- Take(b, o, 32);
    Ok(bytes, next)
  }

  function TakeCiphertext(b: Buffer, o: nat): Parsed<Ciphertext> {
    var (bytes, next) :- Take(b, o, 52);
    Ok(bytes, next)
  }

  function TakeU32(b: Buffer, o: nat): Parsed<u32> {
    var (bytes, next) :- Take(b, o, 4);
    LittleEndianWrites(bytes);
    Pow256Widths();
    Ok(FromLittleEndian(bytes), next)
  }

  /** The bytes behind the first byte of a CompactSize. */
  function SizeWidth(first: byte): nat {
    if first <= 252 then 0 else if first == 253 then 2 else if first == 254 then 4 else 8
  }

  /** The least value that may use the form with first byte `first`. */
  function SizeLeast(first: byte): nat {
    if first <= 252 then 0 else if first == 253 then 253 else if first == 254 then U16_MAX + 1 else U32_MAX + 1
  }

  /** A canonical CompactSize of at most `max`. */
  function CompactSize(b: Buffer, o: nat, max: nat): (r: Parsed<nat>)
    ensures r.Ok? ==> r.value <= max
  {
    var (first, o1) :- Take(b, o, 1);
    var (bytes, next) :- Take(b, o1, SizeWidth(first[0]));
    var value := if first[0] <= 252 then first[0] else FromLittleEndian(bytes);
    if value < SizeLeast(first[0]) then Err(NonCanonicalCompactSize(o))
    else if value > max then Err(LengthLimit(o))
    else Ok(value, next)
  }

  function Count(b: Buffer, o: nat): Parsed<nat> {
    CompactSize(b, o, MAX_VECTOR_ITEMS)
  }

  function SkipItems(b: Buffer, o: nat, count: nat, size: nat): Parsed<()> {
    if count * size > USIZE_MAX then Err(LengthLimit(o)) else Skip(b, o, count * size)
  }

  /** Looks ahead: `count` items of `size` bytes must be left. Reads nothing. */
  function EnsureItems(b: Buffer, o: nat, count: nat, size: nat): Parsed<()> {
    if count * size > USIZE_MAX then Err(LengthLimit(o))
    else if count * size > |b| - o then Err(Truncated(o))
    else Ok((), o)
  }

  /** A length and that many bytes, which the parser drops. */
  function SkipSized(b: Buffer, o: nat): Parsed<()> {
    var (len, o1) :- CompactSize(b, o, MAX_TRANSACTION_BYTES);
    Skip(b, o1, len)
  }

  /** `n` items, one after the other. */
  function Items<T>(item: (Buffer, nat) -> Parsed<T>, b: Buffer, o: nat, n: nat): Parsed<seq<T>>
    decreases n
  {
    if n == 0 then Ok([], o)
    else
      var (x, o1) :- item(b, o);
      var (xs, o2) :- Items(item, b, o1, n - 1);
      Ok([x] + xs, o2)
  }

  /** A count and that many items. */
  function Counted<T>(item: (Buffer, nat) -> Parsed<T>, b: Buffer, o: nat): Parsed<seq<T>> {
    var (count, o1) :- Count(b, o);
    Items(item, b, o1, count)
  }

  /** A count, the look-ahead for items of `size` bytes, and the items. */
  function Vector<T>(item: (Buffer, nat) -> Parsed<T>, size: nat, b: Buffer, o: nat): Parsed<seq<T>> {
    var (count, o1) :- Count(b, o);
    var _ :- EnsureItems(b, o1, count, size);
    Items(item, b, o1, count)
  }

  /** Lengths that do not fit 64 bits are named as such, and a vector whose items do not fit in the rest
      is refused behind its count, before any item is read. */
  lemma LimitsAreNamed<T>(item: (Buffer, nat) -> Parsed<T>, size: nat, b: Buffer, o: nat, len: nat, count: nat)
    ensures o + len > 0xFFFF_FFFF_FFFF_FFFF ==> Take(b, o, len) == Err(LengthLimit(o))
    ensures count * size > 0xFFFF_FFFF_FFFF_FFFF ==>
              SkipItems(b, o, count, size) == EnsureItems(b, o, count, size) == Err(LengthLimit(o))
    ensures var n := Count(b, o);
            n.Ok? && |b| < n.next + n.value * size <= 0xFFFF_FFFF_FFFF_FFFF ==>
              Vector(item, size, b, o) == Err(Truncated(n.next))
  {
    hide CompactSize;
  }

  // The canonical writer of a CompactSize, and why it and the reader are inverse.

  function WriteSize(n: nat): seq<byte> {
    if n <= 252 then [n]
    else if n <= U16_MAX then [253] + LittleEndian(n, 2)
    else if n <= U32_MAX then [254] + LittleEndian(n, 4)
    else [255] + LittleEndian(n, 8)
  }

  lemma SizeReads(b: Buffer, o: nat, n: u64, max: nat)
    requires n <= max && At(b, o, WriteSize(n))
    ensures CompactSize(b, o, max) == Ok(n, o + |WriteSize(n)|)
  {
    var s := WriteSize(n);
    AtConcat(b, o, s[..1], s[1..]);
    assert s == s[..1] + s[1..];
    assert b[o] == b[o..o + |s|][0] == s[0];
    assert SizeWidth(s[0]) == |s| - 1;
    Pow256Widths();
    if n > 252 {
      LittleEndianReads(n, |s| - 1);
      assert s[1..] == LittleEndian(n, |s| - 1);
    }
  }

  /** The long forms write a value back in the width that it was read from. */
  lemma LongSizeWrites(first: byte, bytes: seq<byte>)
    requires first >= 253 && |bytes| == SizeWidth(first) && FromLittleEndian(bytes) >= SizeLeast(first)
    ensures WriteSize(FromLittleEndian(bytes)) == [first] + bytes
  {
    LittleEndianWrites(bytes);
    Pow256Widths();
  }

  lemma SizeCovers(b: Buffer, o: nat, max: u64)
    requires CompactSize(b, o, max).Ok?
    ensures var r := CompactSize(b, o, max);
            At(b, o, WriteSize(r.value)) && r.next == o + |WriteSize(r.value)|
  {
    hide FromLittleEndian, LittleEndian;
    var first := b[o];
    var w := SizeWidth(first);
    var bytes := b[o + 1..o + 1 + w];
    assert b[o..o + 1] == [first];
    if first >= 253 {
      LongSizeWrites(first, bytes);
    }
    AtConcat(b, o, [first], bytes);
  }

  // Grammars of repeated items, proved once for every item.

  function WriteAll<F>(write: F -> seq<byte>, xs: seq<F>): seq<byte> {
    if xs == [] then [] else write(xs[0]) + WriteAll(write, xs[1..])
  }

  function ViewAll<F, T>(view: F -> T, xs: seq<F>): (ys: seq<T>)
    ensures |ys| == |xs|
  {
    if xs == [] then [] else [view(xs[0])] + ViewAll(view, xs[1..])
  }

  /** `item` reads back everything that `write` writes. */
  ghost predicate Reads<F(!new), T(!new)>(item: (Buffer, nat) -> Parsed<T>, write: F -> seq<byte>,
                                          wf: F -> bool, view: F -> T) {
    forall b: Buffer, o: nat, x: F {:trigger item(b, o), write(x)} ::
      wf(x) && At(b, o, write(x)) ==> item(b, o) == Ok(view(x), o + |write(x)|)
  }

  /** `x` is what stands at `o` where `r` was read. */
  ghost predicate Spells<F(!new), T(!new)>(b: Buffer, o: nat, r: Parsed<T>, write: F -> seq<byte>,
                                           wf: F -> bool, view: F -> T, x: F) {
    wf(x) && r == Ok(view(x), o + |write(x)|) && At(b, o, write(x))
  }

  /** `item` accepts nothing that `write` does not write. */
  ghost predicate Covers<F(!new), T(!new)>(item: (Buffer, nat) -> Parsed<T>, write: F -> seq<byte>,
                                           wf: F -> bool, view: F -> T) {
    forall b: Buffer, o: nat :: item(b, o).Ok? ==> exists x: F :: Spells(b, o, item(b, o), write, wf, view, x)
  }

  lemma {:induction false} ItemsRead<F(!new), T(!new)>(
    item: (Buffer, nat) -> Parsed<T>, write: F -> seq<byte>, wf: F -> bool, view: F -> T,
    b: Buffer, o: nat, xs: seq<F>)
    requires Reads(item, write, wf, view)
    requires forall x <- xs :: wf(x)
    requires At(b, o, WriteAll(write, xs))
    ensures Items(item, b, o, |xs|) == Ok(ViewAll(view, xs), o + |WriteAll(write, xs)|)
    decreases xs
  {
    hide At;
    if xs != [] {
      AtConcat(b, o, write(xs[0]), WriteAll(write, xs[1..]));
      assert item(b, o) == Ok(view(xs[0]), o + |write(xs[0])|);
      ItemsRead(item, write, wf, view, b, o + |write(xs[0])|, xs[1..]);
    }
  }

  lemma {:induction false} ItemsCover<F(!new), T(!new)>(
    item: (Buffer, nat) -> Parsed<T>, write: F -> seq<byte>, wf: F -> bool, view: F -> T,
    b: Buffer, o: nat, n: nat) returns (xs: seq<F>)
    requires Covers(item, write, wf, view)
    requires o <= |b| && Items(item, b, o, n).Ok?
    ensures |xs| == n && (forall x <- xs :: wf(x))
    ensures Items(item, b, o, n) == Ok(ViewAll(view, xs), o + |WriteAll(write, xs)|)
    ensures At(b, o, WriteAll(write, xs))
    decreases n
  {
    if n == 0 {
      xs := [];
    } else {
      var x: F :| Spells(b, o, item(b, o), write, wf, view, x);
      var rest := ItemsCover(item, write, wf, view, b, item(b, o).next, n - 1);
      xs := [x] + rest;
      assert xs[1..] == rest;
      AtConcat(b, o, write(x), WriteAll(write, rest));
    }
  }

  /** Items of one size fill exactly their number times that size. */
  lemma {:induction false} FixedSize<F(!new)>(write: F -> seq<byte>, xs: seq<F>, size: nat)
    requires forall x <- xs :: |write(x)| == size
    ensures |WriteAll(write, xs)| == |xs| * size
  {
    if xs != [] {
      FixedSize(write, xs[1..], size);
      var n := |xs| - 1;
      assert (n + 1) * size == n * size + size;
    }
  }

  function WriteVector<F>(write: F -> seq<byte>, xs: seq<F>): seq<byte> {
    WriteSize(|xs|) + WriteAll(write, xs)
  }

  lemma CountedReads<F(!new), T(!new)>(
    item: (Buffer, nat) -> Parsed<T>, write: F -> seq<byte>, wf: F -> bool, view: F -> T,
    b: Buffer, o: nat, xs: seq<F>)
    requires Reads(item, write, wf, view)
    requires |xs| <= MAX_VECTOR_ITEMS && (forall x <- xs :: wf(x))
    requires At(b, o, WriteVector(write, xs))
    ensures Counted(item, b, o) == Ok(ViewAll(view, xs), o + |WriteVector(write, xs)|)
  {
    AtConcat(b, o, WriteSize(|xs|), WriteAll(write, xs));
    SizeReads(b, o, |xs|, MAX_VECTOR_ITEMS);
    ItemsRead(item, write, wf, view, b, o + |WriteSize(|xs|)|, xs);
  }

  lemma CountedCovers<F(!new), T(!new)>(
    item: (Buffer, nat) -> Parsed<T>, write: F -> seq<byte>, wf: F -> bool, view: F -> T,
    b: Buffer, o: nat) returns (xs: seq<F>)
    requires Covers(item, write, wf, view)
    requires Counted(item, b, o).Ok?
    ensures |xs| <= MAX_VECTOR_ITEMS && (forall x <- xs :: wf(x))
    ensures At(b, o, WriteVector(write, xs))
    ensures Counted(item, b, o) == Ok(ViewAll(view, xs), o + |WriteVector(write, xs)|)
  {
    SizeCovers(b, o, MAX_VECTOR_ITEMS);
    var n := Count(b, o);
    xs := ItemsCover(item, write, wf, view, b, n.next, n.value);
    AtConcat(b, o, WriteSize(|xs|), WriteAll(write, xs));
  }

  /** With items of `size` bytes, the look-ahead refuses nothing that the items do not refuse. */
  lemma LookAheadReads<F(!new), T(!new)>(
    item: (Buffer, nat) -> Parsed<T>, write: F -> seq<byte>, wf: F -> bool, view: F -> T, size: nat,
    b: Buffer, o: nat, xs: seq<F>)
    requires Reads(item, write, wf, view)
    requires |xs| <= MAX_VECTOR_ITEMS && (forall x <- xs :: wf(x) && |write(x)| == size)
    requires At(b, o, WriteVector(write, xs))
    ensures Vector(item, size, b, o) == Ok(ViewAll(view, xs), o + |WriteVector(write, xs)|)
  {
    CountedReads(item, write, wf, view, b, o, xs);
    AtConcat(b, o, WriteSize(|xs|), WriteAll(write, xs));
    SizeReads(b, o, |xs|, MAX_VECTOR_ITEMS);
    FixedSize(write, xs, size);
  }
}
