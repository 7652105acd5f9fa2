/** Note commitment trees: what appending the commitments of blocks does to them. */
module CommitmentTrees {
  import opened Bytes
  import opened ChainTypes
  import opened Manifest
  import opened RecordCodec
  import opened RangeDecoder
  import opened RangeCheck

  const TREE_CAPACITY: nat := 0x1_0000_0000
  const SUBTREE_LEAVES: nat := 65_536

  /** The tree library of one pool. `leaf` says if 32 bytes are a field element of the pool, and
      `subtree` gives the root of the subtree that the last leaf completed. */
  datatype TreeOps<!T> = TreeOps(
    empty: T,
    leaf: Digest -> bool,
    append: (T, Digest) -> T,
    count: T -> nat,
    root: T -> Digest,
    subtree: T -> Digest,
    rpc: T -> seq<byte>,
    parse: seq<byte> -> Option<T>)

  /** The laws of the library: an append adds one, only the empty tree has no commitments, and the
      RPC encoding is never empty and is undone by its parser. */
  ghost predicate Lawful<T(!new)>(ops: TreeOps<T>) {
    && ops.count(ops.empty) == 0
    && (forall t :: ops.count(t) == 0 ==> t == ops.empty)
    && (forall t, x :: ops.count(ops.append(t, x)) == ops.count(t) + 1)
    && (forall t :: ops.rpc(t) != [] && ops.parse(ops.rpc(t)) == Some(t))
  }

  datatype PoolOps<!T> = PoolOps(sapling: TreeOps<T>, orchard: TreeOps<T>, ironwood: TreeOps<T>) {
    function Of(pool: Pool): TreeOps<T> {
      match pool case SaplingPool => sapling case OrchardPool => orchard case IronwoodPool => ironwood
    }
  }

  ghost predicate AllLawful<T(!new)>(p: PoolOps<T>) {
    Lawful(p.sapling) && Lawful(p.orchard) && Lawful(p.ironwood)
  }

  datatype Trees<T> = Trees(sapling: T, orchard: T, ironwood: T) {
    function Of(pool: Pool): T {
      match pool case SaplingPool => sapling case OrchardPool => orchard case IronwoodPool => ironwood
    }
  }

  function SizeOf(sizes: TreeSizes, pool: Pool): nat {
    match pool case SaplingPool => sizes.sapling case OrchardPool => sizes.orchard case IronwoodPool => sizes.ironwood
  }

  predicate HaveSizes<T>(p: PoolOps<T>, trees: Trees<T>, sizes: TreeSizes) {
    && p.sapling.count(trees.sapling) == sizes.sapling && p.orchard.count(trees.orchard) == sizes.orchard
    && p.ironwood.count(trees.ironwood) == sizes.ironwood
  }

  // One tree.

  function AppendAll<T>(ops: TreeOps<T>, t: T, leaves: seq<Digest>): T
    decreases leaves
  {
    if leaves == [] then t else AppendAll(ops, ops.append(t, leaves[0]), leaves[1..])
  }

  /** The subtree that the last leaf of `t` completed, if any. */
  function Completed<T>(ops: TreeOps<T>, pool: Pool, t: T): seq<SubtreeRoot> {
    var n := ops.count(t);
    if n > 0 && n % SUBTREE_LEAVES == 0 then [SubtreeRoot(pool, n / SUBTREE_LEAVES - 1, ops.subtree(t))] else []
  }

  /** The subtrees that `leaves` complete when they are appended one at a time. */
  function Completions<T>(ops: TreeOps<T>, pool: Pool, t: T, leaves: seq<Digest>): seq<SubtreeRoot>
    decreases leaves
  {
    if leaves == [] then []
    else
      var u := ops.append(t, leaves[0]);
      Completed(ops, pool, u) + Completions(ops, pool, u, leaves[1..])
  }

  /** The batch append of the library: the new tree and at most one completed subtree, or `None` if
      the tree is full. */
  function AppendBatch<T>(ops: TreeOps<T>, pool: Pool, t: T, leaves: seq<Digest>): Option<(T, seq<SubtreeRoot>)> {
    if ops.count(t) + |leaves| > TREE_CAPACITY then None
    else
      var all := Completions(ops, pool, t, leaves);
      Some((AppendAll(ops, t, leaves), if all == [] then [] else [all[|all| - 1]]))
  }

  lemma {:induction false} AppendCounts<T(!new)>(ops: TreeOps<T>, t: T, leaves: seq<Digest>)
    requires Lawful(ops)
    ensures ops.count(AppendAll(ops, t, leaves)) == ops.count(t) + |leaves|
    decreases leaves
  {
    if leaves != [] {
      AppendCounts(ops, ops.append(t, leaves[0]), leaves[1..]);
    }
  }

  lemma OneMoreCounted<T(!new)>(ops: TreeOps<T>, t: T, x: Digest)
    requires Lawful(ops)
    ensures ops.count(ops.append(t, x)) == ops.count(t) + 1
  {
  }

  lemma OneMoreLeaf(n: nat)
    ensures (n + 1) / SUBTREE_LEAVES == n / SUBTREE_LEAVES + if (n + 1) % SUBTREE_LEAVES == 0 then 1 else 0
  {
  }

  /** Growing from `n` to `n + k` leaves completes exactly the subtrees `n >> 16` up to
      `(n + k) >> 16`, in order. */
  lemma {:induction false} CompletionIndices<T(!new)>(ops: TreeOps<T>, pool: Pool, t: T, leaves: seq<Digest>)
    requires Lawful(ops)
    ensures var all, n := Completions(ops, pool, t, leaves), ops.count(t);
            && |all| == (n + |leaves|) / SUBTREE_LEAVES - n / SUBTREE_LEAVES
            && forall i | 0 <= i < |all| :: all[i].pool == pool && all[i].index == n / SUBTREE_LEAVES + i
    decreases leaves
  {
    hide Lawful;
    if leaves != [] {
      var u := ops.append(t, leaves[0]);
      OneMoreCounted(ops, t, leaves[0]);
      OneMoreLeaf(ops.count(t));
      CompletionIndices(ops, pool, u, leaves[1..]);
    }
  }

  /** A batch of fewer than 65,536 leaves completes at most one subtree, so the batch append is the
      append of one leaf after the other. */
  lemma BatchIsOneByOne<T(!new)>(ops: TreeOps<T>, pool: Pool, t: T, leaves: seq<Digest>)
    requires Lawful(ops) && |leaves| < SUBTREE_LEAVES && ops.count(t) + |leaves| <= TREE_CAPACITY
    ensures AppendBatch(ops, pool, t, leaves) == Some((AppendAll(ops, t, leaves), Completions(ops, pool, t, leaves)))
    ensures |Completions(ops, pool, t, leaves)| <= 1
  {
    CompletionIndices(ops, pool, t, leaves);
    var all, n := Completions(ops, pool, t, leaves), ops.count(t);
    assert (n + |leaves|) / SUBTREE_LEAVES <= n / SUBTREE_LEAVES + 1;
    if all != [] {
      assert all == [all[0]];
    }
  }

  lemma {:induction false} AppendGlues<T>(ops: TreeOps<T>, t: T, xs: seq<Digest>, ys: seq<Digest>)
    ensures AppendAll(ops, t, xs + ys) == AppendAll(ops, AppendAll(ops, t, xs), ys)
    decreases xs
  {
    if xs == [] {
      assert xs + ys == ys;
    } else {
      assert (xs + ys)[1..] == xs[1..] + ys;
      AppendGlues(ops, ops.append(t, xs[0]), xs[1..], ys);
    }
  }

  // The leaves of blocks.

  function TxLeaves(pool: Pool, tx: CompactTransaction): seq<Digest> {
    match pool
    case SaplingPool => seq(|tx.saplingOutputs|, i requires 0 <= i < |tx.saplingOutputs| => tx.saplingOutputs[i].cmu)
    case OrchardPool => Commitments(tx.orchardActions)
    case IronwoodPool => Commitments(tx.ironwoodActions)
  }

  function Commitments(actions: seq<CompactShieldedAction>): seq<Digest> {
    seq(|actions|, i requires 0 <= i < |actions| => actions[i].commitment)
  }

  function Leaves(pool: Pool, txs: seq<CompactTransaction>): seq<Digest> {
    if txs == [] then [] else Leaves(pool, txs[..|txs| - 1]) + TxLeaves(pool, txs[|txs| - 1])
  }

  lemma {:induction false} LeavesCounted(txs: seq<CompactTransaction>)
    ensures CountCommitments(txs)
            == Counts(|Leaves(SaplingPool, txs)|, |Leaves(OrchardPool, txs)|, |Leaves(IronwoodPool, txs)|)
  {
    if txs != [] {
      LeavesCounted(txs[..|txs| - 1]);
    }
  }

  /** Every commitment is a field element of its pool. */
  predicate LeavesOk<T>(p: PoolOps<T>, txs: seq<CompactTransaction>) {
    && (forall x <- Leaves(SaplingPool, txs) :: p.sapling.leaf(x))
    && (forall x <- Leaves(OrchardPool, txs) :: p.orchard.leaf(x))
    && (forall x <- Leaves(IronwoodPool, txs) :: p.ironwood.leaf(x))
  }

  /** The trees of a rebuild and the subtrees that the current range completed. */
  datatype Progress<T> = Progress(trees: Trees<T>, completed: seq<SubtreeRoot>)

  /** `Trees::append`: the commitments of one block. */
  function Append<T>(p: PoolOps<T>, s: Progress<T>, r: CompactBlockRecord): Verdict<Progress<T>> {
    if !LeavesOk(p, r.transactions) then Refused(Rejected(Commitment, r.height))
    else
      var sapling := AppendBatch(p.sapling, SaplingPool, s.trees.sapling, Leaves(SaplingPool, r.transactions));
      var orchard := AppendBatch(p.orchard, OrchardPool, s.trees.orchard, Leaves(OrchardPool, r.transactions));
      var ironwood := AppendBatch(p.ironwood, IronwoodPool, s.trees.ironwood, Leaves(IronwoodPool, r.transactions));
      if sapling.None? || orchard.None? || ironwood.None? then Refused(Rejected(Commitment, r.height))
      else
        Accepted(Progress(Trees(sapling.value.0, orchard.value.0, ironwood.value.0),
                          s.completed + (sapling.value.1 + orchard.value.1 + ironwood.value.1)))
  }

  function Appender<T>(p: PoolOps<T>): Visitor<Progress<T>> {
    (s: Progress<T>, r: CompactBlockRecord) => Append(p, s, r)
  }

  /** The trees after the commitments of `txs`. */
  function AppendBlock<T>(p: PoolOps<T>, trees: Trees<T>, txs: seq<CompactTransaction>): Trees<T> {
    Trees(AppendAll(p.sapling, trees.sapling, Leaves(SaplingPool, txs)),
          AppendAll(p.orchard, trees.orchard, Leaves(OrchardPool, txs)),
          AppendAll(p.ironwood, trees.ironwood, Leaves(IronwoodPool, txs)))
  }

  /** The subtrees that the commitments of `txs` complete. */
  function BlockCompletes<T>(p: PoolOps<T>, trees: Trees<T>, txs: seq<CompactTransaction>): seq<SubtreeRoot> {
    Completions(p.sapling, SaplingPool, trees.sapling, Leaves(SaplingPool, txs))
    + Completions(p.orchard, OrchardPool, trees.orchard, Leaves(OrchardPool, txs))
    + Completions(p.ironwood, IronwoodPool, trees.ironwood, Leaves(IronwoodPool, txs))
  }

  /** `r` has fewer than 65,536 commitments, and its count is exact. */
  ghost predicate Small(r: CompactBlockRecord) {
    var c := CountCommitments(r.transactions);
    c.sapling + c.orchard + c.ironwood < SUBTREE_LEAVES && r.Additions() == TreeSizes(c.sapling, c.orchard, c.ironwood)
  }

  /** A full tree is out of reach: a block whose tree sizes follow is appended as a whole if its
      commitments are field elements, and the tree sizes stay exact. */
  lemma AppendMeans<T(!new)>(p: PoolOps<T>, s: Progress<T>, r: CompactBlockRecord, sizes: TreeSizes)
    requires AllLawful(p) && Small(r) && HaveSizes(p, s.trees, sizes)
    requires sizes.CheckedAdd(r.Additions()) == Some(r.endTreeSizes)
    ensures Append(p, s, r)
            == if !LeavesOk(p, r.transactions) then Refused(Rejected(Commitment, r.height))
               else Accepted(Progress(AppendBlock(p, s.trees, r.transactions),
                                      s.completed + BlockCompletes(p, s.trees, r.transactions)))
    ensures HaveSizes(p, AppendBlock(p, s.trees, r.transactions), r.endTreeSizes)
  {
    hide Lawful, AppendBatch, CountCommitments, LeavesOk, Completions, AppendAll, Leaves;
    var txs := r.transactions;
    LeavesCounted(txs);
    BatchIsOneByOne(p.sapling, SaplingPool, s.trees.sapling, Leaves(SaplingPool, txs));
    BatchIsOneByOne(p.orchard, OrchardPool, s.trees.orchard, Leaves(OrchardPool, txs));
    BatchIsOneByOne(p.ironwood, IronwoodPool, s.trees.ironwood, Leaves(IronwoodPool, txs));
    AppendCounts(p.sapling, s.trees.sapling, Leaves(SaplingPool, txs));
    AppendCounts(p.orchard, s.trees.orchard, Leaves(OrchardPool, txs));
    AppendCounts(p.ironwood, s.trees.ironwood, Leaves(IronwoodPool, txs));
  }

  // Many blocks.

  function TreesAfter<T>(p: PoolOps<T>, trees: Trees<T>, rs: seq<CompactBlockRecord>): Trees<T>
    decreases rs
  {
    if rs == [] then trees else TreesAfter(p, AppendBlock(p, trees, rs[0].transactions), rs[1..])
  }

  /** The subtrees that `rs` complete, in the order of the blocks. */
  function CompletedBy<T>(p: PoolOps<T>, trees: Trees<T>, rs: seq<CompactBlockRecord>): seq<SubtreeRoot>
    decreases rs
  {
    if rs == [] then []
    else
      var txs := rs[0].transactions;
      BlockCompletes(p, trees, txs) + CompletedBy(p, AppendBlock(p, trees, txs), rs[1..])
  }

  ghost predicate AllSmall(rs: seq<CompactBlockRecord>) {
    forall r <- rs :: Small(r)
  }

  ghost predicate AllLeavesOk<T>(p: PoolOps<T>, rs: seq<CompactBlockRecord>) {
    forall r <- rs :: LeavesOk(p, r.transactions)
  }

  lemma Heads<T>(p: PoolOps<T>, rs: seq<CompactBlockRecord>)
    requires rs != []
    ensures AllSmall(rs) <==> Small(rs[0]) && AllSmall(rs[1..])
    ensures AllLeavesOk(p, rs) <==> LeavesOk(p, rs[0].transactions) && AllLeavesOk(p, rs[1..])
  {
    hide Small, LeavesOk;
    assert rs == [rs[0]] + rs[1..];
  }

  lemma Nothing<T>(p: PoolOps<T>)
    ensures AllLeavesOk(p, [])
  {
  }

  lemma Sizes(link: RangeLink, height: nat, r: CompactBlockRecord)
    requires RecordOk(link, height, r)
    ensures link.endTreeSizes.CheckedAdd(r.Additions()) == Some(r.endTreeSizes)
  {
    CheckedRecord(link.endTreeSizes, r);
  }

  /** The visitor of the rebuild appends a checked chain as a whole, or refuses a commitment. */
  lemma {:induction false} VisitMeans<T(!new)>(p: PoolOps<T>, s: Progress<T>, link: RangeLink, from: nat,
                                               rs: seq<CompactBlockRecord>)
    requires AllLawful(p) && HaveSizes(p, s.trees, link.endTreeSizes)
    requires ChainOk(link, from, rs) && AllSmall(rs)
    ensures VisitAll(Appender(p), s, rs)
            == if AllLeavesOk(p, rs)
               then Some(Progress(TreesAfter(p, s.trees, rs), s.completed + CompletedBy(p, s.trees, rs))) else None
    decreases rs
  {
    hide AllLawful, Append, LeavesOk, Small, AllSmall, AllLeavesOk, ChainOk, RecordOk, HaveSizes, BlockCompletes,
      AppendBlock;
    if rs == [] {
      Nothing(p);
      assert s.completed + [] == s.completed;
    } else {
      var r, tail := rs[0], rs[1..];
      ChainHead(link, from, rs);
      Heads(p, rs);
      Sizes(link, from, r);
      AppendMeans(p, s, r, link.endTreeSizes);
      if LeavesOk(p, r.transactions) {
        var next := Append(p, s, r).value;
        VisitMeans(p, next, LinkOf(r), from + 1, tail);
        assert next.completed + CompletedBy(p, next.trees, tail) == s.completed + CompletedBy(p, s.trees, rs);
      }
    }
  }

  /** After every record the trees have exactly the tree sizes of that record. */
  lemma {:induction false} SizesStayExact<T(!new)>(p: PoolOps<T>, trees: Trees<T>, link: RangeLink, from: nat,
                                                   rs: seq<CompactBlockRecord>, k: nat)
    requires AllLawful(p) && HaveSizes(p, trees, link.endTreeSizes) && k <= |rs|
    requires ChainOk(link, from, rs) && AllSmall(rs)
    ensures HaveSizes(p, TreesAfter(p, trees, rs[..k]), LinkAt(link, rs, k).endTreeSizes)
    decreases rs
  {
    hide AllLawful, Append, LeavesOk, Small, AllSmall, AllLeavesOk, ChainOk, RecordOk, HaveSizes, BlockCompletes,
      AppendBlock;
    if k > 0 {
      var r, tail := rs[0], rs[1..];
      ChainHead(link, from, rs);
      Heads(p, rs);
      Sizes(link, from, r);
      AppendMeans(p, Progress(trees, []), r, link.endTreeSizes);
      SizesStayExact(p, AppendBlock(p, trees, r.transactions), LinkOf(r), from + 1, tail, k - 1);
      assert rs[..k][1..] == tail[..k - 1];
    }
  }

  lemma {:induction false} TreesGlue<T>(p: PoolOps<T>, trees: Trees<T>, rs: seq<CompactBlockRecord>,
                                        ss: seq<CompactBlockRecord>)
    ensures TreesAfter(p, trees, rs + ss) == TreesAfter(p, TreesAfter(p, trees, rs), ss)
    ensures CompletedBy(p, trees, rs + ss) == CompletedBy(p, trees, rs) + CompletedBy(p, TreesAfter(p, trees, rs), ss)
    decreases rs
  {
    hide AppendBlock, BlockCompletes;
    if rs == [] {
      assert rs + ss == ss;
    } else {
      assert (rs + ss)[1..] == rs[1..] + ss;
      TreesGlue(p, AppendBlock(p, trees, rs[0].transactions), rs[1..], ss);
    }
  }

  /** Records that come out of a range are small. */
  lemma DecodedIsSmall(env: Env, d: Decoder, i: nat)
    requires Thrifty(env.payload) && d.Valid() && d.Record(env.payload, i).Success?
    ensures Small(d.Record(env.payload, i).value)
  {
    hide RecordCodec.Decode, FromBigEndian, CountCommitments, Thrifty;
    var slot := d.Slot(i).value;
    DecodedRecordsAreSmall(env.payload, slot[4..4 + FromBigEndian(slot[..4])]);
  }

  // All leaves of a pool at once.

  function AllLeaves(pool: Pool, rs: seq<CompactBlockRecord>): seq<Digest>
    decreases rs
  {
    if rs == [] then [] else Leaves(pool, rs[0].transactions) + AllLeaves(pool, rs[1..])
  }

  /** The trees after many blocks are the start trees with all leaves so far appended. */
  lemma {:induction false} TreesHoldAllLeaves<T>(p: PoolOps<T>, trees: Trees<T>, rs: seq<CompactBlockRecord>,
                                                 pool: Pool)
    ensures TreesAfter(p, trees, rs).Of(pool) == AppendAll(p.Of(pool), trees.Of(pool), AllLeaves(pool, rs))
    decreases rs
  {
    hide AppendAll, Leaves;
    if rs == [] {
      NoLeaves(p.Of(pool), trees.Of(pool));
    } else {
      var next := AppendBlock(p, trees, rs[0].transactions);
      TreesHoldAllLeaves(p, next, rs[1..], pool);
      AppendGlues(p.Of(pool), trees.Of(pool), Leaves(pool, rs[0].transactions), AllLeaves(pool, rs[1..]));
    }
  }

  lemma NoLeaves<T>(ops: TreeOps<T>, t: T)
    ensures AppendAll(ops, t, []) == t
  {
  }

  // The laws can be met: a tree that keeps all of its leaves.

  lemma {:induction false} LeavesAreKept(xs: seq<Digest>, ys: seq<Digest>)
    requires Concat(xs) == Concat(ys)
    ensures xs == ys
  {
    if xs != [] && ys != [] {
      var a, b := Concat(xs), Concat(ys);
      assert a[..32] == xs[0] && b[..32] == ys[0];
      assert a[32..] == Concat(xs[1..]) && b[32..] == Concat(ys[1..]);
      LeavesAreKept(xs[1..], ys[1..]);
      assert xs == [xs[0]] + xs[1..] && ys == [ys[0]] + ys[1..];
    }
  }

  ghost function ParsedLeaves(s: seq<byte>): Option<seq<Digest>> {
    if xs: seq<Digest> :| [0] + Concat(xs) == s then Some(xs) else None
  }

  lemma LawfulTreesExist(leaf: Digest -> bool, root: seq<Digest> -> Digest) returns (ops: TreeOps<seq<Digest>>)
    ensures Lawful(ops) && ops.leaf == leaf && ops.root == root
  {
    ops := TreeOps([], leaf, (t: seq<Digest>, x: Digest) => t + [x], (t: seq<Digest>) => |t|, root, root,
                   (t: seq<Digest>) => [0] + Concat(t), (s: seq<byte>) => ParsedLeaves(s));
    forall t: seq<Digest> ensures ops.parse(ops.rpc(t)) == Some(t) {
      var xs := ParsedLeaves([0] + Concat(t)).value;
      assert ([0] + Concat(xs))[1..] == Concat(xs) && ([0] + Concat(t))[1..] == Concat(t);
      LeavesAreKept(xs, t);
    }
  }
}
