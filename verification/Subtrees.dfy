/** Which subtrees a range completes, and when the list of an entry is accepted. */
module Subtrees {
  import opened Bytes
  import opened ChainTypes
  import opened Manifest
  import opened RangeCheck
  import opened CommitmentTrees
  import opened EpochProof

  // The completed subtrees of one pool.

  function OfPool(pool: Pool, roots: seq<SubtreeRoot>): seq<SubtreeRoot> {
    if roots == [] then []
    else if roots[0].pool == pool then [roots[0]] + OfPool(pool, roots[1..])
    else OfPool(pool, roots[1..])
  }

  lemma {:induction false} OfPoolGlues(pool: Pool, xs: seq<SubtreeRoot>, ys: seq<SubtreeRoot>)
    ensures OfPool(pool, xs + ys) == OfPool(pool, xs) + OfPool(pool, ys)
  {
    if xs == [] {
      assert xs + ys == ys;
    } else {
      assert (xs + ys)[0] == xs[0] && (xs + ys)[1..] == xs[1..] + ys;
      OfPoolGlues(pool, xs[1..], ys);
    }
  }

  lemma {:induction false} OfPoolIsAllOrNothing(pool: Pool, other: Pool, xs: seq<SubtreeRoot>)
    requires forall i | 0 <= i < |xs| :: xs[i].pool == other
    ensures OfPool(pool, xs) == if pool == other then xs else []
  {
    if xs != [] {
      OfPoolIsAllOrNothing(pool, other, xs[1..]);
      assert [xs[0]] + xs[1..] == xs;
    }
  }

  lemma {:induction false} OfPoolKeepsCounts(roots: seq<SubtreeRoot>, x: SubtreeRoot)
    ensures multiset(OfPool(x.pool, roots))[x] == multiset(roots)[x]
  {
    if roots != [] {
      OfPoolKeepsCounts(roots[1..], x);
      assert roots == [roots[0]] + roots[1..];
    }
  }

  /** The completed subtrees of one pool in a block are those of its own tree. */
  lemma BlockOfPool<T(!new)>(p: PoolOps<T>, trees: Trees<T>, txs: seq<CompactTransaction>, pool: Pool)
    requires AllLawful(p)
    ensures OfPool(pool, BlockCompletes(p, trees, txs))
            == Completions(p.Of(pool), pool, trees.Of(pool), Leaves(pool, txs))
  {
    hide Lawful, Completions, OfPool, Leaves;
    var a := Completions(p.sapling, SaplingPool, trees.sapling, Leaves(SaplingPool, txs));
    var b := Completions(p.orchard, OrchardPool, trees.orchard, Leaves(OrchardPool, txs));
    var c := Completions(p.ironwood, IronwoodPool, trees.ironwood, Leaves(IronwoodPool, txs));
    CompletionIndices(p.sapling, SaplingPool, trees.sapling, Leaves(SaplingPool, txs));
    CompletionIndices(p.orchard, OrchardPool, trees.orchard, Leaves(OrchardPool, txs));
    CompletionIndices(p.ironwood, IronwoodPool, trees.ironwood, Leaves(IronwoodPool, txs));
    OfPoolGlues(pool, a + b, c);
    OfPoolGlues(pool, a, b);
    OfPoolIsAllOrNothing(pool, SaplingPool, a);
    OfPoolIsAllOrNothing(pool, OrchardPool, b);
    OfPoolIsAllOrNothing(pool, IronwoodPool, c);
    assert a + [] == a && [] + b == b && [] + c == c;
  }

  lemma {:induction false} CompletionsGlue<T>(ops: TreeOps<T>, pool: Pool, t: T, xs: seq<Digest>, ys: seq<Digest>)
    ensures Completions(ops, pool, t, xs + ys)
            == Completions(ops, pool, t, xs) + Completions(ops, pool, AppendAll(ops, t, xs), ys)
    decreases xs
  {
    if xs == [] {
      assert xs + ys == ys;
    } else {
      assert (xs + ys)[1..] == xs[1..] + ys;
      CompletionsGlue(ops, pool, ops.append(t, xs[0]), xs[1..], ys);
    }
  }

  lemma NoCompletions<T>(ops: TreeOps<T>, pool: Pool, t: T)
    ensures Completions(ops, pool, t, []) == []
  {
  }

  /** The completed subtrees of one pool in many blocks are those of all its leaves. */
  lemma {:induction false} ManyOfPool<T(!new)>(p: PoolOps<T>, trees: Trees<T>, rs: seq<CompactBlockRecord>, pool: Pool)
    requires AllLawful(p)
    ensures OfPool(pool, CompletedBy(p, trees, rs))
            == Completions(p.Of(pool), pool, trees.Of(pool), AllLeaves(pool, rs))
    decreases rs
  {
    hide AllLawful, Completions, BlockCompletes, AppendAll, Leaves;
    var ops, t := p.Of(pool), trees.Of(pool);
    if rs == [] {
      NoCompletions(ops, pool, t);
    } else {
      var txs := rs[0].transactions;
      var next := AppendBlock(p, trees, txs);
      BlockOfPool(p, trees, txs, pool);
      ManyOfPool(p, next, rs[1..], pool);
      OfPoolGlues(pool, BlockCompletes(p, trees, txs), CompletedBy(p, next, rs[1..]));
      CompletionsGlue(ops, pool, t, Leaves(pool, txs), AllLeaves(pool, rs[1..]));
    }
  }

  /** Blocks that grow a tree from `before` to `after` commitments complete, in this pool and in
      order, exactly the subtrees `before >> 16` up to but not including `after >> 16`. */
  lemma RangeCompletes<T(!new)>(p: PoolOps<T>, trees: Trees<T>, link: RangeLink, from: nat,
                                rs: seq<CompactBlockRecord>, pool: Pool)
    requires AllLawful(p) && HaveSizes(p, trees, link.endTreeSizes) && ChainOk(link, from, rs) && AllSmall(rs)
    ensures var before, after := SizeOf(link.endTreeSizes, pool), SizeOf(LinkAt(link, rs, |rs|).endTreeSizes, pool);
            var mine := OfPool(pool, CompletedBy(p, trees, rs));
            && |mine| == after / SUBTREE_LEAVES - before / SUBTREE_LEAVES
            && forall i | 0 <= i < |mine| :: mine[i].pool == pool && mine[i].index == before / SUBTREE_LEAVES + i
  {
    hide Lawful, Completions, OfPool, CompletedBy, ChainOk, AllSmall, TreesAfter, AllLeaves, AppendAll;
    var ops, t, leaves := p.Of(pool), trees.Of(pool), AllLeaves(pool, rs);
    ManyOfPool(p, trees, rs, pool);
    CompletionIndices(ops, pool, t, leaves);
    TreesHoldAllLeaves(p, trees, rs, pool);
    AppendCounts(ops, t, leaves);
    SizesStayExact(p, trees, link, from, rs, |rs|);
    assert rs[..|rs|] == rs;
  }

  /** Each block completes at most one subtree per pool. */
  lemma BlockCompletesAtMostOne<T(!new)>(p: PoolOps<T>, trees: Trees<T>, r: CompactBlockRecord, pool: Pool)
    requires AllLawful(p) && Small(r)
    ensures |OfPool(pool, BlockCompletes(p, trees, r.transactions))| <= 1
  {
    hide Lawful, Completions, OfPool, BlockCompletes, CountCommitments, Leaves;
    var ops, t, leaves := p.Of(pool), trees.Of(pool), Leaves(pool, r.transactions);
    BlockOfPool(p, trees, r.transactions, pool);
    LeavesCounted(r.transactions);
    CompletionIndices(ops, pool, t, leaves);
    assert (ops.count(t) + |leaves|) / SUBTREE_LEAVES <= ops.count(t) / SUBTREE_LEAVES + 1;
  }

  // The span that the filler asks a node about.

  datatype SubtreeSpan = SubtreeSpan(first: nat, count: nat)

  /** The low 16 bits of `size >> 16`. */
  function SubtreeIndex(size: u32): nat {
    (size / SUBTREE_LEAVES) % (U16_MAX + 1)
  }

  function Between(before: u32, after: u32): Option<SubtreeSpan> {
    var first, end := SubtreeIndex(before), SubtreeIndex(after);
    if end > first then Some(SubtreeSpan(first, end - first)) else None
  }

  /** The span counts exactly the subtrees that the range completes, and is absent if there are none. */
  lemma SpanCounts<T(!new)>(p: PoolOps<T>, trees: Trees<T>, link: RangeLink, from: nat, rs: seq<CompactBlockRecord>,
                            pool: Pool)
    requires AllLawful(p) && HaveSizes(p, trees, link.endTreeSizes) && ChainOk(link, from, rs) && AllSmall(rs)
    ensures var span := Between(SizeOf(link.endTreeSizes, pool), SizeOf(LinkAt(link, rs, |rs|).endTreeSizes, pool));
            var mine := OfPool(pool, CompletedBy(p, trees, rs));
            && (span.None? <==> mine == [])
            && (span.Some? ==> |mine| == span.value.count && mine[0].index == span.value.first)
  {
    hide Lawful, AllLawful, HaveSizes, OfPool, CompletedBy, ChainOk, AllSmall;
    RangeCompletes(p, trees, link, from, rs, pool);
    IndexFits(SizeOf(link.endTreeSizes, pool));
    IndexFits(SizeOf(LinkAt(link, rs, |rs|).endTreeSizes, pool));
  }

  lemma IndexFits(size: u32)
    ensures SubtreeIndex(size) == size / SUBTREE_LEAVES <= U16_MAX
  {
  }

  // The test of the list.

  /** No subtree is completed twice. */
  lemma CompletedOnce<T(!new)>(p: PoolOps<T>, trees: Trees<T>, rs: seq<CompactBlockRecord>, x: SubtreeRoot)
    requires AllLawful(p)
    ensures multiset(CompletedBy(p, trees, rs))[x] <= 1
  {
    hide Lawful, Completions, OfPool, CompletedBy, AllLeaves;
    var all := CompletedBy(p, trees, rs);
    var ops, t, leaves := p.Of(x.pool), trees.Of(x.pool), AllLeaves(x.pool, rs);
    OfPoolKeepsCounts(all, x);
    ManyOfPool(p, trees, rs, x.pool);
    CompletionIndices(ops, x.pool, t, leaves);
    RisingIsDistinct(Completions(ops, x.pool, t, leaves), ops.count(t) / SUBTREE_LEAVES, x);
  }

  lemma {:induction false} RisingIsDistinct(xs: seq<SubtreeRoot>, first: nat, x: SubtreeRoot)
    requires forall i | 0 <= i < |xs| :: xs[i].index == first + i
    ensures multiset(xs)[x] <= 1
    ensures x.index >= first + |xs| ==> multiset(xs)[x] == 0
  {
    if xs != [] {
      var init, last := xs[..|xs| - 1], xs[|xs| - 1];
      RisingIsDistinct(init, first, x);
      assert xs == init + [last];
    }
  }

  lemma ContainedOnce(xs: seq<SubtreeRoot>, ys: seq<SubtreeRoot>)
    requires (forall x :: multiset(xs)[x] <= 1) && (forall x <- xs :: x in ys) && |xs| == |ys|
    ensures multiset(xs) == multiset(ys)
  {
    var a, b := multiset(xs), multiset(ys);
    forall x ensures a[x] <= b[x] {
      if a[x] > 0 {
        assert x in xs;
      }
    }
    assert a <= b;
    assert b == a + (b - a);
    assert |a| == |xs| && |b| == |ys|;
    assert |b - a| == 0;
  }

  /** The length and containment test accepts exactly the permutations of the completed subtrees. */
  lemma SameRootsIsPermutation<T(!new)>(p: PoolOps<T>, trees: Trees<T>, rs: seq<CompactBlockRecord>,
                                        listed: seq<SubtreeRoot>)
    requires AllLawful(p)
    ensures SameRoots(CompletedBy(p, trees, rs), listed) <==> multiset(CompletedBy(p, trees, rs)) == multiset(listed)
  {
    hide AllLawful, CompletedBy;
    var xs := CompletedBy(p, trees, rs);
    forall x ensures multiset(xs)[x] <= 1 {
      CompletedOnce(p, trees, rs, x);
    }
    if SameRoots(xs, listed) {
      ContainedOnce(xs, listed);
    }
    if multiset(xs) == multiset(listed) {
      assert |multiset(xs)| == |xs| && |multiset(listed)| == |listed|;
      forall x | x in xs ensures x in listed {
        assert multiset(xs)[x] > 0;
      }
    }
  }

  /** The test alone accepts more: with a repeated root it takes a list that is no permutation. */
  lemma SameRootsNeedsDistinctRoots(x: SubtreeRoot, y: SubtreeRoot)
    requires x != y
    ensures SameRoots([x, x], [x, y]) && multiset([x, x]) != multiset([x, y])
  {
    assert multiset([x, x])[y] == 0 && multiset([x, y])[y] == 1;
  }
}
