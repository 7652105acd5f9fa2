/** The trees of a chain one commitment at a time: which leaves they hold, and what each one completes. */
module ChainHistory {
  import opened Bytes
  import opened ChainTypes
  import opened Manifest
  import opened RangeCheck
  import opened CommitmentTrees
  import opened EpochProof
  import opened Subtrees

  // The shielded outputs of many blocks, in order.

  ghost function Outputs(rs: seq<CompactBlockRecord>): seq<CompactSaplingOutput> {
    if rs == [] then [] else AllOutputs(rs[0].transactions) + Outputs(rs[1..])
  }

  ghost function Orchards(rs: seq<CompactBlockRecord>): seq<CompactShieldedAction> {
    if rs == [] then [] else AllOrchard(rs[0].transactions) + Orchards(rs[1..])
  }

  ghost function Ironwoods(rs: seq<CompactBlockRecord>): seq<CompactShieldedAction> {
    if rs == [] then [] else AllIronwood(rs[0].transactions) + Ironwoods(rs[1..])
  }

  /** The commitments of `rs` per pool. */
  ghost function LeafCounts(rs: seq<CompactBlockRecord>): Counts {
    Counts(|Outputs(rs)|, |Orchards(rs)|, |Ironwoods(rs)|)
  }

  ghost predicate AreCmus(xs: seq<Digest>, outputs: seq<CompactSaplingOutput>) {
    |xs| == |outputs| && forall j | 0 <= j < |xs| :: xs[j] == outputs[j].cmu
  }

  ghost predicate AreCommitments(xs: seq<Digest>, actions: seq<CompactShieldedAction>) {
    |xs| == |actions| && forall j | 0 <= j < |xs| :: xs[j] == actions[j].commitment
  }

  lemma CmusGlue(xs: seq<Digest>, outputs: seq<CompactSaplingOutput>, ys: seq<Digest>,
                 others: seq<CompactSaplingOutput>)
    requires AreCmus(xs, outputs) && AreCmus(ys, others)
    ensures AreCmus(xs + ys, outputs + others)
  {
  }

  lemma CommitmentsGlue(xs: seq<Digest>, actions: seq<CompactShieldedAction>, ys: seq<Digest>,
                        others: seq<CompactShieldedAction>)
    requires AreCommitments(xs, actions) && AreCommitments(ys, others)
    ensures AreCommitments(xs + ys, actions + others)
  {
  }

  lemma TransactionLeaves(tx: CompactTransaction)
    ensures AreCmus(TxLeaves(SaplingPool, tx), tx.saplingOutputs)
    ensures AreCommitments(TxLeaves(OrchardPool, tx), tx.orchardActions)
    ensures AreCommitments(TxLeaves(IronwoodPool, tx), tx.ironwoodActions)
  {
  }

  lemma NoLeavesYet()
    ensures AreCmus([], []) && AreCommitments([], [])
  {
  }

  lemma {:induction false} BlockLeaves(txs: seq<CompactTransaction>)
    ensures AreCmus(Leaves(SaplingPool, txs), AllOutputs(txs))
    ensures AreCommitments(Leaves(OrchardPool, txs), AllOrchard(txs))
    ensures AreCommitments(Leaves(IronwoodPool, txs), AllIronwood(txs))
  {
    hide AreCmus, AreCommitments, TxLeaves;
    if txs == [] {
      NoLeavesYet();
    } else {
      var init, tx := txs[..|txs| - 1], txs[|txs| - 1];
      BlockLeaves(init);
      TransactionLeaves(tx);
      CmusGlue(Leaves(SaplingPool, init), AllOutputs(init), TxLeaves(SaplingPool, tx), tx.saplingOutputs);
      CommitmentsGlue(Leaves(OrchardPool, init), AllOrchard(init), TxLeaves(OrchardPool, tx), tx.orchardActions);
      CommitmentsGlue(Leaves(IronwoodPool, init), AllIronwood(init), TxLeaves(IronwoodPool, tx), tx.ironwoodActions);
    }
  }

  /** The leaves of a chain are the commitments of its outputs and actions, in order. */
  lemma {:induction false} ChainLeaves(rs: seq<CompactBlockRecord>)
    ensures AreCmus(AllLeaves(SaplingPool, rs), Outputs(rs))
    ensures AreCommitments(AllLeaves(OrchardPool, rs), Orchards(rs))
    ensures AreCommitments(AllLeaves(IronwoodPool, rs), Ironwoods(rs))
  {
    hide AreCmus, AreCommitments, Leaves, AllOutputs, AllOrchard, AllIronwood;
    if rs == [] {
      NoLeavesYet();
    } else {
      var txs, rest := rs[0].transactions, rs[1..];
      BlockLeaves(txs);
      ChainLeaves(rest);
      CmusGlue(Leaves(SaplingPool, txs), AllOutputs(txs), AllLeaves(SaplingPool, rest), Outputs(rest));
      CommitmentsGlue(Leaves(OrchardPool, txs), AllOrchard(txs), AllLeaves(OrchardPool, rest), Orchards(rest));
      CommitmentsGlue(Leaves(IronwoodPool, txs), AllIronwood(txs), AllLeaves(IronwoodPool, rest), Ironwoods(rest));
    }
  }

  lemma Regroup<X>(a: seq<X>, b: seq<X>, c: seq<X>)
    ensures a + (b + c) == a + b + c
  {
  }

  /** One more record in front, or one more transaction behind, and none at all. */
  lemma OneBefore(r: CompactBlockRecord, rs: seq<CompactBlockRecord>)
    ensures Outputs([r] + rs) == AllOutputs(r.transactions) + Outputs(rs)
    ensures Orchards([r] + rs) == AllOrchard(r.transactions) + Orchards(rs)
    ensures Ironwoods([r] + rs) == AllIronwood(r.transactions) + Ironwoods(rs)
  {
    hide AllOutputs, AllOrchard, AllIronwood;
    assert ([r] + rs)[1..] == rs;
  }

  lemma OneMore(u: seq<CompactTransaction>, tx: CompactTransaction)
    ensures AllOutputs(u + [tx]) == AllOutputs(u) + tx.saplingOutputs
    ensures AllOrchard(u + [tx]) == AllOrchard(u) + tx.orchardActions
    ensures AllIronwood(u + [tx]) == AllIronwood(u) + tx.ironwoodActions
  {
    assert (u + [tx])[..|u|] == u;
  }

  lemma NoData()
    ensures Outputs([]) == [] && Orchards([]) == [] && Ironwoods([]) == []
    ensures AllOutputs([]) == [] && AllOrchard([]) == [] && AllIronwood([]) == []
  {
  }

  lemma {:induction false} ChainDataGlues(a: seq<CompactBlockRecord>, b: seq<CompactBlockRecord>)
    ensures Outputs(a + b) == Outputs(a) + Outputs(b) && Orchards(a + b) == Orchards(a) + Orchards(b)
    ensures Ironwoods(a + b) == Ironwoods(a) + Ironwoods(b)
    decreases a
  {
    hide Outputs, Orchards, Ironwoods, AllOutputs, AllOrchard, AllIronwood;
    if a == [] {
      NoData();
      assert a + b == b;
    } else {
      var r, rest := a[0], a[1..];
      ChainDataGlues(rest, b);
      assert a == [r] + rest && a + b == [r] + (rest + b);
      OneBefore(r, rest);
      OneBefore(r, rest + b);
      Regroup(AllOutputs(r.transactions), Outputs(rest), Outputs(b));
      Regroup(AllOrchard(r.transactions), Orchards(rest), Orchards(b));
      Regroup(AllIronwood(r.transactions), Ironwoods(rest), Ironwoods(b));
    }
  }

  lemma {:induction false} BlockDataGlues(u: seq<CompactTransaction>, v: seq<CompactTransaction>)
    ensures AllOutputs(u + v) == AllOutputs(u) + AllOutputs(v) && AllOrchard(u + v) == AllOrchard(u) + AllOrchard(v)
    ensures AllIronwood(u + v) == AllIronwood(u) + AllIronwood(v)
    decreases v
  {
    hide AllOutputs, AllOrchard, AllIronwood;
    if v == [] {
      NoData();
      assert u + v == u;
    } else {
      var init, tx := v[..|v| - 1], v[|v| - 1];
      BlockDataGlues(u, init);
      assert v == init + [tx] && u + v == u + init + [tx];
      OneMore(init, tx);
      OneMore(u + init, tx);
      Regroup(AllOutputs(u), AllOutputs(init), tx.saplingOutputs);
      Regroup(AllOrchard(u), AllOrchard(init), tx.orchardActions);
      Regroup(AllIronwood(u), AllIronwood(init), tx.ironwoodActions);
    }
  }

  lemma OneTransaction(u: seq<CompactTransaction>, tx: CompactTransaction, v: seq<CompactTransaction>)
    ensures var all := u + [tx] + v;
            && AllOutputs(all) == AllOutputs(u) + tx.saplingOutputs + AllOutputs(v)
            && AllOrchard(all) == AllOrchard(u) + tx.orchardActions + AllOrchard(v)
            && AllIronwood(all) == AllIronwood(u) + tx.ironwoodActions + AllIronwood(v)
  {
    hide AllOutputs, AllOrchard, AllIronwood;
    BlockDataGlues(u + [tx], v);
    OneMore(u, tx);
  }

  lemma OneRecord(a: seq<CompactBlockRecord>, r: CompactBlockRecord, b: seq<CompactBlockRecord>)
    ensures var all := a + [r] + b;
            && Outputs(all) == Outputs(a) + AllOutputs(r.transactions) + Outputs(b)
            && Orchards(all) == Orchards(a) + AllOrchard(r.transactions) + Orchards(b)
            && Ironwoods(all) == Ironwoods(a) + AllIronwood(r.transactions) + Ironwoods(b)
  {
    hide Outputs, Orchards, Ironwoods, AllOutputs, AllOrchard, AllIronwood;
    ChainDataGlues(a, [r] + b);
    OneBefore(r, b);
    assert a + [r] + b == a + ([r] + b);
    Regroup(Outputs(a), AllOutputs(r.transactions), Outputs(b));
    Regroup(Orchards(a), AllOrchard(r.transactions), Orchards(b));
    Regroup(Ironwoods(a), AllIronwood(r.transactions), Ironwoods(b));
  }

  /** Where the commitment of each single output or action stands among the leaves of a chain. */
  lemma LeafOf(a: seq<CompactBlockRecord>, r: CompactBlockRecord, b: seq<CompactBlockRecord>,
               u: seq<CompactTransaction>, tx: CompactTransaction, v: seq<CompactTransaction>, i: nat)
    requires r.transactions == u + [tx] + v
    ensures i < |tx.saplingOutputs| ==>
              var at := |Outputs(a)| + |AllOutputs(u)| + i;
              && at < |AllLeaves(SaplingPool, a + [r] + b)|
              && AllLeaves(SaplingPool, a + [r] + b)[at] == tx.saplingOutputs[i].cmu
    ensures i < |tx.orchardActions| ==>
              var at := |Orchards(a)| + |AllOrchard(u)| + i;
              && at < |AllLeaves(OrchardPool, a + [r] + b)|
              && AllLeaves(OrchardPool, a + [r] + b)[at] == tx.orchardActions[i].commitment
    ensures i < |tx.ironwoodActions| ==>
              var at := |Ironwoods(a)| + |AllIronwood(u)| + i;
              && at < |AllLeaves(IronwoodPool, a + [r] + b)|
              && AllLeaves(IronwoodPool, a + [r] + b)[at] == tx.ironwoodActions[i].commitment
  {
    hide AllLeaves, Outputs, Orchards, Ironwoods, AllOutputs, AllOrchard, AllIronwood;
    OneRecord(a, r, b);
    OneTransaction(u, tx, v);
    ChainLeaves(a + [r] + b);
  }

  // Histories.

  /** The trees of one pool, before the first leaf and behind each one. */
  datatype History<T> = History(trees: seq<T>, leaves: seq<Digest>)

  datatype Histories<T> = Histories(sapling: History<T>, orchard: History<T>, ironwood: History<T>) {
    ghost function Of(pool: Pool): History<T> {
      match pool case SaplingPool => sapling case OrchardPool => orchard case IronwoodPool => ironwood
    }
  }

  ghost predicate Grown<T>(ops: TreeOps<T>, h: History<T>) {
    && |h.trees| == |h.leaves| + 1
    && forall j | 0 <= j < |h.leaves| :: h.trees[j + 1] == ops.append(h.trees[j], h.leaves[j])
  }

  /** The histories append the commitments of `rs`, one at a time. */
  ghost predicate Appends<T>(p: PoolOps<T>, rs: seq<CompactBlockRecord>, hs: Histories<T>) {
    && Grown(p.sapling, hs.sapling) && AreCmus(hs.sapling.leaves, Outputs(rs))
    && Grown(p.orchard, hs.orchard) && AreCommitments(hs.orchard.leaves, Orchards(rs))
    && Grown(p.ironwood, hs.ironwood) && AreCommitments(hs.ironwood.leaves, Ironwoods(rs))
  }

  /** The histories of the chain `rs` from the trees `trees`. */
  ghost predicate Tracks<T>(p: PoolOps<T>, trees: Trees<T>, rs: seq<CompactBlockRecord>, hs: Histories<T>) {
    && Appends(p, rs, hs) && hs.sapling.trees[0] == trees.sapling && hs.orchard.trees[0] == trees.orchard
    && hs.ironwood.trees[0] == trees.ironwood
  }

  ghost function Trail<T>(ops: TreeOps<T>, t: T, xs: seq<Digest>): (h: History<T>)
    ensures |h.trees| == |xs| + 1 && h.leaves == xs
    ensures forall j | 0 <= j <= |xs| :: h.trees[j] == AppendAll(ops, t, xs[..j])
  {
    History(seq(|xs| + 1, j requires 0 <= j <= |xs| => AppendAll(ops, t, xs[..j])), xs)
  }

  lemma AppendOne<T>(ops: TreeOps<T>, t: T, xs: seq<Digest>, j: nat)
    requires j < |xs|
    ensures AppendAll(ops, t, xs[..j + 1]) == ops.append(AppendAll(ops, t, xs[..j]), xs[j])
  {
    assert xs[..j + 1] == xs[..j] + [xs[j]];
    AppendGlues(ops, t, xs[..j], [xs[j]]);
    var u := AppendAll(ops, t, xs[..j]);
    assert [xs[j]][1..] == [];
    assert AppendAll(ops, u, [xs[j]]) == AppendAll(ops, ops.append(u, xs[j]), []);
  }

  lemma TrailGrows<T>(ops: TreeOps<T>, t: T, xs: seq<Digest>)
    ensures Grown(ops, Trail(ops, t, xs)) && Trail(ops, t, xs).trees[0] == t
  {
    var h := Trail(ops, t, xs);
    forall j | 0 <= j < |xs| ensures h.trees[j + 1] == ops.append(h.trees[j], h.leaves[j]) {
      AppendOne(ops, t, xs, j);
    }
    assert xs[..0] == [];
  }

  /** Every chain has histories. */
  lemma HistoryExists<T>(p: PoolOps<T>, trees: Trees<T>, rs: seq<CompactBlockRecord>) returns (hs: Histories<T>)
    ensures Tracks(p, trees, rs, hs)
  {
    hide AllLeaves, Outputs, Orchards, Ironwoods, Grown, AppendAll, AreCmus, AreCommitments;
    ChainLeaves(rs);
    hs := Histories(Trail(p.sapling, trees.sapling, AllLeaves(SaplingPool, rs)),
                    Trail(p.orchard, trees.orchard, AllLeaves(OrchardPool, rs)),
                    Trail(p.ironwood, trees.ironwood, AllLeaves(IronwoodPool, rs)));
    TrailGrows(p.sapling, trees.sapling, AllLeaves(SaplingPool, rs));
    TrailGrows(p.orchard, trees.orchard, AllLeaves(OrchardPool, rs));
    TrailGrows(p.ironwood, trees.ironwood, AllLeaves(IronwoodPool, rs));
  }

  lemma {:induction false} GrownIsAppended<T>(ops: TreeOps<T>, h: History<T>, j: nat)
    requires Grown(ops, h) && j <= |h.leaves|
    ensures h.trees[j] == AppendAll(ops, h.trees[0], h.leaves[..j])
  {
    if j == 0 {
      assert h.leaves[..0] == [];
    } else {
      GrownIsAppended(ops, h, j - 1);
      AppendOne(ops, h.trees[0], h.leaves, j - 1);
      assert h.trees[(j - 1) + 1] == ops.append(h.trees[j - 1], h.leaves[j - 1]);
    }
  }

  lemma SameCmus(xs: seq<Digest>, ys: seq<Digest>, outputs: seq<CompactSaplingOutput>)
    requires AreCmus(xs, outputs) && AreCmus(ys, outputs)
    ensures xs == ys
  {
  }

  lemma SameCommitments(xs: seq<Digest>, ys: seq<Digest>, actions: seq<CompactShieldedAction>)
    requires AreCommitments(xs, actions) && AreCommitments(ys, actions)
    ensures xs == ys
  {
  }

  ghost function CountOf(c: Counts, pool: Pool): nat {
    match pool case SaplingPool => c.sapling case OrchardPool => c.orchard case IronwoodPool => c.ironwood
  }

  lemma TrackedLeaves<T>(p: PoolOps<T>, trees: Trees<T>, rs: seq<CompactBlockRecord>, hs: Histories<T>, pool: Pool)
    requires Tracks(p, trees, rs, hs)
    ensures Grown(p.Of(pool), hs.Of(pool)) && hs.Of(pool).trees[0] == trees.Of(pool)
    ensures hs.Of(pool).leaves == AllLeaves(pool, rs) && |AllLeaves(pool, rs)| == CountOf(LeafCounts(rs), pool)
  {
    hide AllLeaves, Outputs, Orchards, Ironwoods;
    ChainLeaves(rs);
    match pool
    case SaplingPool => SameCmus(hs.sapling.leaves, AllLeaves(pool, rs), Outputs(rs));
    case OrchardPool => SameCommitments(hs.orchard.leaves, AllLeaves(pool, rs), Orchards(rs));
    case IronwoodPool => SameCommitments(hs.ironwood.leaves, AllLeaves(pool, rs), Ironwoods(rs));
  }

  lemma PositionIsCounted(rs: seq<CompactBlockRecord>, pool: Pool)
    ensures CountOf(LeafCounts(rs), pool) == |AllLeaves(pool, rs)|
  {
    hide AllLeaves, Outputs, Orchards, Ironwoods;
    ChainLeaves(rs);
  }

  lemma {:induction false} AllLeavesGlue(pool: Pool, a: seq<CompactBlockRecord>, b: seq<CompactBlockRecord>)
    ensures AllLeaves(pool, a + b) == AllLeaves(pool, a) + AllLeaves(pool, b)
    decreases a
  {
    hide Leaves;
    if a == [] {
      assert a + b == b;
    } else {
      assert (a + b)[1..] == a[1..] + b;
      AllLeavesGlue(pool, a[1..], b);
    }
  }

  /** The tree behind the first `k` records is the one behind their leaves. */
  lemma TrackedTree<T>(p: PoolOps<T>, trees: Trees<T>, rs: seq<CompactBlockRecord>, hs: Histories<T>, k: nat,
                       pool: Pool)
    requires Tracks(p, trees, rs, hs) && k <= |rs|
    ensures CountOf(LeafCounts(rs[..k]), pool) < |hs.Of(pool).trees|
    ensures TreesAfter(p, trees, rs[..k]).Of(pool) == hs.Of(pool).trees[CountOf(LeafCounts(rs[..k]), pool)]
    ensures hs.Of(pool).leaves[..CountOf(LeafCounts(rs[..k]), pool)] == AllLeaves(pool, rs[..k])
  {
    hide AllLeaves, Tracks, LeafCounts, AppendAll, TreesAfter, Grown;
    TrackedLeaves(p, trees, rs, hs, pool);
    PositionIsCounted(rs[..k], pool);
    assert rs == rs[..k] + rs[k..];
    AllLeavesGlue(pool, rs[..k], rs[k..]);
    var n := |AllLeaves(pool, rs[..k])|;
    assert hs.Of(pool).leaves[..n] == AllLeaves(pool, rs[..k]);
    assert n <= |hs.Of(pool).leaves|;
    GrownIsAppended(p.Of(pool), hs.Of(pool), n);
    GrownLength(p.Of(pool), hs.Of(pool));
    TreesHoldAllLeaves(p, trees, rs[..k], pool);
  }

  lemma GrownLength<T>(ops: TreeOps<T>, h: History<T>)
    requires Grown(ops, h)
    ensures |h.trees| == |h.leaves| + 1
  {
  }

  lemma GrownCounts<T(!new)>(ops: TreeOps<T>, h: History<T>, j: nat)
    requires Lawful(ops) && Grown(ops, h) && j <= |h.leaves|
    ensures ops.count(h.trees[j]) == ops.count(h.trees[0]) + j
  {
    GrownIsAppended(ops, h, j);
    AppendCounts(ops, h.trees[0], h.leaves[..j]);
  }

  // Completed subtrees.

  /** `x` is the subtree that one of the leaves behind `lo`, up to `hi`, completes: the 65,536th, or
      131,072nd, and so on, of the pool. */
  ghost predicate CompletesIn<T>(ops: TreeOps<T>, h: History<T>, lo: nat, hi: nat, x: SubtreeRoot) {
    && h.trees != []
    && var n := (x.index + 1) * 65_536 - ops.count(h.trees[0]);
       lo < n <= hi && hi < |h.trees| && x.root == ops.subtree(h.trees[n])
  }

  ghost predicate CompletedIn<T>(p: PoolOps<T>, hs: Histories<T>, lo: Counts, hi: Counts, x: SubtreeRoot) {
    match x.pool
    case SaplingPool => CompletesIn(p.sapling, hs.sapling, lo.sapling, hi.sapling, x)
    case OrchardPool => CompletesIn(p.orchard, hs.orchard, lo.orchard, hi.orchard, x)
    case IronwoodPool => CompletesIn(p.ironwood, hs.ironwood, lo.ironwood, hi.ironwood, x)
  }

  /** `xs` has every completed subtree once, and nothing else. */
  ghost predicate ListsCompleted<T>(p: PoolOps<T>, hs: Histories<T>, lo: Counts, hi: Counts, xs: seq<SubtreeRoot>) {
    forall x :: multiset(xs)[x] == if CompletedIn(p, hs, lo, hi, x) then 1 else 0
  }

  /** The subtree completed by leaf `n` of `t` on. */
  ghost predicate InCompletions<T>(ops: TreeOps<T>, pool: Pool, t: T, leaves: seq<Digest>, x: SubtreeRoot) {
    var n := (x.index + 1) * 65_536 - ops.count(t);
    x.pool == pool && 0 < n <= |leaves| && x.root == ops.subtree(AppendAll(ops, t, leaves[..n]))
  }

  lemma {:induction false} CompletionsMean<T(!new)>(ops: TreeOps<T>, pool: Pool, t: T, leaves: seq<Digest>,
                                                    x: SubtreeRoot)
    requires Lawful(ops)
    ensures x in Completions(ops, pool, t, leaves) <==> InCompletions(ops, pool, t, leaves, x)
    decreases leaves
  {
    hide Lawful;
    if leaves != [] {
      var u, rest := ops.append(t, leaves[0]), leaves[1..];
      OneMoreCounted(ops, t, leaves[0]);
      CompletionsMean(ops, pool, u, rest, x);
      CompletedFirst(ops, pool, t, leaves, x);
      var n := (x.index + 1) * 65_536 - ops.count(t);
      if 1 < n <= |leaves| {
        assert leaves[..n][1..] == rest[..n - 1];
      }
    }
  }

  lemma CompletedFirst<T(!new)>(ops: TreeOps<T>, pool: Pool, t: T, leaves: seq<Digest>, x: SubtreeRoot)
    requires Lawful(ops) && leaves != []
    ensures x in Completed(ops, pool, ops.append(t, leaves[0])) <==>
            InCompletions(ops, pool, t, leaves, x) && (x.index + 1) * 65_536 - ops.count(t) == 1
  {
    var u := ops.append(t, leaves[0]);
    OneMoreCounted(ops, t, leaves[0]);
    assert leaves[..1][1..] == [] && leaves[..1][0] == leaves[0];
    assert AppendAll(ops, t, leaves[..1]) == AppendAll(ops, u, []) == u;
  }

  lemma {:induction false} OfPoolHas(pool: Pool, xs: seq<SubtreeRoot>, x: SubtreeRoot)
    ensures x in OfPool(pool, xs) <==> x in xs && x.pool == pool
  {
    if xs != [] {
      OfPoolHas(pool, xs[1..], x);
      assert xs == [xs[0]] + xs[1..];
    }
  }

  /** The subtrees that the records `k` up to `l` complete are those of their leaves. */
  lemma CompletedMeans<T(!new)>(p: PoolOps<T>, trees: Trees<T>, rs: seq<CompactBlockRecord>, hs: Histories<T>, k: nat,
                                l: nat, x: SubtreeRoot)
    requires AllLawful(p) && Tracks(p, trees, rs, hs) && k <= l <= |rs|
    ensures x in CompletedBy(p, TreesAfter(p, trees, rs[..k]), rs[k..l])
            <==> CompletedIn(p, hs, LeafCounts(rs[..k]), LeafCounts(rs[..l]), x)
  {
    hide AllLawful, Tracks, LeafCounts, TreesAfter, CompletedBy, Completions, OfPool, AllLeaves, AppendAll, Grown;
    var pool := x.pool;
    var ops, h, t := p.Of(pool), hs.Of(pool), TreesAfter(p, trees, rs[..k]).Of(pool);
    var lo, hi := CountOf(LeafCounts(rs[..k]), pool), CountOf(LeafCounts(rs[..l]), pool);
    var mine := AllLeaves(pool, rs[k..l]);
    OfPoolHas(pool, CompletedBy(p, TreesAfter(p, trees, rs[..k]), rs[k..l]), x);
    ManyOfPool(p, TreesAfter(p, trees, rs[..k]), rs[k..l], pool);
    LawfulPool(p, pool);
    CompletionsMean(ops, pool, t, mine, x);
    TrackedTree(p, trees, rs, hs, k, pool);
    TrackedTree(p, trees, rs, hs, l, pool);
    TrackedLeaves(p, trees, rs, hs, pool);
    GrownLength(ops, h);
    GrownCounts(ops, h, lo);
    assert rs[..l] == rs[..k] + rs[k..l];
    AllLeavesGlue(pool, rs[..k], rs[k..l]);
    ShiftedTree(ops, h, lo, hi, mine, (x.index + 1) * 65_536 - ops.count(t));
  }

  lemma LawfulPool<T(!new)>(p: PoolOps<T>, pool: Pool)
    requires AllLawful(p)
    ensures Lawful(p.Of(pool))
  {
  }

  lemma ShiftedTree<T>(ops: TreeOps<T>, h: History<T>, lo: nat, hi: nat, mine: seq<Digest>, n: int)
    requires Grown(ops, h) && lo <= hi <= |h.leaves| && h.leaves[..hi] == h.leaves[..lo] + mine
    ensures |mine| == hi - lo
    ensures 0 < n <= |mine| ==> AppendAll(ops, h.trees[lo], mine[..n]) == h.trees[lo + n]
  {
    hide AppendAll;
    assert |h.leaves[..hi]| == hi;
    if 0 < n <= |mine| {
      GrownIsAppended(ops, h, lo);
      GrownIsAppended(ops, h, lo + n);
      assert h.leaves[..lo + n] == h.leaves[..hi][..lo + n] == h.leaves[..lo] + mine[..n];
      AppendGlues(ops, h.trees[0], h.leaves[..lo], mine[..n]);
    }
  }

  /** The list of an entry passes the test of the rebuild exactly if it has every subtree that the
      records `k` up to `l` complete once, and nothing else. */
  lemma ListedMeans<T(!new)>(p: PoolOps<T>, trees: Trees<T>, rs: seq<CompactBlockRecord>, hs: Histories<T>, k: nat,
                             l: nat, xs: seq<SubtreeRoot>)
    requires AllLawful(p) && Tracks(p, trees, rs, hs) && k <= l <= |rs|
    ensures SameRoots(CompletedBy(p, TreesAfter(p, trees, rs[..k]), rs[k..l]), xs)
            <==> ListsCompleted(p, hs, LeafCounts(rs[..k]), LeafCounts(rs[..l]), xs)
  {
    hide AllLawful, Tracks, LeafCounts, TreesAfter, CompletedBy, CompletedIn, SameRoots;
    var before := TreesAfter(p, trees, rs[..k]);
    var mine, lo, hi := CompletedBy(p, before, rs[k..l]), LeafCounts(rs[..k]), LeafCounts(rs[..l]);
    SameRootsIsPermutation(p, before, rs[k..l], xs);
    forall x ensures multiset(mine)[x] == if CompletedIn(p, hs, lo, hi, x) then 1 else 0 {
      CompletedMeans(p, trees, rs, hs, k, l, x);
      CompletedOnce(p, before, rs[k..l], x);
      assert x in mine <==> multiset(mine)[x] > 0;
    }
  }

  /** What a whole chain completes. */
  lemma AllCompleted<T(!new)>(p: PoolOps<T>, trees: Trees<T>, rs: seq<CompactBlockRecord>, hs: Histories<T>)
    requires AllLawful(p) && Tracks(p, trees, rs, hs)
    ensures ListsCompleted(p, hs, Counts(0, 0, 0), LeafCounts(rs), CompletedBy(p, trees, rs))
  {
    hide AllLawful, Tracks, CompletedBy, ListsCompleted;
    assert rs[..0] == [] && rs[0..|rs|] == rs && rs[..|rs|] == rs;
    assert LeafCounts([]) == Counts(0, 0, 0) && TreesAfter(p, trees, []) == trees;
    ListedMeans(p, trees, rs, hs, 0, |rs|, CompletedBy(p, trees, rs));
  }
}
