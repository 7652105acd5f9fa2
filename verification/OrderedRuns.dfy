/** What a builder gives over a whole run, in whatever order the blocks came. */
module OrderedRuns {
  import opened Bytes
  import opened ChainTypes
  import opened RecordCodec
  import opened OrderedBuilder

  /** An event that changes a builder: an accepted block, or a batch. */
  datatype Event = Accepted(block: ParsedCompactBlock) | Emitted(batch: WriteBatch)

  ghost predicate Step(b: Builder, e: Event, c: Builder) {
    match e
    case Accepted(block) => Refusal(b, block).None? && Pushed(b, c, block, Done(()))
    case Emitted(batch) => BuiltBatch(b, c, batch)
  }

  /** A run of a fresh builder through `states`. */
  ghost predicate Run(states: seq<Builder>, events: seq<Event>) {
    && |states| == |events| + 1 && Accounted(states[0]) && states[0].pending == map[]
    && forall i | 0 <= i < |events| :: Step(states[i], events[i], states[i + 1])
  }

  /** All records of a run, batch after batch. */
  function Output(events: seq<Event>): seq<CompactBlockRecord> {
    if events == [] then []
    else
      var last := events[|events| - 1];
      Output(events[..|events| - 1]) + match last case Accepted(_) => [] case Emitted(batch) => batch.records
  }

  /** The accepted blocks of a run, by height. */
  function Accepts(events: seq<Event>): map<nat, ParsedCompactBlock> {
    if events == [] then map[]
    else
      var m, last := Accepts(events[..|events| - 1]), events[|events| - 1];
      match last case Accepted(block) => m[block.height := block] case Emitted(_) => m
  }

  function Batches(events: seq<Event>): seq<WriteBatch> {
    if events == [] then []
    else
      var last := events[|events| - 1];
      Batches(events[..|events| - 1]) + match last case Accepted(_) => [] case Emitted(batch) => [batch]
  }

  /** The pending blocks are the accepted ones that are not out yet. */
  ghost predicate Holds(b: Builder, m: map<nat, ParsedCompactBlock>) {
    forall h | h >= b.next :: (h in b.pending <==> h in m) && (h in m ==> b.pending[h].block == m[h])
  }

  /** What a run has done after its events. */
  ghost predicate Reached(b: Builder, events: seq<Event>, c: Builder) {
    var out, m := Output(events), Accepts(events);
    && Accounted(c) && Fold(m, b.next, b.sizes, |out|) == Some(out) && Linked(b.previous, out)
    && c.next == b.next + |out| && c.sizes == EndSizes(out, b.sizes) && c.previous == EndHash(out, b.previous)
    && c.generation == b.generation + |Batches(events)| && Holds(c, m)
    && forall j | 0 <= j < |Batches(events)| :: Batches(events)[j].baseGeneration == b.generation + j
  }

  lemma PushReaches(b: Builder, events: seq<Event>, c: Builder, block: ParsedCompactBlock, d: Builder)
    requires Reached(b, events, c) && Step(c, Accepted(block), d)
    ensures Reached(b, events + [Accepted(block)], d)
  {
    hide Accounted, Fold, Linked, EncodedSizeBound;
    var more := events + [Accepted(block)];
    assert more[..|events|] == events;
    assert Output(events) + [] == Output(events) && Batches(events) + [] == Batches(events);
    FoldAgrees(Accepts(events), Accepts(more), b.next, b.sizes, |Output(events)|);
  }

  lemma BatchReaches(b: Builder, events: seq<Event>, c: Builder, batch: WriteBatch, d: Builder)
    requires Reached(b, events, c) && Step(c, Emitted(batch), d)
    ensures Reached(b, events + [Emitted(batch)], d)
  {
    hide Accounted, Fold, Linked;
    var more := events + [Emitted(batch)];
    assert more[..|events|] == events;
    var m, out, rs := Accepts(events), Output(events), batch.records;
    FoldAgrees(Blocks(c.pending), m, c.next, c.sizes, |rs|);
    FoldGlues(m, b.next, b.sizes, |out|, |rs|);
    LinkedGlues(b.previous, out, rs);
    GenerationIsFree(d, c.generation);
  }

  /** Over every run, in any push order and with any limits, the batches one after the other are
      the fold of the accepted blocks in height order from the initial state: consecutive heights,
      linked hashes and cumulative tree sizes. Base generations rise by one per batch. */
  lemma {:induction false} OrderedRefinement(states: seq<Builder>, events: seq<Event>)
    requires Run(states, events)
    ensures Reached(states[0], events, states[|events|])
  {
    hide Accounted, Fold, Linked, Step, Reached;
    if events == [] {
      NothingReached(states[0]);
    } else {
      var n := |events| - 1;
      var init, last := events[..n], events[n];
      OrderedRefinement(states[..n + 1], init);
      assert events == init + [last];
      assert Step(states[n], events[n], states[n + 1]);
      match last
      case Accepted(block) => PushReaches(states[0], init, states[n], block, states[n + 1]);
      case Emitted(batch) => BatchReaches(states[0], init, states[n], batch, states[n + 1]);
    }
  }

  lemma NothingReached(b: Builder)
    requires Accounted(b) && b.pending == map[]
    ensures Reached(b, [], b)
  {
  }

  lemma {:induction false} AcceptsByHeight(events: seq<Event>)
    ensures forall h <- Accepts(events) :: Accepts(events)[h].height == h
  {
    if events != [] {
      AcceptsByHeight(events[..|events| - 1]);
    }
  }

  lemma {:induction false} FoldHeights(m: map<nat, ParsedCompactBlock>, from: nat, before: TreeSizes, k: nat)
    requires Fold(m, from, before, k).Some? && forall h <- m :: m[h].height == h
    ensures |Fold(m, from, before, k).value| == k
    ensures forall i | 0 <= i < k :: Fold(m, from, before, k).value[i].height == from + i
  {
    if k > 0 {
      FoldHeights(m, from, before, k - 1);
    }
  }

  /** The records of a run have consecutive heights from the next height of the index. */
  lemma OutputIsConsecutive(states: seq<Builder>, events: seq<Event>)
    requires Run(states, events)
    ensures forall i | 0 <= i < |Output(events)| :: Output(events)[i].height == states[0].next + i
  {
    hide Accounted, Fold, Linked, Step, Output, Accepts;
    OrderedRefinement(states, events);
    AcceptsByHeight(events);
    FoldHeights(Accepts(events), states[0].next, states[0].sizes, |Output(events)|);
  }

  /** Two runs over the same accepted blocks never disagree: one output is a prefix of the other. */
  lemma RunsAgree(states: seq<Builder>, events: seq<Event>, others: seq<Builder>, otherEvents: seq<Event>)
    requires Run(states, events) && Run(others, otherEvents)
    requires Accepts(events) == Accepts(otherEvents)
    requires states[0].next == others[0].next && states[0].sizes == others[0].sizes
    ensures Output(events) <= Output(otherEvents) || Output(otherEvents) <= Output(events)
  {
    hide Accounted, Fold, Linked, Step, Output, Accepts;
    OrderedRefinement(states, events);
    OrderedRefinement(others, otherEvents);
    var m, from, before := Accepts(events), states[0].next, states[0].sizes;
    var j, k := |Output(events)|, |Output(otherEvents)|;
    if j <= k {
      FoldPrefix(m, from, before, j, k);
    } else {
      FoldPrefix(m, from, before, k, j);
    }
  }

  /** Above the threshold a durable next block that is ready is always put into a batch or refused
      with an error: the builder never waits there. */
  lemma NoStall(b: Builder, c: Builder, durable: Option<u32>, sealThrough: Option<u32>, maxBatch: nat,
                r: Outcome<Option<WriteBatch>>)
    requires Built(b, c, durable, sealThrough, maxBatch, r)
    requires b.pendingBytes > FlushThreshold(b.maxPending, maxBatch)
    requires b.next in b.pending && Durable(durable, b.next)
    ensures r.Failed? || r.value.Some?
  {
  }

  /** A batch that stopped at its limit leaves the next block at a range start or in a range that
      may not be sealed. */
  lemma LimitStopsAtRanges(b: Builder, c: Builder, durable: Option<u32>, sealThrough: Option<u32>, maxBatch: nat,
                           batch: WriteBatch)
    requires Built(b, c, durable, sealThrough, maxBatch, Done(Some(batch)))
    requires c.next in b.pending && Durable(durable, c.next)
    ensures c.next % RANGE_SIZE == 0 || !Sealable(sealThrough, c.next)
  {
    hide Accounted, Fold, Linked, Overshoots, SumBytes;
  }
}
