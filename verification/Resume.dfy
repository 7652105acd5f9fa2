/** Where an import starts, and which entries it covers. */
module Resume {
  import opened Bytes
  import opened ChainTypes
  import opened Manifest
  import opened EpochRule
  import opened Epochs

  datatype Choice = Ahead | RangeBoundary | From(first: nat, tipEntry: Option<ManifestEntry>)

  /** The search over `epochs`, of which the first has position `at`. */
  function FindFrom(epochs: seq<Epoch>, sealed: Option<u32>, at: nat): Choice
    decreases epochs
  {
    if epochs == [] then RangeBoundary
    else
      match sealed
      case None => From(at, None)
      case Some(height) =>
        match PartAfter(epochs[0], height)
        case Some(part) => From(at, part.previous)
        case None => FindFrom(epochs[1..], sealed, at + 1)
  }

  /** The start of `Importer::run` for a manifest and the sealed tip of the index. */
  function Choose(entries: seq<ManifestEntry>, sealed: Option<u32>): Choice
    requires entries != []
  {
    if sealed.Some? && sealed.value >= entries[|entries| - 1].endHeight then Ahead
    else FindFrom(EpochsFrom(entries, 0), sealed, 0)
  }

  // The offsets of the epochs, and the lookup of one epoch by its offset.

  /** The running offset of `EpochImport::new` over the epochs. */
  function Offsets(epochs: seq<Epoch>, next: nat): seq<nat>
    decreases epochs
  {
    if epochs == [] then [] else [next] + Offsets(epochs[1..], next + |epochs[0].entries|)
  }

  method RunOffsets(epochs: seq<Epoch>) returns (offsets: seq<nat>)
    ensures offsets == Offsets(epochs, 0)
  {
    var next: nat := 0;
    offsets := [];
    for i := 0 to |epochs|
      invariant Offsets(epochs, 0) == offsets + Offsets(epochs[i..], next)
    {
      assert epochs[i..][1..] == epochs[i + 1..];
      offsets, next := offsets + [next], next + |epochs[i].entries|;
    }
  }

  lemma {:induction false} OffsetsAreStarts(entries: seq<ManifestEntry>, s: nat)
    requires s <= |entries|
    ensures Offsets(EpochsFrom(entries, s), s) == Starts(Totals(entries), s)
    decreases |entries| - s
  {
    hide End, Closes;
    if s < |entries| {
      assert EpochsFrom(entries, s)[1..] == EpochsFrom(entries, EndOf(entries, s));
      OffsetsAreStarts(entries, EndOf(entries, s));
    }
  }

  datatype Plan = Plan(entries: seq<ManifestEntry>, offsets: seq<nat>, first: nat, sealed: Option<u32>)

  /** `manifest_epoch`. `None` stands for a failed `expect`. */
  function ManifestEpoch(plan: Plan, at: nat): Option<Epoch>
    requires at < |plan.offsets|
  {
    if plan.offsets[at] >= |plan.entries| then None
    else
      var epoch := EpochAt(plan.entries, plan.offsets[at]);
      if plan.sealed.Some? && at == plan.first then PartAfter(epoch, plan.sealed.value) else Some(epoch)
  }

  /** Every epoch to import, from `at` on, if no `expect` fails. */
  function ImportedFrom(plan: Plan, at: nat): Option<seq<Epoch>>
    decreases |plan.offsets| - at
  {
    if at >= |plan.offsets| then Some([])
    else
      match ManifestEpoch(plan, at)
      case None => None
      case Some(e) =>
        match ImportedFrom(plan, at + 1)
        case None => None
        case Some(es) => Some([e] + es)
  }

  /** The position of the epoch that holds entry `n`, counted from the epoch at `s`. */
  function EpochOf(entries: seq<ManifestEntry>, s: nat, n: nat): nat
    requires s <= n < |entries|
    decreases |entries| - s
  {
    if n < EndOf(entries, s) then 0 else 1 + EpochOf(entries, EndOf(entries, s), n)
  }

  /** The epoch of entry `n` is at its position and starts at or before it. */
  lemma {:induction false} EpochOfHolds(entries: seq<ManifestEntry>, s: nat, n: nat)
    requires s <= n < |entries|
    ensures EpochOf(entries, s, n) < |EpochsFrom(entries, s)| == |Starts(Totals(entries), s)|
    ensures var start := Starts(Totals(entries), s)[EpochOf(entries, s, n)];
            s <= start <= n < EndOf(entries, start)
    decreases |entries| - s
  {
    hide End;
    EpochsAtStarts(entries, s, 0);
    if n >= EndOf(entries, s) {
      EpochOfHolds(entries, EndOf(entries, s), n);
    }
  }

  /** A height below the manifest tip yields a part of exactly one epoch if a range ends there, and
      of none otherwise; the search finds it. */
  lemma {:induction false} OneEpochYieldsAPart(entries: seq<ManifestEntry>, s: nat, height: u32, k: nat)
    requires EntriesOk(entries) && s <= |entries| && k < |EpochsFrom(entries, s)|
    requires RangesThrough(height).Some? ==>
               RangesThrough(height).value > 0 && s <= RangesThrough(height).value < |entries|
    ensures PartAfter(EpochsFrom(entries, s)[k], height).Some?
            <==> RangesThrough(height).Some? && k == EpochOf(entries, s, RangesThrough(height).value)
    decreases |entries| - s
  {
    hide End, Closes, EntriesOk, PartAfter, RangesThrough, EpochAt;
    var through := RangesThrough(height);
    PartAfterMeans(entries, s, height);
    var end := EndOf(entries, s);
    if k > 0 {
      if through.Some? && through.value < end {
        LaterEpochsHaveNoPart(entries, end, height, k - 1);
      } else {
        OneEpochYieldsAPart(entries, end, height, k - 1);
      }
    }
  }

  lemma {:induction false} LaterEpochsHaveNoPart(entries: seq<ManifestEntry>, s: nat, height: u32, k: nat)
    requires EntriesOk(entries) && s <= |entries| && k < |EpochsFrom(entries, s)|
    requires RangesThrough(height).Some? && RangesThrough(height).value < s
    ensures PartAfter(EpochsFrom(entries, s)[k], height).None?
    decreases |entries| - s
  {
    hide End, Closes, EntriesOk, PartAfter, RangesThrough, EpochAt;
    PartAfterMeans(entries, s, height);
    if k > 0 {
      LaterEpochsHaveNoPart(entries, EndOf(entries, s), height, k - 1);
    }
  }

  lemma {:induction false} SearchFinds(entries: seq<ManifestEntry>, s: nat, height: u32, at: nat)
    requires EntriesOk(entries) && s <= |entries|
    requires RangesThrough(height).Some? ==>
               RangesThrough(height).value > 0 && s <= RangesThrough(height).value < |entries|
    ensures FindFrom(EpochsFrom(entries, s), Some(height), at)
            == if RangesThrough(height).None? then RangeBoundary
               else var n := RangesThrough(height).value; From(at + EpochOf(entries, s, n), Before(entries, n))
    decreases |entries| - s
  {
    hide End, Closes, EntriesOk, PartAfter, RangesThrough, EpochAt;
    if s < |entries| {
      PartAfterMeans(entries, s, height);
      var end := EndOf(entries, s);
      assert EpochsFrom(entries, s)[1..] == EpochsFrom(entries, end);
      if PartAfter(EpochAt(entries, s), height).None? {
        SearchFinds(entries, end, height, at + 1);
      }
    }
  }

  /** A range that ends below the tip of the manifest has entries behind it. */
  lemma ThroughIsInside(entries: seq<ManifestEntry>, height: u32)
    requires EntriesOk(entries) && entries != [] && height < entries[|entries| - 1].endHeight
    ensures RangesThrough(height).Some? ==> 0 < RangesThrough(height).value < |entries|
  {
    hide EntriesOk;
    EntryHeights(entries, |entries| - 1);
  }

  /** The epochs behind the first one are whole and cover the rest. */
  lemma {:induction false} RestIsWhole(plan: Plan, at: nat, s: nat)
    requires plan.offsets == Starts(Totals(plan.entries), 0) && s <= |plan.entries| && at <= |plan.offsets|
    requires at > plan.first || plan.sealed.None?
    requires plan.offsets[at..] == Starts(Totals(plan.entries), s)
    ensures ImportedFrom(plan, at) == Some(EpochsFrom(plan.entries, s))
    decreases |plan.entries| - s
  {
    hide End, Closes, PartAfter, EpochAt;
    if s < |plan.entries| {
      var end := EndOf(plan.entries, s);
      assert plan.offsets[at] == plan.offsets[at..][0] == s;
      assert plan.offsets[at + 1..] == plan.offsets[at..][1..] == Starts(Totals(plan.entries), end);
      RestIsWhole(plan, at + 1, end);
    }
  }

  lemma {:induction false} StartsSplit(entries: seq<ManifestEntry>, s: nat, j: nat)
    requires s <= |entries| && j < |Starts(Totals(entries), s)|
    ensures var start := Starts(Totals(entries), s)[j];
            start < |entries| && Starts(Totals(entries), s)[j + 1..] == Starts(Totals(entries), EndOf(entries, start))
    decreases |entries| - s
  {
    hide End, Closes;
    var rest := Starts(Totals(entries), EndOf(entries, s));
    assert Starts(Totals(entries), s) == [s] + rest;
    if j == 0 {
      assert ([s] + rest)[1..] == rest;
    } else {
      StartsSplit(entries, EndOf(entries, s), j - 1);
      assert ([s] + rest)[j + 1..] == rest[j..];
    }
  }

  /** The plan of an import that starts after the first `n` ranges, in the epoch of the next one. */
  function PlanAfter(entries: seq<ManifestEntry>, height: u32, n: nat): Plan
    requires n < |entries|
  {
    Plan(entries, Offsets(EpochsFrom(entries, 0), 0), EpochOf(entries, 0, n), Some(height))
  }

  /** No `expect` fails, and the epochs are exactly the entries from `n` on, one behind the other from
      entry `n - 1`. */
  ghost predicate Covers(entries: seq<ManifestEntry>, n: nat, imported: Option<seq<Epoch>>)
    requires 0 < n < |entries|
  {
    && imported.Some? && imported.value != [] && Joined(imported.value) == entries[n..]
    && Chained(Some(entries[n - 1]), imported.value)
  }

  /** A sealed tip at a range end below the manifest tip: the import starts in the epoch of the
      next entry and covers exactly the entries after the tip. Any other tip is refused. */
  lemma ResumeCoversTheRest(entries: seq<ManifestEntry>, height: u32)
    requires EntriesOk(entries) && entries != [] && height < entries[|entries| - 1].endHeight
    ensures RangesThrough(height).None? ==> Choose(entries, Some(height)) == RangeBoundary
    ensures RangesThrough(height).Some? ==>
              var n := RangesThrough(height).value;
              && 0 < n < |entries|
              && Choose(entries, Some(height)) == From(EpochOf(entries, 0, n), Some(entries[n - 1]))
              && Covers(entries, n, ImportedFrom(PlanAfter(entries, height, n), EpochOf(entries, 0, n)))
  {
    hide EntriesOk, RangesThrough, EpochOf, EpochsFrom, Covers, ImportedFrom, PlanAfter;
    ThroughIsInside(entries, height);
    SearchFinds(entries, 0, height, 0);
    if RangesThrough(height).Some? {
      PartThenRest(entries, height, RangesThrough(height).value);
    }
  }

  lemma PartThenRest(entries: seq<ManifestEntry>, height: u32, n: nat)
    requires EntriesOk(entries) && RangesThrough(height) == Some(n) && 0 < n < |entries|
    ensures Covers(entries, n, ImportedFrom(PlanAfter(entries, height, n), EpochOf(entries, 0, n)))
  {
    hide EndOf, EntriesOk, PartAfter, EpochAt, RangesThrough, Starts, EpochOf, EpochsFrom, Offsets, Joined;
    OffsetsAreStarts(entries, 0);
    EpochOfHolds(entries, 0, n);
    var plan := PlanAfter(entries, height, n);
    var start := plan.offsets[plan.first];
    var end := EndOf(entries, start);
    PartAfterMeans(entries, start, height);
    StartsSplit(entries, 0, plan.first);
    RestIsWhole(plan, plan.first + 1, end);
    var part, rest := PartAfter(EpochAt(entries, start), height).value, EpochsFrom(entries, end);
    assert ImportedFrom(plan, plan.first) == Some([part] + rest);
    JoinedPart(entries, n, end, part);
  }

  lemma JoinedPart(entries: seq<ManifestEntry>, n: nat, end: nat, part: Epoch)
    requires n < end <= |entries| && part.entries == entries[n..end]
    ensures Joined([part] + EpochsFrom(entries, end)) == entries[n..]
    ensures Chained(part.previous, [part] + EpochsFrom(entries, end))
  {
    hide EpochsFrom, Follow;
    var rest := EpochsFrom(entries, end);
    EpochsPartition(entries, end);
    FollowIsChained(Before(entries, end), rest);
    assert ([part] + rest)[1..] == rest;
    assert entries[n..] == entries[n..end] + entries[end..];
  }

  /** An empty index imports every epoch of the manifest. */
  lemma EmptyIndexImportsAll(entries: seq<ManifestEntry>)
    requires entries != []
    ensures Choose(entries, None) == From(0, None)
    ensures ImportedFrom(Plan(entries, Offsets(EpochsFrom(entries, 0), 0), 0, None), 0) == Some(EpochsFrom(entries, 0))
    ensures Joined(EpochsFrom(entries, 0)) == entries && Chained(None, EpochsFrom(entries, 0))
  {
    hide End, Closes, EpochAt, Starts, Offsets;
    OffsetsAreStarts(entries, 0);
    var plan := Plan(entries, Offsets(EpochsFrom(entries, 0), 0), 0, None);
    assert plan.offsets[0..] == plan.offsets;
    RestIsWhole(plan, 0, 0);
    EpochsPartition(entries, 0);
    FollowIsChained(None, EpochsFrom(entries, 0));
  }
}
