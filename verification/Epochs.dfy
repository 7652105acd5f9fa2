/** Verification epochs: groups of adjacent manifest entries. */
module Epochs {
  import opened Bytes
  import opened ChainTypes
  import opened Manifest
  import opened EpochRule

  datatype Epoch = Epoch(entries: seq<ManifestEntry>, previous: Option<ManifestEntry>, closedByRule: bool)

  function Totals(entries: seq<ManifestEntry>): seq<nat> {
    seq(|entries|, i requires 0 <= i < |entries| => entries[i].endTreeSizes.Total())
  }

  /** The end of the epoch that starts at entry `s`. */
  function EndOf(entries: seq<ManifestEntry>, s: nat): (end: nat)
    requires s < |entries|
    ensures s < end <= |entries|
  {
    End(Totals(entries), s)
  }

  /** The epoch that starts at entry `s`. */
  function EpochAt(entries: seq<ManifestEntry>, s: nat): Epoch
    requires s < |entries|
  {
    var end := EndOf(entries, s);
    Epoch(entries[s..end], Before(entries, s), Closes(Totals(entries), s, end - 1))
  }

  /** The epochs of the entries from `s` on. */
  function EpochsFrom(entries: seq<ManifestEntry>, s: nat): seq<Epoch>
    requires s <= |entries|
    decreases |entries| - s
  {
    if s == |entries| then [] else [EpochAt(entries, s)] + EpochsFrom(entries, EndOf(entries, s))
  }

  /** The iterator over the epochs. */
  class Epochs {
    const entries: seq<ManifestEntry>
    var start: nat

    constructor (entries: seq<ManifestEntry>)
      ensures this.entries == entries && start == 0
    {
      this.entries, start := entries, 0;
    }

    constructor StartingAt(entries: seq<ManifestEntry>, start: nat)
      ensures this.entries == entries && this.start == start
    {
      this.entries, this.start := entries, start;
    }

    method Next() returns (epoch: Option<Epoch>)
      modifies this
      ensures old(start) < |entries| ==>
                epoch == Some(EpochAt(entries, old(start))) && start == EndOf(entries, old(start))
      ensures old(start) >= |entries| ==> epoch == None && start == old(start)
    {
      if start >= |entries| {
        return None;
      }
      var len := LengthAt(entries, start);
      var rest, previous := entries[start..], Before(entries, start);
      var base := if previous.None? then 0 else previous.value.endTreeSizes.Total();
      hide Scan, RuleCloses, TreeSizes.Total;
      var closed := RuleCloses(len, SaturatingSub(rest[len - 1].endTreeSizes.Total(), base));
      epoch := Some(Epoch(rest[..len], previous, closed));
      assert rest[..len] == entries[start..start + len];
      start := start + len;
    }
  }

  /** The search for the first entry that closes the epoch. */
  method LengthAt(entries: seq<ManifestEntry>, start: nat) returns (len: nat)
    requires start < |entries|
    ensures len > 0 && start + len == EndOf(entries, start)
  {
    hide RuleCloses, TreeSizes.Total;
    ghost var ts := Totals(entries);
    var rest, previous := entries[start..], Before(entries, start);
    var base := if previous.None? then 0 else previous.value.endTreeSizes.Total();
    var at := 0;
    while at < |rest| && !RuleCloses(at + 1, SaturatingSub(rest[at].endTreeSizes.Total(), base))
      invariant at <= |rest| && Scan(ts, start, start) == Scan(ts, start, start + at)
    {
      assert !Closes(ts, start, start + at);
      at := at + 1;
    }
    len := if at < |rest| then at + 1 else |rest|;
    assert at < |rest| ==> Closes(ts, start, start + at);
  }

  // The epochs are the only partition that closes by the rule.

  /** Entry `k` is the tenth of the epoch, or the epoch has added a million commitments there. */
  ghost predicate FullAt(e: Epoch, k: nat)
    requires k < |e.entries|
  {
    var at := e.entries[k].endTreeSizes;
    || k + 1 >= 10
    || match e.previous
       case None => at.sapling + at.orchard + at.ironwood >= 1_000_000
       case Some(before) =>
         var was := before.endTreeSizes;
         at.sapling + at.orchard + at.ironwood >= was.sapling + was.orchard + was.ironwood + 1_000_000
  }

  /** The epoch is not empty, is full at no entry before the last, and the flag says if it is full
      there. */
  ghost predicate WellClosed(e: Epoch) {
    && e.entries != [] && (forall k | 0 <= k < |e.entries| - 1 :: !FullAt(e, k))
    && e.closedByRule == FullAt(e, |e.entries| - 1)
  }

  function Joined(epochs: seq<Epoch>): seq<ManifestEntry> {
    if epochs == [] then [] else epochs[0].entries + Joined(epochs[1..])
  }

  /** The epochs follow each other from `previous` on, and only the last may be open. */
  ghost predicate Follow(previous: Option<ManifestEntry>, epochs: seq<Epoch>)
    decreases epochs
  {
    epochs != [] ==>
      && epochs[0].previous == previous && WellClosed(epochs[0]) && (|epochs| > 1 ==> epochs[0].closedByRule)
      && Follow(Some(epochs[0].entries[|epochs[0].entries| - 1]), epochs[1..])
  }

  /** The epochs are not empty, and each is behind the last entry of the one before. */
  predicate Chained(previous: Option<ManifestEntry>, epochs: seq<Epoch>)
    decreases epochs
  {
    epochs != [] ==>
      && epochs[0].previous == previous && epochs[0].entries != []
      && Chained(Some(epochs[0].entries[|epochs[0].entries| - 1]), epochs[1..])
  }

  lemma {:induction false} FollowIsChained(previous: Option<ManifestEntry>, epochs: seq<Epoch>)
    requires Follow(previous, epochs)
    ensures Chained(previous, epochs)
    decreases epochs
  {
    if epochs != [] {
      FollowIsChained(Some(epochs[0].entries[|epochs[0].entries| - 1]), epochs[1..]);
    }
  }

  lemma EpochAtIsWellClosed(entries: seq<ManifestEntry>, s: nat)
    requires s < |entries|
    ensures WellClosed(EpochAt(entries, s)) && EpochAt(entries, s).previous == Before(entries, s)
    ensures EpochAt(entries, s).entries == entries[s..EndOf(entries, s)]
    ensures EndOf(entries, s) < |entries| ==> EpochAt(entries, s).closedByRule
  {
    hide Scan, Closes, FullAt;
    var ts, e, end := Totals(entries), EpochAt(entries, s), EndOf(entries, s);
    EndIsFirst(ts, s);
    forall k | 0 <= k < |e.entries| - 1 ensures !FullAt(e, k) {
      ClosesInside(entries, s, e, end, k);
      assert !Closes(ts, s, s + k);
    }
    ClosesInside(entries, s, e, end, end - 1 - s);
  }

  /** The epochs partition the entries from `s` on into runs that close at the first entry where
      the rule holds. */
  lemma {:induction false} EpochsPartition(entries: seq<ManifestEntry>, s: nat)
    requires s <= |entries|
    ensures Joined(EpochsFrom(entries, s)) == entries[s..] && Follow(Before(entries, s), EpochsFrom(entries, s))
    decreases |entries| - s
  {
    hide WellClosed, EpochAt, End;
    if s < |entries| {
      hide Totals;
      var e, end := EpochAt(entries, s), EndOf(entries, s);
      EpochAtIsWellClosed(entries, s);
      EpochsPartition(entries, end);
      var rest := EpochsFrom(entries, end);
      assert EpochsFrom(entries, s) == [e] + rest && ([e] + rest)[1..] == rest;
      assert entries[s..] == entries[s..end] + entries[end..];
      assert Before(entries, end) == Some(entries[s..end][end - s - 1]);
    }
  }

  /** There is no other partition of this kind. */
  lemma {:induction false} EpochsUnique(entries: seq<ManifestEntry>, s: nat, epochs: seq<Epoch>)
    requires s <= |entries| && Joined(epochs) == entries[s..] && Follow(Before(entries, s), epochs)
    ensures epochs == EpochsFrom(entries, s)
    decreases |entries| - s
  {
    hide FullAt;
    if epochs != [] {
      var e, rest := epochs[0], epochs[1..];
      var end := s + |e.entries|;
      assert |Joined(epochs)| == |entries| - s && end <= |entries|;
      assert e.entries == Joined(epochs)[..|e.entries|] == entries[s..end];
      assert Joined(rest) == Joined(epochs)[|e.entries|..] == entries[end..];
      FirstCloseIsEnd(entries, s, e, end);
      assert Before(entries, end) == Some(e.entries[|e.entries| - 1]);
      EpochsUnique(entries, end, rest);
      assert epochs == [e] + rest;
    }
  }

  /** The rule inside an epoch is the rule on its own entries. */
  lemma ClosesInside(entries: seq<ManifestEntry>, s: nat, e: Epoch, end: nat, k: nat)
    requires s + k < end <= |entries| && e.entries == entries[s..end] && e.previous == Before(entries, s)
    ensures Closes(Totals(entries), s, s + k) == FullAt(e, k)
  {
  }

  lemma FirstCloseIsEnd(entries: seq<ManifestEntry>, s: nat, e: Epoch, end: nat)
    requires s < end <= |entries| && e.entries == entries[s..end] && e.previous == Before(entries, s) && WellClosed(e)
    requires end < |entries| ==> e.closedByRule
    ensures e == EpochAt(entries, s) && end == EndOf(entries, s)
  {
    hide Scan, Closes, FullAt;
    var ts := Totals(entries);
    ClosesInside(entries, s, e, end, end - 1 - s);
    forall k | s <= k < end - 1 ensures !Closes(ts, s, k) {
      ClosesInside(entries, s, e, end, k - s);
    }
    EndIsUnique(ts, s, s, end);
  }

  /** A longer manifest keeps every epoch that the rule closed, at its position. */
  lemma {:induction false} LongerManifestKeepsEpochs(short: seq<ManifestEntry>, long: seq<ManifestEntry>, s: nat,
                                                     j: nat)
    requires short <= long && s <= |short| && j < |EpochsFrom(short, s)| && EpochsFrom(short, s)[j].closedByRule
    ensures j < |EpochsFrom(long, s)| && EpochsFrom(long, s)[j] == EpochsFrom(short, s)[j]
    decreases |short| - s
  {
    hide Scan, RuleCloses;
    var ts, us := Totals(short), Totals(long);
    assert ts <= us;
    EndIsFirst(ts, s);
    if j == 0 {
      ClosedEpochsStay(ts, us, s);
    } else {
      assert End(ts, s) < |short|;
      ClosedEpochsStay(ts, us, s);
      LongerManifestKeepsEpochs(short, long, End(ts, s), j - 1);
    }
  }

  lemma {:induction false} EpochsAtStarts(entries: seq<ManifestEntry>, s: nat, j: nat)
    requires s <= |entries|
    ensures |EpochsFrom(entries, s)| == |Starts(Totals(entries), s)|
    ensures j < |Starts(Totals(entries), s)| ==>
      var start := Starts(Totals(entries), s)[j];
      s <= start < |entries| && EpochsFrom(entries, s)[j] == EpochAt(entries, start)
    decreases |entries| - s
  {
    hide Scan, Closes;
    if s < |entries| {
      EpochsAtStarts(entries, EndOf(entries, s), if j == 0 then 0 else j - 1);
    }
  }

  // The `epoch_end` flags.

  /** The flags of the epochs, entry by entry: set at the last entry of each. */
  function Flags(epochs: seq<Epoch>): seq<bool> {
    if epochs == [] then []
    else seq(|epochs[0].entries|, k => k + 1 == |epochs[0].entries|) + Flags(epochs[1..])
  }

  /** `check_epoch_ends`: the first entry with the wrong flag, and the right flag. */
  function CheckEpochEnds(entries: seq<ManifestEntry>, flags: seq<bool>, i: nat): Option<(nat, bool)>
    decreases |entries| - i
  {
    if i >= |entries| || i >= |flags| then None
    else if entries[i].epochEnd != flags[i] then Some((i, flags[i]))
    else CheckEpochEnds(entries, flags, i + 1)
  }

  lemma {:induction false} CheckFindsFirst(entries: seq<ManifestEntry>, flags: seq<bool>, i: nat)
    requires |flags| == |entries|
    ensures CheckEpochEnds(entries, flags, i).None?
            <==> forall k | i <= k < |entries| :: entries[k].epochEnd == flags[k]
    decreases |entries| - i
  {
    if i < |entries| {
      CheckFindsFirst(entries, flags, i + 1);
    }
  }

  /** An entry ends an epoch exactly if the rule closes one there or it is the last entry. */
  lemma {:induction false} FlagsMean(entries: seq<ManifestEntry>, s: nat, i: nat)
    requires s <= |entries| && (s < |entries| ==> Start(Totals(entries), s) == s)
    ensures |Flags(EpochsFrom(entries, s))| == |entries| - s
    ensures s <= i < |entries| ==>
              Flags(EpochsFrom(entries, s))[i - s] == (RuleEnd(Totals(entries), i) || i + 1 == |entries|)
    decreases |entries| - s
  {
    hide Scan, Closes, Start, RuleEnd;
    if s < |entries| {
      var ts := Totals(entries);
      var end := End(ts, s);
      EpochsMeet(ts, s);
      FlagsMean(entries, end, i);
      EndIsFirst(ts, s);
      if s <= i < end {
        StreamStaysInside(ts, s, i);
      }
    }
  }

  /** The flags of a manifest are accepted exactly if each is the flag of the rule, or set on the
      last entry. */
  lemma CheckedFlags(entries: seq<ManifestEntry>)
    ensures |Flags(EpochsFrom(entries, 0))| == |entries|
    ensures CheckEpochEnds(entries, Flags(EpochsFrom(entries, 0)), 0).None?
            <==> forall i | 0 <= i < |entries| ::
                   entries[i].epochEnd == (RuleEnd(Totals(entries), i) || i + 1 == |entries|)
  {
    hide RuleEnd, Flags, EpochsFrom, CheckEpochEnds;
    var flags := Flags(EpochsFrom(entries, 0));
    ZeroStarts(Totals(entries));
    FlagsMean(entries, 0, 0);
    CheckFindsFirst(entries, flags, 0);
    forall i | 0 <= i < |entries| ensures flags[i] == (RuleEnd(Totals(entries), i) || i + 1 == |entries|) {
      FlagsMean(entries, 0, i);
    }
  }

  lemma ZeroStarts(ts: seq<nat>)
    ensures Start(ts, 0) == 0
  {
  }

  /** The flag that an imported row keeps. */
  predicate ImportedFlag(e: Epoch, k: nat)
    requires k < |e.entries|
  {
    e.entries[k].epochEnd && e.closedByRule
  }

  // A part of an epoch.

  /** The entries from `from` on of the epoch that starts at `s`, with the flag of the whole epoch. */
  function Part(entries: seq<ManifestEntry>, s: nat, from: nat): Epoch
    requires s <= from < |entries| && from < EndOf(entries, s)
  {
    Epoch(entries[from..EndOf(entries, s)], Before(entries, from), EpochAt(entries, s).closedByRule)
  }

  /** An epoch, and every part of one, has at least one range and at most ten. */
  lemma PartIsShort(entries: seq<ManifestEntry>, s: nat, from: nat)
    requires s <= from < |entries| && from < EndOf(entries, s)
    ensures Part(entries, s, s) == EpochAt(entries, s)
    ensures 0 < |Part(entries, s, from).entries| <= MAX_RANGES
  {
    hide End, Closes;
    EpochIsShort(Totals(entries), s);
  }

  function Position(entries: seq<ManifestEntry>, height: nat, i: nat): (at: Option<nat>)
    ensures at.Some? ==> i <= at.value < |entries|
    decreases |entries| - i
  {
    if i >= |entries| then None
    else if entries[i].endHeight == height then Some(i)
    else Position(entries, height, i + 1)
  }

  function PartAfter(e: Epoch, height: nat): Option<Epoch> {
    if e.previous.Some? && e.previous.value.endHeight == height then Some(e)
    else
      match Position(e.entries, height, 0)
      case None => None
      case Some(at) =>
        var after := e.entries[at + 1..];
        if after == [] then None else Some(Epoch(after, Some(e.entries[at]), e.closedByRule))
  }

  lemma {:induction false} PositionMeans(entries: seq<ManifestEntry>, height: nat, i: nat)
    ensures Position(entries, height, i).None? <==> forall k | i <= k < |entries| :: entries[k].endHeight != height
    ensures Position(entries, height, i).Some? ==>
              var at := Position(entries, height, i).value;
              entries[at].endHeight == height
    decreases |entries| - i
  {
    if i < |entries| {
      PositionMeans(entries, height, i + 1);
    }
  }

  /** The number of ranges through `height`, if a range ends there. */
  function RangesThrough(height: nat): Option<nat> {
    if (height + 1) % RANGE_SIZE == 0 then Some((height + 1) / RANGE_SIZE) else None
  }

  lemma EndsAt(entries: seq<ManifestEntry>, i: nat, height: nat)
    requires EntriesOk(entries) && i < |entries|
    ensures entries[i].endHeight == height <==> RangesThrough(height) == Some(i + 1)
  {
    hide EntriesOk;
    EntryHeights(entries, i);
  }

  /** What a part of an epoch of a manifest is: the entries behind the range that ends at `height`,
      in the same epoch. There is a part exactly if that range is before the last entry of the epoch
      and not before the entry in front of it. */
  lemma PartAfterMeans(entries: seq<ManifestEntry>, s: nat, height: nat)
    requires EntriesOk(entries) && s < |entries|
    ensures var end, through, part := EndOf(entries, s), RangesThrough(height), PartAfter(EpochAt(entries, s), height);
            && (part.Some? <==> through.Some? && through.value > 0 && s <= through.value < end)
            && (part.Some? ==> part.value == Part(entries, s, through.value))
  {
    hide EndOf, Closes, EntriesOk, Position, Totals, RangesThrough;
    var e, end, through := EpochAt(entries, s), EndOf(entries, s), RangesThrough(height);
    if s > 0 {
      EndsAt(entries, s - 1, height);
    }
    forall k | 0 <= k < end - s ensures e.entries[k].endHeight == height <==> through == Some(s + k + 1) {
      EndsAt(entries, s + k, height);
    }
    PositionMeans(e.entries, height, 0);
    if through.Some? && s < through.value < end {
      assert e.entries[through.value - 1 - s].endHeight == height;
    }
    if Position(e.entries, height, 0).Some? {
      var p := Position(e.entries, height, 0).value;
      assert e.entries[p + 1..] == entries[s + p + 1..end];
    }
  }

  /** Imported rows carry exactly the flags of the rule, also when only a part of an epoch is
      imported. */
  lemma ImportedFlagsAreRuleFlags(entries: seq<ManifestEntry>, s: nat, from: nat, k: nat)
    requires CheckEpochEnds(entries, Flags(EpochsFrom(entries, 0)), 0).None?
    requires s in Starts(Totals(entries), 0) && s <= from < |entries| && from + k < EndOf(entries, s)
    ensures ImportedFlag(Part(entries, s, from), k) == RuleEnd(Totals(entries), from + k)
  {
    hide Scan, Flags, EpochsFrom, CheckEpochEnds, RuleCloses, Starts, Start, RuleEnd, TreeSizes.Total;
    var ts := Totals(entries);
    ZeroStarts(ts);
    CheckedFlags(entries);
    StartsAreStreamStarts(ts, 0, s);
    StreamStaysInside(ts, s, from + k);
  }
}
