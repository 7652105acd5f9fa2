/** The check of a manifest, and the manifests that it accepts. */
module ManifestCheck {
  import opened Bytes
  import opened ChainTypes
  import opened Manifest
  import opened EpochRule
  import opened Epochs

  datatype ManifestError =
    | Empty
    | StartsAt(index: nat, startHeight: u32)
    | RangeLength(index: nat)
    | TreeSizesFall(index: nat)
    | PoolInactive(index: nat)
    | EpochEnd(index: nat, expected: bool)

  function CheckEntry(entries: seq<ManifestEntry>, i: nat): Option<ManifestError>
    requires i < |entries|
  {
    var entry, previous := entries[i], Before(entries, i);
    var expected := if previous.None? then 0 else previous.value.endHeight + 1;
    if expected > U32_MAX || expected != entry.startHeight then Some(StartsAt(i, entry.startHeight))
    else if entry.startHeight + (RANGE_SIZE - 1) > U32_MAX || entry.startHeight + (RANGE_SIZE - 1) != entry.endHeight
    then Some(RangeLength(i))
    else if previous.None? then None
    else if !entry.endTreeSizes.Follows(previous.value.endTreeSizes) then Some(TreeSizesFall(i))
    else if !entry.frontiers.Follows(previous.value.frontiers) then Some(PoolInactive(i))
    else None
  }

  /** The first error of the entries from `i` on. */
  function CheckFrom(entries: seq<ManifestEntry>, i: nat): Option<ManifestError>
    requires i <= |entries|
    decreases |entries| - i
  {
    if i == |entries| then None
    else
      match CheckEntry(entries, i)
      case Some(e) => Some(e)
      case None => CheckFrom(entries, i + 1)
  }

  /** `check_entries`. */
  function CheckEntries(entries: seq<ManifestEntry>): Option<ManifestError> {
    if entries == [] then Some(Empty)
    else
      match CheckFrom(entries, 0)
      case Some(e) => Some(e)
      case None =>
        match CheckEpochEnds(entries, Flags(EpochsFrom(entries, 0)), 0)
        case None => None
        case Some((i, expected)) => Some(EpochEnd(i, expected))
  }

  // What the check accepts.

  /** Entry `i` covers the heights of range `i`. */
  ghost predicate Covers(entry: ManifestEntry, i: nat) {
    entry.startHeight == 1_000 * i && entry.endHeight == 1_000 * i + 999
  }

  ghost predicate SizesRise(before: TreeSizes, after: TreeSizes) {
    before.sapling <= after.sapling && before.orchard <= after.orchard && before.ironwood <= after.ironwood
  }

  ghost predicate StaysActive(before: Frontiers, after: Frontiers) {
    && (before.sapling != [] ==> after.sapling != []) && (before.orchard != [] ==> after.orchard != [])
    && (before.ironwood != [] ==> after.ironwood != [])
  }

  /** Entry `i` covers its range, and behind the first one no tree shrinks and no pool becomes inactive. */
  ghost predicate Fits(entries: seq<ManifestEntry>, i: nat)
    requires i < |entries|
  {
    && Covers(entries[i], i)
    && (i > 0 ==>
          && SizesRise(entries[i - 1].endTreeSizes, entries[i].endTreeSizes)
          && StaysActive(entries[i - 1].frontiers, entries[i].frontiers))
  }

  lemma EntryMeans(entries: seq<ManifestEntry>, i: nat)
    requires i < |entries| && (i > 0 ==> Covers(entries[i - 1], i - 1))
    ensures CheckEntry(entries, i)
            == if entries[i].startHeight != 1_000 * i then Some(StartsAt(i, entries[i].startHeight))
               else if entries[i].endHeight != 1_000 * i + 999 then Some(RangeLength(i))
               else if i > 0 && !SizesRise(entries[i - 1].endTreeSizes, entries[i].endTreeSizes)
               then Some(TreeSizesFall(i))
               else if i > 0 && !StaysActive(entries[i - 1].frontiers, entries[i].frontiers) then Some(PoolInactive(i))
               else None
  {
  }

  lemma {:induction false} ChecksMean(entries: seq<ManifestEntry>, i: nat)
    requires i <= |entries| && (i > 0 ==> Covers(entries[i - 1], i - 1))
    ensures CheckFrom(entries, i).None? <==> forall k | i <= k < |entries| :: Fits(entries, k)
    decreases |entries| - i
  {
    hide CheckEntry, SizesRise, StaysActive;
    if i < |entries| {
      EntryMeans(entries, i);
      assert CheckEntry(entries, i).None? <==> Fits(entries, i);
      if CheckEntry(entries, i).None? {
        ChecksMean(entries, i + 1);
      }
    }
  }

  lemma OneFitsIsOk(entries: seq<ManifestEntry>, i: nat)
    requires i < |entries| && (i > 0 ==> Covers(entries[i - 1], i - 1))
    ensures Fits(entries, i) <==> EntryOk(Before(entries, i), entries[i])
  {
  }

  /** The rules of a manifest as the other modules use them. */
  lemma FitsIsOk(entries: seq<ManifestEntry>)
    ensures EntriesOk(entries) <==> forall i | 0 <= i < |entries| :: Fits(entries, i)
  {
    hide SizesRise, StaysActive, EntryOk;
    if EntriesOk(entries) {
      forall i | 0 <= i < |entries| ensures Fits(entries, i) {
        OkFits(entries, i);
      }
    }
    if forall i | 0 <= i < |entries| :: Fits(entries, i) {
      forall i {:trigger Before(entries, i)} | 0 <= i < |entries| ensures EntryOk(Before(entries, i), entries[i]) {
        assert Fits(entries, i) && (i > 0 ==> Fits(entries, i - 1));
        OneFitsIsOk(entries, i);
      }
    }
  }

  lemma {:induction false} OkFits(entries: seq<ManifestEntry>, i: nat)
    requires EntriesOk(entries) && i < |entries|
    ensures Fits(entries, i)
  {
    hide SizesRise, StaysActive, EntryOk;
    assert EntryOk(Before(entries, i), entries[i]);
    if i > 0 {
      OkFits(entries, i - 1);
    }
    OneFitsIsOk(entries, i);
  }

  /** A manifest is accepted exactly if it has an entry, every entry covers its range and follows the
      one before, and the flag is set exactly where an epoch ends. */
  lemma ManifestIsExact(entries: seq<ManifestEntry>)
    ensures CheckEntries(entries).None? <==>
            && entries != [] && (forall i | 0 <= i < |entries| :: Fits(entries, i))
            && forall i | 0 <= i < |entries| ::
                 entries[i].epochEnd == (RuleEnd(Totals(entries), i) || i + 1 == |entries|)
    ensures EntriesOk(entries) <==> forall i | 0 <= i < |entries| :: Fits(entries, i)
  {
    hide RuleEnd, Flags, EpochsFrom, CheckEpochEnds, CheckFrom, Fits;
    FitsIsOk(entries);
    if entries != [] {
      ChecksMean(entries, 0);
      CheckedFlags(entries);
    }
  }

  /** The error names the first entry that does not fit, and its first fault. */
  lemma FirstMisfitIsNamed(entries: seq<ManifestEntry>, k: nat)
    requires k < |entries| && !Fits(entries, k) && forall i | 0 <= i < k :: Fits(entries, i)
    ensures CheckEntries(entries)
            == Some(if entries[k].startHeight != 1_000 * k then StartsAt(k, entries[k].startHeight)
                    else if entries[k].endHeight != 1_000 * k + 999 then RangeLength(k)
                    else if !SizesRise(entries[k - 1].endTreeSizes, entries[k].endTreeSizes) then TreeSizesFall(k)
                    else PoolInactive(k))
  {
    hide CheckEntry, SizesRise, StaysActive, CheckFrom;
    assert k > 0 ==> Fits(entries, k - 1);
    EntryMeans(entries, k);
    FirstError(entries, 0, k);
  }

  lemma {:induction false} FirstError(entries: seq<ManifestEntry>, i: nat, k: nat)
    requires i <= k < |entries| && CheckEntry(entries, k).Some? && forall j | 0 <= j < k :: Fits(entries, j)
    ensures CheckFrom(entries, i) == CheckEntry(entries, k)
    decreases k - i
  {
    hide CheckEntry, SizesRise, StaysActive;
    if i < k {
      assert Fits(entries, i);
      assert i > 0 ==> Fits(entries, i - 1);
      EntryMeans(entries, i);
      FirstError(entries, i + 1, k);
    }
  }

  // The manifest of the rows of an index.

  /** The rows up to the first gap. */
  function ToGap(rows: seq<ManifestEntry>, next: Option<u32>): seq<ManifestEntry>
    decreases rows
  {
    if rows == [] || (next.Some? && next.value != rows[0].startHeight) then []
    else
      var behind := if rows[0].endHeight < U32_MAX then rows[0].endHeight + 1 else U32_MAX;
      [rows[0]] + ToGap(rows[1..], Some(behind))
  }

  /** The last entry closes its epoch. */
  function Marked(entries: seq<ManifestEntry>): seq<ManifestEntry> {
    if entries == [] then []
    else
      var n := |entries| - 1;
      entries[n := entries[n].(epochEnd := true)]
  }

  /** `from_entries_to_gap`. */
  function FromRows(rows: seq<ManifestEntry>): Result<seq<ManifestEntry>, ManifestError> {
    var entries := Marked(ToGap(rows, None));
    match CheckEntries(entries)
    case Some(e) => Failure(e)
    case None => Success(entries)
  }

  /** The rows are those of ranges 0 to `n`, with a flag exactly where the rule closes an epoch, and
      then there is a gap. */
  ghost predicate RowsUpTo(rows: seq<ManifestEntry>, n: nat) {
    && n <= |rows| && (forall i | 0 <= i < n :: Fits(rows, i))
    && (forall i | 0 <= i < n :: rows[i].epochEnd == RuleEnd(Totals(rows), i))
    && (n < |rows| ==> rows[n].startHeight != 1_000 * n)
  }

  lemma {:induction false} GapIs(rows: seq<ManifestEntry>, n: nat, i: nat, next: Option<u32>)
    requires RowsUpTo(rows, n) && i <= n && (i == n ==> n > 0)
    requires if i == 0 then next == None else next == Some(1_000 * i)
    ensures ToGap(rows[i..], next) == rows[i..n]
    decreases n - i
  {
    hide RuleEnd;
    if i < n {
      assert Fits(rows, i) && rows[i..][1..] == rows[i + 1..] && rows[i..n] == [rows[i]] + rows[i + 1..n];
      GapFits(rows, n, i);
      GapIs(rows, n, i + 1, Some(1_000 * (i + 1)));
    }
  }

  lemma GapFits(rows: seq<ManifestEntry>, n: nat, i: nat)
    requires RowsUpTo(rows, n) && i < n
    ensures rows[i].startHeight == 1_000 * i && rows[i].endHeight + 1 == 1_000 * (i + 1)
    ensures rows[i].endHeight < U32_MAX
  {
    hide RuleEnd;
    assert Fits(rows, i);
    RangesEnd(rows[i].endHeight, i);
  }

  /** No range ends at the last height. */
  lemma RangesEnd(height: u32, i: nat)
    requires height == 1_000 * i + 999
    ensures height < U32_MAX
  {
  }

  lemma {:induction false} TotalsOfPrefix(rows: seq<ManifestEntry>, n: nat)
    requires n <= |rows|
    ensures Totals(Marked(rows[..n])) == Totals(rows)[..n]
  {
    var marked := Marked(rows[..n]);
    forall i | 0 <= i < n ensures marked[i].endTreeSizes == rows[i].endTreeSizes {
    }
  }

  /** The rows of an index always give a manifest: that of the rows in front of the first gap. */
  lemma RowsGiveAManifest(rows: seq<ManifestEntry>, n: nat)
    requires RowsUpTo(rows, n) && n > 0
    ensures FromRows(rows) == Success(Marked(rows[..n]))
  {
    hide RuleEnd, CheckEntries, Totals;
    var entries := Marked(rows[..n]);
    assert rows[0..] == rows && rows[0..n] == rows[..n];
    GapIs(rows, n, 0, None);
    forall i | 0 <= i < n ensures Fits(entries, i) {
      assert Fits(rows, i);
      assert entries[i].startHeight == rows[i].startHeight && entries[i].endHeight == rows[i].endHeight;
      assert entries[i].endTreeSizes == rows[i].endTreeSizes && entries[i].frontiers == rows[i].frontiers;
      assert i > 0 ==> entries[i - 1].endTreeSizes == rows[i - 1].endTreeSizes
                       && entries[i - 1].frontiers == rows[i - 1].frontiers;
    }
    TotalsOfPrefix(rows, n);
    LengthOfTotals(rows);
    forall i | 0 <= i < n ensures entries[i].epochEnd == (RuleEnd(Totals(entries), i) || i + 1 == n) {
      StreamIsStable(Totals(entries), Totals(rows), i);
    }
    ManifestIsExact(entries);
  }

  lemma LengthOfTotals(rows: seq<ManifestEntry>)
    ensures |Totals(rows)| == |rows|
  {
  }
}
