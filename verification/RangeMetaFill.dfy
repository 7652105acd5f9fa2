/** The filler of `range_meta` rows: the epoch rule as a state machine that survives restarts. */
module RangeMetaFill {
  import opened Bytes
  import opened ChainTypes
  import opened Manifest
  import opened EpochRule
  import Epochs

  datatype Row = Row(epochEnd: bool, endTreeSizes: TreeSizes)

  /** The ranges and the start commitments of the open epoch. */
  datatype OpenEpoch = OpenEpoch(ranges: nat, startCommitments: nat) {
    predicate ClosesAt(endTreeSizes: TreeSizes) {
      RuleCloses(ranges + 1, SaturatingSub(endTreeSizes.Total(), startCommitments))
    }

    function Advance(epochEnd: bool, endTreeSizes: TreeSizes): OpenEpoch {
      if epochEnd then OpenEpoch(0, endTreeSizes.Total()) else OpenEpoch(ranges + 1, startCommitments)
    }
  }

  function TotalsOf(sizes: seq<TreeSizes>): seq<nat> {
    seq(|sizes|, i requires 0 <= i < |sizes| => sizes[i].Total())
  }

  /** The open epoch before range `i`, as the rule has it. */
  function OpenBefore(ts: seq<nat>, i: nat): OpenEpoch
    requires i <= |ts|
  {
    OpenEpoch(i - Start(ts, i), Base(ts, Start(ts, i)))
  }

  /** The state machine closes where the rule closes, and stays in step with it. */
  lemma AdvanceTracksRule(sizes: seq<TreeSizes>, i: nat)
    requires i < |sizes|
    ensures var ts := TotalsOf(sizes);
            && OpenBefore(ts, i).ClosesAt(sizes[i]) == RuleEnd(ts, i)
            && OpenBefore(ts, i).Advance(RuleEnd(ts, i), sizes[i]) == OpenBefore(ts, i + 1)
  {
    hide RuleCloses, TreeSizes.Total;
  }

  /** Every row there is carries the flag of the rule for its range. */
  ghost predicate Conformant(sizes: seq<TreeSizes>, rows: seq<Option<Row>>) {
    && |rows| == |sizes|
    && forall i | 0 <= i < |rows| :: rows[i].Some? ==> rows[i].value == Row(RuleEnd(TotalsOf(sizes), i), sizes[i])
  }

  /** The rows of the index, one slot per sealed range. */
  class RangeMetaRows {
    var rows: seq<Option<Row>>

    constructor (rows: seq<Option<Row>>)
      ensures this.rows == rows
    {
      this.rows := rows;
    }

    /** One pass over the slots. `sizes` are the tree sizes at the range ends, and `answered` says
        for which ranges the index and the node give what the row needs. */
    method FillMissing(sizes: seq<TreeSizes>, answered: nat -> bool) returns (done: bool)
      requires Conformant(sizes, rows)
      modifies this
      ensures Conformant(sizes, rows)
      ensures forall i | 0 <= i < |rows| ::
                rows[i] == if old(rows)[i].Some? || Reached(old(rows), answered, i)
                           then Some(Row(RuleEnd(TotalsOf(sizes), i), sizes[i])) else None
      ensures done <==> forall i | 0 <= i < |rows| :: rows[i].Some?
    {
      hide RuleEnd, Start;
      ghost var ts, before := TotalsOf(sizes), rows;
      var epoch := OpenEpoch(0, 0);
      StartsEmpty(ts);
      for i := 0 to |rows|
        invariant |rows| == |before| && epoch == OpenBefore(ts, i) && rows[i..] == before[i..]
        invariant forall k | 0 <= k < i :: rows[k] == Some(Row(RuleEnd(ts, k), sizes[k]))
        invariant forall k | 0 <= k < i :: before[k].Some? || answered(k)
      {
        AdvanceTracksRule(sizes, i);
        assert rows[i] == rows[i..][0] == before[i];
        if rows[i].Some? {
          epoch := epoch.Advance(rows[i].value.epochEnd, rows[i].value.endTreeSizes);
        } else {
          if !answered(i) {
            assert forall k | i <= k < |rows| :: rows[k] == rows[i..][k - i] == before[k];
            return false;
          }
          var row := Row(epoch.ClosesAt(sizes[i]), sizes[i]);
          rows := rows[i := Some(row)];
          epoch := epoch.Advance(row.epochEnd, row.endTreeSizes);
        }
        assert rows[i + 1..] == before[i..][1..] == before[i + 1..];
      }
      done := true;
    }
  }

  /** A pass gets to slot `i`: every missing row up to it has its answers. */
  ghost predicate Reached(rows: seq<Option<Row>>, answered: nat -> bool, i: nat)
    requires i < |rows|
  {
    forall k | 0 <= k <= i :: rows[k].Some? || answered(k)
  }

  lemma StartsEmpty(ts: seq<nat>)
    ensures OpenBefore(ts, 0) == OpenEpoch(0, 0)
  {
  }

  /** Sealing more ranges keeps the rows conformant, so the next pass, also after a restart,
      continues the same grouping. */
  lemma SealingKeepsRows(sizes: seq<TreeSizes>, more: seq<TreeSizes>, rows: seq<Option<Row>>)
    requires Conformant(sizes, rows)
    ensures Conformant(sizes + more, rows + seq(|more|, i => None))
  {
    hide RuleEnd;
    var ts, us := TotalsOf(sizes), TotalsOf(sizes + more);
    assert ts <= us;
    forall i | 0 <= i < |sizes| ensures RuleEnd(ts, i) == RuleEnd(us, i) {
      StreamIsStable(ts, us, i);
    }
  }

  // Rows, manifests and imports.

  function EntrySizes(entries: seq<ManifestEntry>): seq<TreeSizes> {
    seq(|entries|, i requires 0 <= i < |entries| => entries[i].endTreeSizes)
  }

  /** The entries of a manifest made of rows: the last one ends an epoch in any case. */
  function Exported(entries: seq<ManifestEntry>): seq<ManifestEntry> {
    if entries == [] then [] else entries[|entries| - 1 := entries[|entries| - 1].(epochEnd := true)]
  }

  /** Rows with the flags of the rule make a manifest with flags that pass its check. */
  lemma ExportedFlagsPass(entries: seq<ManifestEntry>)
    requires forall i | 0 <= i < |entries| :: entries[i].epochEnd == RuleEnd(Epochs.Totals(entries), i)
    ensures var out := Exported(entries); Epochs.CheckEpochEnds(out, Epochs.Flags(Epochs.EpochsFrom(out, 0)), 0).None?
  {
    hide RuleEnd, Epochs.Flags, Epochs.EpochsFrom, Epochs.CheckEpochEnds;
    var out := Exported(entries);
    assert Epochs.Totals(out) == Epochs.Totals(entries);
    Epochs.CheckedFlags(out);
  }

  /** The rows that an import of a manifest writes, one per entry behind `from`, in the epoch of the
      entry or in the imported part of it. */
  ghost predicate Imported(entries: seq<ManifestEntry>, from: nat, rows: seq<Option<Row>>) {
    && |rows| == |entries| && from <= |entries|
    && forall i | from <= i < |entries| :: ImportedAt(entries, from, i, rows[i])
  }

  ghost predicate ImportedAt(entries: seq<ManifestEntry>, from: nat, i: nat, row: Option<Row>)
    requires from <= i < |entries|
  {
    exists s: nat :: ImportedIn(entries, from, s, i, row)
  }

  /** The row of entry `i` in the epoch that starts at `s`, or in the part of it from `from` on. */
  ghost predicate ImportedIn(entries: seq<ManifestEntry>, from: nat, s: nat, i: nat, row: Option<Row>)
    requires from <= i < |entries|
  {
    && s in Starts(Epochs.Totals(entries), 0) && s <= i < |entries| && i < Epochs.EndOf(entries, s)
    && var first := if s < from then from else s;
       row == Some(Row(Epochs.ImportedFlag(Epochs.Part(entries, s, first), i - first), entries[i].endTreeSizes))
  }

  /** Imported rows are the rows that the filler would write. */
  lemma ImportedRowsConform(entries: seq<ManifestEntry>, from: nat, rows: seq<Option<Row>>)
    requires Epochs.CheckEpochEnds(entries, Epochs.Flags(Epochs.EpochsFrom(entries, 0)), 0).None?
    requires Imported(entries, from, rows)
    requires forall i | 0 <= i < from :: rows[i].Some? ==>
               rows[i].value == Row(RuleEnd(TotalsOf(EntrySizes(entries)), i), entries[i].endTreeSizes)
    ensures Conformant(EntrySizes(entries), rows)
  {
    hide RuleEnd, Epochs.CheckEpochEnds, Epochs.Flags, Epochs.EpochsFrom, Epochs.EndOf, Epochs.EpochAt,
      Epochs.ImportedFlag;
    assert TotalsOf(EntrySizes(entries)) == Epochs.Totals(entries);
    forall i | from <= i < |entries|
      ensures rows[i] == Some(Row(RuleEnd(Epochs.Totals(entries), i), entries[i].endTreeSizes))
    {
      assert ImportedAt(entries, from, i, rows[i]);
      ImportedRowConforms(entries, from, i, rows[i]);
    }
  }

  lemma ImportedRowConforms(entries: seq<ManifestEntry>, from: nat, i: nat, row: Option<Row>)
    requires Epochs.CheckEpochEnds(entries, Epochs.Flags(Epochs.EpochsFrom(entries, 0)), 0).None?
    requires from <= i < |entries| && ImportedAt(entries, from, i, row)
    ensures row == Some(Row(RuleEnd(Epochs.Totals(entries), i), entries[i].endTreeSizes))
  {
    hide RuleEnd, Epochs.CheckEpochEnds, Epochs.Flags, Epochs.EpochsFrom, Epochs.EpochAt, Epochs.ImportedFlag, Starts,
      Epochs.EndOf;
    var s: nat :| ImportedIn(entries, from, s, i, row);
    var first := if s < from then from else s;
    Epochs.ImportedFlagsAreRuleFlags(entries, s, first, i - first);
  }
}
