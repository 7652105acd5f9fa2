/** The rule that closes an epoch, on the total tree sizes at the range ends. */
module EpochRule {
  import opened Bytes

  const MAX_RANGES: nat := 10
  const MAX_COMMITMENTS: nat := 1_000_000

  predicate RuleCloses(ranges: nat, commitments: nat) {
    ranges >= MAX_RANGES || commitments >= MAX_COMMITMENTS
  }

  /** The commitments before an epoch that starts at range `s`. */
  function Base(ts: seq<nat>, s: nat): nat
    requires s <= |ts|
  {
    if s == 0 then 0 else ts[s - 1]
  }

  /** The rule closes the epoch that started at range `s` at range `i`. */
  predicate Closes(ts: seq<nat>, s: nat, i: nat)
    requires s <= i < |ts|
  {
    RuleCloses(i - s + 1, SaturatingSub(ts[i], Base(ts, s)))
  }

  // In batch: one epoch is the ranges up to the first that closes it.

  /** The end of the epoch that started at `s`, if none of its ranges before `i` closes it. */
  function Scan(ts: seq<nat>, s: nat, i: nat): nat
    requires s <= i <= |ts|
    decreases |ts| - i
  {
    if i == |ts| then i else if Closes(ts, s, i) then i + 1 else Scan(ts, s, i + 1)
  }

  lemma {:induction false} ScanStopsFirst(ts: seq<nat>, s: nat, i: nat)
    requires s <= i <= |ts|
    ensures i <= Scan(ts, s, i) <= |ts| && (i < |ts| ==> i < Scan(ts, s, i))
    ensures forall k | i <= k < Scan(ts, s, i) - 1 :: !Closes(ts, s, k)
    ensures i < Scan(ts, s, i) < |ts| ==> Closes(ts, s, Scan(ts, s, i) - 1)
    decreases |ts| - i
  {
    if i < |ts| && !Closes(ts, s, i) {
      ScanStopsFirst(ts, s, i + 1);
    }
  }

  /** The end of the epoch that starts at range `s`. */
  function End(ts: seq<nat>, s: nat): (end: nat)
    requires s < |ts|
    ensures s < end <= |ts|
  {
    ScanStopsFirst(ts, s, s);
    Scan(ts, s, s)
  }

  lemma EndIsFirst(ts: seq<nat>, s: nat)
    requires s < |ts|
    ensures forall i | s <= i < End(ts, s) - 1 :: !Closes(ts, s, i)
    ensures End(ts, s) < |ts| ==> Closes(ts, s, End(ts, s) - 1)
  {
    ScanStopsFirst(ts, s, s);
  }

  /** The tenth range closes any epoch. */
  lemma EpochIsShort(ts: seq<nat>, s: nat)
    requires s < |ts|
    ensures End(ts, s) - s <= MAX_RANGES
  {
    EndIsFirst(ts, s);
    if s + MAX_RANGES - 1 < End(ts, s) - 1 {
      assert Closes(ts, s, s + MAX_RANGES - 1);
    }
  }

  /** There is one first range that closes the epoch. */
  lemma {:induction false} EndIsUnique(ts: seq<nat>, s: nat, i: nat, end: nat)
    requires s <= i < end <= |ts| && (forall k | i <= k < end - 1 :: !Closes(ts, s, k))
    requires end < |ts| ==> Closes(ts, s, end - 1)
    ensures Scan(ts, s, i) == end
    decreases end - i
  {
    if i < end - 1 {
      EndIsUnique(ts, s, i + 1, end);
    } else if !Closes(ts, s, i) {
      assert Scan(ts, s, i + 1) == |ts|;
    }
  }

  /** The starts of the epochs from `s` on. */
  function Starts(ts: seq<nat>, s: nat): seq<nat>
    requires s <= |ts|
    decreases |ts| - s
  {
    if s == |ts| then [] else [s] + Starts(ts, End(ts, s))
  }

  // As a stream: the state after a range depends on the ranges so far only.

  /** Where the epoch of range `i` starts. For `i == |ts|`, the epoch of the range to come. */
  function Start(ts: seq<nat>, i: nat): (s: nat)
    requires i <= |ts|
    ensures s <= i
  {
    if i == 0 then 0
    else if Closes(ts, Start(ts, i - 1), i - 1) then i
    else Start(ts, i - 1)
  }

  /** The rule closes an epoch at range `i`. */
  predicate RuleEnd(ts: seq<nat>, i: nat)
    requires i < |ts|
  {
    Closes(ts, Start(ts, i), i)
  }

  /** A longer chain changes nothing below. */
  lemma {:induction false} StreamIsStable(ts: seq<nat>, us: seq<nat>, i: nat)
    requires ts <= us && i <= |ts|
    ensures Start(ts, i) == Start(us, i)
    ensures i < |ts| ==> RuleEnd(ts, i) == RuleEnd(us, i)
  {
    if i > 0 {
      StreamIsStable(ts, us, i - 1);
    }
  }

  // Both agree.

  /** Inside an epoch of the batch the stream stays in that epoch. */
  lemma {:induction false} StreamStaysInside(ts: seq<nat>, s: nat, i: nat)
    requires s < |ts| && Start(ts, s) == s && s <= i < End(ts, s)
    ensures Start(ts, i) == s
    ensures RuleEnd(ts, i) <==> i + 1 == End(ts, s) && Closes(ts, s, i)
    decreases i
  {
    EndIsFirst(ts, s);
    if i > s {
      StreamStaysInside(ts, s, i - 1);
    }
  }

  /** An epoch of the batch that does not end the chain ends where the stream starts a new one. */
  lemma EpochsMeet(ts: seq<nat>, s: nat)
    requires s < |ts| && Start(ts, s) == s
    ensures End(ts, s) < |ts| ==> Start(ts, End(ts, s)) == End(ts, s)
  {
    EndIsFirst(ts, s);
    StreamStaysInside(ts, s, End(ts, s) - 1);
  }

  /** Entry `i` starts an epoch of the batch exactly if it starts one of the stream. */
  lemma {:induction false} StartsAreStreamStarts(ts: seq<nat>, s: nat, i: nat)
    requires s <= i < |ts| && Start(ts, s) == s
    ensures i in Starts(ts, s) <==> Start(ts, i) == i
    decreases |ts| - s
  {
    if i < End(ts, s) {
      StreamStaysInside(ts, s, i);
      StartsRise(ts, End(ts, s));
    } else {
      EpochsMeet(ts, s);
      StartsAreStreamStarts(ts, End(ts, s), i);
    }
  }

  lemma {:induction false} StartsRise(ts: seq<nat>, s: nat)
    requires s <= |ts|
    ensures forall x <- Starts(ts, s) :: s <= x < |ts|
    decreases |ts| - s
  {
    if s < |ts| {
      StartsRise(ts, End(ts, s));
    }
  }

  /** A longer chain keeps every epoch that the rule closed. */
  lemma {:induction false} ClosedEpochsStay(ts: seq<nat>, us: seq<nat>, s: nat)
    requires ts <= us && s < |ts| && Closes(ts, s, End(ts, s) - 1)
    ensures End(us, s) == End(ts, s) && Closes(us, s, End(us, s) - 1)
  {
    ScanAgrees(ts, us, s, s);
  }

  lemma {:induction false} ScanAgrees(ts: seq<nat>, us: seq<nat>, s: nat, i: nat)
    requires ts <= us && s <= i < |ts|
    requires i < Scan(ts, s, i) <= |ts| && Closes(ts, s, Scan(ts, s, i) - 1)
    ensures Scan(us, s, i) == Scan(ts, s, i)
    decreases |ts| - i
  {
    if !Closes(ts, s, i) {
      ScanStopsFirst(ts, s, i + 1);
      ScanAgrees(ts, us, s, i + 1);
    }
  }
}
