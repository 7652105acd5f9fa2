/** The import as steps: epochs take budget in order, finish in any order, and install in order. */
module ImportSchedule {
  import opened Bytes
  import opened Manifest
  import opened Epochs
  import Resume

  const MAX_BLOB_BYTES_BEFORE_INSTALL: nat := 0x8000_0000

  function BlobBytes(entries: seq<ManifestEntry>): nat {
    if entries == [] then 0 else entries[0].blobLen + BlobBytes(entries[1..])
  }

  /** The part of the budget that an epoch takes: its blobs, or all of it. */
  function BytesInBudget(e: Epoch): (bytes: nat)
    ensures bytes <= MAX_BLOB_BYTES_BEFORE_INSTALL <= U32_MAX
  {
    var all := BlobBytes(e.entries);
    if all <= MAX_BLOB_BYTES_BEFORE_INSTALL then all else MAX_BLOB_BYTES_BEFORE_INSTALL
  }

  /** The epochs to import, the epochs in work at a time, and which epochs fetch, verify, attest and
      sample as they should. */
  datatype Job = Job(epochs: seq<Epoch>, inWork: nat, sound: Epoch -> bool) {
    ghost predicate Valid() {
      inWork > 0 && forall e <- epochs :: e.entries != []
    }
  }

  datatype Work = Working | Verified | Failed

  datatype Outcome = Running | Finished(stopped: bool) | EpochError(at: nat) | InstallError(at: nat)

  /** Epochs below `next` are installed, and those below `acquired` have taken their budget. `ranges`
      is the number of installed ranges of epoch `next`, while it is being installed. */
  datatype State = State(
    next: nat,
    acquired: nat,
    work: map<nat, Work>,
    ranges: Option<nat>,
    installed: seq<ManifestEntry>,
    outcome: Outcome)

  const START := State(0, 0, map[], None, [], Running)

  // The budget in use, as a sum over the epochs.

  function Sum(f: nat -> nat, n: nat): nat {
    if n == 0 then 0 else Sum(f, n - 1) + f(n - 1)
  }

  lemma {:induction false} SumChanges(f: nat -> nat, g: nat -> nat, n: nat, at: nat)
    requires at < n && forall e: nat | e < n && e != at :: f(e) == g(e)
    ensures Sum(g, n) == Sum(f, n) - f(at) + g(at) && f(at) <= Sum(f, n)
  {
    if at == n - 1 {
      SumAgrees(f, g, n - 1);
    } else {
      SumChanges(f, g, n - 1, at);
    }
  }

  lemma {:induction false} SumAgrees(f: nat -> nat, g: nat -> nat, n: nat)
    requires forall e: nat | e < n :: f(e) == g(e)
    ensures Sum(g, n) == Sum(f, n)
  {
    if n > 0 {
      SumAgrees(f, g, n - 1);
    }
  }

  /** What epoch `e` holds: its bytes from its start to its install. A failed one gives them back. */
  function HeldAt(job: Job, s: State, e: nat): nat {
    if e < |job.epochs| && e in s.work && s.work[e] != Failed then BytesInBudget(job.epochs[e]) else 0
  }

  function Held(job: Job, s: State): nat {
    Sum(e => HeldAt(job, s, e), |job.epochs|)
  }

  // The steps.

  datatype Event =
    | Acquire
    | Finish(at: nat, ok: bool)
    | Take
    | InstallRange
    | Complete
    | ReportError
    | FailInstall
    | Exhaust
    | Stop

  ghost predicate Step(job: Job, s: State, event: Event, t: State) {
    && s.outcome.Running?
    && match event
       case Acquire =>
         && s.ranges.None? && s.acquired < |job.epochs| && s.acquired - s.next < job.inWork
         && Held(job, s) + BytesInBudget(job.epochs[s.acquired]) <= MAX_BLOB_BYTES_BEFORE_INSTALL
         && t == s.(acquired := s.acquired + 1, work := s.work[s.acquired := Working])
       case Finish(at, ok) =>
         && at in s.work && s.work[at] == Working && at < |job.epochs| && (ok ==> job.sound(job.epochs[at]))
         && t == s.(work := s.work[at := if ok then Verified else Failed])
       case Take => s.ranges.None? && s.next in s.work && s.work[s.next] == Verified && t == s.(ranges := Some(0))
       case InstallRange =>
         && s.ranges.Some? && s.next < |job.epochs| && s.ranges.value < |job.epochs[s.next].entries|
         && t == s.(ranges := Some(s.ranges.value + 1),
                    installed := s.installed + [job.epochs[s.next].entries[s.ranges.value]])
       case Complete =>
         && s.ranges.Some? && s.next < |job.epochs| && s.ranges.value == |job.epochs[s.next].entries|
         && t == s.(next := s.next + 1, work := s.work - {s.next}, ranges := None)
       case ReportError =>
         && s.ranges.None? && s.next in s.work && s.work[s.next] == Failed
         && t == s.(outcome := EpochError(s.next))
       case FailInstall => s.ranges.Some? && t == s.(outcome := InstallError(s.next))
       case Exhaust => s.ranges.None? && s.next == |job.epochs| && t == s.(outcome := Finished(s.next < |job.epochs|))
       case Stop => s.ranges.None? && t == s.(outcome := Finished(s.next < |job.epochs|))
  }

  // What holds in every state.

  /** The work is on the epochs from `next` to `acquired`, at most `inWork` of them. */
  ghost predicate Window(job: Job, s: State) {
    && s.next <= s.acquired <= |job.epochs| && s.acquired - s.next <= job.inWork
    && (forall e: nat :: e in s.work <==> s.next <= e < s.acquired)
  }

  /** Only sound epochs are installed or ready to be; the one being installed is ready. */
  ghost predicate Sound(job: Job, s: State)
    requires Window(job, s)
  {
    && (forall e: nat | e < s.next :: job.sound(job.epochs[e]))
    && (forall e <- s.work :: s.work[e] == Verified ==> job.sound(job.epochs[e]))
    && (s.ranges.Some? ==>
          s.next in s.work && s.work[s.next] == Verified && s.ranges.value <= |job.epochs[s.next].entries|)
  }

  /** The index holds exactly the installed epochs and the installed part of the next one. */
  ghost predicate Contiguous(job: Job, s: State)
    requires Window(job, s) && Sound(job, s)
  {
    s.installed
    == Joined(job.epochs[..s.next]) + if s.ranges.None? then [] else job.epochs[s.next].entries[..s.ranges.value]
  }

  ghost predicate OutcomeOk(job: Job, s: State) {
    match s.outcome
    case Running => true
    case Finished(stopped) => s.ranges.None? && (stopped <==> s.next < |job.epochs|)
    case EpochError(at) => s.ranges.None? && at == s.next && at in s.work && s.work[at] == Failed
    case InstallError(at) => s.ranges.Some? && at == s.next
  }

  ghost predicate Inv(job: Job, s: State) {
    && Window(job, s) && Sound(job, s) && Contiguous(job, s) && OutcomeOk(job, s)
    && Held(job, s) <= MAX_BLOB_BYTES_BEFORE_INSTALL
  }

  lemma StartIsOk(job: Job)
    ensures Inv(job, START)
  {
    Nothing(job, |job.epochs|);
    assert job.epochs[..0] == [] && [] + Joined([]) == [];
  }

  lemma {:induction false} Nothing(job: Job, n: nat)
    ensures Sum(e => HeldAt(job, START, e), n) == 0
  {
    if n > 0 {
      Nothing(job, n - 1);
    }
  }

  /** A step that changes the work on one epoch changes the budget by that epoch only. */
  lemma HeldChanges(job: Job, s: State, t: State, at: nat)
    requires at < |job.epochs|
    requires forall e: nat | e != at :: (e in s.work <==> e in t.work) && (e in s.work ==> s.work[e] == t.work[e])
    ensures Held(job, t) == Held(job, s) - HeldAt(job, s, at) + HeldAt(job, t, at)
  {
    SumChanges(e => HeldAt(job, s, e), e => HeldAt(job, t, e), |job.epochs|, at);
  }

  lemma StepKeepsBudget(job: Job, s: State, event: Event, t: State)
    requires Inv(job, s) && Step(job, s, event, t)
    ensures Held(job, t) <= MAX_BLOB_BYTES_BEFORE_INSTALL
  {
    hide Held, BytesInBudget, Joined, Contiguous, OutcomeOk;
    match event
    case Acquire => HeldChanges(job, s, t, s.acquired);
    case Finish(at, _) => HeldChanges(job, s, t, at);
    case Complete => HeldChanges(job, s, t, s.next);
    case _ => SameWork(job, s, t);
  }

  lemma SameWork(job: Job, s: State, t: State)
    requires s.work == t.work
    ensures Held(job, t) == Held(job, s)
  {
    SumAgrees(e => HeldAt(job, s, e), e => HeldAt(job, t, e), |job.epochs|);
  }

  lemma StepKeepsWork(job: Job, s: State, event: Event, t: State)
    requires Inv(job, s) && Step(job, s, event, t)
    ensures Window(job, t) && Sound(job, t) && OutcomeOk(job, t)
  {
    hide Held, BytesInBudget, Joined, Contiguous;
  }

  lemma StepKeepsIndex(job: Job, s: State, event: Event, t: State)
    requires Inv(job, s) && Step(job, s, event, t) && Window(job, t) && Sound(job, t)
    ensures Contiguous(job, t)
  {
    hide Held, BytesInBudget, Joined, OutcomeOk;
    var done := Joined(job.epochs[..s.next]);
    match event
    case Take => assert done + [] == done + job.epochs[s.next].entries[..0];
    case InstallRange =>
      var entries, k := job.epochs[s.next].entries, s.ranges.value;
      assert entries[..k + 1] == entries[..k] + [entries[k]];
    case Complete =>
      var e := job.epochs[s.next];
      assert e.entries[..|e.entries|] == e.entries;
      assert job.epochs[..s.next + 1] == job.epochs[..s.next] + [e];
      JoinedGrows(job.epochs[..s.next], e);
      assert done + e.entries + [] == done + e.entries;
    case _ =>
  }

  lemma {:induction false} JoinedGrows(epochs: seq<Epoch>, e: Epoch)
    ensures Joined(epochs + [e]) == Joined(epochs) + e.entries
  {
    if epochs == [] {
      assert Joined([e][1..]) == [] && [] + [e] == [e] && e.entries + [] == e.entries;
    } else {
      assert (epochs + [e])[1..] == epochs[1..] + [e];
      JoinedGrows(epochs[1..], e);
    }
  }

  lemma StepKeepsInv(job: Job, s: State, event: Event, t: State)
    requires Inv(job, s) && Step(job, s, event, t)
    ensures Inv(job, t)
  {
    hide Step, Window, Sound, Contiguous, OutcomeOk, Held;
    StepKeepsWork(job, s, event, t);
    StepKeepsIndex(job, s, event, t);
    StepKeepsBudget(job, s, event, t);
  }

  ghost predicate Run(job: Job, states: seq<State>, events: seq<Event>) {
    && |states| == |events| + 1 && states[0] == START
    && forall i | 0 <= i < |events| :: Step(job, states[i], events[i], states[i + 1])
  }

  lemma {:induction false} ReachableIsOk(job: Job, states: seq<State>, events: seq<Event>, i: nat)
    requires Run(job, states, events) && i < |states|
    ensures Inv(job, states[i])
  {
    hide Step, Inv;
    if i == 0 {
      StartIsOk(job);
    } else {
      ReachableIsOk(job, states, events, i - 1);
      StepKeepsInv(job, states[i - 1], events[i - 1], states[i]);
    }
  }

  // The bytes in flight.

  /** The lengths of the blobs of `entries`, together. */
  ghost function Length(entries: seq<ManifestEntry>): nat {
    if entries == [] then 0 else Length(entries[..|entries| - 1]) + entries[|entries| - 1].blobLen
  }

  /** Epoch `e` has started, did not fail, and is not installed. */
  ghost predicate InFlight(job: Job, s: State, e: nat) {
    e < |job.epochs| && e in s.work && s.work[e] != Failed
  }

  ghost function LengthAt(job: Job, s: State, e: nat): nat {
    if InFlight(job, s, e) then Length(job.epochs[e].entries) else 0
  }

  /** The lengths of all blobs of the epochs in flight. */
  ghost function Flying(job: Job, s: State): nat {
    Sum(e => LengthAt(job, s, e), |job.epochs|)
  }

  /** All blobs in flight fit in 2 GiB, or a single epoch has all of them. */
  ghost predicate FewBytesFly(job: Job, s: State) {
    || Flying(job, s) <= 0x8000_0000
    || exists at: nat ::
         InFlight(job, s, at) && forall e: nat | InFlight(job, s, e) && e != at :: Length(job.epochs[e].entries) == 0
  }

  lemma {:induction false} BytesAreLength(entries: seq<ManifestEntry>)
    ensures BlobBytes(entries) == Length(entries)
  {
    if entries != [] {
      LengthSplits(entries);
      BytesAreLength(entries[1..]);
    }
  }

  lemma {:induction false} LengthSplits(entries: seq<ManifestEntry>)
    requires entries != []
    ensures Length(entries) == entries[0].blobLen + Length(entries[1..])
  {
    if |entries| == 1 {
      assert entries[..0] == [] && entries[1..] == [];
    } else {
      var init := entries[..|entries| - 1];
      LengthSplits(init);
      assert init[1..] == entries[1..][..|entries| - 2];
    }
  }

  lemma {:induction false} SumBounds(f: nat -> nat, g: nat -> nat, n: nat)
    requires forall e: nat | e < n :: f(e) <= g(e)
    ensures Sum(f, n) <= Sum(g, n)
  {
    if n > 0 {
      SumBounds(f, g, n - 1);
    }
  }

  lemma {:induction false} SumIsAtLeast(f: nat -> nat, n: nat, at: nat, other: nat)
    requires at < n && other < n && at != other
    ensures f(at) + f(other) <= Sum(f, n)
  {
    if at < n - 1 && other < n - 1 {
      SumIsAtLeast(f, n - 1, at, other);
    } else if at < n - 1 {
      PartOfSum(f, n - 1, at);
    } else {
      PartOfSum(f, n - 1, other);
    }
  }

  lemma {:induction false} PartOfSum(f: nat -> nat, n: nat, at: nat)
    requires at < n
    ensures f(at) <= Sum(f, n)
  {
    if at < n - 1 {
      PartOfSum(f, n - 1, at);
    }
  }

  /** The share of an epoch is the length of its blobs, up to the whole budget. */
  lemma ShareIsLength(job: Job, s: State, e: nat)
    ensures HeldAt(job, s, e) == if LengthAt(job, s, e) <= 0x8000_0000 then LengthAt(job, s, e) else 0x8000_0000
  {
    if e < |job.epochs| {
      BytesAreLength(job.epochs[e].entries);
    }
  }

  lemma BudgetMeans(job: Job, s: State)
    requires Held(job, s) <= MAX_BLOB_BYTES_BEFORE_INSTALL
    ensures FewBytesFly(job, s)
  {
    hide BytesInBudget, HeldAt, Length;
    var n := |job.epochs|;
    if forall e: nat | e < n :: LengthAt(job, s, e) <= 0x8000_0000 {
      forall e: nat | e < n ensures HeldAt(job, s, e) == LengthAt(job, s, e) {
        ShareIsLength(job, s, e);
      }
      SumAgrees(e => HeldAt(job, s, e), e => LengthAt(job, s, e), n);
    } else {
      var at: nat :| at < n && LengthAt(job, s, at) > 0x8000_0000;
      ShareIsLength(job, s, at);
      forall e: nat | InFlight(job, s, e) && e != at ensures Length(job.epochs[e].entries) == 0 {
        ShareIsLength(job, s, e);
        SumIsAtLeast(e => HeldAt(job, s, e), n, at, e);
      }
    }
  }

  /** The next epoch can start if the window has room, and its blobs fit beside those in flight. */
  lemma NextEpochCanStart(job: Job, states: seq<State>, events: seq<Event>, i: nat)
    requires Run(job, states, events) && i < |states|
    requires var s := states[i];
             && s.outcome.Running? && s.ranges.None? && s.acquired < |job.epochs| && s.acquired < s.next + job.inWork
             && Flying(job, s) + Length(job.epochs[s.acquired].entries) <= 0x8000_0000
    ensures var s := states[i];
            exists t :: Step(job, s, Acquire, t) && InFlight(job, t, s.acquired) && t.installed == s.installed
  {
    hide Run, Held, Length, BytesInBudget;
    var s := states[i];
    ReachableIsOk(job, states, events, i);
    HeldIsFlying(job, s);
    ShareFits(job.epochs[s.acquired]);
    assert Step(job, s, Acquire, s.(acquired := s.acquired + 1, work := s.work[s.acquired := Working]));
  }

  lemma ShareFits(e: Epoch)
    ensures BytesInBudget(e) <= Length(e.entries)
  {
    BytesAreLength(e.entries);
  }

  lemma HeldIsFlying(job: Job, s: State)
    ensures Held(job, s) <= Flying(job, s)
  {
    hide HeldAt, LengthAt;
    forall e: nat ensures HeldAt(job, s, e) <= LengthAt(job, s, e) {
      ShareIsLength(job, s, e);
    }
    SumBounds(e => HeldAt(job, s, e), e => LengthAt(job, s, e), |job.epochs|);
  }

  // Safety.

  /** In every reachable state: the index has a prefix of the ranges to import, all of sound epochs;
      the blobs in flight fit in the budget, or a single epoch has them all; an epoch error comes
      behind the install of every lower epoch; and a finished import is stopped exactly if an epoch is
      missing. */
  lemma ImportIsSafe(job: Job, states: seq<State>, events: seq<Event>, i: nat)
    requires Run(job, states, events) && i < |states|
    ensures var s := states[i];
            && s.next <= |job.epochs| && Joined(job.epochs[..s.next]) <= s.installed <= Joined(job.epochs)
            && (forall e: nat | e < s.next :: job.sound(job.epochs[e]))
            && (s.installed != Joined(job.epochs[..s.next]) ==> s.next < |job.epochs| && job.sound(job.epochs[s.next]))
            && FewBytesFly(job, s)
            && (s.outcome.EpochError? ==> s.outcome.at == s.next && s.installed == Joined(job.epochs[..s.outcome.at]))
            && (s.outcome.Finished? ==>
                  (s.outcome.stopped <==> s.installed != Joined(job.epochs) || s.next < |job.epochs|))
            && (s.outcome == Finished(false) ==> s.installed == Joined(job.epochs))
  {
    hide Step, Run, Held, Joined, FewBytesFly;
    ReachableIsOk(job, states, events, i);
    var s := states[i];
    BudgetMeans(job, s);
    var done := Joined(job.epochs[..s.next]);
    assert done + [] == done;
    assert job.epochs == job.epochs[..s.next] + job.epochs[s.next..];
    if s.ranges.Some? {
      PrefixJoins(job.epochs, s.next, s.ranges.value);
    } else if s.next < |job.epochs| {
      PrefixJoins(job.epochs, s.next, 0);
    } else {
      assert job.epochs[..s.next] == job.epochs;
    }
  }

  /** An import that resumes at a sealed tip and is not stopped ends with every entry of the manifest
      behind the tip in the index, in order. */
  lemma FinishedImportIsWhole(entries: seq<ManifestEntry>, height: u32, job: Job, states: seq<State>,
                              events: seq<Event>, i: nat)
    requires EntriesOk(entries) && entries != [] && height < entries[|entries| - 1].endHeight
    requires Resume.Choose(entries, Some(height)).From? && RangesThrough(height).Some?
             && RangesThrough(height).value < |entries|
    requires Some(job.epochs)
             == Resume.ImportedFrom(Resume.PlanAfter(entries, height, RangesThrough(height).value),
                                    Resume.Choose(entries, Some(height)).first)
    requires Run(job, states, events) && i < |states| && states[i].outcome == Finished(false)
    ensures states[i].installed == entries[RangesThrough(height).value..]
  {
    hide EntriesOk, Resume.Choose, Resume.ImportedFrom, Resume.PlanAfter, Run, Joined, RangesThrough;
    Resume.ResumeCoversTheRest(entries, height);
    ImportIsSafe(job, states, events, i);
  }

  lemma {:induction false} PrefixJoins(epochs: seq<Epoch>, n: nat, k: nat)
    requires n < |epochs| && k <= |epochs[n].entries|
    ensures Joined(epochs[..n]) + epochs[n].entries[..k] <= Joined(epochs)
  {
    if n == 0 {
      assert epochs[..0] == [];
    } else {
      PrefixJoins(epochs[1..], n - 1, k);
      assert epochs[1..][..n - 1] == epochs[..n][1..];
    }
  }

  // Progress.

  /** The lowest epoch that is not installed is never blocked by higher ones: if it has not started
      it can start, unless it is still in work it can go on, and with no epoch left the import ends. */
  lemma HeadIsNeverBlocked(job: Job, states: seq<State>, events: seq<Event>, i: nat)
    requires job.Valid() && Run(job, states, events) && i < |states| && states[i].outcome.Running?
    ensures var s := states[i];
            || (s.next in s.work && s.work[s.next] == Working)
            || exists event, t :: Step(job, s, event, t) && !event.Stop? && !event.FailInstall? && !event.Finish?
                                  && (event.Acquire? ==> s.acquired == s.next)
  {
    hide Run, Held, Joined, Contiguous, OutcomeOk;
    ReachableIsOk(job, states, events, i);
    var s := states[i];
    if s.ranges.Some? {
      if s.ranges.value < |job.epochs[s.next].entries| {
        var t := s.(ranges := Some(s.ranges.value + 1),
                    installed := s.installed + [job.epochs[s.next].entries[s.ranges.value]]);
        assert Step(job, s, InstallRange, t);
      } else {
        assert Step(job, s, Complete, s.(next := s.next + 1, work := s.work - {s.next}, ranges := None));
      }
    } else if s.next == |job.epochs| {
      assert Step(job, s, Exhaust, s.(outcome := Finished(false)));
    } else if s.next == s.acquired {
      NoWorkHoldsNothing(job, s);
      assert Step(job, s, Acquire, s.(acquired := s.acquired + 1, work := s.work[s.acquired := Working]));
    } else if s.work[s.next] == Verified {
      assert Step(job, s, Take, s.(ranges := Some(0)));
    } else if s.work[s.next] == Failed {
      assert Step(job, s, ReportError, s.(outcome := EpochError(s.next)));
    }
  }

  lemma NoWorkHoldsNothing(job: Job, s: State)
    requires Window(job, s) && s.next == s.acquired
    ensures Held(job, s) == 0
  {
    Nothing(job, |job.epochs|);
    SumAgrees(e => HeldAt(job, START, e), e => HeldAt(job, s, e), |job.epochs|);
  }

  // Every run ends.

  /** The steps that epoch `e` can still take. */
  function LeftAt(job: Job, s: State, e: nat): nat {
    if e >= |job.epochs| || e < s.next then 0
    else
      var len := |job.epochs[e].entries|;
      if e >= s.acquired then len + 4
      else if e in s.work && s.work[e] == Working then len + 3
      else if e == s.next && s.ranges.Some? then (if s.ranges.value <= len then len - s.ranges.value else 0) + 1
      else len + 2
  }

  function Left(job: Job, s: State): nat {
    Sum(e => LeftAt(job, s, e), |job.epochs|) + if s.outcome.Running? then 1 else 0
  }

  lemma LeftChanges(job: Job, s: State, t: State, at: nat)
    requires at < |job.epochs| && LeftAt(job, t, at) < LeftAt(job, s, at) && s.outcome == t.outcome
    requires forall e: nat | e != at :: LeftAt(job, s, e) == LeftAt(job, t, e)
    ensures Left(job, t) < Left(job, s)
  {
    SumChanges(e => LeftAt(job, s, e), e => LeftAt(job, t, e), |job.epochs|, at);
  }

  /** Every step uses one up, so a run has at most as many steps as it had left at the start. */
  lemma StepUsesOne(job: Job, s: State, event: Event, t: State)
    requires Inv(job, s) && Step(job, s, event, t)
    ensures Left(job, t) < Left(job, s)
  {
    hide Held, BytesInBudget, Joined, Contiguous, OutcomeOk, Left;
    match event
    case Acquire => LeftChanges(job, s, t, s.acquired);
    case Finish(at, _) => LeftChanges(job, s, t, at);
    case Take => LeftChanges(job, s, t, s.next);
    case InstallRange => LeftChanges(job, s, t, s.next);
    case Complete => LeftChanges(job, s, t, s.next);
    case _ => EndUsesOne(job, s, t);
  }

  lemma EndUsesOne(job: Job, s: State, t: State)
    requires s.outcome.Running? && !t.outcome.Running? && t == s.(outcome := t.outcome)
    ensures Left(job, t) < Left(job, s)
  {
    SumAgrees(e => LeftAt(job, s, e), e => LeftAt(job, t, e), |job.epochs|);
  }

  lemma {:induction false} RunsAreBounded(job: Job, states: seq<State>, events: seq<Event>)
    requires Run(job, states, events)
    ensures |events| + Left(job, states[|events|]) <= Left(job, START)
  {
    hide Step, Left, Inv;
    if events != [] {
      var n := |events| - 1;
      RunsAreBounded(job, states[..n + 1], events[..n]);
      ReachableIsOk(job, states, events, n);
      StepUsesOne(job, states[n], events[n], states[n + 1]);
    }
  }
}
