/** Fetching one blob over transfers that may break: every resume starts where the last one stopped. */
module Fetch {
  import opened Bytes
  import opened Manifest

  const RESUME_PROGRESS_BYTES: nat := 0x10_0000
  const MAX_RESUMES_WITHOUT_PROGRESS: nat := 5

  /** An error of a request or a stream. Only a transfer error can go away with a new request. */
  datatype Error = Error(transfer: bool, code: nat)

  /** What a request gives: chunks, then the end of the stream or an error in it. */
  datatype Response = Refused(error: Error) | Stream(chunks: seq<seq<byte>>, broke: Option<Error>)

  /** The source: the answer to request number `k` for the bytes from an offset on. */
  type Source = (nat, nat) -> Response

  // One transfer.

  datatype Transferred = Transferred(blob: seq<byte>, error: Option<Error>)

  /** Reads chunks while the buffer has no more than `n` bytes. */
  function Pour(n: nat, blob: seq<byte>, chunks: seq<seq<byte>>, broke: Option<Error>): Transferred
    decreases chunks
  {
    if |blob| > n then Transferred(blob, None)
    else if chunks == [] then Transferred(blob, broke)
    else Pour(n, blob + chunks[0], chunks[1..], broke)
  }

  function Transfer(source: Source, k: nat, n: nat, blob: seq<byte>): Transferred {
    match source(k, |blob|)
    case Refused(e) => Transferred(blob, Some(e))
    case Stream(chunks, broke) => Pour(n, blob, chunks, broke)
  }

  method RunTransfer(source: Source, k: nat, n: nat, blob: seq<byte>) returns (t: Transferred)
    ensures t == Transfer(source, k, n, blob)
  {
    var response := source(k, |blob|);
    if response.Refused? {
      return Transferred(blob, Some(response.error));
    }
    var buffer, i := blob, 0;
    while |buffer| <= n
      invariant i <= |response.chunks|
      invariant Transfer(source, k, n, blob) == Pour(n, buffer, response.chunks[i..], response.broke)
      decreases |response.chunks| - i
    {
      if i == |response.chunks| {
        return Transferred(buffer, response.broke);
      }
      assert response.chunks[i..][1..] == response.chunks[i + 1..];
      buffer, i := buffer + response.chunks[i], i + 1;
    }
    t := Transferred(buffer, None);
  }

  // When to resume.

  datatype Resume = Now | After(seconds: nat) | Stop

  function Pow2(n: nat): (p: nat)
    ensures p >= 1
  {
    if n == 0 then 1 else 2 * Pow2(n - 1)
  }

  /** How many of the transfers that received `history` bytes stalled since the last with progress. */
  function Stalls(history: seq<nat>): nat {
    if history == [] || history[|history| - 1] >= RESUME_PROGRESS_BYTES then 0 else Stalls(history[..|history| - 1]) + 1
  }

  /** What the resume rule promises for the last of these transfers: progress resumes at once, and
      stall number `k` in a row waits `2^(k - 1)` seconds, up to the fifth. */
  function Promised(history: seq<nat>): Resume {
    var k := Stalls(history);
    if k == 0 then Now else if k <= MAX_RESUMES_WITHOUT_PROGRESS then After(Pow2(k - 1)) else Stop
  }

  /** The counter behind the resume rule. */
  class StalledResumes {
    var count: nat
    /** What every failed transfer received. */
    ghost var history: seq<nat>

    ghost predicate Valid()
      reads this
    {
      count == if Stalls(history) <= MAX_RESUMES_WITHOUT_PROGRESS then Stalls(history) else MAX_RESUMES_WITHOUT_PROGRESS
    }

    constructor ()
      ensures Valid() && count == 0 && history == []
    {
      count, history := 0, [];
    }

    method AfterTransfer(received: nat) returns (resume: Resume)
      requires Valid()
      modifies this
      ensures Valid() && history == old(history) + [received] && resume == Promised(history)
    {
      history := history + [received];
      assert history[..|history| - 1] == old(history);
      if received >= RESUME_PROGRESS_BYTES {
        count := 0;
        return Now;
      }
      if count == MAX_RESUMES_WITHOUT_PROGRESS {
        return Stop;
      }
      count := count + 1;
      resume := After(Pow2(count - 1));
    }
  }

  lemma StallsGrow(history: seq<nat>, received: nat)
    ensures Stalls(history + [received]) == if received >= RESUME_PROGRESS_BYTES then 0 else Stalls(history) + 1
  {
    assert (history + [received])[..|history|] == history;
  }

  // The whole fetch.

  datatype Outcome = Got(blob: seq<byte>) | Failed(error: Error) | Mismatched(mismatch: BlobMismatch)

  /** One request: the offset that it asks from, the buffer behind its transfer, and the seconds that
      the fetch waits then. */
  datatype Attempt = Attempt(offset: nat, buffer: seq<byte>, wait: nat)

  datatype Fetched = Fetched(outcome: Outcome, attempts: seq<Attempt>)

  function Checked(digest: seq<byte> -> Digest, entry: ManifestEntry, blob: seq<byte>): Outcome {
    match CheckBlob(digest, entry, blob)
    case Some(mismatch) => Mismatched(mismatch)
    case None => Got(blob)
  }

  lemma {:induction false} PourAppends(n: nat, blob: seq<byte>, chunks: seq<seq<byte>>, broke: Option<Error>)
    ensures blob <= Pour(n, blob, chunks, broke).blob
    decreases chunks
  {
    if |blob| <= n && chunks != [] {
      PourAppends(n, blob + chunks[0], chunks[1..], broke);
    }
  }

  lemma TransferAppends(source: Source, k: nat, n: nat, blob: seq<byte>)
    ensures blob <= Transfer(source, k, n, blob).blob
  {
    var response := source(k, |blob|);
    if response.Stream? {
      PourAppends(n, blob, response.chunks, response.broke);
    }
  }

  /** What request number `|history|` leaves open: `None` if the fetch ends with it, else the history
      with what it received. */
  function Resumed(t: Transferred, n: nat, blob: seq<byte>, history: seq<nat>): Option<seq<nat>>
    requires blob <= t.blob
  {
    var next := history + [|t.blob| - |blob|];
    if t.error.None? || |t.blob| >= n || !t.error.value.transfer || Promised(next).Stop? then None else Some(next)
  }

  /** The outcome of a fetch that ends with the transfer `t`. */
  function Ended(t: Transferred, digest: seq<byte> -> Digest, entry: ManifestEntry): Outcome {
    if t.error.None? || |t.blob| >= entry.blobLen then Checked(digest, entry, t.blob) else Failed(t.error.value)
  }

  function Wait(resume: Resume): nat {
    if resume.After? then resume.seconds else 0
  }

  /** The fetch behind the failed transfers of `history`, with `blob` received. */
  function FetchFrom(source: Source, digest: seq<byte> -> Digest, entry: ManifestEntry, blob: seq<byte>,
                     history: seq<nat>): Fetched
    requires Stalls(history) <= MAX_RESUMES_WITHOUT_PROGRESS
    decreases SaturatingSub(entry.blobLen, |blob|), MAX_RESUMES_WITHOUT_PROGRESS - Stalls(history)
  {
    var t := Transfer(source, |history|, entry.blobLen, blob);
    TransferAppends(source, |history|, entry.blobLen, blob);
    match Resumed(t, entry.blobLen, blob, history)
    case None =>
      Fetched(Ended(t, digest, entry), [Attempt(|blob|, t.blob, 0)])
    case Some(next) =>
      StallsGrow(history, |t.blob| - |blob|);
      var rest := FetchFrom(source, digest, entry, t.blob, next);
      Fetched(rest.outcome, [Attempt(|blob|, t.blob, Wait(Promised(next)))] + rest.attempts)
  }

  /** The fetch of a whole blob. */
  function FetchBlob(source: Source, digest: seq<byte> -> Digest, entry: ManifestEntry): Fetched {
    FetchFrom(source, digest, entry, [], [])
  }

  /** The rest of the fetch behind the attempts so far. */
  ghost function Finally(source: Source, digest: seq<byte> -> Digest, entry: ManifestEntry, blob: seq<byte>,
                         history: seq<nat>, attempts: seq<Attempt>): Fetched
    requires Stalls(history) <= MAX_RESUMES_WITHOUT_PROGRESS
  {
    var rest := FetchFrom(source, digest, entry, blob, history);
    Fetched(rest.outcome, attempts + rest.attempts)
  }

  lemma OneMoreRequest(source: Source, digest: seq<byte> -> Digest, entry: ManifestEntry, blob: seq<byte>,
                       history: seq<nat>, attempts: seq<Attempt>)
    requires Stalls(history) <= MAX_RESUMES_WITHOUT_PROGRESS
    ensures var t, n := Transfer(source, |history|, entry.blobLen, blob), entry.blobLen;
            && blob <= t.blob
            && var open, all := Resumed(t, n, blob, history), Finally(source, digest, entry, blob, history, attempts);
               if open.None? then
                 all == Fetched(Ended(t, digest, entry), attempts + [Attempt(|blob|, t.blob, 0)])
               else
                 && Stalls(open.value) <= MAX_RESUMES_WITHOUT_PROGRESS
                 && all == Finally(source, digest, entry, t.blob, open.value,
                                   attempts + [Attempt(|blob|, t.blob, Wait(Promised(open.value)))])
  {
    hide Transfer, Checked, Pow2, Stalls;
    var t, n := Transfer(source, |history|, entry.blobLen, blob), entry.blobLen;
    TransferAppends(source, |history|, n, blob);
    var open := Resumed(t, n, blob, history);
    if open.Some? {
      var one := Attempt(|blob|, t.blob, Wait(Promised(open.value)));
      var rest := FetchFrom(source, digest, entry, t.blob, open.value).attempts;
      assert attempts + ([one] + rest) == attempts + [one] + rest;
    }
  }

  /** `Fetcher::blob`. */
  method RunFetch(source: Source, digest: seq<byte> -> Digest, entry: ManifestEntry)
    returns (outcome: Outcome, ghost attempts: seq<Attempt>)
    ensures Fetched(outcome, attempts) == FetchBlob(source, digest, entry)
  {
    hide Transfer, Checked, Pow2, FetchFrom, Stalls;
    var blob: seq<byte>, requests: nat := [], 0;
    var stalled := new StalledResumes();
    attempts := [];
    NoStalls();
    assert [] + FetchBlob(source, digest, entry).attempts == FetchBlob(source, digest, entry).attempts;
    while true
      invariant stalled.Valid() && requests == |stalled.history|
                && Stalls(stalled.history) <= MAX_RESUMES_WITHOUT_PROGRESS
      invariant FetchBlob(source, digest, entry) == Finally(source, digest, entry, blob, stalled.history, attempts)
      decreases SaturatingSub(entry.blobLen, |blob|), MAX_RESUMES_WITHOUT_PROGRESS - Stalls(stalled.history)
    {
      hide Finally;
      OneMoreRequest(source, digest, entry, blob, stalled.history, attempts);
      var t := RunTransfer(source, requests, entry.blobLen, blob);
      StallsGrow(stalled.history, |t.blob| - |blob|);
      if t.error.None? || |t.blob| >= entry.blobLen {
        return Checked(digest, entry, t.blob), attempts + [Attempt(|blob|, t.blob, 0)];
      }
      if !t.error.value.transfer {
        return Failed(t.error.value), attempts + [Attempt(|blob|, t.blob, 0)];
      }
      var resume := stalled.AfterTransfer(|t.blob| - |blob|);
      requests := requests + 1;
      if resume.Stop? {
        return Failed(t.error.value), attempts + [Attempt(|blob|, t.blob, 0)];
      }
      attempts := attempts + [Attempt(|blob|, t.blob, Wait(resume))];
      blob := t.blob;
    }
  }

  lemma NoStalls()
    ensures Stalls([]) == 0
  {
  }

  // What it costs, whatever the source does.

  function TotalWait(attempts: seq<Attempt>): nat {
    if attempts == [] then 0 else attempts[0].wait + TotalWait(attempts[1..])
  }

  lemma Progress(size: nat, received: nat)
    requires received >= RESUME_PROGRESS_BYTES
    ensures (size + received) / RESUME_PROGRESS_BYTES >= size / RESUME_PROGRESS_BYTES + 1
  {
  }

  lemma Monotone(a: nat, b: nat)
    requires a <= b
    ensures a / RESUME_PROGRESS_BYTES <= b / RESUME_PROGRESS_BYTES
  {
  }

  lemma WaitsDouble(k: nat)
    requires k <= MAX_RESUMES_WITHOUT_PROGRESS
    ensures Pow2(k) - 1 <= 31 && Pow2(k + 1) == 2 * Pow2(k) && Pow2(0) == 1
  {
    assert Pow2(5) == 32 && Pow2(4) == 16 && Pow2(3) == 8 && Pow2(2) == 4 && Pow2(1) == 2;
  }

  lemma {:induction false} RequestsLeft(source: Source, digest: seq<byte> -> Digest, entry: ManifestEntry,
                                        blob: seq<byte>,
                                        history: seq<nat>)
    requires Stalls(history) <= MAX_RESUMES_WITHOUT_PROGRESS && |blob| <= entry.blobLen
    ensures |FetchFrom(source, digest, entry, blob, history).attempts| + 6 * (|blob| / RESUME_PROGRESS_BYTES)
            + Stalls(history) <= 6 * (entry.blobLen / RESUME_PROGRESS_BYTES + 1)
    decreases SaturatingSub(entry.blobLen, |blob|), MAX_RESUMES_WITHOUT_PROGRESS - Stalls(history)
  {
    hide Transfer, Checked, Stalls, Pow2;
    var t := Transfer(source, |history|, entry.blobLen, blob);
    TransferAppends(source, |history|, entry.blobLen, blob);
    var received := |t.blob| - |blob|;
    StallsGrow(history, received);
    Monotone(|blob|, entry.blobLen);
    var open := Resumed(t, entry.blobLen, blob, history);
    if open.Some? {
      RequestsLeft(source, digest, entry, t.blob, open.value);
      Monotone(|blob|, |t.blob|);
      if received >= RESUME_PROGRESS_BYTES {
        Progress(|blob|, received);
      }
    }
  }

  lemma {:induction false} WaitLeft(source: Source, digest: seq<byte> -> Digest, entry: ManifestEntry, blob: seq<byte>,
                                    history: seq<nat>)
    requires Stalls(history) <= MAX_RESUMES_WITHOUT_PROGRESS && |blob| <= entry.blobLen
    ensures TotalWait(FetchFrom(source, digest, entry, blob, history).attempts) + 31 * (|blob| / RESUME_PROGRESS_BYTES)
            + Pow2(Stalls(history)) - 1 <= 31 * (entry.blobLen / RESUME_PROGRESS_BYTES + 1)
    decreases SaturatingSub(entry.blobLen, |blob|), MAX_RESUMES_WITHOUT_PROGRESS - Stalls(history)
  {
    hide Transfer, Checked, Stalls, Pow2;
    var t := Transfer(source, |history|, entry.blobLen, blob);
    TransferAppends(source, |history|, entry.blobLen, blob);
    var received := |t.blob| - |blob|;
    StallsGrow(history, received);
    Monotone(|blob|, entry.blobLen);
    WaitsDouble(Stalls(history));
    if received < RESUME_PROGRESS_BYTES {
      assert Stalls(history + [received]) - 1 == Stalls(history);
    }
    var open := Resumed(t, entry.blobLen, blob, history);
    if open.Some? {
      var rest := FetchFrom(source, digest, entry, t.blob, open.value).attempts;
      var one := Attempt(|blob|, t.blob, Wait(Promised(open.value)));
      assert ([one] + rest)[1..] == rest;
      WaitLeft(source, digest, entry, t.blob, open.value);
      Monotone(|blob|, |t.blob|);
      if received >= RESUME_PROGRESS_BYTES {
        Progress(|blob|, received);
      }
    }
  }

  /** A blob of `n` bytes takes at most `(5 + 1) * (n / RESUME_PROGRESS_BYTES + 1)` requests, and the
      fetch waits at most 31 seconds for each of these parts. */
  lemma FetchIsBounded(source: Source, digest: seq<byte> -> Digest, entry: ManifestEntry)
    ensures var parts, r := entry.blobLen / RESUME_PROGRESS_BYTES + 1, FetchBlob(source, digest, entry);
            |r.attempts| <= (MAX_RESUMES_WITHOUT_PROGRESS + 1) * parts && TotalWait(r.attempts) <= 31 * parts
  {
    hide FetchFrom;
    NoStalls();
    RequestsLeft(source, digest, entry, [], []);
    WaitLeft(source, digest, entry, [], []);
  }

  // How much it holds, and what it gives.

  /** No chunk of the source has more than `m` bytes. */
  ghost predicate ChunksAtMost(source: Source, m: nat) {
    forall k, offset :: source(k, offset).Stream? ==> forall chunk <- source(k, offset).chunks :: |chunk| <= m
  }

  lemma {:induction false} PourIsBounded(n: nat, m: nat, blob: seq<byte>, chunks: seq<seq<byte>>, broke: Option<Error>)
    requires |blob| <= n + m && forall chunk <- chunks :: |chunk| <= m
    ensures |Pour(n, blob, chunks, broke).blob| <= n + m
    decreases chunks
  {
    if |blob| <= n && chunks != [] {
      assert chunks[0] in chunks;
      PourIsBounded(n, m, blob + chunks[0], chunks[1..], broke);
    }
  }

  lemma TransferIsBounded(source: Source, m: nat, k: nat, n: nat, blob: seq<byte>)
    requires ChunksAtMost(source, m) && |blob| <= n + m
    ensures |Transfer(source, k, n, blob).blob| <= n + m
  {
    var response := source(k, |blob|);
    if response.Stream? {
      PourIsBounded(n, m, blob, response.chunks, response.broke);
    }
  }

  /** Over the whole fetch the buffer never grows past the length of the entry and one chunk. */
  lemma {:induction false} BufferIsBounded(source: Source, digest: seq<byte> -> Digest, entry: ManifestEntry, m: nat,
                                           blob: seq<byte>, history: seq<nat>)
    requires Stalls(history) <= MAX_RESUMES_WITHOUT_PROGRESS && ChunksAtMost(source, m) && |blob| <= entry.blobLen + m
    ensures forall a <- FetchFrom(source, digest, entry, blob, history).attempts :: |a.buffer| <= entry.blobLen + m
    decreases SaturatingSub(entry.blobLen, |blob|), MAX_RESUMES_WITHOUT_PROGRESS - Stalls(history)
  {
    hide Transfer, Checked, Stalls, ChunksAtMost, Pow2;
    var t := Transfer(source, |history|, entry.blobLen, blob);
    TransferAppends(source, |history|, entry.blobLen, blob);
    TransferIsBounded(source, m, |history|, entry.blobLen, blob);
    StallsGrow(history, |t.blob| - |blob|);
    var open := Resumed(t, entry.blobLen, blob, history);
    if open.Some? {
      BufferIsBounded(source, digest, entry, m, t.blob, open.value);
    }
  }

  /** The last `k` attempts all stalled. */
  ghost predicate EndsStalled(attempts: seq<Attempt>, k: nat) {
    && k <= |attempts|
    && forall i | |attempts| - k <= i < |attempts| :: |attempts[i].buffer| < attempts[i].offset + RESUME_PROGRESS_BYTES
  }

  /** Six stalled attempts in a row, of which `stalls` may be before these. */
  ghost predicate GaveUp(attempts: seq<Attempt>, stalls: nat) {
    EndsStalled(attempts, 6) || (|attempts| + stalls == 6 && EndsStalled(attempts, |attempts|))
  }

  /** Every request but the first asks from where the one before it stopped. */
  ghost predicate AsksBehind(attempts: seq<Attempt>) {
    forall i | 0 < i < |attempts| :: attempts[i].offset == |attempts[i - 1].buffer|
  }

  lemma OneMoreAttempt(one: Attempt, rest: seq<Attempt>, stalls: nat)
    requires rest != [] && rest[0].offset == |one.buffer| && AsksBehind(rest)
    ensures AsksBehind([one] + rest)
    ensures |one.buffer| < one.offset + RESUME_PROGRESS_BYTES && GaveUp(rest, stalls + 1) ==>
              GaveUp([one] + rest, stalls)
    ensures GaveUp(rest, 0) ==> GaveUp([one] + rest, stalls)
  {
    var all := [one] + rest;
    forall i | 0 < i < |all| ensures all[i] == rest[i - 1] && all[i].offset == |all[i - 1].buffer| {
      if i > 1 {
        assert rest[i - 1].offset == |rest[i - 2].buffer|;
      }
    }
  }

  lemma {:induction false} FetchMeans(source: Source, digest: seq<byte> -> Digest, entry: ManifestEntry,
                                      blob: seq<byte>,
                                      history: seq<nat>)
    requires Stalls(history) <= MAX_RESUMES_WITHOUT_PROGRESS
    ensures var r := FetchFrom(source, digest, entry, blob, history);
            && (r.outcome.Got? ==> |r.outcome.blob| == entry.blobLen && digest(r.outcome.blob) == entry.blobDigest)
            && r.attempts != [] && r.attempts[0].offset == |blob| && AsksBehind(r.attempts)
            && (r.outcome.Failed? && r.outcome.error.transfer ==> GaveUp(r.attempts, Stalls(history)))
    decreases SaturatingSub(entry.blobLen, |blob|), MAX_RESUMES_WITHOUT_PROGRESS - Stalls(history)
  {
    hide Transfer, Stalls, Pow2;
    var t := Transfer(source, |history|, entry.blobLen, blob);
    TransferAppends(source, |history|, entry.blobLen, blob);
    StallsGrow(history, |t.blob| - |blob|);
    var open := Resumed(t, entry.blobLen, blob, history);
    if open.Some? {
      hide AsksBehind, GaveUp;
      FetchMeans(source, digest, entry, t.blob, open.value);
      OneMoreAttempt(Attempt(|blob|, t.blob, Wait(Promised(open.value))),
                     FetchFrom(source, digest, entry, t.blob, open.value).attempts, Stalls(history));
    }
  }

  /** Whatever the source does: a blob that the fetch gives has the length and the digest of its
      entry, every request asks from the end of the buffer, and the fetch gives up only for an error
      that no request can avoid or behind six stalled transfers in a row. */
  lemma FetchIsChecked(source: Source, digest: seq<byte> -> Digest, entry: ManifestEntry)
    ensures var r := FetchBlob(source, digest, entry);
            && (r.outcome.Got? ==> |r.outcome.blob| == entry.blobLen && digest(r.outcome.blob) == entry.blobDigest)
            && r.attempts != [] && r.attempts[0].offset == 0 && AsksBehind(r.attempts)
            && (r.outcome.Failed? && r.outcome.error.transfer ==> EndsStalled(r.attempts, 6))
  {
    hide FetchFrom, Stalls;
    NoStalls();
    FetchMeans(source, digest, entry, [], []);
  }

  // What an honest source gives.

  /** The source only cuts streams: every answer is a part of `whole` from the offset on, and a
      stream that ends without an error is complete. */
  ghost predicate OnlyCuts(source: Source, whole: seq<byte>) {
    forall k: nat, offset: nat | offset <= |whole| ::
      source(k, offset).Stream? ==>
        && Concat(source(k, offset).chunks) <= whole[offset..]
        && (source(k, offset).broke.None? ==> Concat(source(k, offset).chunks) == whole[offset..])
  }

  lemma {:induction false} PourIsPrefix(blob: seq<byte>, chunks: seq<seq<byte>>, broke: Option<Error>, whole: seq<byte>)
    requires blob + Concat(chunks) <= whole
    ensures Pour(|whole|, blob, chunks, broke) == Transferred(blob + Concat(chunks), broke)
    decreases chunks
  {
    if chunks == [] {
      assert blob + [] == blob;
    } else {
      assert blob + (chunks[0] + Concat(chunks[1..])) == blob + chunks[0] + Concat(chunks[1..]);
      PourIsPrefix(blob + chunks[0], chunks[1..], broke, whole);
    }
  }

  /** One transfer from such a source appends exactly what it sends. */
  lemma TransferIsPrefix(source: Source, k: nat, blob: seq<byte>, whole: seq<byte>)
    requires OnlyCuts(source, whole) && blob <= whole
    ensures var t, response := Transfer(source, k, |whole|, blob), source(k, |blob|);
            && t.blob <= whole && (t.error.None? ==> t.blob == whole)
            && (response.Stream? ==> t == Transferred(blob + Concat(response.chunks), response.broke))
  {
    var response := source(k, |blob|);
    if response.Stream? {
      var rest := Concat(response.chunks);
      assert blob + whole[|blob|..] == whole;
      assert blob + rest <= whole;
      PourIsPrefix(blob, response.chunks, response.broke, whole);
    }
  }

  lemma {:induction false} HonestFrom(source: Source, digest: seq<byte> -> Digest, entry: ManifestEntry,
                                      blob: seq<byte>,
                                      history: seq<nat>, whole: seq<byte>)
    requires OnlyCuts(source, whole) && blob <= whole && Stalls(history) <= MAX_RESUMES_WITHOUT_PROGRESS
    requires |whole| == entry.blobLen && digest(whole) == entry.blobDigest
    ensures var r := FetchFrom(source, digest, entry, blob, history);
            (r.outcome == Got(whole) || r.outcome.Failed?) && forall a <- r.attempts :: a.buffer <= whole
    decreases SaturatingSub(entry.blobLen, |blob|), MAX_RESUMES_WITHOUT_PROGRESS - Stalls(history)
  {
    hide Transfer, Pow2, OnlyCuts, Stalls;
    var t := Transfer(source, |history|, entry.blobLen, blob);
    TransferAppends(source, |history|, entry.blobLen, blob);
    TransferIsPrefix(source, |history|, blob, whole);
    StallsGrow(history, |t.blob| - |blob|);
    if |t.blob| >= |whole| {
      assert t.blob == whole;
    }
    var open := Resumed(t, entry.blobLen, blob, history);
    if open.Some? {
      HonestFrom(source, digest, entry, t.blob, open.value, whole);
    }
  }

  /** With a source that only cuts streams, the buffer is a prefix of the true blob behind every
      transfer. The fetch gives the true blob, or it gives up for an error that no request can avoid or
      behind six stalled transfers in a row. */
  lemma HonestFetch(source: Source, digest: seq<byte> -> Digest, entry: ManifestEntry, whole: seq<byte>)
    requires OnlyCuts(source, whole) && |whole| == entry.blobLen && digest(whole) == entry.blobDigest
    ensures var r := FetchBlob(source, digest, entry);
            && (forall a <- r.attempts :: a.buffer <= whole)
            && (r.outcome == Got(whole)
                || (r.outcome.Failed? && (r.outcome.error.transfer ==> EndsStalled(r.attempts, 6))))
  {
    hide FetchFrom, Stalls, OnlyCuts, EndsStalled;
    NoStalls();
    HonestFrom(source, digest, entry, [], [], whole);
    FetchIsChecked(source, digest, entry);
  }

  /** Request number `k` sends the rest of the blob, or enough of it to count as progress. */
  ghost predicate Delivers(source: Source, whole: seq<byte>, k: nat) {
    forall offset: nat | offset <= |whole| ::
      && source(k, offset).Stream?
      && (|Concat(source(k, offset).chunks)| >= RESUME_PROGRESS_BYTES
          || Concat(source(k, offset).chunks) == whole[offset..])
  }

  /** Of any six requests in a row one delivers. */
  ghost predicate KeepsDelivering(source: Source, whole: seq<byte>) {
    forall k: nat :: DeliversSoon(source, whole, k, 6)
  }

  ghost predicate DeliversSoon(source: Source, whole: seq<byte>, k: nat, n: nat) {
    exists j: nat | k <= j < k + n :: Delivers(source, whole, j)
  }

  /** Every error is one that a new request can avoid. */
  ghost predicate OnlyTransferErrors(source: Source) {
    forall k, offset ::
      match source(k, offset)
      case Refused(e) => e.transfer
      case Stream(_, broke) => broke.Some? ==> broke.value.transfer
  }

  lemma TransferErrors(source: Source, k: nat, n: nat, blob: seq<byte>)
    requires OnlyTransferErrors(source) && Transfer(source, k, n, blob).error.Some?
    ensures Transfer(source, k, n, blob).error.value.transfer
  {
    var response := source(k, |blob|);
    if response.Stream? {
      PourError(n, blob, response.chunks, response.broke);
    }
  }

  lemma {:induction false} PourError(n: nat, blob: seq<byte>, chunks: seq<seq<byte>>, broke: Option<Error>)
    ensures Pour(n, blob, chunks, broke).error.Some? ==> Pour(n, blob, chunks, broke).error == broke
    decreases chunks
  {
    if |blob| <= n && chunks != [] {
      PourError(n, blob + chunks[0], chunks[1..], broke);
    }
  }

  /** A request that delivers is not a stall. */
  lemma DeliveredIsProgress(source: Source, k: nat, blob: seq<byte>, whole: seq<byte>)
    requires OnlyCuts(source, whole) && blob <= whole && Delivers(source, whole, k)
    ensures var t := Transfer(source, k, |whole|, blob);
            |t.blob| >= |blob| + RESUME_PROGRESS_BYTES || t.blob == whole
  {
    hide Transfer, OnlyCuts;
    TransferIsPrefix(source, k, blob, whole);
    assert blob + whole[|blob|..] == whole;
  }

  lemma {:induction false} DeliveredFrom(source: Source, digest: seq<byte> -> Digest, entry: ManifestEntry,
                                         blob: seq<byte>,
                                         history: seq<nat>, whole: seq<byte>)
    requires OnlyCuts(source, whole) && OnlyTransferErrors(source) && KeepsDelivering(source, whole)
    requires blob <= whole && Stalls(history) <= MAX_RESUMES_WITHOUT_PROGRESS
    requires DeliversSoon(source, whole, |history|, 6 - Stalls(history))
    requires |whole| == entry.blobLen && digest(whole) == entry.blobDigest
    ensures FetchFrom(source, digest, entry, blob, history).outcome == Got(whole)
    decreases SaturatingSub(entry.blobLen, |blob|), MAX_RESUMES_WITHOUT_PROGRESS - Stalls(history)
  {
    hide Transfer, Pow2, OnlyCuts, Stalls, Delivers, OnlyTransferErrors;
    var k := |history|;
    var t := Transfer(source, k, entry.blobLen, blob);
    TransferAppends(source, k, entry.blobLen, blob);
    TransferIsPrefix(source, k, blob, whole);
    StallsGrow(history, |t.blob| - |blob|);
    if |t.blob| >= |whole| {
      assert t.blob == whole;
    } else {
      TransferErrors(source, k, entry.blobLen, blob);
      var j: nat :| k <= j < k + 6 - Stalls(history) && Delivers(source, whole, j);
      if j == k {
        DeliveredIsProgress(source, k, blob, whole);
      }
      var next := history + [|t.blob| - |blob|];
      assert DeliversSoon(source, whole, |next|, 6);
      assert DeliversSoon(source, whole, |next|, 6 - Stalls(next));
      DeliveredFrom(source, digest, entry, t.blob, next, whole);
    }
  }

  /** If of any six requests in a row one delivers, a source that only cuts streams always gives the
      true blob. */
  lemma DeliveringSourceSucceeds(source: Source, digest: seq<byte> -> Digest, entry: ManifestEntry, whole: seq<byte>)
    requires OnlyCuts(source, whole) && OnlyTransferErrors(source) && KeepsDelivering(source, whole)
    requires |whole| == entry.blobLen && digest(whole) == entry.blobDigest
    ensures FetchBlob(source, digest, entry).outcome == Got(whole)
  {
    hide FetchFrom, Stalls, OnlyCuts, OnlyTransferErrors, DeliversSoon;
    NoStalls();
    DeliveredFrom(source, digest, entry, [], [], whole);
  }
}
