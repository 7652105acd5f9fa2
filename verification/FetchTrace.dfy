/** A fetch request by request: what each one asks for, receives and waits for, and how the last ends. */
module FetchTrace {
  import opened Bytes
  import opened Manifest
  import opened Fetch

  /** The first `j` chunks are read: while the buffer has at most `n` bytes, up to the end of the stream. */
  ghost predicate Reads(n: nat, before: seq<byte>, chunks: seq<seq<byte>>, broke: Option<Error>, j: nat,
                        buffer: seq<byte>, error: Option<Error>) {
    && j <= |chunks| && buffer == before + Concat(chunks[..j])
    && (forall i | 0 <= i < j :: |before + Concat(chunks[..i])| <= n)
    && if |buffer| > n then error == None else j == |chunks| && error == broke
  }

  /** Request number `k` asks behind the bytes `before`, and leaves `a.buffer` and `error`. */
  ghost predicate Receives(source: Source, k: nat, n: nat, before: seq<byte>, a: Attempt, error: Option<Error>) {
    && a.offset == |before|
    && match source(k, |before|)
       case Refused(e) => a.buffer == before && error == Some(e)
       case Stream(chunks, broke) => exists j :: Reads(n, before, chunks, broke, j, a.buffer, error)
  }

  ghost predicate Stalled(a: Attempt) {
    |a.buffer| < a.offset + 1_048_576
  }

  /** Behind a wait of `before` seconds: progress resumes at once, and a stall waits one second, or
      twice as long as the stall in front of it, up to 16 seconds. */
  ghost predicate WaitsRight(a: Attempt, before: nat) {
    if !Stalled(a) then a.wait == 0 else a.wait == (if before == 0 then 1 else 2 * before) <= 16
  }

  ghost function WaitBefore(attempts: seq<Attempt>, wait: nat, i: nat): nat
    requires i <= |attempts|
  {
    if i == 0 then wait else attempts[i - 1].wait
  }

  ghost function BufferBefore(attempts: seq<Attempt>, blob: seq<byte>, i: nat): seq<byte>
    requires i <= |attempts|
  {
    if i == 0 then blob else attempts[i - 1].buffer
  }

  /** The outcome of a fetch whose last transfer left `buffer` and `error`. */
  ghost predicate EndsAs(outcome: Outcome, digest: seq<byte> -> Digest, entry: ManifestEntry, buffer: seq<byte>,
                         error: Option<Error>) {
    if error.Some? && |buffer| < entry.blobLen then outcome == Failed(error.value)
    else if |buffer| != entry.blobLen then outcome == Mismatched(Len(entry.blobLen, |buffer|))
    else if digest(buffer) != entry.blobDigest then outcome == Mismatched(WrongDigest)
    else outcome == Got(buffer)
  }

  /** Attempt `i` is not the last: it broke early with an error that a new request can avoid. */
  ghost predicate GoesOn(entry: ManifestEntry, a: Attempt, error: Option<Error>) {
    error.Some? && error.value.transfer && |a.buffer| < entry.blobLen
  }

  /** The attempts of a fetch behind `blob`, a last wait of `wait` seconds and `k` requests. */
  ghost predicate Traced(source: Source, digest: seq<byte> -> Digest, entry: ManifestEntry, k: nat, blob: seq<byte>,
                         wait: nat, r: Fetched, errors: seq<Option<Error>>) {
    var n := |r.attempts|;
    && |errors| == n > 0
    && (forall i | 0 <= i < n ::
          Receives(source, k + i, entry.blobLen, BufferBefore(r.attempts, blob, i), r.attempts[i], errors[i]))
    && (forall i | 0 <= i < n - 1 ::
          GoesOn(entry, r.attempts[i], errors[i]) && WaitsRight(r.attempts[i], WaitBefore(r.attempts, wait, i)))
    && r.attempts[n - 1].wait == 0 && EndsAs(r.outcome, digest, entry, r.attempts[n - 1].buffer, errors[n - 1])
    && (GoesOn(entry, r.attempts[n - 1], errors[n - 1]) ==>
          Stalled(r.attempts[n - 1]) && WaitBefore(r.attempts, wait, n - 1) == 16)
  }

  lemma {:induction false} PourReads(n: nat, blob: seq<byte>, chunks: seq<seq<byte>>, broke: Option<Error>)
    returns (j: nat)
    ensures Reads(n, blob, chunks, broke, j, Pour(n, blob, chunks, broke).blob, Pour(n, blob, chunks, broke).error)
    decreases chunks
  {
    if |blob| > n || chunks == [] {
      j := 0;
      assert blob + Concat(chunks[..0]) == blob;
    } else {
      var next, rest := blob + chunks[0], chunks[1..];
      var i := PourReads(n, next, rest, broke);
      j := i + 1;
      forall l | 0 <= l <= i ensures blob + Concat(chunks[..l + 1]) == next + Concat(rest[..l]) {
        assert chunks[..l + 1][1..] == rest[..l];
      }
      assert blob + Concat(chunks[..0]) == blob;
      forall l | 0 <= l < j ensures |blob + Concat(chunks[..l])| <= n {
        if l > 0 {
          assert blob + Concat(chunks[..(l - 1) + 1]) == next + Concat(rest[..l - 1]);
        }
      }
    }
  }

  lemma TransferReceives(source: Source, k: nat, n: nat, blob: seq<byte>, wait: nat)
    ensures var t := Transfer(source, k, n, blob);
            Receives(source, k, n, blob, Attempt(|blob|, t.blob, wait), t.error)
  {
    hide Reads, Pour;
    var response := source(k, |blob|);
    if response.Stream? {
      var j := PourReads(n, blob, response.chunks, response.broke);
    }
  }

  /** The last wait behind a history. */
  ghost function LastWait(history: seq<nat>): nat {
    if Stalls(history) == 0 then 0 else Pow2(Stalls(history) - 1)
  }

  lemma Powers(k: nat)
    ensures Pow2(k + 1) == 2 * Pow2(k) && Pow2(0) == 1
    ensures k < 5 ==> Pow2(k) <= 16
    ensures k <= 4 ==> (Pow2(k) == 16 <==> k == 4)
  {
    assert Pow2(4) == 16 && Pow2(3) == 8 && Pow2(2) == 4 && Pow2(1) == 2;
  }

  /** What the resume rule promises is a doubled wait. */
  lemma PromiseWaits(history: seq<nat>, received: nat, a: Attempt)
    requires Stalls(history) <= 5 && |a.buffer| == a.offset + received
    requires a.wait == Wait(Promised(history + [received])) && !Promised(history + [received]).Stop?
    ensures WaitsRight(a, LastWait(history)) && LastWait(history + [received]) == a.wait
  {
    hide Pow2, Stalls;
    StallsGrow(history, received);
    if Stalls(history) > 0 {
      Powers(Stalls(history) - 1);
    }
    Powers(Stalls(history));
  }

  lemma PromiseStops(history: seq<nat>, received: nat)
    requires Stalls(history) <= 5 && Promised(history + [received]).Stop?
    ensures received < 1_048_576 && LastWait(history) == 16
  {
    hide Pow2, Stalls;
    StallsGrow(history, received);
    Powers(4);
  }

  lemma EndIs(t: Transferred, digest: seq<byte> -> Digest, entry: ManifestEntry)
    ensures EndsAs(Ended(t, digest, entry), digest, entry, t.blob, t.error)
  {
  }

  lemma OneMoreTraced(source: Source, digest: seq<byte> -> Digest, entry: ManifestEntry, k: nat, blob: seq<byte>,
                      wait: nat, one: Attempt, error: Option<Error>, rest: Fetched, errors: seq<Option<Error>>)
    requires Receives(source, k, entry.blobLen, blob, one, error) && GoesOn(entry, one, error) && WaitsRight(one, wait)
    requires Traced(source, digest, entry, k + 1, one.buffer, one.wait, rest, errors)
    ensures Traced(source, digest, entry, k, blob, wait, Fetched(rest.outcome, [one] + rest.attempts),
                   [error] + errors)
  {
    hide Receives, GoesOn, WaitsRight, EndsAs, Stalled;
    var all, es := [one] + rest.attempts, [error] + errors;
    forall i | 0 < i < |all|
      ensures all[i] == rest.attempts[i - 1] && es[i] == errors[i - 1]
      ensures BufferBefore(all, blob, i) == BufferBefore(rest.attempts, one.buffer, i - 1)
      ensures WaitBefore(all, wait, i) == WaitBefore(rest.attempts, one.wait, i - 1)
    {
    }
    forall i | 0 <= i < |all|
      ensures Receives(source, k + i, entry.blobLen, BufferBefore(all, blob, i), all[i], es[i])
    {
      if i > 0 {
        assert Receives(source, k + 1 + (i - 1), entry.blobLen, BufferBefore(rest.attempts, one.buffer, i - 1),
                        rest.attempts[i - 1], errors[i - 1]);
      }
    }
    forall i | 0 <= i < |all| - 1
      ensures GoesOn(entry, all[i], es[i]) && WaitsRight(all[i], WaitBefore(all, wait, i))
    {
      if i > 0 {
        assert WaitsRight(rest.attempts[i - 1], WaitBefore(rest.attempts, one.wait, i - 1));
      }
    }
  }

  lemma {:induction false} TraceFrom(source: Source, digest: seq<byte> -> Digest, entry: ManifestEntry,
                                     blob: seq<byte>, history: seq<nat>) returns (errors: seq<Option<Error>>)
    requires Stalls(history) <= MAX_RESUMES_WITHOUT_PROGRESS
    ensures Traced(source, digest, entry, |history|, blob, LastWait(history),
                   FetchFrom(source, digest, entry, blob, history), errors)
    decreases SaturatingSub(entry.blobLen, |blob|), MAX_RESUMES_WITHOUT_PROGRESS - Stalls(history)
  {
    hide Transfer, Stalls, Receives, EndsAs, Ended, Promised, LastWait, Wait, WaitsRight;
    var k, n := |history|, entry.blobLen;
    var t := Transfer(source, k, n, blob);
    TransferAppends(source, k, n, blob);
    var received := |t.blob| - |blob|;
    StallsGrow(history, received);
    match Resumed(t, n, blob, history) {
      case None =>
        errors := [t.error];
        TransferReceives(source, k, n, blob, 0);
        EndIs(t, digest, entry);
        if t.error.Some? && |t.blob| < n && t.error.value.transfer {
          PromiseStops(history, received);
        }
      case Some(next) =>
        var one := Attempt(|blob|, t.blob, Wait(Promised(next)));
        TransferReceives(source, k, n, blob, one.wait);
        PromiseWaits(history, received, one);
        StillFew(next);
        var rest := TraceFrom(source, digest, entry, t.blob, next);
        errors := [t.error] + rest;
        OneMoreTraced(source, digest, entry, k, blob, LastWait(history), one, t.error,
                      FetchFrom(source, digest, entry, t.blob, next), rest);
    }
  }

  lemma StillFew(history: seq<nat>)
    requires !Promised(history).Stop?
    ensures Stalls(history) <= MAX_RESUMES_WITHOUT_PROGRESS
  {
  }

  /** Every request of a fetch, for any source. */
  lemma FetchIsTraced(source: Source, digest: seq<byte> -> Digest, entry: ManifestEntry)
    returns (errors: seq<Option<Error>>)
    ensures Traced(source, digest, entry, 0, [], 0, FetchBlob(source, digest, entry), errors)
  {
    hide FetchFrom, Traced;
    NoStalls();
    errors := TraceFrom(source, digest, entry, [], []);
  }
}
