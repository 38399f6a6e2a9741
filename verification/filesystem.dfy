/**
 The retrying chunk write of `lib/filesystem.js`. The underlying `fs.write`
 is not run: its answer to each attempt is an input, `outcome(k)` being what
 the attempt whose retry counter is `k` gets back (the first attempt has
 counter 1). `setTimeout` is not run either: each delay is returned.
 */
module Filesystem {
  import opened Base
  import Decimal

  /** Largest retry counter for which an `EIO` is still retried. */
  const MAXIMUM_RETRIES: nat := 10

  /** Milliseconds of delay per retry counter: the k-th retry waits 100 * k. */
  const RETRY_BASE_TIMEOUT: nat := 100

  const EIO: string := "EIO"

  /** What one `fs.write` call reports: a byte count or an error. */
  datatype WriteOutcome = Wrote(bytesWritten: nat) | Failed(error: Error)

  /** What one read of the device reports: a buffer, end of device (null), or an error. */
  datatype ReadOutcome = Data(buffer: seq<Byte>) | EndOfDevice | ReadFailed(error: Error)

  predicate IsEio(o: WriteOutcome) {
    o.Failed? && o.error.code == Some(EIO)
  }

  /** Every attempt with counter in [from, to) reported `EIO`. */
  predicate AllEio(outcome: nat -> WriteOutcome, from: nat, to: nat) {
    forall k :: from <= k < to ==> IsEio(outcome(k))
  }

  /** The error for a write that reported fewer (or more) bytes than the chunk holds. */
  function ShortWriteError(written: nat, expected: nat): (e: Error)
    ensures e.code == None
    ensures e.message == "Write " + Decimal.Show(written) + " bytes, " + Decimal.Show(expected) + " expected"
  {
    Error(None, "Write " + Decimal.Show(written) + " bytes, " + Decimal.Show(expected) + " expected")
  }

  /** The verdict on one completed `fs.write` call once no retry is made. */
  function Settle(chunk: seq<Byte>, o: WriteOutcome): (r: Result<()>)
    ensures r.Ok? <==> o == Wrote(|chunk|)
    ensures o.Failed? ==> r == Err(o.error)
    ensures o.Wrote? && o.bytesWritten != |chunk| ==> r == Err(ShortWriteError(o.bytesWritten, |chunk|))
  {
    match o
    case Failed(e) => Err(e)
    case Wrote(n) => if n != |chunk| then Err(ShortWriteError(n, |chunk|)) else Ok(())
  }

  /** The final result, the delays waited before each retry, and every write issued. */
  datatype WriteRun = WriteRun(result: Result<()>, delays: seq<nat>, issued: seq<Write>)

  /** Counter of the last attempt of a run started at counter `retries`. */
  function LastAttempt(retries: nat, r: WriteRun): int {
    retries + |r.issued| - 1
  }

  /**
   `writeChunk(fd, chunk, position, callback, retries)`. The contract pins the
   run down completely: every attempt before the last got `EIO`; the last one
   either got `EIO` past the retry budget (and that error is returned) or got
   something else, which decides the result with no further attempt.
   */
  function WriteChunkFrom(chunk: seq<Byte>, position: int, outcome: nat -> WriteOutcome, retries: nat): (r: WriteRun)
    ensures |r.issued| >= 1 && |r.delays| == |r.issued| - 1
    ensures forall i :: 0 <= i < |r.issued| ==> r.issued[i] == Write(position, chunk)
    ensures forall i :: 0 <= i < |r.delays| ==> r.delays[i] == RETRY_BASE_TIMEOUT * (retries + i)
    ensures AllEio(outcome, retries, LastAttempt(retries, r))
    ensures IsEio(outcome(LastAttempt(retries, r))) ==>
              LastAttempt(retries, r) > MAXIMUM_RETRIES && r.result == Err(outcome(LastAttempt(retries, r)).error)
    ensures !IsEio(outcome(LastAttempt(retries, r))) ==> r.result == Settle(chunk, outcome(LastAttempt(retries, r)))
    ensures retries <= MAXIMUM_RETRIES + 1 ==> LastAttempt(retries, r) <= MAXIMUM_RETRIES + 1
    ensures retries > MAXIMUM_RETRIES ==> |r.issued| == 1
    decreases if retries <= MAXIMUM_RETRIES then MAXIMUM_RETRIES + 1 - retries else 0
  {
    var o := outcome(retries);
    var w := Write(position, chunk);
    if IsEio(o) then
      if retries > MAXIMUM_RETRIES then
        WriteRun(Err(o.error), [], [w])
      else
        var next := WriteChunkFrom(chunk, position, outcome, retries + 1);
        WriteRun(next.result, [RETRY_BASE_TIMEOUT * retries] + next.delays, [w] + next.issued)
    else
      WriteRun(Settle(chunk, o), [], [w])
  }

  /** `writeChunk` as callers use it, with the default counter 1. */
  function WriteChunk(chunk: seq<Byte>, position: int, outcome: nat -> WriteOutcome): (r: WriteRun)
    ensures 1 <= |r.issued| <= MAXIMUM_RETRIES + 1
    ensures forall i :: 0 <= i < |r.issued| ==> r.issued[i] == Write(position, chunk)
    ensures forall i :: 0 <= i < |r.delays| ==> r.delays[i] == RETRY_BASE_TIMEOUT * (i + 1)
  {
    WriteChunkFrom(chunk, position, outcome, 1)
  }

  /** An error other than `EIO` on the first attempt is returned as is, with no retry. */
  lemma NonEioNotRetried(chunk: seq<Byte>, position: int, outcome: nat -> WriteOutcome)
    requires outcome(1).Failed? && !IsEio(outcome(1))
    ensures WriteChunk(chunk, position, outcome) == WriteRun(Err(outcome(1).error), [], [Write(position, chunk)])
  {
  }

  /** A short write is an error on the first attempt and is not retried. */
  lemma ShortWriteNotRetried(chunk: seq<Byte>, position: int, outcome: nat -> WriteOutcome)
    requires outcome(1).Wrote? && outcome(1).bytesWritten != |chunk|
    ensures WriteChunk(chunk, position, outcome).result == Err(ShortWriteError(outcome(1).bytesWritten, |chunk|))
    ensures |WriteChunk(chunk, position, outcome).issued| == 1
  {
  }

  /**
   A device that reports `EIO` on every attempt gets 11 attempts, waits
   100, 200, ..., 1000 ms between them, and the last `EIO` is returned.
   */
  lemma PersistentEio(chunk: seq<Byte>, position: int, outcome: nat -> WriteOutcome)
    requires AllEio(outcome, 1, MAXIMUM_RETRIES + 2)
    ensures |WriteChunk(chunk, position, outcome).issued| == MAXIMUM_RETRIES + 1
    ensures WriteChunk(chunk, position, outcome).result == Err(outcome(MAXIMUM_RETRIES + 1).error)
    ensures WriteChunk(chunk, position, outcome).delays == [100, 200, 300, 400, 500, 600, 700, 800, 900, 1000]
  {
    var r := WriteChunk(chunk, position, outcome);
    assert |r.delays| == 10;
  }

  /** Delays grow strictly from one retry to the next. */
  lemma DelaysIncrease(chunk: seq<Byte>, position: int, outcome: nat -> WriteOutcome, i: nat, j: nat)
    requires i < j < |WriteChunk(chunk, position, outcome).delays|
    ensures WriteChunk(chunk, position, outcome).delays[i] < WriteChunk(chunk, position, outcome).delays[j]
  {
  }

  /**
   The write succeeds exactly when some attempt within the budget writes the
   whole chunk and every attempt before it got `EIO`.
   */
  lemma SucceedsIff(chunk: seq<Byte>, position: int, outcome: nat -> WriteOutcome)
    ensures WriteChunk(chunk, position, outcome).result.Ok? <==>
            exists k :: 1 <= k <= MAXIMUM_RETRIES + 1 && outcome(k) == Wrote(|chunk|) && AllEio(outcome, 1, k)
  {
    var r := WriteChunk(chunk, position, outcome);
    var last := LastAttempt(1, r);
    if r.result.Ok? {
      assert outcome(last) == Wrote(|chunk|);
    }
    if k :| 1 <= k <= MAXIMUM_RETRIES + 1 && outcome(k) == Wrote(|chunk|) && AllEio(outcome, 1, k) {
      assert last == k;
    }
  }
}
