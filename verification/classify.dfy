/**
 The platform table that decides which error code a failed chunk write or
 chunk read finally reports. This revision of `lib/filesystem.js` holds
 only the `writeChunk` retry loop; the table is the one the repository's
 tests assert in `tests/filesystem.spec.js`, kept here as its own layer on
 top of the retry loop. A write's `EIO` only escapes the retry loop once the budget is
 spent, so on Linux it is the exhausted `EIO` that reads as unplugged.
 */
module Classification {
  import opened Base
  import opened Filesystem

  datatype Platform = Darwin | Linux | Win32

  const EUNPLUGGED: string := "EUNPLUGGED"
  const ENXIO: string := "ENXIO"
  const EBUSY: string := "EBUSY"
  const ENOENT: string := "ENOENT"
  const UNKNOWN: string := "UNKNOWN"

  /** Codes that mean "the device went away" on the given platform. */
  predicate MeansUnplugged(platform: Platform, code: string) {
    match platform
    case Win32 => code == UNKNOWN || code == ENOENT
    case Darwin => code == ENXIO || code == EBUSY
    case Linux => code == EIO
  }

  /** The code reported for an error that carried `code`. */
  function Classify(platform: Platform, code: string): (r: string)
    ensures r == EUNPLUGGED || r == code
    ensures r == EUNPLUGGED <==> MeansUnplugged(platform, code) || code == EUNPLUGGED
  {
    if MeansUnplugged(platform, code) then EUNPLUGGED else code
  }

  /** The error as reported: only its code may change, and only when it has one. */
  function Reclassify(platform: Platform, e: Error): (r: Error)
    ensures r.message == e.message
    ensures r.code.Some? <==> e.code.Some?
    ensures e.code.Some? ==> r.code == Some(Classify(platform, e.code.value))
  {
    match e.code
    case None => e
    case Some(c) => Error(Some(Classify(platform, c)), e.message)
  }

  /** The retrying chunk write with its final error reclassified. */
  function ReportedWriteChunk(platform: Platform, chunk: seq<Byte>, position: int, outcome: nat -> WriteOutcome): (r: WriteRun)
    ensures var raw := WriteChunk(chunk, position, outcome);
            && r.issued == raw.issued && r.delays == raw.delays
            && (r.result.Ok? <==> raw.result.Ok?)
            && (raw.result.Err? ==> r.result.error == Reclassify(platform, raw.result.error))
  {
    var raw := WriteChunk(chunk, position, outcome);
    match raw.result
    case Ok(_) => raw
    case Err(e) => WriteRun(Err(Reclassify(platform, e)), raw.delays, raw.issued)
  }

  /** A chunk read with its error reclassified by the same table. */
  function ReportedRead(platform: Platform, o: ReadOutcome): (r: ReadOutcome)
    ensures r.ReadFailed? <==> o.ReadFailed?
    ensures !o.ReadFailed? ==> r == o
    ensures o.ReadFailed? ==> r.error == Reclassify(platform, o.error)
  {
    match o
    case ReadFailed(e) => ReadFailed(Reclassify(platform, e))
    case _ => o
  }

  /** The (platform, code raised by the system call, code reported) triples the tests assert. */
  const TestedTable: set<(Platform, string, string)> := {
    (Darwin, UNKNOWN, UNKNOWN), (Linux, UNKNOWN, UNKNOWN), (Win32, UNKNOWN, EUNPLUGGED),
    (Darwin, ENXIO, EUNPLUGGED), (Linux, ENXIO, ENXIO), (Win32, ENXIO, ENXIO),
    (Darwin, ENOENT, ENOENT), (Linux, ENOENT, ENOENT), (Win32, ENOENT, EUNPLUGGED),
    (Darwin, EIO, EIO), (Linux, EIO, EUNPLUGGED), (Win32, EIO, EIO),
    (Darwin, EBUSY, EUNPLUGGED), (Linux, EBUSY, EBUSY), (Win32, EBUSY, EBUSY)
  }

  /** A system call that fails with the same error on every call. */
  ghost predicate AlwaysFails(outcome: nat -> WriteOutcome, e: Error) {
    forall k :: outcome(k) == Failed(e)
  }

  /**
   For every tested pair, a write whose every `fs.write` fails with that code
   ends in an error carrying exactly the code the tests expect.
   */
  lemma WriteAgreesWithTests(platform: Platform, code: string, expected: string, message: string,
                             chunk: seq<Byte>, position: int, outcome: nat -> WriteOutcome)
    requires (platform, code, expected) in TestedTable
    requires AlwaysFails(outcome, Error(Some(code), message))
    ensures ReportedWriteChunk(platform, chunk, position, outcome).result == Err(Error(Some(expected), message))
  {
    if code == EIO {
      PersistentEio(chunk, position, outcome);
    } else {
      NonEioNotRetried(chunk, position, outcome);
    }
  }

  /** A read that fails with a tested code reports exactly the code the tests expect. */
  lemma ReadAgreesWithTests(platform: Platform, code: string, expected: string, message: string)
    requires (platform, code, expected) in TestedTable
    ensures ReportedRead(platform, ReadFailed(Error(Some(code), message))) == ReadFailed(Error(Some(expected), message))
  {
  }

  /** Codes outside the five the table mentions are never changed, on any platform. */
  lemma OtherCodesUnchanged(platform: Platform, code: string)
    requires code !in {UNKNOWN, ENXIO, ENOENT, EIO, EBUSY}
    ensures Classify(platform, code) == code
  {
  }

  /** Reclassification never turns a failed write into a successful one, nor the reverse. */
  lemma ReportingKeepsFailure(platform: Platform, chunk: seq<Byte>, position: int, outcome: nat -> WriteOutcome)
    ensures ReportedWriteChunk(platform, chunk, position, outcome).result.Err?
            <==> WriteChunk(chunk, position, outcome).result.Err?
  {
  }
}
