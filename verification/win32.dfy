/**
 `prepare` and `rescan` of `lib/win32.js`. On Windows a drive named
 `...PHYSICALDRIVE<n>...` (any letter case) is cleaned with a diskpart
 script, tried up to five times; on any other platform a diskpart script
 resolves at once without running. The diskpart program is not run: the
 outcome of the k-th try (counting from 0) is `diskpart(k)`. The delays
 between tries and after a successful run are not modelled.
 */
module Windows {
  import opened Base
  import opened Decimal
  import opened Patterns
  import opened Classification

  const DriveLiteral: string := "PHYSICALDRIVE"

  /** Most diskpart runs `prepare` makes before giving up. */
  const MAX_TRIES: nat := 5

  /** The disk number in a device name, as `_.nth(device.match(/PHYSICALDRIVE(\d+)/i), 1)` finds it. */
  function DriveId(device: string): (id: Option<string>)
    ensures id.None? <==> forall j: nat :: !MatchesAt(device, j, DriveLiteral, true)
    ensures id.Some? ==> |id.value| > 0 && AllDigits(id.value)
  {
    CaptureDigits(device, DriveLiteral, true)
  }

  function CleanScript(id: string): seq<string> {
    ["select disk " + id, "clean", "rescan"]
  }

  const RescanScript: seq<string> := ["rescan"]

  /** The scripts diskpart actually ran, and the outcome. */
  datatype DiskpartRun = DiskpartRun(scripts: seq<seq<string>>, result: Result<()>)

  /** `String(code)` for an error code that may be missing. */
  function CodeText(code: Option<string>): string {
    match code
    case Some(c) => c
    case None => "undefined"
  }

  /** The error `prepare` reports once every try failed, the last with `failure`. */
  function CleanFailure(failure: Error): (e: Error)
    ensures e.code == None
    ensures e.message == "Couldn't clean the drive, " + failure.message + " (code " + CodeText(failure.code) + ")"
  {
    Error(None, "Couldn't clean the drive, " + failure.message + " (code " + CodeText(failure.code) + ")")
  }

  /** Every try in [from, to) failed. */
  predicate FailedTries(diskpart: nat -> Result<()>, from: nat, to: nat) {
    forall k :: from <= k < to ==> diskpart(k).Err?
  }

  /**
   The retry loop from try `k` on: `script` runs until a try succeeds or
   `MAX_TRIES` tries were made; the last failure is reported.
   */
  function RetryFrom(script: seq<string>, diskpart: nat -> Result<()>, k: nat): (r: DiskpartRun)
    requires k < MAX_TRIES
    ensures 1 <= |r.scripts| <= MAX_TRIES - k
    ensures forall i :: 0 <= i < |r.scripts| ==> r.scripts[i] == script
    ensures FailedTries(diskpart, k, k + |r.scripts| - 1)
    ensures r.result.Ok? <==> diskpart(k + |r.scripts| - 1).Ok?
    ensures r.result.Err? ==> |r.scripts| == MAX_TRIES - k && r.result.error == CleanFailure(diskpart(MAX_TRIES - 1).error)
    decreases MAX_TRIES - k
  {
    match diskpart(k)
    case Ok(_) => DiskpartRun([script], Ok(()))
    case Err(e) =>
      if k + 1 == MAX_TRIES then DiskpartRun([script], Err(CleanFailure(e)))
      else
        var rest := RetryFrom(script, diskpart, k + 1);
        DiskpartRun([script] + rest.scripts, rest.result)
  }

  /**
   `prepare(device)`: nothing happens for a name without a drive number or
   off Windows; otherwise the clean script is retried, and it succeeds
   exactly when some try within the budget succeeds.
   */
  function Prepare(platform: Platform, device: string, diskpart: nat -> Result<()>): (r: DiskpartRun)
    ensures DriveId(device).None? || platform != Win32 ==> r == DiskpartRun([], Ok(()))
    ensures DriveId(device).Some? && platform == Win32 ==>
              && 1 <= |r.scripts| <= MAX_TRIES
              && (forall i :: 0 <= i < |r.scripts| ==> r.scripts[i] == CleanScript(DriveId(device).value))
              && FailedTries(diskpart, 0, |r.scripts| - 1)
              && (r.result.Ok? <==> diskpart(|r.scripts| - 1).Ok?)
              && (r.result.Err? ==> |r.scripts| == MAX_TRIES && r.result.error == CleanFailure(diskpart(MAX_TRIES - 1).error))
  {
    match DriveId(device)
    case None => DiskpartRun([], Ok(()))
    case Some(id) =>
      if platform != Win32 then DiskpartRun([], Ok(()))
      else RetryFrom(CleanScript(id), diskpart, 0)
  }

  /** On Windows with a drive number, `prepare` succeeds exactly when one of the five tries does. */
  lemma PrepareSucceedsIff(device: string, diskpart: nat -> Result<()>)
    requires DriveId(device).Some?
    ensures Prepare(Win32, device, diskpart).result.Ok? <==> exists k :: 0 <= k < MAX_TRIES && diskpart(k).Ok?
  {
  }

  /**
   The case the repository's test describes: diskpart always fails with
   `diskpart failure` and code `EPERM`.
   */
  lemma PrepareFailureMessage(diskpart: nat -> Result<()>)
    requires forall k :: diskpart(k) == Err(Error(Some("EPERM"), "diskpart failure"))
    ensures Prepare(Win32, TestDevice, diskpart).result
            == Err(Error(None, "Couldn't clean the drive, diskpart failure (code EPERM)"))
  {
    TestDriveId();
    var r := Prepare(Win32, TestDevice, diskpart);
    assert diskpart(MAX_TRIES - 1).Err?;
    assert r.result == Err(CleanFailure(Error(Some("EPERM"), "diskpart failure")));
    EpermMessage();
  }

  lemma EpermMessage()
    ensures CleanFailure(Error(Some("EPERM"), "diskpart failure"))
            == Error(None, "Couldn't clean the drive, diskpart failure (code EPERM)")
  {
    var head := "Couldn't clean the drive, " + "diskpart failure";
    assert head == "Couldn't clean the drive, diskpart failure";
    var tail := " (code " + "EPERM" + ")";
    assert tail == " (code EPERM)";
    assert head + tail == "Couldn't clean the drive, diskpart failure (code EPERM)";
  }

  /** The device name the repository's test prepares. */
  const TestDevice: string := "\\\\.\\PHYSICALDRIVE2"

  /** The drive number of the device name the test uses. */
  lemma TestDriveId()
    ensures DriveId(TestDevice) == Some("2")
  {
    TestDeviceFirstMatch();
    assert DigitRun(TestDevice, 18) == 0;
    assert DigitRun(TestDevice, 17) == 1;
    assert TestDevice[17..18] == "2";
  }

  /** The leftmost match in the test's device name is the one at index 4. */
  lemma TestDeviceFirstMatch()
    ensures FirstMatchFrom(TestDevice, DriveLiteral, true, 0) == Some(4)
  {
    TestDeviceMatchesAt4();
    assert !CharMatches(TestDevice[3], DriveLiteral[0], true);
    assert FirstMatchFrom(TestDevice, DriveLiteral, true, 3) == Some(4);
    assert !CharMatches(TestDevice[2], DriveLiteral[0], true);
    assert !CharMatches(TestDevice[1], DriveLiteral[0], true);
    assert FirstMatchFrom(TestDevice, DriveLiteral, true, 1) == Some(4);
    assert !CharMatches(TestDevice[0], DriveLiteral[0], true);
  }

  lemma TestDeviceMatchesAt4()
    ensures MatchesAt(TestDevice, 4, DriveLiteral, true)
  {
    assert TestDevice[4..17] == DriveLiteral;
    assert |TestDevice| == 18 && IsDigit(TestDevice[17]);
  }

  /** `rescan`: on Windows one `rescan` script, whose outcome is reported; elsewhere nothing. */
  function Rescan(platform: Platform, outcome: Result<()>): (r: DiskpartRun)
    ensures platform == Win32 ==> r.scripts == [RescanScript] && r.result == outcome
    ensures platform != Win32 ==> r == DiskpartRun([], Ok(()))
  {
    if platform == Win32 then DiskpartRun([RescanScript], outcome) else DiskpartRun([], Ok(()))
  }
}
