/**
 `write(drive, image, options)` of `lib/index.js`: check the two sizes
 (throwing synchronously), then on the returned emitter prepare the drive
 on Windows, write the image, validate it, rescan the drives, and emit
 `done` with the validation results, or `error` with the first failure.

 The writing itself (`lib/write.js`) is not part of this model: its outcome
 (bytes transferred and the source checksum) is an input, as are diskpart's
 answers, the bmap validator's verdict and the device's answers to the
 validation read-back. Validation follows the corrected checksum strategy
 of the validation module, with the checksum algorithms passed through.
 */
module ImageWrite {
  import opened Base
  import opened Classification
  import opened Windows
  import opened ImageReadStream
  import opened ChecksumStream
  import opened Checksum
  import opened Validate

  /** The JavaScript values a size or an `eta` may hold. */
  datatype JsValue = Undefined | Null | Bool(b: bool) | Num(x: real) | NaN | Infinity(negative: bool) | Str(s: string) | PlainObject

  /** `_.isNumber`: `NaN` and the infinities are numbers too. */
  predicate IsNumber(v: JsValue) {
    v.Num? || v.NaN? || v.Infinity?
  }

  predicate Truthy(v: JsValue) {
    match v
    case Undefined => false
    case Null => false
    case Bool(b) => b
    case Num(x) => x != 0.0
    case NaN => false
    case Infinity(_) => true
    case Str(s) => |s| > 0
    case PlainObject => true
  }

  /** A size passes `!v || !_.isNumber(v)` unrejected. */
  predicate ValidSize(v: JsValue) {
    Truthy(v) && IsNumber(v)
  }

  /** `String(v)` for a value the size check rejects. */
  function Describe(v: JsValue): string
    requires !ValidSize(v)
  {
    match v
    case Undefined => "undefined"
    case Null => "null"
    case Bool(b) => if b then "true" else "false"
    case Num(_) => "0"
    case NaN => "NaN"
    case Str(s) => s
    case PlainObject => "[object Object]"
  }

  /** Exactly the non-zero numbers, infinities included, pass the size check; negative ones too. */
  lemma ValidSizeIff(v: JsValue)
    ensures ValidSize(v) <==> (v.Num? && v.x != 0.0) || v.Infinity?
  {
  }

  /** The synchronous checks: the image size first, then the drive size. */
  function CheckSizes(imageSize: JsValue, driveSize: JsValue): (r: Option<Error>)
    ensures r.None? <==> ValidSize(imageSize) && ValidSize(driveSize)
    ensures !ValidSize(imageSize) ==> r == Some(Error(None, "Invalid image size: " + Describe(imageSize)))
    ensures ValidSize(imageSize) && !ValidSize(driveSize) ==> r == Some(Error(None, "Invalid drive size: " + Describe(driveSize)))
  {
    if !ValidSize(imageSize) then Some(Error(None, "Invalid image size: " + Describe(imageSize)))
    else if !ValidSize(driveSize) then Some(Error(None, "Invalid drive size: " + Describe(driveSize)))
    else None
  }

  datatype Drive = Drive(device: string, size: JsValue)

  datatype Options = Options(check: bool, bmap: Option<string>, checksumAlgorithms: Option<seq<string>>)

  /** What `lib/write.js` resolves with. */
  datatype TransferResult = TransferResult(transferredBytes: nat, checksum: ChecksumValue)

  /** The answers of everything outside the model. */
  datatype Environment = Environment(platform: Platform, diskpart: nat -> Result<()>, transfer: Settled<TransferResult>,
                                     bmapValidator: Settled<seq<InvalidRange>>, readback: Readback, rescan: Result<()>)

  /** The steps of a flash, in the order they run. */
  datatype Step = Prepared | Written | Validated | Rescanned

  const AllSteps: seq<Step> := [Prepared, Written, Validated, Rescanned]

  /** The event that ends a flash, or `Silent` when some step never settles. */
  datatype Terminal = Done(results: ValidationResult) | ErrorEvent(error: Error) | Silent

  /** A flash either throws at once or emits; `steps` are the steps that completed, `scripts` the diskpart scripts run. */
  datatype Flash = Thrown(error: Error) | Emitted(steps: seq<Step>, scripts: seq<seq<string>>, terminal: Terminal)

  /**
   The validation options the write results lead to: validation is skipped
   without `check`, bmap validation is chosen exactly when bmap contents were
   given, and the checksum branch checks the bytes transferred against the
   write's source checksum. The algorithm list is passed on, as the corrected
   checksum strategy needs.
   */
  function ValidationOptions(options: Options, transfer: TransferResult): (v: ValidateOptions)
    ensures v.omitValidation <==> !options.check
    ensures BmapGiven(v) <==> options.bmap.Some? && |options.bmap.value| > 0
    ensures ChecksumChosen(v) <==> options.check && !(options.bmap.Some? && |options.bmap.value| > 0)
    ensures v.imageSize == transfer.transferredBytes && v.imageChecksum == transfer.checksum
    ensures v.checksumAlgorithms == options.checksumAlgorithms
  {
    ValidateOptions(!options.check, options.bmap, transfer.transferredBytes, transfer.checksum, options.checksumAlgorithms)
  }

  /** The read-back matches the algorithm list whenever checksum validation can be chosen. */
  predicate ReadbackFits(options: Options, env: Environment) {
    options.check && !(options.bmap.Some? && |options.bmap.value| > 0) ==>
      EndingOrder(env.readback.order, |options.checksumAlgorithms.GetOr([])|)
  }

  function Write(drive: Drive, imageSize: JsValue, options: Options, env: Environment): (r: Flash)
    requires ReadbackFits(options, env)
    ensures CheckSizes(imageSize, drive.size).Some? <==> r.Thrown?
    ensures r.Thrown? ==> r.error == CheckSizes(imageSize, drive.size).value
    ensures r.Emitted? ==> |r.steps| <= |AllSteps| && r.steps == AllSteps[..|r.steps|]
    ensures r.Emitted? && r.terminal.Done? ==> r.steps == AllSteps
    ensures r.Emitted? && r.terminal.ErrorEvent? ==> |r.steps| < |AllSteps|
    ensures r.Emitted? && env.platform != Win32 ==> r.scripts == []
  {
    match CheckSizes(imageSize, drive.size)
    case Some(e) => Thrown(e)
    case None =>
      var prep := Prepare(env.platform, drive.device, env.diskpart);
      if prep.result.Err? then Emitted([], prep.scripts, ErrorEvent(prep.result.error))
      else match env.transfer
        case Rejected(e) => Emitted([Prepared], prep.scripts, ErrorEvent(e))
        case Pending => Emitted([Prepared], prep.scripts, Silent)
        case Resolved(transfer) =>
          var steps := [Prepared, Written];
          match InferFromOptions(ValidationOptions(options, transfer), env.bmapValidator, env.readback)
          case Rejected(e) => Emitted(steps, prep.scripts, ErrorEvent(e))
          case Pending => Emitted(steps, prep.scripts, Silent)
          case Resolved(results) =>
            var rescan := Rescan(env.platform, env.rescan);
            if rescan.result.Err? then Emitted(steps + [Validated], prep.scripts + rescan.scripts, ErrorEvent(rescan.result.error))
            else Emitted(AllSteps, prep.scripts + rescan.scripts, Done(results))
  }

  /** A size check that fails throws before anything runs; the image size is checked first. */
  lemma InvalidImageSizeThrows(drive: Drive, imageSize: JsValue, options: Options, env: Environment)
    requires ReadbackFits(options, env)
    requires !ValidSize(imageSize)
    ensures Write(drive, imageSize, options, env) == Thrown(Error(None, "Invalid image size: " + Describe(imageSize)))
  {
  }

  /**
   Without `check`, a flash whose steps all succeed is done, and its results
   echo the source checksum of the write.
   */
  lemma UncheckedDoneEchoesChecksum(drive: Drive, imageSize: JsValue, options: Options, env: Environment)
    requires ReadbackFits(options, env)
    requires ValidSize(imageSize) && ValidSize(drive.size)
    requires !options.check
    requires Prepare(env.platform, drive.device, env.diskpart).result.Ok?
    requires env.transfer.Resolved? && env.rescan.Ok?
    ensures Write(drive, imageSize, options, env).Emitted?
    ensures Write(drive, imageSize, options, env).terminal == Done(ValidationResult(env.transfer.value.checksum))
  {
  }

  /**
   A checked flash validated by checksum is done only if the device, read
   back truthfully, starts with bytes whose digests are the write's source
   checksum.
   */
  lemma CheckedDoneMeansDeviceMatches(dev: seq<Byte>, drive: Drive, imageSize: JsValue, options: Options, env: Environment)
    requires ReadbackFits(options, env)
    requires options.check && !(options.bmap.Some? && |options.bmap.value| > 0)
    requires AnsweredBy(dev, env.readback.answers)
    requires Write(drive, imageSize, options, env).Emitted?
    requires Write(drive, imageSize, options, env).terminal.Done?
    ensures env.transfer.Resolved? && env.transfer.value.checksum.Object?
    ensures env.transfer.value.checksum.entries
            == AllDigests(options.checksumAlgorithms.GetOr([]), dev[..Min(env.transfer.value.transferredBytes, |dev|)], env.readback.digest)
  {
    var transfer := env.transfer.value;
    var vopts := ValidationOptions(options, transfer);
    ChecksumValidationSound(dev, vopts, env.bmapValidator, env.readback);
  }

  /** On Windows a failed rescan turns a validated flash into an error: `done` is never emitted. */
  lemma RescanFailureIsError(drive: Drive, imageSize: JsValue, options: Options, env: Environment)
    requires ReadbackFits(options, env)
    requires ValidSize(imageSize) && ValidSize(drive.size)
    requires env.platform == Win32 && env.rescan.Err?
    requires Write(drive, imageSize, options, env).Emitted?
    ensures !Write(drive, imageSize, options, env).terminal.Done?
  {
  }

  /** A progress event as the emitter passes it on. */
  datatype ProgressState = ProgressState(kind: Option<string>, eta: JsValue, percentage: JsValue)

  /** The progress wrapper: the event is tagged with its phase and a non-number `eta` becomes -1. */
  function TagProgress(state: ProgressState, phase: string): (r: ProgressState)
    ensures r.kind == Some(phase)
    ensures IsNumber(r.eta)
    ensures IsNumber(state.eta) ==> r.eta == state.eta
    ensures !IsNumber(state.eta) ==> r.eta == Num(-1.0)
    ensures r.percentage == state.percentage
  {
    ProgressState(Some(phase), if IsNumber(state.eta) then state.eta else Num(-1.0), state.percentage)
  }

  /** The phase names progress is tagged with: the write (`lib/index.js:146`), then the check (`lib/index.js:159`). */
  const WritePhase := "write"
  const CheckPhase := "check"

  /** A progress event of the write phase, as the emitter passes it on. */
  function WriteProgress(state: ProgressState): ProgressState {
    TagProgress(state, WritePhase)
  }

  /** A progress event of the validation phase, as the emitter passes it on. */
  function CheckProgress(state: ProgressState): ProgressState {
    TagProgress(state, CheckPhase)
  }

  /**
   A listener can always tell the two phases apart: their events carry
   different types, and any two events from different phases differ.
   */
  lemma PhasesDistinguishable(s1: ProgressState, s2: ProgressState)
    ensures WriteProgress(s1).kind == Some("write") && CheckProgress(s2).kind == Some("check")
    ensures WriteProgress(s1) != CheckProgress(s2)
  {
  }

  /** Tagging again only replaces the phase: the last tag wins and the rest of the event is kept. */
  lemma RetagLastWins(state: ProgressState, first: string, second: string)
    ensures TagProgress(TagProgress(state, first), second) == TagProgress(state, second)
  {
  }

  /** Tagging twice with the same phase is tagging once. */
  lemma TagProgressIdempotent(state: ProgressState, phase: string)
    ensures TagProgress(TagProgress(state, phase), phase) == TagProgress(state, phase)
  {
  }
}
