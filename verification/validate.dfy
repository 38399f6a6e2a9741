/**
 The validation strategies of `lib/validate.js` and the facade that picks
 one. `lib/errors.js` is not part of this model: its validation error is
 represented by its code, `EVALIDATION`, with an unspecified message. The
 bmap validator (`bmapflash`) is not modelled either: its outcome, the list
 of invalid ranges it found, is an input.

 The checksum strategy is modelled twice. `UsingChecksumAsWritten` follows
 the code as it stands: it never passes checksum algorithms to the device
 checksum, and it compares the image checksum with the freshly built result
 object by identity (`!==`), so it cannot succeed. `UsingChecksum` passes
 the algorithms on and compares the two checksums by value; the facade and
 the rest of the model use it.
 */
module Validate {
  import opened Base
  import opened Filesystem
  import opened ImageReadStream
  import opened ChecksumStream
  import opened Checksum

  const EVALIDATION: string := "EVALIDATION"

  /** The error `errors.validationError()` builds. */
  const ValidationFailure: Error := Error(Some(EVALIDATION), "")

  /**
   A JavaScript value in the place of a checksum: missing, a string, or an
   object with an identity (what `===` compares) and its own properties.
   */
  datatype ChecksumValue = Absent | Text(text: string) | Object(identity: nat, entries: map<string, string>)

  /** `===` on checksum values: strings by content, objects by identity. */
  predicate StrictEquals(a: ChecksumValue, b: ChecksumValue) {
    match (a, b)
    case (Absent, Absent) => true
    case (Text(s), Text(t)) => s == t
    case (Object(i, _), Object(j, _)) => i == j
    case _ => false
  }

  /** Deep equality of an image checksum with a computed device checksum. */
  predicate SameChecksum(image: ChecksumValue, device: map<string, string>) {
    image.Object? && image.entries == device
  }

  /** What a successful validation resolves with; `Absent` is the empty object `{}`. */
  datatype ValidationResult = ValidationResult(sourceChecksum: ChecksumValue)

  /** A range of blocks the bmap validator found not to match. */
  datatype InvalidRange = InvalidRange(start: nat, end: nat)

  /** The device as the read-back sees it: its answers to each read, the hash oracles, and the order the hashes end. */
  datatype Readback = Readback(answers: seq<ReadOutcome>, unsupported: string -> Option<Error>,
                               digest: (string, seq<Byte>) -> string, order: seq<nat>)

  /** `usingBmap`: the validator's error rejects; any invalid range is a validation error. */
  function UsingBmap(validator: Settled<seq<InvalidRange>>): (r: Settled<ValidationResult>)
    ensures r.Resolved? <==> validator == Resolved([])
    ensures r.Resolved? ==> r.value.sourceChecksum == Absent
    ensures validator.Rejected? ==> r == Rejected(validator.error)
    ensures validator.Resolved? && |validator.value| > 0 ==> r == Rejected(ValidationFailure)
    ensures r.Pending? <==> validator.Pending?
  {
    match validator
    case Rejected(e) => Rejected(e)
    case Pending => Pending
    case Resolved(ranges) => if |ranges| > 0 then Rejected(ValidationFailure) else Resolved(ValidationResult(Absent))
  }

  /** `mock`: always succeeds, echoing the image checksum. */
  function Mock(imageChecksum: ChecksumValue): (r: Settled<ValidationResult>)
    ensures r.Resolved? && r.value.sourceChecksum == imageChecksum
  {
    Resolved(ValidationResult(imageChecksum))
  }

  /**
   `usingChecksum` with the checksum algorithms passed on to the device
   checksum and the two checksums compared by value: it resolves, echoing
   the image checksum, exactly when the device checksum resolves to the
   image checksum's contents; a different device checksum is a validation
   error; an error computing it is passed on.
   */
  function UsingChecksum(rb: Readback, imageSize: nat, imageChecksum: ChecksumValue, algorithms: Option<seq<string>>): (r: Settled<ValidationResult>)
    requires EndingOrder(rb.order, |algorithms.GetOr([])|)
    ensures var device := CalculateDeviceChecksum(rb.answers, imageSize, algorithms, rb.unsupported, rb.digest, rb.order);
            && (r.Resolved? <==> device.Resolved? && SameChecksum(imageChecksum, device.value))
            && (r.Resolved? ==> r.value.sourceChecksum == imageChecksum)
            && (device.Resolved? && !SameChecksum(imageChecksum, device.value) ==> r == Rejected(ValidationFailure))
            && (device.Rejected? ==> r == Rejected(device.error))
            && (r.Pending? <==> device.Pending?)
  {
    match CalculateDeviceChecksum(rb.answers, imageSize, algorithms, rb.unsupported, rb.digest, rb.order)
    case Rejected(e) => Rejected(e)
    case Pending => Pending
    case Resolved(deviceChecksum) =>
      if !SameChecksum(imageChecksum, deviceChecksum) then Rejected(ValidationFailure)
      else Resolved(ValidationResult(imageChecksum))
  }

  /** An identity no existing object has: what a freshly built object gets. */
  function FreshIdentity(existing: ChecksumValue): (id: nat)
    ensures existing.Object? ==> id != existing.identity
  {
    if existing.Object? then existing.identity + 1 else 0
  }

  /**
   `usingChecksum` as written: the device checksum is computed with no
   algorithm list, and the image checksum is compared by `!==` with the
   result object, a fresh copy made when the checksum stream emits it.
   */
  function UsingChecksumAsWritten(rb: Readback, imageSize: nat, imageChecksum: ChecksumValue): (r: Settled<ValidationResult>)
    requires rb.order == []
    ensures var device := CalculateDeviceChecksum(rb.answers, imageSize, None, rb.unsupported, rb.digest, rb.order);
            && (device.Resolved? ==> r == Rejected(ValidationFailure))
            && (device.Rejected? ==> r == Rejected(device.error))
            && (device.Pending? ==> r.Pending?)
  {
    match CalculateDeviceChecksum(rb.answers, imageSize, None, rb.unsupported, rb.digest, rb.order)
    case Rejected(e) => Rejected(e)
    case Pending => Pending
    case Resolved(deviceChecksum) =>
      var result := Object(FreshIdentity(imageChecksum), deviceChecksum);
      if !StrictEquals(imageChecksum, result) then Rejected(ValidationFailure)
      else Resolved(ValidationResult(imageChecksum))
  }

  /** As written, the device checksum that gets compared never holds a single digest. */
  lemma AsWrittenDigestsNothing(rb: Readback, imageSize: nat)
    requires rb.order == []
    requires CalculateDeviceChecksum(rb.answers, imageSize, None, rb.unsupported, rb.digest, rb.order).Resolved?
    ensures CalculateDeviceChecksum(rb.answers, imageSize, None, rb.unsupported, rb.digest, rb.order).value == map[]
  {
    var device := CalculateDeviceChecksum(rb.answers, imageSize, None, rb.unsupported, rb.digest, rb.order);
    assert device.value.Keys == {};
  }

  /**
   A device holding exactly the image, whose crc32 the image checksum
   records: the corrected strategy validates it, the strategy as written
   reports a validation error.
   */
  lemma MatchingDeviceRejected(digest: (string, seq<Byte>) -> string, unsupported: string -> Option<Error>)
    ensures var image: seq<Byte> := [1, 2, 3];
            var answers := [Data(image), EndOfDevice];
            var imageChecksum := Object(7, map[CRC32 := digest(CRC32, image)]);
            && UsingChecksum(Readback(answers, unsupported, digest, [0]), 3, imageChecksum, Some([CRC32]))
               == Resolved(ValidationResult(imageChecksum))
            && UsingChecksumAsWritten(Readback(answers, unsupported, digest, []), 3, imageChecksum)
               == Rejected(ValidationFailure)
  {
    var image: seq<Byte> := [1, 2, 3];
    var answers := [Data(image), EndOfDevice];
    OneChunkDevice(image);
    CorrectedDigestsImage(image, unsupported, digest);
    AsWrittenResolves(answers, unsupported, digest);
  }

  /** A device read back in one chunk: everything it holds reaches the slice, and the stream ends. */
  lemma OneChunkDevice(image: seq<Byte>)
    ensures SliceEnded(ReadStream([Data(image), EndOfDevice]), |image|)
    ensures Sliced(ReadStream([Data(image), EndOfDevice]), |image|) == image
  {
    var answers := [Data(image), EndOfDevice];
    assert answers[..1] == [Data(image)];
    assert [Data(image)][..0] == [];
    var t := ReadStream(answers);
    assert t.pushed == [image];
    assert Concat([image]) == image by {
      assert [image][..0] == [];
    }
  }

  lemma CorrectedDigestsImage(image: seq<Byte>, unsupported: string -> Option<Error>, digest: (string, seq<Byte>) -> string)
    requires SliceEnded(ReadStream([Data(image), EndOfDevice]), |image|)
    requires Sliced(ReadStream([Data(image), EndOfDevice]), |image|) == image
    ensures CalculateDeviceChecksum([Data(image), EndOfDevice], |image|, Some([CRC32]), unsupported, digest, [0])
            == Resolved(map[CRC32 := digest(CRC32, image)])
  {
    CrcStreamCreated(unsupported);
    assert EndingOrder([0], 1);
    var t := ReadStream([Data(image), EndOfDevice]);
    assert Sliced(t, |image|) == image;
    CrcDigests(image, digest);
  }

  /** A checksum stream for CRC32 alone can always be created. */
  lemma CrcStreamCreated(unsupported: string -> Option<Error>)
    ensures New(Some([CRC32]), unsupported).Ok?
    ensures Distinct([CRC32])
  {
    var algorithms := [CRC32];
    assert algorithms[..0] == [];
    assert CreateHash(CRC32, unsupported).Ok?;
  }

  /** The results object of a CRC32-only stream holds that one digest. */
  lemma CrcDigests(data: seq<Byte>, digest: (string, seq<Byte>) -> string)
    ensures AllDigests([CRC32], data, digest) == map[CRC32 := digest(CRC32, data)]
  {
    var m := AllDigests([CRC32], data, digest);
    assert m.Keys == {CRC32};
  }

  lemma AsWrittenResolves(answers: seq<ReadOutcome>, unsupported: string -> Option<Error>, digest: (string, seq<Byte>) -> string)
    requires SliceEnded(ReadStream(answers), 3)
    ensures CalculateDeviceChecksum(answers, 3, None, unsupported, digest, []).Resolved?
  {
    var none: seq<string> := [];
    assert Distinct(none);
  }

  /** The options `inferFromOptions` reads. */
  datatype ValidateOptions = ValidateOptions(omitValidation: bool, bmapContents: Option<string>, imageSize: nat,
                                             imageChecksum: ChecksumValue, checksumAlgorithms: Option<seq<string>>)

  /** Whether bmap contents were given: a missing or empty string is falsy. */
  predicate BmapGiven(options: ValidateOptions) {
    options.bmapContents.Some? && |options.bmapContents.value| > 0
  }

  /** Checksum validation is the strategy chosen. */
  predicate ChecksumChosen(options: ValidateOptions) {
    !options.omitValidation && !BmapGiven(options)
  }

  /**
   `inferFromOptions`: skipping validation wins over a bmap, which wins over
   the checksum.
   */
  function InferFromOptions(options: ValidateOptions, validator: Settled<seq<InvalidRange>>, rb: Readback): (r: Settled<ValidationResult>)
    requires ChecksumChosen(options) ==> EndingOrder(rb.order, |options.checksumAlgorithms.GetOr([])|)
    ensures options.omitValidation ==> r == Resolved(ValidationResult(options.imageChecksum))
    ensures !options.omitValidation && BmapGiven(options) ==> r == UsingBmap(validator)
    ensures ChecksumChosen(options) ==> r == UsingChecksum(rb, options.imageSize, options.imageChecksum, options.checksumAlgorithms)
  {
    if options.omitValidation then Mock(options.imageChecksum)
    else if BmapGiven(options) then UsingBmap(validator)
    else UsingChecksum(rb, options.imageSize, options.imageChecksum, options.checksumAlgorithms)
  }

  /**
   A checksum validation that succeeds on a device answering truthfully
   means the device's first `imageSize` bytes have, under every algorithm,
   the digest the image checksum records.
   */
  lemma ChecksumValidationSound(dev: seq<Byte>, options: ValidateOptions, validator: Settled<seq<InvalidRange>>, rb: Readback)
    requires ChecksumChosen(options)
    requires EndingOrder(rb.order, |options.checksumAlgorithms.GetOr([])|)
    requires AnsweredBy(dev, rb.answers)
    requires InferFromOptions(options, validator, rb).Resolved?
    ensures options.imageChecksum.Object?
    ensures options.imageChecksum.entries
            == AllDigests(options.checksumAlgorithms.GetOr([]), dev[..Min(options.imageSize, |dev|)], rb.digest)
  {
    ChecksumOfDevicePrefix(dev, rb.answers, options.imageSize, options.checksumAlgorithms, rb.unsupported, rb.digest, rb.order);
  }

  /**
   Conversely, a truthful device whose first `imageSize` bytes hash to the
   image checksum validates, once it has been read far enough and the
   algorithm names are creatable and distinct.
   */
  lemma ChecksumValidationComplete(dev: seq<Byte>, options: ValidateOptions, validator: Settled<seq<InvalidRange>>, rb: Readback)
    requires ChecksumChosen(options)
    requires EndingOrder(rb.order, |options.checksumAlgorithms.GetOr([])|)
    requires AnsweredBy(dev, rb.answers)
    requires New(options.checksumAlgorithms, rb.unsupported).Ok? && Distinct(options.checksumAlgorithms.GetOr([]))
    requires SliceEnded(ReadStream(rb.answers), options.imageSize)
    requires SameChecksum(options.imageChecksum,
                          AllDigests(options.checksumAlgorithms.GetOr([]), dev[..Min(options.imageSize, |dev|)], rb.digest))
    ensures InferFromOptions(options, validator, rb) == Resolved(ValidationResult(options.imageChecksum))
  {
    SlicedIsDevicePrefix(dev, rb.answers, options.imageSize);
  }

  /** As written, checksum validation never succeeds, whatever the device holds. */
  lemma AsWrittenNeverValidates(rb: Readback, imageSize: nat, imageChecksum: ChecksumValue)
    requires rb.order == []
    ensures !UsingChecksumAsWritten(rb, imageSize, imageChecksum).Resolved?
  {
  }
}
