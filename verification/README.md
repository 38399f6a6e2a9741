# etcher-image-write, modelled in Dafny

A functional model of etcher-image-write's core. That core writes a disk
image to a raw device and reads the device back to check what it wrote. The
model covers:

- the retrying chunk write of `lib/filesystem.js`, and the platform table
  that reports a vanished device as `EUNPLUGGED`;
- the write sink of `lib/image-write-stream.js`, which holds back the chunk
  at offset 0 until every other chunk is written, then writes it last;
- the position counter (`lib/image-stream-position.js`) and the read-back
  stream (`lib/image-read-stream.js`);
- the multi-algorithm checksum stream (`lib/checksum-stream.js`) and the
  device checksum over the first `imageSize` bytes (`lib/checksum.js`);
- the three validation strategies and their selection (`lib/validate.js`);
- the top-level `write` of `lib/index.js`, with its size checks, its steps
  and its progress tagging;
- `getRawDevice` (`lib/utils.js`);
- the Windows `prepare`/`rescan` diskpart logic (`lib/win32.js`).

Everything outside the model is a parameter of the functions that need it.
Each is fixed ahead of time rather than simulated:

- what every `fs.write` reports on its k-th attempt (`nat -> WriteOutcome`);
- what the device answers to each read (`seq<ReadOutcome>`);
- which hash algorithms the crypto module rejects, and the digest functions;
- the order in which the hash streams end;
- diskpart's outcome per try;
- what `lib/write.js` resolves with;
- the bmap validator's verdict.

A stream becomes a fold over its chunks. A promise becomes a `Settled` value:
resolved, rejected, or still pending when the inputs run out. Each module
pairs its operations with an independent statement of what they achieve, for
example:

- the device holds the image after `done`;
- what was read back is a prefix of the device;
- the device checksum is the digest of the device prefix, whatever order the
  hashes end in;
- the raw-device mapping is idempotent;
- a Windows prepare succeeds exactly when one of its five tries does.

Files: `base.dfy` (shared types and concatenation), `decimal.dfy` (number
rendering for error messages), `patterns.dfy` (the `/<literal>(\d+)/` match),
`position.dfy`, `filesystem.dfy`, `classify.dfy`, `device.dfy` (device
contents under a sequence of writes), `write_stream.dfy`, `read_stream.dfy`,
`checksum_stream.dfy`, `checksum.dfy`, `validate.dfy`, `utils.dfy`,
`win32.dfy` and `image_write.dfy`.

## Model

| member | source | states |
|---|---|---|
| Filesystem.Settle | lib/filesystem.js:81-88 | Once no retry is made, a write succeeds exactly when it reports the chunk's full length. A reported error is passed on as is. A short write becomes "Write <n> bytes, <m> expected". |
| Filesystem.ShortWriteError | lib/filesystem.js:84-86 | The short-write error has no code, and its message names both byte counts in decimal. |
| Filesystem.WriteChunkFrom | lib/filesystem.js:65-90 | Every attempt writes the same chunk at the same position. The k-th retry waits 100·k ms. Every attempt but the last reported EIO. A final EIO is returned only once the counter passes 10. Otherwise the last attempt's verdict is returned. |
| Filesystem.WriteChunk | lib/filesystem.js:65 | Starting at counter 1, a chunk write makes between 1 and 11 attempts, with delays 100, 200, … ms. |
| Filesystem.NonEioNotRetried | lib/filesystem.js:81 | An error other than EIO on the first attempt is returned unchanged after exactly one attempt. |
| Filesystem.ShortWriteNotRetried | lib/filesystem.js:84-86 | A short write fails at once with the short-write error and is never retried. |
| Filesystem.PersistentEio | lib/filesystem.js:71-79 | A device that always reports EIO gets exactly 11 attempts, waiting 100 ms to 1000 ms between them, and the 11th attempt's EIO is returned. |
| Filesystem.DelaysIncrease | lib/filesystem.js:76-78 | Each retry waits strictly longer than the one before. |
| Filesystem.SucceedsIff | lib/filesystem.js:65-90 | A chunk write succeeds exactly when some attempt within the budget writes the full chunk and every earlier attempt reported EIO. |
| Classification.Classify | tests/filesystem.spec.js:40-430 | The reported code is either the raised code or EUNPLUGGED. It is EUNPLUGGED exactly when the code means "unplugged" on that platform or already is EUNPLUGGED, which passes through unchanged. |
| Classification.Reclassify | tests/filesystem.spec.js:40-430 | Reporting keeps the message and whether a code is present, and changes at most the code. |
| Classification.ReportedWriteChunk | tests/filesystem.spec.js:40-430 | The reported chunk write issues the same writes and delays as the retry loop. Only its final error's code is reclassified. |
| Classification.ReportedRead | tests/filesystem.spec.js:434-826 | A read keeps its data or end-of-device answer. A failed read stays failed, with its code reclassified. |
| Classification.WriteAgreesWithTests | tests/filesystem.spec.js:40-430 | For each of the 15 (platform, raised code) cases the tests try, a write that keeps failing with that code reports the code the tests expect. |
| Classification.ReadAgreesWithTests | tests/filesystem.spec.js:434-826 | For each of the 15 read cases, the reported code is the one the tests expect. |
| Classification.OtherCodesUnchanged | tests/filesystem.spec.js:40-430 | Codes outside UNKNOWN, ENXIO, ENOENT, EIO and EBUSY are never rewritten, on any platform. |
| Classification.ReportingKeepsFailure | tests/filesystem.spec.js:40-430 | Reclassification never turns a failure into a success, nor the reverse. |
| Position.Fresh | lib/image-stream-position.js:32-34 | A counter that was never set reads as 0. |
| Position.Set | lib/image-stream-position.js:48-50 | After a set, the getter reports the value set, whatever it held before. |
| Position.Increment | lib/image-stream-position.js:64-66 | An increment adds exactly the offset, and a non-negative offset never moves the counter back. |
| Position.AdvanceBy | lib/image-stream-position.js:64-66 | Incrementing once per chunk by its length advances the counter by the total length. |
| Position.AdvanceMonotone | lib/image-stream-position.js:64-66 | Along a chunk sequence the counter never goes backwards. |
| Device.Apply | lib/image-write-stream.js:60-72 | A write changes exactly the bytes in its span and leaves every other byte of the device as it was. |
| ImageWriteStream.Initial | lib/image-write-stream.js:91-113 | A new sink holds no chunk and is at position 0. |
| ImageWriteStream.OnChunk | lib/image-write-stream.js:93-112 | At position 0 the chunk is held and no write is issued. Anywhere else, exactly one write of the chunk goes to the current position. The position advances by the chunk's length only when that write succeeds. |
| ImageWriteStream.Finish | lib/image-write-stream.js:118-132 | With no held chunk, `finish` emits `done` and writes nothing. Otherwise it writes the held chunk at offset 0 and emits `done` exactly when that write succeeds. |
| ImageWriteStream.PumpKeepsInvariant | lib/image-write-stream.js:93-112 | After any successful run of chunks, the position is their total length, and a chunk is held exactly when one arrived. The held chunk is the image's first bytes. No write so far touched offset 0, and the device already holds every image byte past the held chunk. |
| ImageWriteStream.DoneMeansImageWritten | lib/image-write-stream.js:118-132 | After `done`, every byte of the concatenated image is on the device at its offset. Offset 0 is written last, and every earlier write lies past offset 0. |
| ImageWriteStream.PumpIsLinearTail | lib/image-write-stream.js:98-111 | When the first chunk is not empty and no write failed, the writes issued before `finish` are those of a plain linear sink with its first write removed. |
| ImageWriteStream.DeferredIsRotatedLinear | lib/image-write-stream.js:93-132 | A successful stream whose first chunk is not empty issues the linear sink's writes in order, with the offset-0 write moved to the end. |
| ImageWriteStream.NoChunksNoWrites | lib/image-write-stream.js:119-122 | An empty stream emits `done` without writing. |
| ImageWriteStream.FailedDeferredWriteIsError | lib/image-write-stream.js:124-128 | If the final write at offset 0 fails, the stream ends in `error` and never `done`. |
| ImageWriteStream.EmptyFirstChunkIsReplaced | lib/image-write-stream.js:98-102 | An empty first chunk leaves the position at 0, so the next chunk is held in its place and neither is written. |
| ImageWriteStream.Pump | lib/image-write-stream.js:93-112 | The chunks are taken in order and the first is always held back, so a non-empty stream issues fewer writes than it has chunks and an empty one issues none. |
| ImageWriteStream.NextKeepsOutcomes | lib/image-write-stream.js:104-111 | One more chunk keeps every write at a positive offset and advances a successful position by the chunk's length. An error is always the failure of the last write issued, and every earlier write was complete. |
| ImageWriteStream.PumpOutcomes | lib/image-write-stream.js:93-112 | Before `finish`, no write goes to offset 0 and a run without error stands at the total length of its chunks. Every write but a failed last one wrote its whole chunk, and an error is that last write's failure. |
| ImageWriteStream.WriteStream | lib/image-write-stream.js:93-132 | The whole sink, `write` handler then `finish` listener, issues at most one write per chunk; an empty stream writes nothing and is done. ImageWriteStream.WriteStreamOutcomes and ImageWriteStream.DoneMeansImageWritten state what its writes met. |
| ImageWriteStream.WriteStreamOutcomes | lib/image-write-stream.js:93-132 | A whole stream issues at most one write per chunk, and it emits `done` exactly when every write it issued wrote its whole chunk. An `error` is the failure of the last write issued. |
| ImageReadStream.ReadStream | lib/image-read-stream.js:51-64 | The stream pushes buffers while reads return data, and the position equals the bytes pushed. It stops for good at end of device or at the first read error, which it reports. |
| ImageReadStream.ReadsAtRunningOffset | lib/image-read-stream.js:52-60 | Each read is issued at the total length of the buffers pushed before it. |
| ImageReadStream.TilesArePrefix | lib/image-read-stream.js:59-63 | Buffers that each sit right after the ones before them form, laid end to end, a prefix of the device. |
| ImageReadStream.ReadBackIsDevice | lib/image-read-stream.js:51-64 | Against a device holding `dev`, what the stream pushes is a prefix of `dev`, and all of `dev` once the stream ends. |
| ImageReadStream.DeviceAnswer | lib/image-read-stream.js:54 | A truthful device answers with at most `size` bytes from the read position, and with end of device exactly at or past its end. |
| ImageReadStream.ReadWholeDevice | lib/image-read-stream.js:51-64 | Reading a truthful device to the end pushes non-empty buffers no larger than the read size. They reproduce the device exactly, each read at its running offset. The device's answers, fed to ImageReadStream.ReadStream, give the same reads, the same buffers and an ended stream. |
| ChecksumStream.GetHashStream | lib/checksum-stream.js:17-22 | `crc32` always gets its own stream. Any other name gets a crypto hash of that name, or the crypto module's error. |
| ChecksumStream.CreateHash | lib/checksum-stream.js:72-77 | Hash creation fails exactly when the lookup fails. The error keeps its code and gets ` "<algorithm>"` appended to its message. |
| ChecksumStream.CreateHashes | lib/checksum-stream.js:58 | All hashes are created, in order, or the error of the first algorithm whose hash cannot be created is thrown. |
| ChecksumStream.New | lib/checksum-stream.js:54-59 | A missing algorithm list means none. A stream is built exactly when every hash can be created, with one hash per algorithm. |
| ChecksumStream.ResultsAfter | lib/checksum-stream.js:89-99 | Once some hashes have ended, the results hold exactly their names, each mapped to its digest of all the data. |
| ChecksumStream.ResultsCount | lib/checksum-stream.js:79-83 | The results have as many keys as hashes ended exactly when the ended names are pairwise distinct. |
| ChecksumStream.NoEarlyEmission | lib/checksum-stream.js:79-83 | Nothing is emitted while fewer hashes than algorithms have ended. |
| ChecksumStream.AllEndedResults | lib/checksum-stream.js:79-99 | Once every hash has ended, the results map each algorithm to its digest, and hold nothing else. |
| ChecksumStream.EmissionsOnceEnded | lib/checksum-stream.js:79-83 | With every hash ended, exactly one `result` is emitted if the names are distinct. A repeated name means none is emitted. |
| ChecksumStream.Flush | lib/checksum-stream.js:125-141 | Flushing emits a single `result` mapping every algorithm to its digest (the empty map for no algorithms), and finishes. A repeated algorithm means nothing is emitted and the flush never finishes. |
| ChecksumStream.Process | lib/checksum-stream.js:115-118 | The stream passes its input through unchanged and hashes all of it. |
| ChecksumStream.ResultIndependentOfOrder | lib/checksum-stream.js:125-141 | The flush outcome is the same whatever order the hashes end in. |
| Checksum.Sliced | lib/checksum.js:64-66 | The slice passes on the first `min(imageSize, bytes read)` bytes of what was read. |
| Checksum.CalculateDeviceChecksum | lib/checksum.js:51-90 | A checksum-stream construction error rejects. Otherwise the result resolves exactly when the slice is full or the device ended and the algorithms are distinct. It rejects exactly on an earlier read error. The value maps each algorithm to its digest of the sliced bytes. |
| Checksum.SlicedIsDevicePrefix | lib/checksum.js:59-66 | Against a truthful device, the bytes hashed are the device's first `min(imageSize, size)` bytes. |
| Checksum.ChecksumOfDevicePrefix | lib/checksum.js:51-90 | A resolved device checksum is the digest map of the device's prefix of the image's size. |
| Checksum.BytesPastImageIrrelevant | lib/checksum.js:59-63 | Two devices that agree on the image's bytes get the same checksum, whatever lies after them. |
| Checksum.NoAlgorithmsEmptyResult | lib/checksum.js:73-75 | Without an algorithm list the device checksum is the empty object. |
| Validate.UsingBmap | lib/validate.js:50-63 | Bmap validation resolves with no source checksum exactly when the validator finds no invalid range. Any invalid range is EVALIDATION, and a validator error is passed on. |
| Validate.Mock | lib/validate.js:131-135 | Skipped validation resolves with the image checksum it was given. |
| Validate.UsingChecksum | lib/validate.js:92-106 | With the algorithms forwarded and checksums compared by value, validation resolves with the image checksum exactly when the device checksum equals it. A different device checksum rejects with EVALIDATION, and a failed read-back rejects with its error. |
| Validate.UsingChecksumAsWritten | lib/validate.js:92-106 | As written, no algorithms are forwarded, and the image checksum is compared by identity with a newly built object. |
| Validate.AsWrittenDigestsNothing | lib/validate.js:93-97 | As written, the device checksum that gets compared is always the empty object. |
| Validate.MatchingDeviceRejected | lib/validate.js:98-100 | The device holds exactly the image, and the image checksum is its crc32 digest. The as-written strategy rejects with EVALIDATION anyway, and the corrected one resolves. |
| Validate.AsWrittenNeverValidates | lib/validate.js:98-100 | As written, checksum validation never resolves, whatever the device holds. |
| Validate.InferFromOptions | lib/validate.js:157-176 | Omitted validation is mocked. Otherwise non-empty bmap contents choose bmap validation, and anything else chooses checksum validation. |
| Validate.ChecksumValidationSound | lib/validate.js:157-176 | A checksum validation that resolves means the image checksum equals the digests of the device's first `imageSize` bytes. |
| Validate.ChecksumValidationComplete | tests/e2e.js:48-67 | With creatable, distinct algorithm names, a device whose first `imageSize` bytes have the image's digests, read back to the end, validates and resolves with the image checksum. |
| Patterns.DigitRun | lib/utils.js:35 | The digit run is all digits and maximal: the character after it is not a digit. |
| Patterns.FirstMatchFrom | lib/utils.js:35 | The pattern matches at the index found and at no earlier index, or it matches nowhere. |
| Patterns.CaptureDigits | lib/win32.js:53 | Nothing is captured exactly when the pattern occurs nowhere. Otherwise the capture is the maximal non-empty digit run after the leftmost occurrence of the literal. |
| Utils.GetRawDevice | lib/utils.js:34-42 | A name without `/dev/disk<digits>` is returned unchanged. Otherwise the result is `/dev/rdisk` followed by the digits of the leftmost occurrence. |
| Utils.RawNameHasNoDisk | lib/utils.js:35-41 | A raw disk name never contains `/dev/disk<digits>`. |
| Utils.GetRawDeviceIdempotent | lib/utils.js:34-42 | Mapping a device name twice gives the same result as mapping it once. |
| Utils.GetRawDeviceChangesIff | lib/utils.js:34-42 | The name changes exactly when it contains `/dev/disk<digits>`. |
| Utils.GetRawDeviceExamples | tests/utils.spec.js:26-36 | `/dev/disk2` becomes `/dev/rdisk2`. `/dev/sda1` and `\\.\PHYSICALDRIVE1` are unchanged. |
| Windows.DriveId | lib/win32.js:53 | A drive number is found exactly when `PHYSICALDRIVE<digits>` occurs in any letter case. It is a non-empty string of digits. |
| Windows.CleanFailure | lib/win32.js:70-72 | The error after the last failed try reads "Couldn't clean the drive, <message> (code <code>)". |
| Windows.RetryFrom | lib/win32.js:56-66 | The script runs until a try succeeds or five tries were made. Every try before the last failed. The run succeeds exactly when its last try does. A failure reports the fifth try's error. |
| Windows.Prepare | lib/win32.js:51-75 | Off Windows or without a drive number, nothing runs and prepare succeeds. Otherwise `select disk <n>`, `clean`, `rescan` is retried up to five times, as in RetryFrom. |
| Windows.PrepareSucceedsIff | lib/win32.js:56-66 | On Windows with a drive number, prepare succeeds exactly when one of the first five tries succeeds. |
| Windows.PrepareFailureMessage | tests/win32.spec.js:32-50 | When diskpart always fails with `diskpart failure` and code EPERM, preparing `\\.\PHYSICALDRIVE2` fails with "Couldn't clean the drive, diskpart failure (code EPERM)". |
| Windows.TestDriveId | tests/win32.spec.js:46 | The drive number of `\\.\PHYSICALDRIVE2` is `2`. |
| Windows.Rescan | lib/win32.js:89-93 | On Windows a single `rescan` script runs and its outcome is reported. Elsewhere nothing runs and rescan succeeds. |
| ImageWrite.ValidSizeIff | lib/index.js:121-127 | A size passes the check exactly when it is a non-zero number or an infinity, negative numbers included. |
| ImageWrite.CheckSizes | lib/index.js:121-127 | The image size is checked first, then the drive size. Each failure names the offending value in its message. |
| ImageWrite.Write | lib/index.js:116-171 | A size error throws, and nothing else does. Otherwise the steps that completed are a prefix of prepare, write, validate, rescan. `done` means all four completed, and an `error` event means fewer did. No diskpart script runs off Windows. |
| ImageWrite.InvalidImageSizeThrows | lib/index.js:121-123 | An invalid image size throws "Invalid image size: <value>" before anything runs, whatever the drive size. |
| ImageWrite.ValidationOptions | lib/index.js:152-157 | Validation is skipped exactly when `check` is off, and bmap validation is chosen exactly when bmap contents were given. The checksum branch compares the bytes transferred against the write's source checksum. |
| ImageWrite.UncheckedDoneEchoesChecksum | lib/index.js:152-165 | Without `check`, a flash whose steps all succeed emits `done` with the source checksum of the write. |
| ImageWrite.CheckedDoneMeansDeviceMatches | lib/index.js:152-165 | A checked flash validated by checksum emits `done` only if the device's first written bytes have the write's source checksum as their digests. |
| ImageWrite.RescanFailureIsError | lib/index.js:163-168 | On Windows a failed rescan turns a validated flash into an `error` event, never `done`. |
| ImageWrite.TagProgress | lib/index.js:145-149 | A progress event gets its phase as its type, and its percentage is untouched. A number `eta` (NaN included) is kept, and anything else becomes -1. |
| ImageWrite.TagProgressIdempotent | lib/index.js:158-162 | Tagging an event twice with the same phase is the same as tagging it once. |
| ImageWrite.PhasesDistinguishable | lib/index.js:145-162 | Write progress is typed "write" and validation progress "check", so no event of one phase can be mistaken for one of the other. |
| ImageWrite.RetagLastWins | lib/index.js:145-162 | Tagging an already tagged event only replaces its phase; the eta and percentage stay as the first tag left them. |
| Decimal.ShowRoundTrip | lib/filesystem.js:85 | Reading back a number rendered in decimal gives the number. |
| Decimal.ShowInjective | lib/filesystem.js:85 | Different numbers render differently, so the byte counts in a short-write message are never ambiguous. |

## Left out

- Stream plumbing, backpressure and Node's event-loop ordering. Streams are folds over their chunks, and promises are `Settled` values. The order in which the hash streams end is an explicit input (`EndingOrder`).
- Timers. The retry delays are recorded as values, but nothing waits. bluebird-retry's interval between diskpart tries is not modelled, and neither are the two seconds after each diskpart run.
- The hash algorithms. A digest is an uninterpreted `digest(name, data)`. Runtime `error` events of a hash stream are not modelled.
- `lib/write.js`, `bmapflash`, the `progress-stream` rate and `slice-stream` internals are not part of this model. The write's outcome and the bmap validator's verdict are inputs, and the slice is modelled by what it lets through.
- `readChunk` of `lib/filesystem.js` is not part of this model, beyond the reported-code table its tests assert. `lib/errors.js` is not part of this model either: the validation error is modelled by its code `EVALIDATION` alone, with an empty message.
- Classification.Classify: this revision of `lib/filesystem.js` contains only the `writeChunk` retry loop. The code table is the one `tests/filesystem.spec.js` asserts, modelled as a separate layer on the loop's final error.
- Checksum.CalculateDeviceChecksum: a read error that arrives after the slice has already let its quota through is ignored. In the source, which event wins that race depends on event-loop ordering.
- ImageWrite.ValidSize: sizes are modelled as a small JavaScript value type. Arrays, functions and non-plain objects are collapsed into `PlainObject`, and `String(v)` is given only for the values the model has.
- ImageWrite.Write: `lib/index.js` reads only `check` and `bmap` for validation (lines 152-157), and nothing in `lib/index.js`, `lib/write.js` or `lib/validate.js` reads `checksumAlgorithms`; only `lib/checksum.js:74` does. The model forwards `options.checksumAlgorithms` to validation and validates by value. That is the corrected behaviour of "## Findings", not the code as written: as written, a checked flash validated by checksum never emits `done` (Validate.AsWrittenNeverValidates). The remaining options (`transform`, `bytesToZeroOutFromTheBeginning`) only affect `lib/write.js`, which is an input here. The progress events themselves are not part of the emitted trace.
- Validate.InferFromOptions: its checksum branch calls the corrected Validate.UsingChecksum with the algorithms in `checksumAlgorithms`. `lib/validate.js:171-175` forwards neither the algorithms nor a value comparison; the as-written behaviour is Validate.UsingChecksumAsWritten.
- ImageWrite.ValidationOptions: passes `options.checksumAlgorithms` on to validation, which `lib/index.js:152-157` does not. This is the corrected behaviour of "## Findings"; as written, the list never reaches `lib/validate.js`.
- ImageWriteStream.OnChunk: models the local single-try `writeChunk` of `lib/image-write-stream.js` (lines 60-72), not the retrying one of `lib/filesystem.js`, because that is the one the sink calls.
- `bin/`, `build/` (transpiled copies of `lib/`), `samples/` and `example.js` are outside the core.

## Findings

| source | as written | input that shows it | evidently intended | confidence | as-written member | corrected member |
|---|---|---|---|---|---|---|
| lib/validate.js:92-97 | `usingChecksum` calls `calculateDeviceChecksum` without `checksumAlgorithms`. The checksum stream then has no algorithms, and the device checksum is always `{}`. `lib/index.js:152-162` does not pass the algorithms to validation either. | Any checked flash validated by checksum, e.g. `checksumAlgorithms: ['crc32']`. | The algorithms chosen for the write are hashed again on the device, as `tests/e2e.js:48-67` expects a three-algorithm `sourceChecksum` from a checked flash. | medium, not executed | Validate.AsWrittenDigestsNothing | Validate.UsingChecksum |
| lib/validate.js:98 | The image checksum is compared with `!==` against the object `checksum-stream.js:81` builds with `Object.assign({}, …)`. A new object is never identical to an existing one, so validation always fails. | Image `[1, 2, 3]` on a device holding exactly those bytes, with image checksum `{crc32: digest}`: rejected with EVALIDATION. | Deep equality of the two digest maps. | medium, not executed | Validate.MatchingDeviceRejected | Validate.UsingChecksum |
