/**
 `calculateDeviceChecksum` of `lib/checksum.js`: the device is read back from
 offset 0 by an image read stream, cut to the first `imageSize` bytes by a
 slice, and passed through a checksum stream; the promise resolves with the
 first `result` the checksum stream emits and rejects with the first error
 of the read stream or of the checksum stream's construction. Progress
 reporting is not modelled.
 */
module Checksum {
  import opened Base
  import opened Filesystem
  import opened ImageReadStream
  import opened ChecksumStream

  /** The least of two lengths. */
  function Min(a: nat, b: nat): (m: nat)
    ensures m <= a && m <= b && (m == a || m == b)
  {
    if a <= b then a else b
  }

  /** Whether the slice has let its whole quota through or the device ended before that. */
  predicate SliceEnded(t: ReadTrace, imageSize: nat) {
    |Concat(t.pushed)| >= imageSize || t.end.Ended?
  }

  /** The bytes the slice passes on: at most `imageSize` of them, from the start of what was read. */
  function Sliced(t: ReadTrace, imageSize: nat): (data: seq<Byte>)
    ensures |data| == Min(imageSize, |Concat(t.pushed)|)
    ensures data == Concat(t.pushed)[..|data|]
  {
    Concat(t.pushed)[..Min(imageSize, |Concat(t.pushed)|)]
  }

  /**
   The promise's state once the reads answered by `answers` are done and the
   hashes have ended in `order`. A read error that arrives after the slice
   already let `imageSize` bytes through is not seen by the promise.
   */
  function CalculateDeviceChecksum(answers: seq<ReadOutcome>, imageSize: nat, algorithms: Option<seq<string>>,
                                   unsupported: string -> Option<Error>, digest: (string, seq<Byte>) -> string,
                                   order: seq<nat>): (r: Settled<map<string, string>>)
    requires EndingOrder(order, |algorithms.GetOr([])|)
    ensures New(algorithms, unsupported).Err? ==> r == Rejected(New(algorithms, unsupported).error)
    ensures New(algorithms, unsupported).Ok? ==>
              var t := ReadStream(answers);
              && (r.Resolved? <==> SliceEnded(t, imageSize) && Distinct(algorithms.GetOr([])))
              && (r.Rejected? <==> !SliceEnded(t, imageSize) && t.end.ReadError?)
              && (r.Rejected? ==> r.error == t.end.error)
              && (r.Resolved? ==> r.value == AllDigests(algorithms.GetOr([]), Sliced(t, imageSize), digest))
  {
    match New(algorithms, unsupported)
    case Err(e) => Rejected(e)
    case Ok(c) =>
      var t := ReadStream(answers);
      if SliceEnded(t, imageSize) then
        var run := Flush(c, Sliced(t, imageSize), digest, order);
        if run.finished then Resolved(run.emitted[0]) else Pending
      else if t.end.ReadError? then Rejected(t.end.error)
      else Pending
  }

  /**
   On a device that answered every read truthfully, a resolved checksum is
   the digest of the device's first `imageSize` bytes (all of them when the
   device is smaller).
   */
  lemma ChecksumOfDevicePrefix(dev: seq<Byte>, answers: seq<ReadOutcome>, imageSize: nat, algorithms: Option<seq<string>>,
                               unsupported: string -> Option<Error>, digest: (string, seq<Byte>) -> string, order: seq<nat>)
    requires EndingOrder(order, |algorithms.GetOr([])|)
    requires AnsweredBy(dev, answers)
    requires CalculateDeviceChecksum(answers, imageSize, algorithms, unsupported, digest, order).Resolved?
    ensures CalculateDeviceChecksum(answers, imageSize, algorithms, unsupported, digest, order).value
            == AllDigests(algorithms.GetOr([]), dev[..Min(imageSize, |dev|)], digest)
  {
    SlicedIsDevicePrefix(dev, answers, imageSize);
  }

  lemma SlicedIsDevicePrefix(dev: seq<Byte>, answers: seq<ReadOutcome>, imageSize: nat)
    requires AnsweredBy(dev, answers)
    requires SliceEnded(ReadStream(answers), imageSize)
    ensures Sliced(ReadStream(answers), imageSize) == dev[..Min(imageSize, |dev|)]
  {
    var t := ReadStream(answers);
    ReadBackIsDevice(dev, answers);
    var data := Concat(t.pushed);
    if |data| >= imageSize {
      assert data[..imageSize] == dev[..imageSize];
    } else {
      assert data == dev;
    }
  }

  /**
   Bytes past the image size do not change the checksum: two devices that
   agree on their first `imageSize` bytes, each answering truthfully, give
   the same resolved checksum.
   */
  lemma BytesPastImageIrrelevant(dev1: seq<Byte>, answers1: seq<ReadOutcome>, dev2: seq<Byte>, answers2: seq<ReadOutcome>,
                                 imageSize: nat, algorithms: Option<seq<string>>, unsupported: string -> Option<Error>,
                                 digest: (string, seq<Byte>) -> string, order: seq<nat>)
    requires EndingOrder(order, |algorithms.GetOr([])|)
    requires AnsweredBy(dev1, answers1) && AnsweredBy(dev2, answers2)
    requires imageSize <= |dev1| && imageSize <= |dev2| && dev1[..imageSize] == dev2[..imageSize]
    requires CalculateDeviceChecksum(answers1, imageSize, algorithms, unsupported, digest, order).Resolved?
    requires CalculateDeviceChecksum(answers2, imageSize, algorithms, unsupported, digest, order).Resolved?
    ensures CalculateDeviceChecksum(answers1, imageSize, algorithms, unsupported, digest, order)
            == CalculateDeviceChecksum(answers2, imageSize, algorithms, unsupported, digest, order)
  {
    ChecksumOfDevicePrefix(dev1, answers1, imageSize, algorithms, unsupported, digest, order);
    ChecksumOfDevicePrefix(dev2, answers2, imageSize, algorithms, unsupported, digest, order);
  }

  /** With no algorithm list the checksum stream has nothing to hash: the result is the empty object. */
  lemma NoAlgorithmsEmptyResult(answers: seq<ReadOutcome>, imageSize: nat, unsupported: string -> Option<Error>,
                                digest: (string, seq<Byte>) -> string)
    requires SliceEnded(ReadStream(answers), imageSize)
    ensures CalculateDeviceChecksum(answers, imageSize, None, unsupported, digest, []) == Resolved(map[])
  {
    var r := CalculateDeviceChecksum(answers, imageSize, None, unsupported, digest, []);
    assert r.value.Keys == {};
  }
}
