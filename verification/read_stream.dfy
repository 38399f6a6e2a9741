/**
 `ImageReadStream` of `lib/image-read-stream.js`: each `read` asks for a
 chunk at the current stream position, advances the position by the length
 of the buffer it gets, and pushes that buffer; a null buffer (end of
 device) is pushed to end the stream without moving the position, and an
 error is emitted without pushing anything. `readChunk` itself is not part
 of this model: the answers to the reads, in order, are an input.
 */
module ImageReadStream {
  import opened Base
  import opened Position
  import opened Filesystem

  datatype ReadEnd = Ended | ReadError(error: Error) | Open

  /**
   Where each read was issued, the buffers pushed downstream, how the stream
   ended (`Open` when every answer was a buffer), and its position counter.
   */
  datatype ReadTrace = ReadTrace(positions: seq<int>, pushed: seq<seq<Byte>>, end: ReadEnd, position: Counter)

  /** The stream after the reads answered by `answers`; answers after its end are never asked for. */
  function ReadStream(answers: seq<ReadOutcome>): (t: ReadTrace)
    ensures |t.pushed| <= |answers|
    ensures |t.positions| == |t.pushed| + (if t.end.Open? then 0 else 1)
    ensures forall i :: 0 <= i < |t.pushed| ==> answers[i] == Data(t.pushed[i])
    ensures Get(t.position) == TotalLength(t.pushed)
    ensures t.end.Open? ==> |t.pushed| == |answers|
    ensures t.end.Ended? ==> |t.pushed| < |answers| && answers[|t.pushed|] == EndOfDevice
    ensures t.end.ReadError? ==> |t.pushed| < |answers| && answers[|t.pushed|] == ReadFailed(t.end.error)
    decreases |answers|
  {
    if |answers| == 0 then ReadTrace([], [], Open, Fresh())
    else
      var t := ReadStream(answers[..|answers| - 1]);
      if !t.end.Open? then t
      else
        var at := Get(t.position);
        match answers[|answers| - 1]
        case ReadFailed(e) => ReadTrace(t.positions + [at], t.pushed, ReadError(e), t.position)
        case EndOfDevice => ReadTrace(t.positions + [at], t.pushed, Ended, t.position)
        case Data(b) =>
          ReadTrace(t.positions + [at], t.pushed + [b], Open, Increment(t.position, |b|))
  }

  /** Each read was issued at the total length of the buffers pushed before it. */
  predicate AtRunningOffsets(t: ReadTrace)
    requires |t.positions| <= |t.pushed| + 1
  {
    forall i :: 0 <= i < |t.positions| ==> t.positions[i] == TotalLength(t.pushed[..i])
  }

  /** One more answer: a stream still open issues one more read at its position, and pushes at most one more buffer. */
  lemma ReadStreamStep(answers: seq<ReadOutcome>)
    requires |answers| > 0
    ensures var t0 := ReadStream(answers[..|answers| - 1]);
            var t := ReadStream(answers);
            && (!t0.end.Open? ==> t == t0)
            && (t0.end.Open? ==> t.positions == t0.positions + [TotalLength(t0.pushed)])
            && (t0.end.Open? ==> |t0.pushed| <= |t.pushed| <= |t0.pushed| + 1 && t.pushed[..|t0.pushed|] == t0.pushed)
  {
  }

  lemma {:induction false} ReadsAtRunningOffset(answers: seq<ReadOutcome>)
    ensures AtRunningOffsets(ReadStream(answers))
    decreases |answers|
  {
    if |answers| > 0 {
      var before := answers[..|answers| - 1];
      ReadsAtRunningOffset(before);
      ReadStreamStep(answers);
      var t0 := ReadStream(before);
      var t := ReadStream(answers);
      if t0.end.Open? {
        RunningOffsetsExtend(t0.positions, t0.pushed, t.positions, t.pushed);
      }
    }
  }

  /** One more read at the running offset, with at most one more buffer, keeps every read at its running offset. */
  lemma RunningOffsetsExtend(positions0: seq<int>, pushed0: seq<seq<Byte>>, positions: seq<int>, pushed: seq<seq<Byte>>)
    requires |positions0| == |pushed0|
    requires forall i :: 0 <= i < |positions0| ==> positions0[i] == TotalLength(pushed0[..i])
    requires positions == positions0 + [TotalLength(pushed0)]
    requires |pushed0| <= |pushed| <= |pushed0| + 1 && pushed[..|pushed0|] == pushed0
    ensures forall i :: 0 <= i < |positions| ==> positions[i] == TotalLength(pushed[..i])
  {
    var k := |pushed0|;
    forall i | 0 <= i < |positions|
      ensures positions[i] == TotalLength(pushed[..i])
    {
      TakeOfExtended(pushed0, pushed, i);
      if i < k {
        assert positions[i] == positions0[i];
      } else {
        assert pushed0[..k] == pushed0;
      }
    }
  }

  /** Extending a sequence of chunks leaves its prefixes as they were. */
  lemma TakeOfExtended(s: seq<seq<Byte>>, t: seq<seq<Byte>>, i: nat)
    requires |s| <= |t| && t[..|s|] == s && i <= |s|
    ensures t[..i] == s[..i]
  {
    assert t[..i] == t[..|s|][..i];
  }

  /** A device holding `dev` gave answer `o` to a read at `position`. */
  predicate Answers(dev: seq<Byte>, position: int, o: ReadOutcome) {
    match o
    case Data(b) => 0 <= position && position + |b| <= |dev| && dev[position..position + |b|] == b
    case EndOfDevice => position >= |dev|
    case ReadFailed(_) => true
  }

  /** Every read the stream issued was answered by a device holding `dev`. */
  predicate AnsweredBy(dev: seq<Byte>, answers: seq<ReadOutcome>) {
    var t := ReadStream(answers);
    forall i :: 0 <= i < |t.positions| ==> Answers(dev, t.positions[i], answers[i])
  }

  /** Chunk `i` sits in `dev` right after the chunks before it. */
  predicate TileAt(dev: seq<Byte>, chunks: seq<seq<Byte>>, i: nat)
    requires i < |chunks|
  {
    var at := TotalLength(chunks[..i]);
    at + |chunks[i]| <= |dev| && dev[at..at + |chunks[i]|] == chunks[i]
  }

  /** Every chunk sits in `dev` right after the chunks before it. */
  predicate Tiles(dev: seq<Byte>, chunks: seq<seq<Byte>>) {
    forall i :: 0 <= i < |chunks| ==> TileAt(dev, chunks, i)
  }

  lemma TilesPrefix(dev: seq<Byte>, chunks: seq<seq<Byte>>, n: nat)
    requires n <= |chunks| && Tiles(dev, chunks)
    ensures Tiles(dev, chunks[..n])
  {
    forall i | 0 <= i < n
      ensures TileAt(dev, chunks[..n], i)
    {
      assert chunks[..n][..i] == chunks[..i];
      assert TileAt(dev, chunks, i);
    }
  }

  /** Chunks that tile `dev` from offset 0 are, laid end to end, a prefix of it. */
  lemma {:induction false} TilesArePrefix(dev: seq<Byte>, chunks: seq<seq<Byte>>)
    requires Tiles(dev, chunks)
    ensures TotalLength(chunks) <= |dev| && Concat(chunks) == dev[..TotalLength(chunks)]
    decreases |chunks|
  {
    if |chunks| > 0 {
      var n := |chunks| - 1;
      TilesPrefix(dev, chunks, n);
      TilesArePrefix(dev, chunks[..n]);
      var p := TotalLength(chunks[..n]);
      var b := chunks[n];
      assert TileAt(dev, chunks, n);
      assert dev[..p + |b|] == dev[..p] + dev[p..p + |b|];
    }
  }

  /**
   Reading back a device from offset 0 until it reports its end yields the
   device's bytes, in order; before the end, what was pushed is a prefix of
   them.
   */
  lemma ReadBackIsDevice(dev: seq<Byte>, answers: seq<ReadOutcome>)
    requires AnsweredBy(dev, answers)
    ensures var t := ReadStream(answers);
            |Concat(t.pushed)| <= |dev| && Concat(t.pushed) == dev[..|Concat(t.pushed)|]
    ensures ReadStream(answers).end.Ended? ==> Concat(ReadStream(answers).pushed) == dev
  {
    var t := ReadStream(answers);
    ReadsAtRunningOffset(answers);
    AnsweredBuffersTile(dev, answers, t.positions, t.pushed);
    TilesArePrefix(dev, t.pushed);
    ConcatLength(t.pushed);
    if t.end.Ended? {
      var k := |t.pushed|;
      assert t.pushed[..k] == t.pushed;
      assert Answers(dev, t.positions[k], answers[k]);
    }
  }

  /** Buffers a device answered to reads at their running offsets tile the device. */
  lemma AnsweredBuffersTile(dev: seq<Byte>, answers: seq<ReadOutcome>, positions: seq<int>, pushed: seq<seq<Byte>>)
    requires |pushed| <= |positions| <= |pushed| + 1 && |positions| <= |answers|
    requires forall i :: 0 <= i < |pushed| ==> answers[i] == Data(pushed[i])
    requires forall i :: 0 <= i < |positions| ==> positions[i] == TotalLength(pushed[..i])
    requires forall i :: 0 <= i < |positions| ==> Answers(dev, positions[i], answers[i])
    ensures Tiles(dev, pushed)
  {
    forall i | 0 <= i < |pushed|
      ensures TileAt(dev, pushed, i)
    {
      assert Answers(dev, positions[i], answers[i]);
    }
  }

  /** The answer a device holding `dev` gives to a read of up to `size` bytes at `position`. */
  function DeviceAnswer(dev: seq<Byte>, size: nat, position: nat): (o: ReadOutcome)
    requires size > 0
    ensures Answers(dev, position, o)
    ensures !o.ReadFailed?
    ensures o.EndOfDevice? <==> position >= |dev|
    ensures o.Data? ==> 0 < |o.buffer| <= size
  {
    if position >= |dev| then EndOfDevice
    else Data(dev[position..if position + size < |dev| then position + size else |dev|])
  }

  /** A stream still open takes one more answer: one more read at its position, and the buffer, if any, pushed. */
  lemma ReadStreamSnoc(answers: seq<ReadOutcome>, o: ReadOutcome)
    requires ReadStream(answers).end.Open?
    ensures var t := ReadStream(answers);
            var t1 := ReadStream(answers + [o]);
            && t1.positions == t.positions + [TotalLength(t.pushed)]
            && (o.Data? ==> t1.pushed == t.pushed + [o.buffer] && t1.end.Open?)
            && (o.EndOfDevice? ==> t1.pushed == t.pushed && t1.end.Ended?)
  {
    assert (answers + [o])[..|answers|] == answers;
  }

  /** The stream driven by `answers` issued its reads at `positions`, pushed `pushed`, and has ended exactly when `ended`. */
  predicate Replays(answers: seq<ReadOutcome>, positions: seq<nat>, pushed: seq<seq<Byte>>, ended: bool) {
    var t := ReadStream(answers);
    t.positions == positions && t.pushed == pushed && t.end == (if ended then Ended else Open)
  }

  /** Each of `answers` is what a device holding `dev` answers to a read of up to `size` bytes at the matching position. */
  predicate DeviceAnswered(dev: seq<Byte>, size: nat, answers: seq<ReadOutcome>, positions: seq<nat>)
    requires size > 0
  {
    |answers| == |positions| && forall i :: 0 <= i < |answers| ==> answers[i] == DeviceAnswer(dev, size, positions[i])
  }

  lemma DeviceAnsweredStep(dev: seq<Byte>, size: nat, answers: seq<ReadOutcome>, positions: seq<nat>, at: nat)
    requires size > 0 && DeviceAnswered(dev, size, answers, positions)
    ensures DeviceAnswered(dev, size, answers + [DeviceAnswer(dev, size, at)], positions + [at])
  {
  }

  /** One more answer that is not an error replays as one more read at the running offset. */
  lemma ReplaysStep(answers: seq<ReadOutcome>, positions: seq<nat>, pushed: seq<seq<Byte>>, o: ReadOutcome)
    requires Replays(answers, positions, pushed, false) && !o.ReadFailed?
    ensures Replays(answers + [o], positions + [TotalLength(pushed)], if o.Data? then pushed + [o.buffer] else pushed, o.EndOfDevice?)
  {
    ReadStreamSnoc(answers, o);
  }

  /**
   The `read` handler driven by a device that answers every read in full up
   to `size` bytes: the buffers pushed, where each read was issued, and the
   device's answers, which the stream model turns into the same trace.
   */
  method ReadWholeDevice(dev: seq<Byte>, size: nat) returns (pushed: seq<seq<Byte>>, positions: seq<nat>, answers: seq<ReadOutcome>)
    requires size > 0
    ensures Concat(pushed) == dev
    ensures |positions| == |pushed| + 1
    ensures forall i :: 0 <= i < |positions| ==> positions[i] == TotalLength(pushed[..i])
    ensures forall i :: 0 <= i < |pushed| ==> 0 < |pushed[i]| <= size
    ensures DeviceAnswered(dev, size, answers, positions)
    ensures Replays(answers, positions, pushed, true)
  {
    var position := Fresh();
    pushed := [];
    positions := [];
    answers := [];
    var done := false;
    while !done
      invariant 0 <= Get(position) <= |dev|
      invariant Get(position) == TotalLength(pushed)
      invariant done ==> Get(position) == |dev|
      invariant DeviceAnswered(dev, size, answers, positions)
      invariant Replays(answers, positions, pushed, done)
      decreases |dev| - Get(position), if done then 0 else 1
    {
      var at: nat := Get(position);
      var answer := DeviceAnswer(dev, size, at);
      ReplaysStep(answers, positions, pushed, answer);
      DeviceAnsweredStep(dev, size, answers, positions, at);
      positions := positions + [at];
      answers := answers + [answer];
      if answer.Data? {
        pushed := pushed + [answer.buffer];
        position := Increment(position, |answer.buffer|);
      } else {
        done := true;
      }
    }
    DeviceReplayFacts(dev, size, answers, positions, pushed);
  }

  /** What reading a device through the stream model gives: its bytes, in buffers of at most `size`, read at their running offsets. */
  lemma DeviceReplayFacts(dev: seq<Byte>, size: nat, answers: seq<ReadOutcome>, positions: seq<nat>, pushed: seq<seq<Byte>>)
    requires size > 0
    requires DeviceAnswered(dev, size, answers, positions)
    requires Replays(answers, positions, pushed, true)
    ensures Concat(pushed) == dev
    ensures |positions| == |pushed| + 1
    ensures forall i :: 0 <= i < |positions| ==> positions[i] == TotalLength(pushed[..i])
    ensures forall i :: 0 <= i < |pushed| ==> 0 < |pushed[i]| <= size
  {
    var t := ReadStream(answers);
    ReadsAtRunningOffset(answers);
    assert AnsweredBy(dev, answers) by {
      forall i | 0 <= i < |t.positions|
        ensures Answers(dev, t.positions[i], answers[i])
      {
        assert answers[i] == DeviceAnswer(dev, size, positions[i]);
      }
    }
    ReadBackIsDevice(dev, answers);
    forall i | 0 <= i < |pushed|
      ensures 0 < |pushed[i]| <= size
    {
      assert answers[i] == Data(pushed[i]);
      assert answers[i] == DeviceAnswer(dev, size, positions[i]);
    }
  }
}
